/** The keyword tagging engine of utils/chatprocessor.py as functions on the
    chat table's label columns: which labels exist, which rules a label has,
    when a rule matches a message, and what each tagging pass does to the
    columns. The in-place methods of `ChatProcessing` are proved to compute
    exactly these functions. */
module Tagging {
  import opened Wrappers
  import opened Seqs
  import opened Text
  import opened KeywordRules

  /** A cell of a label column: an integer flag while tagging, text once a
      sentiment (or "") has been written. */
  datatype Cell = Int(v: int) | Str(s: string)

  /** The label columns of the chat table, by label. */
  type Columns = map<string, seq<Cell>>

  /** Every column has one cell per message. */
  predicate Fits(cols: Columns, n: nat) {
    forall h :: h in cols ==> |cols[h]| == n
  }

  predicate Has(cols: Columns, hs: seq<string>) {
    forall h :: h in hs ==> h in cols
  }

  predicate Numeric(col: seq<Cell>) {
    forall i :: 0 <= i < |col| ==> col[i].Int?
  }

  /** The listed columns exist and hold integer flags only. */
  predicate FlagColumns(cols: Columns, hs: seq<string>) {
    forall h :: h in hs ==> h in cols && Numeric(cols[h])
  }

  // ---------------------------------------------------------------------
  // Labels

  function HeadersOf(table: seq<KeywordRule>): seq<string> {
    seq(|table|, i requires 0 <= i < |table| => table[i].header)
  }

  /** `unique_headers`: the distinct labels of the table, in order of first
      appearance. */
  function UniqueHeaders(table: seq<KeywordRule>): (r: seq<string>)
    ensures NoDuplicates(r)
    ensures forall h :: h in r <==> exists i :: 0 <= i < |table| && table[i].header == h
  {
    var hs := HeadersOf(table);
    assert forall h :: h in hs <==> exists i :: 0 <= i < |table| && table[i].header == h by {
      forall h | h in hs ensures exists i :: 0 <= i < |table| && table[i].header == h {
        var i :| 0 <= i < |hs| && hs[i] == h;
      }
      forall h | exists i :: 0 <= i < |table| && table[i].header == h ensures h in hs {
        var i :| 0 <= i < |table| && table[i].header == h;
        assert hs[i] == h;
      }
    }
    Dedup(hs)
  }

  /** A label is generic when it contains the lower-case "generic". */
  predicate IsGeneric(h: string) {
    Contains(h, "generic")
  }

  predicate IsSpecific(h: string) {
    !IsGeneric(h)
  }

  /** `generic_headers` */
  function GenericHeaders(table: seq<KeywordRule>): seq<string> {
    Filter(UniqueHeaders(table), IsGeneric)
  }

  /** `non_generic_headers` */
  function NonGenericHeaders(table: seq<KeywordRule>): seq<string> {
    Filter(UniqueHeaders(table), IsSpecific)
  }

  /** The generic and specific labels split the distinct labels: each label is
      in exactly one of them, and neither list repeats a label. */
  lemma HeadersPartition(table: seq<KeywordRule>)
    ensures multiset(GenericHeaders(table)) + multiset(NonGenericHeaders(table)) == multiset(UniqueHeaders(table))
    ensures forall h :: h in GenericHeaders(table) <==> h in UniqueHeaders(table) && IsGeneric(h)
    ensures forall h :: h in NonGenericHeaders(table) <==> h in UniqueHeaders(table) && !IsGeneric(h)
    ensures NoDuplicates(GenericHeaders(table)) && NoDuplicates(NonGenericHeaders(table))
  {
    FilterPartition(UniqueHeaders(table), IsGeneric, IsSpecific);
    FilterNoDuplicates(UniqueHeaders(table), IsGeneric);
    FilterNoDuplicates(UniqueHeaders(table), IsSpecific);
  }

  /** `_get_keyword_rows_of_header`: the rules whose label is `header`. */
  function RulesOf(table: seq<KeywordRule>, header: string): (r: seq<KeywordRule>)
    ensures forall x :: x in r <==> x in table && x.header == header
  {
    Filter(table, (x: KeywordRule) => x.header == header)
  }

  /** Every label of the table has at least one rule. */
  lemma RulesOfLabel(table: seq<KeywordRule>, h: string)
    requires h in UniqueHeaders(table)
    ensures RulesOf(table, h) != []
  {
    var i :| 0 <= i < |table| && table[i].header == h;
    assert table[i] in RulesOf(table, h);
  }

  /** `g.replace("_generic", "")` */
  function BaseName(g: string): string {
    RemoveAll(g, "_generic")
  }

  /** The specific labels that contain the generic label's base name. */
  function Siblings(g: string, specifics: seq<string>): (r: seq<string>)
    ensures forall b :: b in r <==> b in specifics && Contains(b, BaseName(g))
  {
    Filter(specifics, (b: string) => Contains(b, BaseName(g)))
  }

  // ---------------------------------------------------------------------
  // Matching a message against a rule

  /** `str.contains(kw, case=False, na=False)` for a literal keyword. */
  predicate KeywordHit(body: Option<string>, kw: string) {
    body.Some? && ContainsCI(body.value, kw)
  }

  /** A regex that is a `"|"`-separated list of literal alternatives, such as
      the resolved required keyword or the joined escaped simple keywords. */
  predicate AnyHit(body: Option<string>, alternatives: seq<string>) {
    body.Some? && exists w :: w in alternatives && ContainsCI(body.value, w)
  }

  predicate RequiredHit(body: Option<string>, requiredKeyword: string) {
    AnyHit(body, Split(requiredKeyword, '|'))
  }

  /** A rule matches a message when the message is present, contains the
      keyword, and either the rule has no required keyword or the message
      contains one of its alternatives. */
  predicate RuleMatches(rule: KeywordRule, body: Option<string>) {
    KeywordHit(body, rule.keyword)
    && (rule.requiredKeyword == "" || RequiredHit(body, rule.requiredKeyword))
  }

  predicate AnyRuleMatches(rules: seq<KeywordRule>, body: Option<string>) {
    exists r :: r in rules && RuleMatches(r, body)
  }

  /** Read through the resolution of `required_product`, a rule with a
      non-empty resolved keyword matches exactly when the message contains the
      rule's keyword and one of the keywords of the named products. */
  lemma RuleMatchesResolved(rule: KeywordRule, table: seq<KeywordRule>, body: string)
    requires rule.requiredKeyword == RequiredKeyword(rule.requiredProduct, table)
    requires KeywordsOfProducts(RequiredProducts(rule.requiredProduct), table) != []
    requires rule.requiredKeyword != ""
    requires forall i :: 0 <= i < |table| ==> '|' !in table[i].keyword
    ensures RuleMatches(rule, Some(body)) <==>
      ContainsCI(body, rule.keyword)
      && exists i :: 0 <= i < |table| && table[i].product in RequiredProducts(rule.requiredProduct)
                     && ContainsCI(body, table[i].keyword)
  {
    var names := RequiredProducts(rule.requiredProduct);
    RequiredKeywordAlternatives(rule.requiredProduct, table);
    assert Split(rule.requiredKeyword, '|') == KeywordsOfProducts(names, table);
    if RuleMatches(rule, Some(body)) {
      var w :| w in KeywordsOfProducts(names, table) && ContainsCI(body, w);
      KeywordsOfProductsMembers(names, table, w);
    }
    if exists i :: 0 <= i < |table| && table[i].product in names && ContainsCI(body, table[i].keyword) {
      var i :| 0 <= i < |table| && table[i].product in names && ContainsCI(body, table[i].keyword);
      KeywordsOfProductsMembers(names, table, table[i].keyword);
    }
  }

  /** A missing message never matches; an empty keyword with no requirement
      matches every present message. */
  lemma MatchEdgeCases(rule: KeywordRule, body: string)
    ensures !RuleMatches(rule, None)
    ensures rule.keyword == "" && rule.requiredKeyword == "" ==> RuleMatches(rule, Some(body))
  {
    ContainsEmpty(Lower(body));
  }

  /** The keywords of the rules without a required keyword, in order
      (the `simple_keywords` list). */
  function SimpleKeywords(rules: seq<KeywordRule>): (ws: seq<string>)
    ensures forall w :: w in ws <==> exists r :: r in rules && r.requiredKeyword == "" && r.keyword == w
  {
    if rules == [] then []
    else
      var rest := SimpleKeywords(rules[1..]);
      assert forall r :: r in rules <==> r == rules[0] || r in rules[1..];
      (if rules[0].requiredKeyword == "" then [rules[0].keyword] else []) + rest
  }

  predicate IsComplex(r: KeywordRule) {
    r.requiredKeyword != ""
  }

  /** The rules with a required keyword (the `complex_rows`). */
  function ComplexRules(rules: seq<KeywordRule>): seq<KeywordRule> {
    Filter(rules, IsComplex)
  }

  /** Splitting the rules into simple keywords and complex rules loses no
      match and adds none. */
  lemma SimpleComplexSplit(rules: seq<KeywordRule>, body: Option<string>)
    ensures AnyRuleMatches(rules, body) <==>
      AnyHit(body, SimpleKeywords(rules)) || AnyRuleMatches(ComplexRules(rules), body)
  {
    if AnyRuleMatches(rules, body) {
      var r :| r in rules && RuleMatches(r, body);
      if r.requiredKeyword == "" {
        assert r.keyword in SimpleKeywords(rules);
      } else {
        assert r in ComplexRules(rules);
      }
    }
    if AnyHit(body, SimpleKeywords(rules)) {
      var w :| w in SimpleKeywords(rules) && ContainsCI(body.value, w);
      var r :| r in rules && r.requiredKeyword == "" && r.keyword == w;
      assert RuleMatches(r, body);
    }
  }

  // ---------------------------------------------------------------------
  // Masks and column updates

  /** Whether each message matches some rule (the `combined_mask`). */
  function AnyMask(rules: seq<KeywordRule>, bodies: seq<Option<string>>): seq<bool> {
    seq(|bodies|, i requires 0 <= i < |bodies| => AnyRuleMatches(rules, bodies[i]))
  }

  /** Whether each message matches the LAST rule: the `final_mask` that the
      loop of `_apply_mask` leaves behind. */
  function LastMask(rules: seq<KeywordRule>, bodies: seq<Option<string>>): seq<bool>
    requires rules != []
  {
    seq(|bodies|, i requires 0 <= i < |bodies| => RuleMatches(rules[|rules| - 1], bodies[i]))
  }

  predicate SkipFits(skip: Option<seq<bool>>, n: nat) {
    skip.Some? ==> |skip.value| == n
  }

  /** The rows a pass evaluates: all rows without a skip mask, otherwise
      the rows the mask does not skip (`~skip_mask`). */
  function Targets(skip: Option<seq<bool>>, n: nat): seq<bool>
    requires SkipFits(skip, n)
  {
    seq(n, i requires 0 <= i < n => skip.None? || !skip.value[i])
  }

  /** Python's `v | int(b)` on arbitrary-precision integers: only the
      lowest bit can change. */
  function OrBit(v: int, b: bool): int {
    if b && v % 2 == 0 then v + 1 else v
  }

  function OrCell(c: Cell, b: bool): Cell {
    match c
    case Int(v) => Int(OrBit(v, b))
    case Str(_) => c
  }

  /** The `.loc[targets, header] = .loc[targets, header] | mask` write. */
  function ColumnOr(col: seq<Cell>, targets: seq<bool>, mask: seq<bool>): (r: seq<Cell>)
    requires |targets| == |col| && |mask| == |col|
    ensures |r| == |col|
    ensures Numeric(col) ==> Numeric(r)
    ensures forall i :: 0 <= i < |col| && !targets[i] ==> r[i] == col[i]
    ensures forall i :: 0 <= i < |col| && col[i] == Int(1) ==> r[i] == Int(1)
    ensures forall i :: 0 <= i < |col| && col[i] == Int(0) ==>
      (r[i] == Int(1) <==> targets[i] && mask[i]) && (r[i] == Int(0) <==> !(targets[i] && mask[i]))
  {
    seq(|col|, i requires 0 <= i < |col| => if targets[i] then OrCell(col[i], mask[i]) else col[i])
  }

  /** A new label column: `n` cells holding 0. */
  function Zeroes(n: nat): (r: seq<Cell>)
    ensures |r| == n && Numeric(r)
    ensures forall i :: 0 <= i < n ==> r[i] == Int(0)
  {
    seq(n, _ => Int(0))
  }

  /** `_apply_mask_vec`: a label without rules changes nothing; otherwise
      the label's column (created as zeroes if absent) gets, on every
      evaluated row, the OR of whether any of its rules matches. */
  function VecUpdate(table: seq<KeywordRule>, bodies: seq<Option<string>>, cols: Columns,
                     header: string, skip: Option<seq<bool>>): (r: Columns)
    requires Fits(cols, |bodies|) && SkipFits(skip, |bodies|)
    ensures Fits(r, |bodies|)
    ensures r.Keys == if RulesOf(table, header) == [] then cols.Keys else cols.Keys + {header}
    ensures forall h :: h in cols && h != header ==> r[h] == cols[h]
    ensures forall h :: h in cols && Numeric(cols[h]) ==> Numeric(r[h])
    ensures header in r && header !in cols ==> Numeric(r[header])
  {
    var rules := RulesOf(table, header);
    if rules == [] then cols
    else
      var n := |bodies|;
      var col := if header in cols then cols[header] else Zeroes(n);
      cols[header := ColumnOr(col, Targets(skip, n), AnyMask(rules, bodies))]
  }

  /** `_apply_mask` once its loop has run: the label's column gets, on every
      evaluated row, the OR of whether the last rule matches. */
  function LastUpdate(table: seq<KeywordRule>, bodies: seq<Option<string>>, cols: Columns,
                      header: string, skip: Option<seq<bool>>): (r: Columns)
    requires Fits(cols, |bodies|) && SkipFits(skip, |bodies|)
    requires header in cols && RulesOf(table, header) != []
    ensures Fits(r, |bodies|) && r.Keys == cols.Keys
    ensures forall h :: h in cols && h != header ==> r[h] == cols[h]
    ensures forall h :: h in cols && Numeric(cols[h]) ==> Numeric(r[h])
  {
    var n := |bodies|;
    cols[header := ColumnOr(cols[header], Targets(skip, n), LastMask(RulesOf(table, header), bodies))]
  }

  /** For a label with a single rule the two passes agree. */
  lemma SingleRuleAgreement(table: seq<KeywordRule>, bodies: seq<Option<string>>, cols: Columns,
                            header: string, skip: Option<seq<bool>>)
    requires Fits(cols, |bodies|) && SkipFits(skip, |bodies|)
    requires header in cols && |RulesOf(table, header)| == 1
    ensures LastUpdate(table, bodies, cols, header, skip) == VecUpdate(table, bodies, cols, header, skip)
  {
    var rules := RulesOf(table, header);
    assert forall r :: r in rules <==> r == rules[0];
    assert LastMask(rules, bodies) == AnyMask(rules, bodies);
  }

  /** `chat_df[siblings].any(axis=1)`: whether any sibling column is set. */
  function SkipMask(cols: Columns, sibs: seq<string>, n: nat): (m: seq<bool>)
    requires Has(cols, sibs) && Fits(cols, n)
    ensures |m| == n
  {
    seq(n, i requires 0 <= i < n => exists s :: s in sibs && Truthy(cols[s][i]))
  }

  predicate Truthy(c: Cell) {
    match c
    case Int(v) => v != 0
    case Str(s) => s != ""
  }

  // ---------------------------------------------------------------------
  // The passes of `_tag_keywords`

  /** The specific pass: the labels `hs` in order, each through `_apply_mask`
      (`lastRuleOnly`, as written) or through `_apply_mask_vec` (intended). */
  function SpecificPass(table: seq<KeywordRule>, bodies: seq<Option<string>>, cols: Columns,
                        hs: seq<string>, lastRuleOnly: bool): (r: Columns)
    requires Fits(cols, |bodies|)
    requires lastRuleOnly ==> Has(cols, hs) && forall h :: h in hs ==> RulesOf(table, h) != []
    ensures Fits(r, |bodies|) && cols.Keys <= r.Keys
    ensures Has(cols, hs) ==> r.Keys == cols.Keys
    ensures forall h :: h in cols && h !in hs ==> r[h] == cols[h]
    ensures forall h :: h in cols && Numeric(cols[h]) ==> Numeric(r[h])
    decreases |hs|
  {
    if hs == [] then cols
    else
      var prev := SpecificPass(table, bodies, cols, hs[..|hs| - 1], lastRuleOnly);
      var h := hs[|hs| - 1];
      assert forall x :: x in hs <==> x in hs[..|hs| - 1] || x == h;
      if lastRuleOnly then LastUpdate(table, bodies, prev, h, None)
      else VecUpdate(table, bodies, prev, h, None)
  }

  /** The generic pass: each generic label in order, evaluated only on the
      rows where none of its siblings is set. */
  function GenericPass(table: seq<KeywordRule>, bodies: seq<Option<string>>, cols: Columns,
                       gs: seq<string>, specifics: seq<string>): (r: Columns)
    requires Fits(cols, |bodies|) && Has(cols, specifics)
    ensures Fits(r, |bodies|) && cols.Keys <= r.Keys
    ensures Has(cols, gs) ==> r.Keys == cols.Keys
    ensures forall h :: h in cols && h !in gs ==> r[h] == cols[h]
    ensures forall h :: h in cols && Numeric(cols[h]) ==> Numeric(r[h])
    decreases |gs|
  {
    if gs == [] then cols
    else
      var prev := GenericPass(table, bodies, cols, gs[..|gs| - 1], specifics);
      var g := gs[|gs| - 1];
      assert forall x :: x in gs <==> x in gs[..|gs| - 1] || x == g;
      VecUpdate(table, bodies, prev, g, Some(SkipMask(prev, Siblings(g, specifics), |bodies|)))
  }

  /** The label columns before tagging: every label present and flag-valued. */
  predicate ReadyToTag(table: seq<KeywordRule>, bodies: seq<Option<string>>, cols: Columns) {
    Fits(cols, |bodies|) && FlagColumns(cols, UniqueHeaders(table))
  }

  lemma ReadyHasRules(table: seq<KeywordRule>)
    ensures forall h :: h in NonGenericHeaders(table) ==> RulesOf(table, h) != []
    ensures forall h :: h in GenericHeaders(table) ==> RulesOf(table, h) != []
  {
    forall h | h in UniqueHeaders(table) ensures RulesOf(table, h) != [] {
      RulesOfLabel(table, h);
    }
  }

  /** `_tag_keywords`: the specific labels first, then the generic ones. */
  function TagSpec(table: seq<KeywordRule>, bodies: seq<Option<string>>, cols: Columns,
                   lastRuleOnly: bool): (r: Columns)
    requires ReadyToTag(table, bodies, cols)
    ensures Fits(r, |bodies|) && r.Keys == cols.Keys
    ensures ReadyToTag(table, bodies, r)
    ensures forall h :: h in cols && h !in UniqueHeaders(table) ==> r[h] == cols[h]
  {
    ReadyHasRules(table);
    HeadersPartition(table);
    var specifics := NonGenericHeaders(table);
    var afterSpecific := SpecificPass(table, bodies, cols, specifics, lastRuleOnly);
    GenericPass(table, bodies, afterSpecific, GenericHeaders(table), specifics)
  }
}
