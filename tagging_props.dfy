/** What the tagging passes compute, label by label and message by message,
    and the laws they obey: each label's column depends only on that label's
    rules (and, for a generic label, its siblings), so the passes can run the
    labels in any order and tagging twice changes nothing. */
module TaggingProperties {
  import opened Wrappers
  import opened Seqs
  import opened Text
  import opened KeywordRules
  import opened Tagging

  /** Every row is evaluated. */
  function AllRows(n: nat): seq<bool> {
    Targets(None, n)
  }

  /** The mask the specific pass ORs into label `h`. */
  function SpecificMask(table: seq<KeywordRule>, bodies: seq<Option<string>>, h: string,
                        lastRuleOnly: bool): seq<bool>
    requires RulesOf(table, h) != []
  {
    if lastRuleOnly then LastMask(RulesOf(table, h), bodies) else AnyMask(RulesOf(table, h), bodies)
  }

  /** The column the generic pass writes for `g`, read off the columns it
      finds. */
  function GenericColumn(table: seq<KeywordRule>, bodies: seq<Option<string>>, cols: Columns,
                         g: string, specifics: seq<string>): seq<Cell>
    requires Fits(cols, |bodies|) && Has(cols, specifics) && g in cols
  {
    var n := |bodies|;
    ColumnOr(cols[g], Targets(Some(SkipMask(cols, Siblings(g, specifics), n)), n),
             AnyMask(RulesOf(table, g), bodies))
  }

  lemma ColumnOrTwice(col: seq<Cell>, targets: seq<bool>, mask: seq<bool>)
    requires |targets| == |col| && |mask| == |col|
    ensures ColumnOr(ColumnOr(col, targets, mask), targets, mask) == ColumnOr(col, targets, mask)
  {
    var once := ColumnOr(col, targets, mask);
    forall i | 0 <= i < |col| ensures ColumnOr(once, targets, mask)[i] == once[i] {
    }
  }

  lemma SkipMaskFrame(a: Columns, b: Columns, sibs: seq<string>, n: nat)
    requires Has(a, sibs) && Has(b, sibs) && Fits(a, n) && Fits(b, n)
    requires forall s :: s in sibs ==> a[s] == b[s]
    ensures SkipMask(a, sibs, n) == SkipMask(b, sibs, n)
  {
  }

  /** The specific pass gives each of its labels its own mask, ORed once into
      the column it started with, whatever the other labels. */
  lemma {:induction false} SpecificPassClosed(table: seq<KeywordRule>, bodies: seq<Option<string>>,
                                              cols: Columns, hs: seq<string>, lastRuleOnly: bool)
    requires Fits(cols, |bodies|) && Has(cols, hs)
    requires forall h :: h in hs ==> RulesOf(table, h) != []
    ensures forall h :: h in hs ==>
      SpecificPass(table, bodies, cols, hs, lastRuleOnly)[h]
      == ColumnOr(cols[h], AllRows(|bodies|), SpecificMask(table, bodies, h, lastRuleOnly))
    decreases |hs|
  {
    if hs != [] {
      var n := |bodies|;
      var init := hs[..|hs| - 1];
      var last := hs[|hs| - 1];
      assert forall x :: x in hs <==> x in init || x == last;
      SpecificPassClosed(table, bodies, cols, init, lastRuleOnly);
      var prev := SpecificPass(table, bodies, cols, init, lastRuleOnly);
      var r := SpecificPass(table, bodies, cols, hs, lastRuleOnly);
      var m := SpecificMask(table, bodies, last, lastRuleOnly);
      assert r[last] == ColumnOr(prev[last], AllRows(n), m);
      if last in init {
        ColumnOrTwice(cols[last], AllRows(n), m);
      }
    }
  }

  /** The generic pass gives each of its labels the OR of its rules on the
      rows where none of its siblings is set, judged by the columns it started
      with: earlier generic labels never change a sibling. */
  lemma {:induction false} GenericPassClosed(table: seq<KeywordRule>, bodies: seq<Option<string>>,
                                             cols: Columns, gs: seq<string>, specifics: seq<string>)
    requires Fits(cols, |bodies|) && Has(cols, specifics) && Has(cols, gs)
    requires forall g :: g in gs ==> RulesOf(table, g) != []
    requires forall s :: s in specifics ==> s !in gs
    ensures forall g :: g in gs ==>
      GenericPass(table, bodies, cols, gs, specifics)[g] == GenericColumn(table, bodies, cols, g, specifics)
    decreases |gs|
  {
    if gs != [] {
      var n := |bodies|;
      var init := gs[..|gs| - 1];
      var last := gs[|gs| - 1];
      assert forall x :: x in gs <==> x in init || x == last;
      GenericPassClosed(table, bodies, cols, init, specifics);
      var prev := GenericPass(table, bodies, cols, init, specifics);
      var sibs := Siblings(last, specifics);
      SkipMaskFrame(prev, cols, sibs, n);
      var t := Targets(Some(SkipMask(cols, sibs, n)), n);
      var m := AnyMask(RulesOf(table, last), bodies);
      assert GenericPass(table, bodies, cols, gs, specifics)[last] == ColumnOr(prev[last], t, m);
      if last in init {
        ColumnOrTwice(cols[last], t, m);
      }
    }
  }

  /** The specific pass does not depend on the order of its labels. */
  lemma SpecificOrderIrrelevant(table: seq<KeywordRule>, bodies: seq<Option<string>>, cols: Columns,
                                hs1: seq<string>, hs2: seq<string>, lastRuleOnly: bool)
    requires Fits(cols, |bodies|) && Has(cols, hs1)
    requires forall h :: h in hs1 ==> RulesOf(table, h) != []
    requires forall h :: h in hs1 <==> h in hs2
    ensures SpecificPass(table, bodies, cols, hs1, lastRuleOnly) == SpecificPass(table, bodies, cols, hs2, lastRuleOnly)
  {
    SpecificPassClosed(table, bodies, cols, hs1, lastRuleOnly);
    SpecificPassClosed(table, bodies, cols, hs2, lastRuleOnly);
  }

  /** The generic pass does not depend on the order of its labels. */
  lemma GenericOrderIrrelevant(table: seq<KeywordRule>, bodies: seq<Option<string>>, cols: Columns,
                               gs1: seq<string>, gs2: seq<string>, specifics: seq<string>)
    requires Fits(cols, |bodies|) && Has(cols, specifics) && Has(cols, gs1)
    requires forall g :: g in gs1 ==> RulesOf(table, g) != []
    requires forall s :: s in specifics ==> s !in gs1
    requires forall g :: g in gs1 <==> g in gs2
    ensures GenericPass(table, bodies, cols, gs1, specifics) == GenericPass(table, bodies, cols, gs2, specifics)
  {
    GenericPassClosed(table, bodies, cols, gs1, specifics);
    GenericPassClosed(table, bodies, cols, gs2, specifics);
  }

  lemma Prepare(table: seq<KeywordRule>)
    ensures forall h :: h in NonGenericHeaders(table) ==> RulesOf(table, h) != []
    ensures forall h :: h in GenericHeaders(table) ==> RulesOf(table, h) != []
    ensures forall h :: h in NonGenericHeaders(table) ==> h !in GenericHeaders(table)
  {
    ReadyHasRules(table);
    HeadersPartition(table);
  }

  /** The columns after the specific pass, which the generic pass starts from. */
  function AfterSpecific(table: seq<KeywordRule>, bodies: seq<Option<string>>, cols: Columns,
                         lastRuleOnly: bool): (r: Columns)
    requires ReadyToTag(table, bodies, cols)
    ensures Fits(r, |bodies|) && r.Keys == cols.Keys
  {
    Prepare(table);
    SpecificPass(table, bodies, cols, NonGenericHeaders(table), lastRuleOnly)
  }

  /** After tagging, a specific label holds its own mask ORed into its old
      column. */
  lemma SpecificAfterTag(table: seq<KeywordRule>, bodies: seq<Option<string>>, cols: Columns,
                         lastRuleOnly: bool, h: string)
    requires ReadyToTag(table, bodies, cols) && h in NonGenericHeaders(table)
    ensures RulesOf(table, h) != [] && h in cols
    ensures AfterSpecific(table, bodies, cols, lastRuleOnly)[h]
         == ColumnOr(cols[h], AllRows(|bodies|), SpecificMask(table, bodies, h, lastRuleOnly))
    ensures TagSpec(table, bodies, cols, lastRuleOnly)[h] == AfterSpecific(table, bodies, cols, lastRuleOnly)[h]
  {
    Prepare(table);
    SpecificPassClosed(table, bodies, cols, NonGenericHeaders(table), lastRuleOnly);
  }

  /** After tagging, a generic label holds the generic pass's column, read
      off the columns the specific pass left. */
  lemma GenericAfterTag(table: seq<KeywordRule>, bodies: seq<Option<string>>, cols: Columns,
                        lastRuleOnly: bool, g: string)
    requires ReadyToTag(table, bodies, cols) && g in GenericHeaders(table)
    ensures g in cols && Has(AfterSpecific(table, bodies, cols, lastRuleOnly), NonGenericHeaders(table))
    ensures AfterSpecific(table, bodies, cols, lastRuleOnly)[g] == cols[g]
    ensures TagSpec(table, bodies, cols, lastRuleOnly)[g]
         == GenericColumn(table, bodies, AfterSpecific(table, bodies, cols, lastRuleOnly), g, NonGenericHeaders(table))
  {
    Prepare(table);
    HeadersPartition(table);
    var s := AfterSpecific(table, bodies, cols, lastRuleOnly);
    GenericPassClosed(table, bodies, s, GenericHeaders(table), NonGenericHeaders(table));
  }

  /** Intended tagging of a specific label: a message is tagged exactly when
      one of the label's rules matches it (a cell already set stays set). */
  lemma IntendedSpecificTag(table: seq<KeywordRule>, bodies: seq<Option<string>>, cols: Columns,
                            h: string, i: int)
    requires ReadyToTag(table, bodies, cols)
    requires h in NonGenericHeaders(table) && 0 <= i < |bodies|
    ensures TagSpec(table, bodies, cols, false)[h][i] == OrCell(cols[h][i], AnyRuleMatches(RulesOf(table, h), bodies[i]))
    ensures cols[h][i] == Int(0) ==>
      (TagSpec(table, bodies, cols, false)[h][i] == Int(1) <==> AnyRuleMatches(RulesOf(table, h), bodies[i]))
  {
    SpecificAfterTag(table, bodies, cols, false, h);
    assert AllRows(|bodies|)[i];
  }

  /** Tagging as written: a specific label's cell reflects only the label's
      LAST rule. */
  lemma AsWrittenSpecificTag(table: seq<KeywordRule>, bodies: seq<Option<string>>, cols: Columns,
                             h: string, i: int)
    requires ReadyToTag(table, bodies, cols)
    requires h in NonGenericHeaders(table) && 0 <= i < |bodies|
    ensures RulesOf(table, h) != []
    ensures var rules := RulesOf(table, h);
      TagSpec(table, bodies, cols, true)[h][i] == OrCell(cols[h][i], RuleMatches(rules[|rules| - 1], bodies[i]))
  {
    SpecificAfterTag(table, bodies, cols, true, h);
    assert AllRows(|bodies|)[i];
  }

  /** A generic label is tagged on a message exactly when no sibling label is
      set on it after tagging and one of the generic label's rules matches. */
  lemma GenericTag(table: seq<KeywordRule>, bodies: seq<Option<string>>, cols: Columns,
                   lastRuleOnly: bool, g: string, i: int)
    requires ReadyToTag(table, bodies, cols)
    requires g in GenericHeaders(table) && 0 <= i < |bodies|
    ensures var t := TagSpec(table, bodies, cols, lastRuleOnly);
      var blocked := exists s :: s in Siblings(g, NonGenericHeaders(table)) && Truthy(t[s][i]);
      t[g][i] == if blocked then cols[g][i] else OrCell(cols[g][i], AnyRuleMatches(RulesOf(table, g), bodies[i]))
  {
    GenericAfterTag(table, bodies, cols, lastRuleOnly, g);
    var t := TagSpec(table, bodies, cols, lastRuleOnly);
    var s := AfterSpecific(table, bodies, cols, lastRuleOnly);
    var sibs := Siblings(g, NonGenericHeaders(table));
    forall b | b in sibs ensures t[b] == s[b] {
      SpecificAfterTag(table, bodies, cols, lastRuleOnly, b);
    }
    var skip := SkipMask(s, sibs, |bodies|);
    assert skip[i] == exists b :: b in sibs && Truthy(s[b][i]);
  }

  /** A generic label without any sibling tags every message one of its
      rules matches. */
  lemma GenericWithoutSiblings(table: seq<KeywordRule>, bodies: seq<Option<string>>, cols: Columns,
                               lastRuleOnly: bool, g: string, i: int)
    requires ReadyToTag(table, bodies, cols)
    requires g in GenericHeaders(table) && 0 <= i < |bodies|
    requires Siblings(g, NonGenericHeaders(table)) == []
    requires cols[g][i] == Int(0)
    ensures TagSpec(table, bodies, cols, lastRuleOnly)[g][i] == Int(1) <==> AnyRuleMatches(RulesOf(table, g), bodies[i])
  {
    GenericTag(table, bodies, cols, lastRuleOnly, g, i);
  }

  /** Tagging only ever sets flags: a set cell stays set and a clear cell
      ends up clear or set, in every label column. */
  lemma TagSpecMonotone(table: seq<KeywordRule>, bodies: seq<Option<string>>, cols: Columns,
                        lastRuleOnly: bool, h: string, i: int)
    requires ReadyToTag(table, bodies, cols)
    requires h in cols && 0 <= i < |bodies|
    ensures cols[h][i] == Int(1) ==> TagSpec(table, bodies, cols, lastRuleOnly)[h][i] == Int(1)
    ensures cols[h][i] == Int(0) ==> TagSpec(table, bodies, cols, lastRuleOnly)[h][i] in {Int(0), Int(1)}
  {
    HeadersPartition(table);
    if h in NonGenericHeaders(table) {
      SpecificAfterTag(table, bodies, cols, lastRuleOnly, h);
    } else if h in GenericHeaders(table) {
      GenericAfterTag(table, bodies, cols, lastRuleOnly, h);
    }
  }

  /** Tagging a second time changes nothing. */
  lemma TagSpecIdempotent(table: seq<KeywordRule>, bodies: seq<Option<string>>, cols: Columns,
                          lastRuleOnly: bool)
    requires ReadyToTag(table, bodies, cols)
    ensures TagSpec(table, bodies, TagSpec(table, bodies, cols, lastRuleOnly), lastRuleOnly)
         == TagSpec(table, bodies, cols, lastRuleOnly)
  {
    HeadersPartition(table);
    var n := |bodies|;
    var ng := NonGenericHeaders(table);
    var gs := GenericHeaders(table);
    var t := TagSpec(table, bodies, cols, lastRuleOnly);
    var s := AfterSpecific(table, bodies, cols, lastRuleOnly);
    var s2 := AfterSpecific(table, bodies, t, lastRuleOnly);
    var t2 := TagSpec(table, bodies, t, lastRuleOnly);
    // The specific pass finds its labels already tagged.
    forall h | h in ng ensures s2[h] == t[h] && t2[h] == t[h] {
      SpecificAfterTag(table, bodies, cols, lastRuleOnly, h);
      SpecificAfterTag(table, bodies, t, lastRuleOnly, h);
      ColumnOrTwice(cols[h], AllRows(n), SpecificMask(table, bodies, h, lastRuleOnly));
    }
    // So does the generic pass: the siblings it reads are the ones it read before.
    forall g | g in gs ensures t2[g] == t[g] {
      GenericAfterTag(table, bodies, cols, lastRuleOnly, g);
      GenericAfterTag(table, bodies, t, lastRuleOnly, g);
      var sibs := Siblings(g, ng);
      SkipMaskFrame(s2, s, sibs, n);
      ColumnOrTwice(s[g], Targets(Some(SkipMask(s, sibs, n)), n), AnyMask(RulesOf(table, g), bodies));
    }
    assert forall h :: h in t ==> t2[h] == t[h];
  }

  /** When every specific label has exactly one rule, tagging as written and
      intended tagging agree. */
  lemma AgreeWithSingleRules(table: seq<KeywordRule>, bodies: seq<Option<string>>, cols: Columns)
    requires ReadyToTag(table, bodies, cols)
    requires forall h :: h in NonGenericHeaders(table) ==> |RulesOf(table, h)| == 1
    ensures TagSpec(table, bodies, cols, true) == TagSpec(table, bodies, cols, false)
  {
    HeadersPartition(table);
    var sT := AfterSpecific(table, bodies, cols, true);
    var sF := AfterSpecific(table, bodies, cols, false);
    forall h | h in NonGenericHeaders(table) ensures sT[h] == sF[h] {
      SpecificAfterTag(table, bodies, cols, true, h);
      SpecificAfterTag(table, bodies, cols, false, h);
      SingleRuleMask(table, bodies, h);
    }
    assert sT == sF;
    assert TagSpec(table, bodies, cols, true) == GenericPass(table, bodies, sT, GenericHeaders(table), NonGenericHeaders(table));
    assert TagSpec(table, bodies, cols, false) == GenericPass(table, bodies, sF, GenericHeaders(table), NonGenericHeaders(table));
  }

  lemma SingleRuleMask(table: seq<KeywordRule>, bodies: seq<Option<string>>, h: string)
    requires |RulesOf(table, h)| == 1
    ensures SpecificMask(table, bodies, h, true) == SpecificMask(table, bodies, h, false)
  {
    var rules := RulesOf(table, h);
    assert forall r :: r in rules <==> r == rules[0];
  }

  /** Two rules on one label and a message that only the first matches: as
      written, the label is not tagged; intended, it is. */
  lemma LastRuleCounterexample(table: seq<KeywordRule>, bodies: seq<Option<string>>, cols: Columns)
    requires table == [KeywordRule("B", "P", "a", "", "", "B_P"), KeywordRule("B", "P", "b", "", "", "B_P")]
    requires bodies == [Some("a")] && cols == map["B_P" := [Int(0)]]
    ensures ReadyToTag(table, bodies, cols)
    ensures AnyRuleMatches(RulesOf(table, "B_P"), bodies[0])
    ensures TagSpec(table, bodies, cols, true)["B_P"][0] == Int(0)
    ensures TagSpec(table, bodies, cols, false)["B_P"][0] == Int(1)
  {
    var ra := table[0];
    var rb := table[1];
    NoOtherLabel(table);
    LabelIsSpecific(table);
    NotOnlyTheLastRule(ra, rb);
    BothRules(table);
    AsWrittenSpecificTag(table, bodies, cols, "B_P", 0);
    IntendedSpecificTag(table, bodies, cols, "B_P", 0);
  }

  lemma NoOtherLabel(table: seq<KeywordRule>)
    requires |table| == 2 && table[0].header == "B_P" && table[1].header == "B_P"
    ensures UniqueHeaders(table) == ["B_P"]
  {
    var hs := HeadersOf(table);
    assert hs == ["B_P", "B_P"];
    assert hs[..1] == ["B_P"] && hs[..1][..0] == [];
    assert Dedup(hs[..1]) == ["B_P"];
    assert hs[..|hs| - 1] == hs[..1];
  }

  lemma BothRules(table: seq<KeywordRule>)
    requires |table| == 2 && table[0].header == "B_P" && table[1].header == "B_P"
    ensures RulesOf(table, "B_P") == table
  {
    assert table[..1][..0] == [] && table[..1][1..] == [] && table[1..] == [table[1]] && table[1..][1..] == [];
  }

  lemma LabelIsSpecific(table: seq<KeywordRule>)
    requires UniqueHeaders(table) == ["B_P"]
    ensures "B_P" in NonGenericHeaders(table)
  {
    assert !StartsWith("B_P", "generic");
    assert !Contains("", "generic");
    assert !Contains("P", "generic");
    assert !Contains("_P", "generic");
    assert !IsGeneric("B_P");
    HeadersPartition(table);
  }

  lemma NotOnlyTheLastRule(ra: KeywordRule, rb: KeywordRule)
    requires ra.keyword == "a" && rb.keyword == "b" && ra.requiredKeyword == "" && rb.requiredKeyword == ""
    ensures RuleMatches(ra, Some("a")) && !RuleMatches(rb, Some("a"))
  {
    assert Lower("a") == "a" && Lower("b") == "b";
    assert StartsWith("a", "a");
    assert !Contains("", "b");
  }
}
