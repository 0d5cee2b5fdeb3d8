/** utils/chatprocessor.py: the `ChatProcessor` that adds a 0/1 column per
    label to a chat table, tags the messages whose text matches the label's
    rules, and replaces each tag by the sentiment an analyzer returns. The
    chat table is the `ChatFrame` object the methods update in place. */
module ChatProcessing {
  import opened Wrappers
  import opened Seqs
  import opened Text
  import opened KeywordRules
  import opened Tagging
  import opened TaggingProperties
  import opened Sentiment

  /** The columns of a chat table the processor reads and writes: the
      message bodies, the `Reason` column and the label columns. */
  class ChatFrame {
    var bodies: seq<Option<string>>
    var reasons: seq<string>
    var columns: Columns

    ghost predicate Valid()
      reads this
    {
      |reasons| == |bodies| && Fits(columns, |bodies|)
    }

    constructor (bodies: seq<Option<string>>, reasons: seq<string>)
      requires |reasons| == |bodies|
      ensures Valid()
      ensures this.bodies == bodies && this.reasons == reasons && columns == map[]
    {
      this.bodies := bodies;
      this.reasons := reasons;
      columns := map[];
    }
  }

  /** `chat_df[header] = 0` for each listed label, in order. */
  function WithZeroColumns(cols: Columns, hs: seq<string>, n: nat): (r: Columns)
    ensures r.Keys == cols.Keys + set h | h in hs
    ensures forall h :: h in hs ==> r[h] == Zeroes(n)
    ensures forall h :: h in cols && h !in hs ==> r[h] == cols[h]
    ensures Fits(cols, n) ==> Fits(r, n)
    decreases |hs|
  {
    if hs == [] then cols
    else
      assert forall x :: x in hs <==> x in hs[..|hs| - 1] || x == hs[|hs| - 1];
      WithZeroColumns(cols, hs[..|hs| - 1], n)[hs[|hs| - 1] := Zeroes(n)]
  }

  /** The label columns handed to the sentiment step: zeroed label columns
      after tagging, as written (`lastRuleOnly`) or as intended. */
  function Tagged(table: seq<KeywordRule>, bodies: seq<Option<string>>, cols: Columns, lastRuleOnly: bool): (r: Columns)
    requires Fits(cols, |bodies|)
    ensures ReadyToTag(table, bodies, r)
    ensures r.Keys == cols.Keys + set h | h in UniqueHeaders(table)
  {
    var zeroed := WithZeroColumns(cols, UniqueHeaders(table), |bodies|);
    TagSpec(table, bodies, zeroed, lastRuleOnly)
  }

  /** Zero label columns, tagging, then the sentiment step for every label.
      With `lastRuleOnly` this is what `process_chat_df` computes as written;
      without it, what it computes with the corrected tagging. */
  function ProcessSpec(table: seq<KeywordRule>, analyzer: Analyzer, bodies: seq<Option<string>>,
                       cols: Columns, reasons: seq<string>, lastRuleOnly: bool): (r: Sheet)
    requires Fits(cols, |bodies|) && |reasons| == |bodies|
    ensures SheetFits(r, UniqueHeaders(table), |bodies|)
  {
    SentimentPass(analyzer, UniqueHeaders(table), bodies, Sheet(Tagged(table, bodies, cols, lastRuleOnly), reasons))
  }

  /** One more generic label: the pass over `gs[..k + 1]` is the pass over
      `gs[..k]` followed by label `gs[k]`. */
  lemma GenericPassStep(table: seq<KeywordRule>, bodies: seq<Option<string>>, cols: Columns,
                        gs: seq<string>, specifics: seq<string>, k: int)
    requires Fits(cols, |bodies|) && Has(cols, specifics) && 0 <= k < |gs|
    ensures var prev := GenericPass(table, bodies, cols, gs[..k], specifics);
      Has(prev, Siblings(gs[k], specifics))
      && GenericPass(table, bodies, cols, gs[..k + 1], specifics)
         == VecUpdate(table, bodies, prev, gs[k], Some(SkipMask(prev, Siblings(gs[k], specifics), |bodies|)))
  {
    assert gs[..k + 1][..k] == gs[..k];
  }

  /** One more specific label, through `_apply_mask_vec`. */
  lemma VecPassStep(table: seq<KeywordRule>, bodies: seq<Option<string>>, cols: Columns,
                    hs: seq<string>, k: int)
    requires Fits(cols, |bodies|) && 0 <= k < |hs|
    ensures SpecificPass(table, bodies, cols, hs[..k + 1], false)
         == VecUpdate(table, bodies, SpecificPass(table, bodies, cols, hs[..k], false), hs[k], None)
  {
    assert hs[..k + 1][..k] == hs[..k];
  }

  /** One more specific label, through `_apply_mask`. */
  lemma LastPassStep(table: seq<KeywordRule>, bodies: seq<Option<string>>, cols: Columns,
                     hs: seq<string>, k: int)
    requires Fits(cols, |bodies|) && Has(cols, hs) && 0 <= k < |hs|
    requires forall h :: h in hs ==> RulesOf(table, h) != []
    ensures var prev := SpecificPass(table, bodies, cols, hs[..k], true);
      hs[k] in prev && RulesOf(table, hs[k]) != []
      && SpecificPass(table, bodies, cols, hs[..k + 1], true) == LastUpdate(table, bodies, prev, hs[k], None)
  {
    assert hs[..k + 1][..k] == hs[..k];
    assert forall x :: x in hs[..k] ==> x in hs;
  }

  /** Tagging is the specific pass followed by the generic pass. */
  lemma TagSpecUnfold(table: seq<KeywordRule>, bodies: seq<Option<string>>, cols: Columns, lastRuleOnly: bool)
    requires ReadyToTag(table, bodies, cols)
    ensures Has(cols, NonGenericHeaders(table))
    ensures forall h :: h in NonGenericHeaders(table) ==> RulesOf(table, h) != []
    ensures var a := AfterSpecific(table, bodies, cols, lastRuleOnly);
      Has(a, NonGenericHeaders(table))
      && TagSpec(table, bodies, cols, lastRuleOnly) == GenericPass(table, bodies, a, GenericHeaders(table), NonGenericHeaders(table))
  {
    Prepare(table);
    HeadersPartition(table);
  }

  /** One more label in the sentiment pass. */
  lemma SentimentPassStep(analyzer: Analyzer, hs: seq<string>, bodies: seq<Option<string>>, s: Sheet, k: int)
    requires SheetFits(s, hs, |bodies|) && 0 <= k < |hs|
    ensures SheetFits(s, hs[..k], |bodies|) && SheetFits(s, hs[..k + 1], |bodies|)
    ensures var prev := SentimentPass(analyzer, hs[..k], bodies, s);
      hs[k] in prev.cols
      && SentimentPass(analyzer, hs[..k + 1], bodies, s) == SentimentStep(analyzer, hs[k], bodies, prev)
  {
    assert hs[..k + 1][..k] == hs[..k];
    assert forall x :: x in hs[..k + 1] ==> x in hs;
  }

  /** A word the prompt lists for a rule: its keyword, or one alternative
      of its required keyword. */
  predicate PromptWord(r: KeywordRule, w: string) {
    w == r.keyword || (r.requiredKeyword != "" && w in Split(r.requiredKeyword, '|'))
  }

  class ChatProcessor {
    const table: seq<KeywordRule>
    const analyzer: Analyzer

    constructor (table: seq<KeywordRule>, analyzer: Analyzer)
      ensures this.table == table && this.analyzer == analyzer
    {
      this.table := table;
      this.analyzer := analyzer;
    }

    /** `_add_header_columns_to_chat_df` */
    method AddHeaderColumns(df: ChatFrame)
      requires df.Valid()
      modifies df
      ensures df.Valid() && df.bodies == old(df.bodies) && df.reasons == old(df.reasons)
      ensures df.columns == WithZeroColumns(old(df.columns), UniqueHeaders(table), |df.bodies|)
    {
      var headers := UniqueHeaders(table);
      for k := 0 to |headers|
        invariant df.Valid() && df.bodies == old(df.bodies) && df.reasons == old(df.reasons)
        invariant df.columns == WithZeroColumns(old(df.columns), headers[..k], |df.bodies|)
      {
        assert headers[..k + 1][..k] == headers[..k];
        df.columns := df.columns[headers[k] := Zeroes(|df.bodies|)];
      }
      assert headers[..|headers|] == headers;
    }

    /** `_apply_mask`: the loop over the label's rules keeps only the last
        rule's mask. A label without rules raises: no mask is ever built, so
        `final_mask` is unbound when it is read (an `UnboundLocalError` at
        utils/chatprocessor.py:93). */
    method ApplyMask(df: ChatFrame, header: string, skip: Option<seq<bool>>) returns (raised: bool)
      requires df.Valid() && SkipFits(skip, |df.bodies|) && header in df.columns
      modifies df
      ensures df.Valid() && df.bodies == old(df.bodies) && df.reasons == old(df.reasons)
      ensures raised <==> RulesOf(table, header) == []
      ensures raised ==> df.columns == old(df.columns)
      ensures !raised ==> df.columns == LastUpdate(table, df.bodies, old(df.columns), header, skip)
    {
      var matched := RulesOf(table, header);
      var bodies := df.bodies;
      var n := |bodies|;
      var finalMask: seq<bool> := [];
      var hasMask := false;
      for j := 0 to |matched|
        invariant hasMask <==> j > 0
        invariant j > 0 ==> finalMask == seq(n, i requires 0 <= i < n => RuleMatches(matched[j - 1], bodies[i]))
      {
        var rule := matched[j];
        var maskKeyword := seq(n, i requires 0 <= i < n => KeywordHit(bodies[i], rule.keyword));
        if rule.requiredKeyword != "" {
          var maskRequired := seq(n, i requires 0 <= i < n => RequiredHit(bodies[i], rule.requiredKeyword));
          finalMask := seq(n, i requires 0 <= i < n => maskRequired[i] && maskKeyword[i]);
        } else {
          finalMask := maskKeyword;
        }
        hasMask := true;
      }
      if !hasMask {
        return true;
      }
      assert finalMask == LastMask(matched, bodies);
      df.columns := df.columns[header := ColumnOr(df.columns[header], Targets(skip, n), finalMask)];
      return false;
    }

    /** The mask `_apply_mask_vec` builds: the simple keywords as one
        alternation, then each complex rule ORed in. */
    method CombinedMask(matched: seq<KeywordRule>, bodies: seq<Option<string>>) returns (combined: seq<bool>)
      ensures combined == AnyMask(matched, bodies)
    {
      var n := |bodies|;
      var simple := SimpleKeywords(matched);
      var complex := ComplexRules(matched);
      combined := seq(n, _ => false);
      if simple != [] {
        combined := seq(n, i requires 0 <= i < n => combined[i] || AnyHit(bodies[i], simple));
      }
      for j := 0 to |complex|
        invariant |combined| == n
        invariant forall i :: 0 <= i < n ==>
          combined[i] == (AnyHit(bodies[i], simple) || exists k :: 0 <= k < j && RuleMatches(complex[k], bodies[i]))
      {
        var rule := complex[j];
        combined := seq(n, i requires 0 <= i < n =>
          combined[i] || (KeywordHit(bodies[i], rule.keyword) && RequiredHit(bodies[i], rule.requiredKeyword)));
      }
      forall i | 0 <= i < n ensures combined[i] == AnyMask(matched, bodies)[i] {
        SimpleComplexSplit(matched, bodies[i]);
        assert AnyRuleMatches(complex, bodies[i]) <==> exists k :: 0 <= k < |complex| && RuleMatches(complex[k], bodies[i]);
      }
    }

    /** `_apply_mask_vec`: the combined mask ORed into the label's column on
        the evaluated rows; a label without rules is left alone. */
    method ApplyMaskVec(df: ChatFrame, header: string, skip: Option<seq<bool>>)
      requires df.Valid() && SkipFits(skip, |df.bodies|)
      modifies df
      ensures df.Valid() && df.bodies == old(df.bodies) && df.reasons == old(df.reasons)
      ensures df.columns == VecUpdate(table, df.bodies, old(df.columns), header, skip)
    {
      var matched := RulesOf(table, header);
      if matched == [] {
        return;
      }
      var n := |df.bodies|;
      var combined := CombinedMask(matched, df.bodies);
      var col := if header in df.columns then df.columns[header] else Zeroes(n);
      df.columns := df.columns[header := ColumnOr(col, Targets(skip, n), combined)];
    }

    /** The generic labels' pass of `_tag_keywords`. */
    method TagGeneric(df: ChatFrame)
      requires df.Valid() && Has(df.columns, NonGenericHeaders(table))
      modifies df
      ensures df.Valid() && df.bodies == old(df.bodies) && df.reasons == old(df.reasons)
      ensures df.columns == GenericPass(table, df.bodies, old(df.columns), GenericHeaders(table), NonGenericHeaders(table))
    {
      var specifics := NonGenericHeaders(table);
      var generics := GenericHeaders(table);
      for k := 0 to |generics|
        invariant df.Valid() && df.bodies == old(df.bodies) && df.reasons == old(df.reasons)
        invariant df.columns == GenericPass(table, df.bodies, old(df.columns), generics[..k], specifics)
      {
        GenericPassStep(table, df.bodies, old(df.columns), generics, specifics, k);
        var subbrand := Siblings(generics[k], specifics);
        var skipMask := SkipMask(df.columns, subbrand, |df.bodies|);
        ApplyMaskVec(df, generics[k], Some(skipMask));
      }
      assert generics[..|generics|] == generics;
    }

    /** `_tag_keywords` as written: the specific labels through `_apply_mask`,
        then the generic labels through `_apply_mask_vec`. */
    method TagKeywords(df: ChatFrame)
      requires df.Valid() && ReadyToTag(table, df.bodies, df.columns)
      modifies df
      ensures df.Valid() && df.bodies == old(df.bodies) && df.reasons == old(df.reasons)
      ensures df.columns == TagSpec(table, df.bodies, old(df.columns), true)
    {
      TagSpecUnfold(table, df.bodies, df.columns, true);
      var specifics := NonGenericHeaders(table);
      for k := 0 to |specifics|
        invariant df.Valid() && df.bodies == old(df.bodies) && df.reasons == old(df.reasons)
        invariant df.columns == SpecificPass(table, df.bodies, old(df.columns), specifics[..k], true)
      {
        LastPassStep(table, df.bodies, old(df.columns), specifics, k);
        var raised := ApplyMask(df, specifics[k], None);
        assert !raised;
      }
      assert specifics[..|specifics|] == specifics;
      assert df.columns == AfterSpecific(table, df.bodies, old(df.columns), true);
      TagGeneric(df);
    }

    /** `_tag_keywords` as intended: every label through `_apply_mask_vec`,
        so that a specific label is tagged when ANY of its rules matches. */
    method TagKeywordsIntended(df: ChatFrame)
      requires df.Valid() && ReadyToTag(table, df.bodies, df.columns)
      modifies df
      ensures df.Valid() && df.bodies == old(df.bodies) && df.reasons == old(df.reasons)
      ensures df.columns == TagSpec(table, df.bodies, old(df.columns), false)
    {
      TagSpecUnfold(table, df.bodies, df.columns, false);
      var specifics := NonGenericHeaders(table);
      for k := 0 to |specifics|
        invariant df.Valid() && df.bodies == old(df.bodies) && df.reasons == old(df.reasons)
        invariant df.columns == SpecificPass(table, df.bodies, old(df.columns), specifics[..k], false)
      {
        VecPassStep(table, df.bodies, old(df.columns), specifics, k);
        ApplyMaskVec(df, specifics[k], None);
      }
      assert specifics[..|specifics|] == specifics;
      assert df.columns == AfterSpecific(table, df.bodies, old(df.columns), false);
      TagGeneric(df);
    }

    /** The rows of a label column holding 1, in row order. */
    method TaggedRows(col: seq<Cell>) returns (idx: seq<nat>)
      ensures idx == SentIndices(col)
    {
      idx := [];
      for i := 0 to |col|
        invariant idx == SentIndices(col[..i])
      {
        assert col[..i + 1][..i] == col[..i];
        if col[i] == Int(1) {
          idx := idx + [i];
        }
      }
      assert col[..|col|] == col;
    }

    /** The result loop of `_check_sentiment` for one label: each reply in
        order writes the sentiment on success and appends its line to the
        row's reason. */
    method MergeReplies(df: ChatFrame, h: string, results: seq<TaskResult>)
      requires df.Valid() && h in df.columns
      requires InRange(Merged(df.columns[h], df.reasons), results)
      requires forall k :: 0 <= k < |results| ==> results[k].header == h
      modifies df
      ensures df.Valid() && df.bodies == old(df.bodies) && h in df.columns
      ensures df.columns == old(df.columns)[h := df.columns[h]]
      ensures Merged(df.columns[h], df.reasons) == MergeResults(Merged(old(df.columns)[h], old(df.reasons)), results)
    {
      ghost var m0 := Merged(df.columns[h], df.reasons);
      for j := 0 to |results|
        invariant df.Valid() && df.bodies == old(df.bodies) && h in df.columns
        invariant df.columns == old(df.columns)[h := df.columns[h]]
        invariant Merged(df.columns[h], df.reasons) == MergeResults(m0, results[..j])
      {
        assert results[..j + 1][..j] == results[..j];
        var t := results[j];
        if t.response.success {
          df.columns := df.columns[t.header := df.columns[t.header][t.index := Str(t.response.sentiment)]];
        }
        df.reasons := df.reasons[t.index := df.reasons[t.index] + Line(t.header, t.response)];
      }
      assert results[..|results|] == results;
    }

    /** One label of `_check_sentiment`: zeroes to "", the tagged rows sent,
        the replies merged back in order. */
    method CheckHeader(df: ChatFrame, h: string)
      requires df.Valid() && h in df.columns
      modifies df
      ensures df.Valid() && df.bodies == old(df.bodies)
      ensures Sheet(df.columns, df.reasons) == SentimentStep(analyzer, h, df.bodies, Sheet(old(df.columns), old(df.reasons)))
    {
      var bodies := df.bodies;
      ghost var s0 := Sheet(df.columns, df.reasons);
      ghost var m := HeaderSentiment(analyzer, h, bodies, s0.cols[h], s0.reasons);
      var z := ZeroToString(df.columns[h]);
      df.columns := df.columns[h := z];
      var idx := TaggedRows(z);
      var results := Results(analyzer, h, bodies, idx);
      assert m == MergeResults(Merged(z, s0.reasons), results);
      if idx != [] {
        MergeReplies(df, h, results);
      }
      assert Merged(df.columns[h], df.reasons) == m;
      assert df.columns == s0.cols[h := m.col];
      MergeMatchesStep(analyzer, h, bodies, s0);
    }

    /** `_check_sentiment`: every label in turn. With no label at all the
        source fails at its `return df`, which is then unbound. */
    method CheckSentiment(df: ChatFrame) returns (raised: bool)
      requires df.Valid() && Has(df.columns, UniqueHeaders(table))
      modifies df
      ensures df.Valid() && df.bodies == old(df.bodies)
      ensures raised <==> UniqueHeaders(table) == []
      ensures Sheet(df.columns, df.reasons)
           == SentimentPass(analyzer, UniqueHeaders(table), df.bodies, Sheet(old(df.columns), old(df.reasons)))
    {
      var headers := UniqueHeaders(table);
      ghost var s0 := Sheet(df.columns, df.reasons);
      for k := 0 to |headers|
        invariant df.Valid() && df.bodies == old(df.bodies)
        invariant Sheet(df.columns, df.reasons) == SentimentPass(analyzer, headers[..k], df.bodies, s0)
      {
        SentimentPassStep(analyzer, headers, df.bodies, s0, k);
        CheckHeader(df, headers[k]);
      }
      assert headers[..|headers|] == headers;
      raised := headers == [];
    }

    /** `_get_keywords_for_prompt`: the keywords of the label's rules and the
        alternatives of their required keywords, as a set. */
    method GetKeywordsForPrompt(header: string) returns (words: set<string>)
      ensures forall w :: w in words <==> exists r :: r in RulesOf(table, header) && PromptWord(r, w)
    {
      var keywords: seq<string> := [];
      var matched := RulesOf(table, header);
      for k := 0 to |matched|
        invariant forall w :: w in keywords <==> exists j :: 0 <= j < k && PromptWord(matched[j], w)
      {
        var row := matched[k];
        if row.requiredKeyword != "" {
          keywords := keywords + Split(row.requiredKeyword, '|');
        }
        keywords := keywords + [row.keyword];
      }
      words := set w | w in keywords;
      forall w ensures w in words <==> exists r :: r in matched && PromptWord(r, w)
      {
        if w in words {
          var j :| 0 <= j < |matched| && PromptWord(matched[j], w);
          assert matched[j] in matched;
        }
      }
    }

    /** `process_chat_df` as written: label columns, `_tag_keywords`, sentiment. */
    method ProcessChatDf(df: ChatFrame) returns (raised: bool)
      requires df.Valid()
      modifies df
      ensures df.Valid() && df.bodies == old(df.bodies)
      ensures raised <==> UniqueHeaders(table) == []
      ensures Sheet(df.columns, df.reasons) == ProcessSpec(table, analyzer, df.bodies, old(df.columns), old(df.reasons), true)
    {
      AddHeaderColumns(df);
      TagKeywords(df);
      raised := CheckSentiment(df);
    }

    /** `process_chat_df` with the corrected tagging of `TagKeywordsIntended`. */
    method ProcessChatDfIntended(df: ChatFrame) returns (raised: bool)
      requires df.Valid()
      modifies df
      ensures df.Valid() && df.bodies == old(df.bodies)
      ensures raised <==> UniqueHeaders(table) == []
      ensures Sheet(df.columns, df.reasons) == ProcessSpec(table, analyzer, df.bodies, old(df.columns), old(df.reasons), false)
    {
      AddHeaderColumns(df);
      TagKeywordsIntended(df);
      raised := CheckSentiment(df);
    }
  }

  /** After processing, each label column is the sentiment column of what
      tagging left in it. */
  lemma ProcessedColumn(table: seq<KeywordRule>, analyzer: Analyzer, bodies: seq<Option<string>>,
                        cols: Columns, reasons: seq<string>, lastRuleOnly: bool, h: string)
    requires Fits(cols, |bodies|) && |reasons| == |bodies| && h in UniqueHeaders(table)
    ensures ProcessSpec(table, analyzer, bodies, cols, reasons, lastRuleOnly).cols[h]
         == SentimentColumn(analyzer, h, bodies, Tagged(table, bodies, cols, lastRuleOnly)[h])
  {
    SentimentPassColumns(analyzer, UniqueHeaders(table), bodies, Sheet(Tagged(table, bodies, cols, lastRuleOnly), reasons));
  }

  /** As written, a specific label's cell after processing is "" when the
      label's LAST rule does not match the message, and otherwise the
      analyzer's sentiment, or 1 when the analysis failed. */
  lemma ProcessedSpecificCellAsWritten(table: seq<KeywordRule>, analyzer: Analyzer, bodies: seq<Option<string>>,
                                       cols: Columns, reasons: seq<string>, h: string, i: int)
    requires Fits(cols, |bodies|) && |reasons| == |bodies|
    requires h in NonGenericHeaders(table) && 0 <= i < |bodies|
    ensures RulesOf(table, h) != []
    ensures var rules := RulesOf(table, h);
      var reply := Reply(analyzer, h, bodies, i);
      ProcessSpec(table, analyzer, bodies, cols, reasons, true).cols[h][i]
      == if !RuleMatches(rules[|rules| - 1], bodies[i]) then Str("")
         else if reply.success then Str(reply.sentiment) else Int(1)
  {
    HeadersPartition(table);
    var zeroed := WithZeroColumns(cols, UniqueHeaders(table), |bodies|);
    assert zeroed[h][i] == Int(0);
    AsWrittenSpecificTag(table, bodies, zeroed, h, i);
    ProcessedColumn(table, analyzer, bodies, cols, reasons, true, h);
  }

  /** With the corrected tagging, a specific label's cell after processing
      is "" when none of its rules matches the message, and otherwise the
      analyzer's sentiment, or 1 when the analysis failed. */
  lemma ProcessedSpecificCell(table: seq<KeywordRule>, analyzer: Analyzer, bodies: seq<Option<string>>,
                              cols: Columns, reasons: seq<string>, h: string, i: int)
    requires Fits(cols, |bodies|) && |reasons| == |bodies|
    requires h in NonGenericHeaders(table) && 0 <= i < |bodies|
    ensures var reply := Reply(analyzer, h, bodies, i);
      ProcessSpec(table, analyzer, bodies, cols, reasons, false).cols[h][i]
      == if !AnyRuleMatches(RulesOf(table, h), bodies[i]) then Str("")
         else if reply.success then Str(reply.sentiment) else Int(1)
  {
    HeadersPartition(table);
    var zeroed := WithZeroColumns(cols, UniqueHeaders(table), |bodies|);
    assert zeroed[h][i] == Int(0);
    IntendedSpecificTag(table, bodies, zeroed, h, i);
    ProcessedColumn(table, analyzer, bodies, cols, reasons, false, h);
  }

  /** Two rows holding the same message that a specific label tags are
      analysed by separate calls, and can end with different sentiments. */
  lemma DuplicateMessagesAnsweredApart(table: seq<KeywordRule>, bodies: seq<Option<string>>,
                                       cols: Columns, reasons: seq<string>, h: string, i: nat, j: nat)
    requires Fits(cols, |bodies|) && |reasons| == |bodies|
    requires h in NonGenericHeaders(table) && i < |bodies| && j < |bodies| && i != j
    requires bodies[i] == bodies[j] && AnyRuleMatches(RulesOf(table, h), bodies[i])
    ensures ProcessSpec(table, RowAnalyzer(i), bodies, cols, reasons, false).cols[h][i] == Str("positive")
    ensures ProcessSpec(table, RowAnalyzer(i), bodies, cols, reasons, false).cols[h][j] == Str("negative")
  {
    RepliesPerRow(h, bodies, i, j);
    ProcessedSpecificCell(table, RowAnalyzer(i), bodies, cols, reasons, h, i);
    ProcessedSpecificCell(table, RowAnalyzer(i), bodies, cols, reasons, h, j);
  }

  /** After processing, a generic label's cell is "" when a sibling label
      was tagged on the message or none of its rules matches, and otherwise
      the analyzer's sentiment, or 1 when the analysis failed; the siblings'
      tags are those of the same tagging. */
  lemma ProcessedGenericCell(table: seq<KeywordRule>, analyzer: Analyzer, bodies: seq<Option<string>>,
                             cols: Columns, reasons: seq<string>, lastRuleOnly: bool, g: string, i: int)
    requires Fits(cols, |bodies|) && |reasons| == |bodies|
    requires g in GenericHeaders(table) && 0 <= i < |bodies|
    ensures var tagged := Tagged(table, bodies, cols, lastRuleOnly);
      var blocked := exists s :: s in Siblings(g, NonGenericHeaders(table)) && Truthy(tagged[s][i]);
      var reply := Reply(analyzer, g, bodies, i);
      ProcessSpec(table, analyzer, bodies, cols, reasons, lastRuleOnly).cols[g][i]
      == if blocked || !AnyRuleMatches(RulesOf(table, g), bodies[i]) then Str("")
         else if reply.success then Str(reply.sentiment) else Int(1)
  {
    HeadersPartition(table);
    var zeroed := WithZeroColumns(cols, UniqueHeaders(table), |bodies|);
    assert zeroed[g][i] == Int(0);
    GenericTag(table, bodies, zeroed, lastRuleOnly, g, i);
    ProcessedColumn(table, analyzer, bodies, cols, reasons, lastRuleOnly, g);
  }

  /** After processing, each row's reason is its old reason followed, in
      label order, by one line for each label that tagged the row. */
  lemma ProcessedReason(table: seq<KeywordRule>, analyzer: Analyzer, bodies: seq<Option<string>>,
                        cols: Columns, reasons: seq<string>, lastRuleOnly: bool, i: int)
    requires Fits(cols, |bodies|) && |reasons| == |bodies| && 0 <= i < |bodies|
    ensures ProcessSpec(table, analyzer, bodies, cols, reasons, lastRuleOnly).reasons[i]
         == ReasonAfter(analyzer, UniqueHeaders(table), bodies, Tagged(table, bodies, cols, lastRuleOnly), i, reasons[i])
  {
    SentimentPassReasons(analyzer, UniqueHeaders(table), bodies, Sheet(Tagged(table, bodies, cols, lastRuleOnly), reasons));
  }

  /** The whole pipeline on label `B_P` with rules `a` then `b` and the
      message "a": as written the cell ends as "" and no reason is added,
      while the corrected pipeline sends the row to the analyzer, records
      its answer and appends a reason line. */
  lemma ProcessLastRuleCounterexample(table: seq<KeywordRule>, analyzer: Analyzer, bodies: seq<Option<string>>)
    requires table == [KeywordRule("B", "P", "a", "", "", "B_P"), KeywordRule("B", "P", "b", "", "", "B_P")]
    requires bodies == [Some("a")]
    ensures var asWritten := ProcessSpec(table, analyzer, bodies, map[], [""], true);
      asWritten.cols["B_P"][0] == Str("") && asWritten.reasons[0] == ""
    ensures var intended := ProcessSpec(table, analyzer, bodies, map[], [""], false);
      var reply := Reply(analyzer, "B_P", bodies, 0);
      intended.cols["B_P"][0] == (if reply.success then Str(reply.sentiment) else Int(1))
      && intended.reasons[0] == Line("B_P", reply)
  {
    SingleLabelZeroed(table);
    LastRuleCounterexample(table, bodies, map["B_P" := [Int(0)]]);
    ProcessedAtSingleLabel(table, analyzer, bodies, true);
    ProcessedAtSingleLabel(table, analyzer, bodies, false);
  }

  lemma SingleLabelZeroed(table: seq<KeywordRule>)
    requires table == [KeywordRule("B", "P", "a", "", "", "B_P"), KeywordRule("B", "P", "b", "", "", "B_P")]
    ensures UniqueHeaders(table) == ["B_P"]
    ensures WithZeroColumns(map[], UniqueHeaders(table), 1) == map["B_P" := [Int(0)]]
  {
    NoOtherLabel(table);
    var zeroed := WithZeroColumns(map[], ["B_P"], 1);
    assert (set h | h in ["B_P"]) == {"B_P"};
    assert zeroed.Keys == {"B_P"} && zeroed["B_P"] == [Int(0)];
  }

  /** With the one label `B_P` and one message, the processed cell and the
      reason follow the tag tagging left in that cell. */
  lemma ProcessedAtSingleLabel(table: seq<KeywordRule>, analyzer: Analyzer, bodies: seq<Option<string>>, lastRuleOnly: bool)
    requires UniqueHeaders(table) == ["B_P"] && |bodies| == 1
    requires WithZeroColumns(map[], UniqueHeaders(table), 1) == map["B_P" := [Int(0)]]
    ensures var t := TagSpec(table, bodies, map["B_P" := [Int(0)]], lastRuleOnly);
      var p := ProcessSpec(table, analyzer, bodies, map[], [""], lastRuleOnly);
      p.cols["B_P"][0] == SentimentColumn(analyzer, "B_P", bodies, t["B_P"])[0]
      && p.reasons[0] == ReasonLine(analyzer, "B_P", bodies, t["B_P"], 0)
  {
    ProcessedColumn(table, analyzer, bodies, map[], [""], lastRuleOnly, "B_P");
    ProcessedReason(table, analyzer, bodies, map[], [""], lastRuleOnly, 0);
    assert ["B_P"][..0] == [];
  }
}
