/** tools/aho.py: an Aho-Corasick automaton over the configured keywords and
    the required/exclude/include test on the keywords it finds in a text.
    The automaton is modelled by the words added to it; searching a text
    finds exactly the added, non-empty words that occur in the text. */
module Aho {
  import opened Seqs
  import opened Text

  class Automaton {
    /** The added keys, each once, in the order first added. */
    var words: seq<string>

    constructor ()
      ensures words == []
    {
      words := [];
    }

    /** `add_word(key, key)`: a key already present is only re-valued. */
    method AddWord(w: string)
      modifies this
      ensures words == if w in old(words) then old(words) else old(words) + [w]
    {
      if w !in words {
        words := words + [w];
      }
    }

    /** The keywords `iter(s)` reports, each once. */
    function Found(s: string): (r: seq<string>)
      reads this
      ensures forall w :: w in r <==> w in words && w != "" && Contains(s, w)
    {
      Filter(words, (w: string) => w != "" && Contains(s, w))
    }
  }

  /** `build_automaton`: every keyword added in order. */
  method BuildAutomaton(keywords: seq<string>) returns (a: Automaton)
    ensures fresh(a)
    ensures a.words == Dedup(keywords)
  {
    a := new Automaton();
    for k := 0 to |keywords|
      invariant a.words == Dedup(keywords[..k])
    {
      assert keywords[..k + 1][..k] == keywords[..k];
      a.AddWord(keywords[k]);
    }
    assert keywords[..|keywords|] == keywords;
  }

  /** The built automaton finds a non-empty keyword in a text exactly when
      it was among the keywords and occurs in the text. */
  lemma BuiltAutomatonFinds(keywords: seq<string>, a: Automaton, s: string, w: string)
    requires a.words == Dedup(keywords)
    ensures w in a.Found(s) <==> w in keywords && w != "" && Contains(s, w)
  {
  }

  datatype KeywordConfig = KeywordConfig(required: seq<string>, excluded: seq<string>, included: seq<string>)

  /** The test `matches_keyword_aho` makes, as one condition: some found
      keyword is required (when any is), none is excluded, and some is
      included (when any is). */
  predicate Accepts(found: seq<string>, config: KeywordConfig) {
    (config.required == [] || exists w :: w in found && w in config.required)
    && (forall w :: w in found ==> w !in config.excluded)
    && (config.included == [] || exists w :: w in found && w in config.included)
  }

  /** `matches_keyword_aho`: the required, exclude and include checks in
      turn, each a pass over the found keywords, returning early. */
  method MatchesKeywordAho(input: string, config: KeywordConfig, automaton: Automaton) returns (r: bool)
    ensures r == Accepts(automaton.Found(input), config)
  {
    if config.required != [] {
      var requiredMatches: set<string> := {};
      var found := automaton.Found(input);
      for k := 0 to |found|
        invariant requiredMatches == set j | 0 <= j < k && found[j] in config.required :: found[j]
        invariant requiredMatches == {} <==> forall j :: 0 <= j < k ==> found[j] !in config.required
      {
        if found[k] in config.required {
          requiredMatches := requiredMatches + {found[k]};
        }
      }
      if requiredMatches == {} {
        return false;
      }
    }
    var found := automaton.Found(input);
    for k := 0 to |found|
      invariant forall j :: 0 <= j < k ==> found[j] !in config.excluded
    {
      if found[k] in config.excluded {
        return false;
      }
    }
    if config.included != [] {
      var includeMatches := false;
      var k := 0;
      while k < |found|
        invariant 0 <= k <= |found|
        invariant !includeMatches
        invariant forall j :: 0 <= j < k ==> found[j] !in config.included
      {
        if found[k] in config.included {
          includeMatches := true;
          break;
        }
        k := k + 1;
      }
      if !includeMatches {
        return false;
      }
    }
    return true;
  }

  /** With nothing required, excluded or included, every text passes. */
  lemma EmptyConfigAccepts(found: seq<string>)
    ensures Accepts(found, KeywordConfig([], [], []))
  {
  }

  /** Only added keywords matter: two configurations that agree on the
      automaton's words, and on which lists are empty, judge every text
      alike, so a configured keyword never added to the automaton can
      neither satisfy `required` or `include` nor trigger `exclude`. */
  lemma OnlyAddedKeywordsMatter(a: Automaton, s: string, c1: KeywordConfig, c2: KeywordConfig)
    requires (c1.required == []) == (c2.required == []) && (c1.included == []) == (c2.included == [])
    requires forall w :: w in a.words ==>
      (w in c1.required <==> w in c2.required) && (w in c1.excluded <==> w in c2.excluded)
      && (w in c1.included <==> w in c2.included)
    ensures Accepts(a.Found(s), c1) == Accepts(a.Found(s), c2)
  {
    var found := a.Found(s);
    assert forall w :: w in found ==> w in a.words;
  }

  /** A keyword that was never added cannot be what satisfies `required`. */
  lemma UnaddedRequiredFails(a: Automaton, s: string, config: KeywordConfig)
    requires config.required != []
    requires forall w :: w in config.required ==> w !in a.words
    ensures !Accepts(a.Found(s), config)
  {
    assert forall w :: w in a.Found(s) ==> w in a.words;
  }
}
