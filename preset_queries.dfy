/** Preset queries (preset_queries.py): matchers that decide whether a user
    utterance calls for a preset question, and the manager that keeps the
    presets and lists those an utterance matches. Embedding the utterance
    and the embedding similarity test (`np.dot`) are oracle arguments. */
module PresetQueries {
  import opened Base
  import opened Text

  /** `UserUtterance` */
  datatype Utterance = Utterance(query: string, embedding: seq<real>)

  /** `KeywordMatcher` and `EmbeddingSimilarityMatcher`. */
  datatype Matcher =
    | KeywordMatcher(keywords: seq<string>, ignoreCase: bool)
    | EmbeddingMatcher(embedding: seq<real>, minThresh: real)

  /** `np.dot(a, b) >= thresh` */
  type DotAtLeast = (seq<real>, seq<real>, real) -> bool

  /** `KeywordMatcher.matches_utterance`: some keyword occurs in the query,
      both lowered first when case is ignored. */
  predicate KeywordMatches(keywords: seq<string>, ignoreCase: bool, query: string)
  {
    if ignoreCase then exists k | 0 <= k < |keywords| :: Contains(Lower(query), Lower(keywords[k]))
    else exists k | 0 <= k < |keywords| :: Contains(query, keywords[k])
  }

  /** `matches_utterance` of either matcher. */
  predicate MatchesUtterance(m: Matcher, u: Utterance, dot: DotAtLeast)
  {
    match m
    case KeywordMatcher(keywords, ignoreCase) => KeywordMatches(keywords, ignoreCase, u.query)
    case EmbeddingMatcher(e, t) => dot(e, u.embedding, t)
  }

  /** `PresetQuery` */
  datatype PresetQuery = PresetQuery(presetQuestion: string, embedding: seq<real>, requiredMatchers: seq<Matcher>)

  /** `PresetQuery.matches`: every required matcher matches. */
  predicate Matches(q: PresetQuery, u: Utterance, dot: DotAtLeast)
  {
    forall k | 0 <= k < |q.requiredMatchers| :: MatchesUtterance(q.requiredMatchers[k], u, dot)
  }

  /** An empty keyword list never matches; a preset without matchers
      matches every utterance. */
  lemma EmptyCases(ignoreCase: bool, u: Utterance, question: string, e: seq<real>, dot: DotAtLeast)
    ensures !KeywordMatches([], ignoreCase, u.query)
    ensures Matches(PresetQuery(question, e, []), u, dot)
  {
  }

  /** Lowering twice is lowering once. */
  lemma LowerIdempotent(s: string)
    ensures Lower(Lower(s)) == Lower(s)
  {
    assert forall i :: 0 <= i < |s| ==> LowerChar(LowerChar(s[i])) == LowerChar(s[i]);
  }

  /** Lowering commutes with taking a slice. */
  lemma LowerSlice(s: string, i: nat, j: nat)
    requires i <= j <= |s|
    ensures Lower(s[i..j]) == Lower(s)[i..j]
  {
  }

  /** A substring stays a substring once both are lowered. */
  lemma ContainsLower(s: string, sub: string)
    requires Contains(s, sub)
    ensures Contains(Lower(s), Lower(sub))
  {
    var i :| 0 <= i <= |s| - |sub| && OccursAt(s, sub, i);
    LowerSlice(s, i, i + |sub|);
    assert OccursAt(Lower(s), Lower(sub), i);
  }

  /** With case ignored, a query matches exactly when its lowered form
      does; and whatever matches with case kept also matches with case
      ignored. */
  lemma IgnoreCaseProperties(keywords: seq<string>, query: string)
    ensures KeywordMatches(keywords, true, Lower(query)) == KeywordMatches(keywords, true, query)
    ensures KeywordMatches(keywords, false, query) ==> KeywordMatches(keywords, true, query)
  {
    LowerIdempotent(query);
    if KeywordMatches(keywords, false, query) {
      var k :| 0 <= k < |keywords| && Contains(query, keywords[k]);
      ContainsLower(query, keywords[k]);
    }
  }

  /** For example, "Hello" matches the keyword "hell" only when case is
      ignored. */
  lemma CaseExample()
    ensures KeywordMatches(["hell"], true, "Hello")
    ensures !KeywordMatches(["hell"], false, "Hello")
  {
    assert Lower("Hello") == "hello";
    assert Lower("hell") == "hell";
    assert OccursAt("hello", "hell", 0);
    forall i | 0 <= i <= 1
      ensures !OccursAt("Hello", "hell", i)
    {
      assert "Hello"[i..i + 4][0] == "Hello"[i] != 'h';
    }
    assert !Contains("Hello", "hell");
    assert ["hell"][0] == "hell";
  }

  /** The presets an utterance matches, in insertion order. */
  function MatchingQueries(all: seq<PresetQuery>, u: Utterance, dot: DotAtLeast): seq<PresetQuery>
  {
    if all == [] then []
    else (if Matches(all[0], u, dot) then [all[0]] else []) + MatchingQueries(all[1..], u, dot)
  }

  /** One step of `MatchingQueries` from position `i`. */
  lemma MatchingStep(all: seq<PresetQuery>, i: nat, u: Utterance, dot: DotAtLeast)
    requires i < |all|
    ensures MatchingQueries(all[i..], u, dot)
            == (if Matches(all[i], u, dot) then [all[i]] else []) + MatchingQueries(all[i + 1..], u, dot)
  {
    assert all[i..][0] == all[i] && all[i..][1..] == all[i + 1..];
  }

  /** The matching presets are a subsequence of all presets holding
      exactly those that match. */
  lemma {:induction false} MatchingQueriesSpec(all: seq<PresetQuery>, u: Utterance, dot: DotAtLeast)
    ensures IsSubsequence(MatchingQueries(all, u, dot), all)
    ensures forall q :: q in MatchingQueries(all, u, dot) <==> q in all && Matches(q, u, dot)
    decreases |all|
  {
    if all == [] {
      assert IsSubsequenceWitness([], [], all);
    } else {
      MatchingQueriesSpec(all[1..], u, dot);
      SubsequenceCons(MatchingQueries(all[1..], u, dot), all[1..], all[0]);
      assert all == [all[0]] + all[1..];
    }
  }

  /** `PresetQueryManager`: the presets in insertion order. */
  class PresetQueryManager {
    var allQueries: seq<PresetQuery>

    constructor ()
      ensures allQueries == []
    {
      allQueries := [];
    }

    /** `add_query` */
    method AddQuery(q: PresetQuery)
      modifies this
      ensures allQueries == old(allQueries) + [q]
    {
      allQueries := allQueries + [q];
    }

    /** `get_all_matching_user_utterance`, given the utterance's
        embedding. */
    method GetAllMatchingUserUtterance(utterance: string, embedding: seq<real>, dot: DotAtLeast)
      returns (ret: seq<PresetQuery>)
      ensures ret == MatchingQueries(allQueries, Utterance(utterance, embedding), dot)
    {
      var u := Utterance(utterance, embedding);
      ret := [];
      for i := 0 to |allQueries|
        invariant MatchingQueries(allQueries, u, dot) == ret + MatchingQueries(allQueries[i..], u, dot)
      {
        ghost var rest := MatchingQueries(allQueries[i + 1..], u, dot);
        ghost var head := if Matches(allQueries[i], u, dot) then [allQueries[i]] else [];
        assert MatchingQueries(allQueries[i..], u, dot) == head + rest by {
          MatchingStep(allQueries, i, u, dot);
        }
        assert ret + (head + rest) == (ret + head) + rest;
        if Matches(allQueries[i], u, dot) {
          ret := ret + [allQueries[i]];
        } else {
          assert ret + head == ret;
        }
      }
      assert allQueries[|allQueries|..] == [];
    }
  }

  /** Adding a preset that matches puts it last among the matches; one
      that does not leaves the matches unchanged. */
  lemma {:induction false} MatchingAfterAdd(all: seq<PresetQuery>, q: PresetQuery, u: Utterance, dot: DotAtLeast)
    ensures MatchingQueries(all + [q], u, dot)
            == MatchingQueries(all, u, dot) + (if Matches(q, u, dot) then [q] else [])
    decreases |all|
  {
    if all == [] {
      assert [] + [q] == [q];
      assert [q][1..] == [];
    } else {
      assert (all + [q])[0] == all[0];
      assert (all + [q])[1..] == all[1..] + [q];
      MatchingAfterAdd(all[1..], q, u, dot);
    }
  }
}
