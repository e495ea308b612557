/** The greedy subsequence matcher behind contact search. */
module Fuzzy {

  /** The positions `e` spell out `query` in `target`, from left to right. */
  ghost predicate Embeds(e: seq<nat>, query: string, target: string) {
    && |e| == |query|
    && (forall i :: 0 <= i < |e| ==> e[i] < |target| && target[e[i]] == query[i])
    && (forall i, j :: 0 <= i < j < |e| ==> e[i] < e[j])
  }

  /** How many characters lie unmatched before the last match. */
  ghost function Skipped(e: seq<nat>): int {
    if e == [] then 0 else e[|e| - 1] + 1 - |e|
  }

  /** Greedy positions `e` are nowhere behind `f`, and `f` has its next match at or after `ti`. */
  ghost predicate Ahead(e: seq<nat>, f: seq<nat>, ti: nat) {
    && |e| <= |f|
    && (forall i :: 0 <= i < |e| ==> e[i] <= f[i])
    && (|e| < |f| ==> ti <= f[|e|])
  }

  lemma MatchKeepsAhead(e: seq<nat>, f: seq<nat>, query: string, target: string, ti: nat)
    requires Embeds(f, query, target) && Ahead(e, f, ti) && |e| < |query| && ti < |target|
    ensures target[ti] == query[|e|] ==> Ahead(e + [ti], f, ti + 1)
    ensures target[ti] != query[|e|] ==> Ahead(e, f, ti + 1)
  {
  }

  lemma MatchExtends(e: seq<nat>, query: string, target: string, qi: nat, ti: nat)
    requires qi < |query| && ti < |target| && Embeds(e, query[..qi], target[..ti])
    ensures target[ti] == query[qi] ==> Embeds(e + [ti], query[..qi + 1], target[..ti + 1])
    ensures Embeds(e, query[..qi], target[..ti + 1])
  {
  }

  lemma WholeTarget(e: seq<nat>, query: string, target: string, ti: nat)
    requires ti <= |target| && Embeds(e, query, target[..ti])
    ensures Embeds(e, query, target)
  {
  }

  /** No way to match the query is ahead of the greedy positions `e`. */
  ghost predicate Greedy(e: seq<nat>, query: string, target: string, ti: nat) {
    forall f: seq<nat> :: Embeds(f, query, target) ==> Ahead(e, f, ti)
  }

  /** The state of the scan before target[ti]: the first qi characters are matched at `e`. */
  ghost predicate Scanned(e: seq<nat>, query: string, target: string, qi: nat, ti: nat, lastMatch: int, score: int) {
    && qi <= |query| && ti <= |target|
    && Embeds(e, query[..qi], target[..ti]) && Greedy(e, query, target, ti)
    && lastMatch == (if qi == 0 then -1 else e[qi - 1])
    && score == Skipped(e)
  }

  lemma ScanStarts(query: string, target: string)
    ensures Scanned([], query, target, 0, 0, -1, 0)
  {
  }

  lemma GreedyStep(e: seq<nat>, query: string, target: string, ti: nat)
    requires Greedy(e, query, target, ti) && |e| < |query| && ti < |target|
    ensures Greedy(if target[ti] == query[|e|] then e + [ti] else e, query, target, ti + 1)
  {
    forall f: seq<nat> | Embeds(f, query, target)
      ensures Ahead(if target[ti] == query[|e|] then e + [ti] else e, f, ti + 1)
    {
      MatchKeepsAhead(e, f, query, target, ti);
    }
  }

  lemma ScanMatch(e: seq<nat>, query: string, target: string, qi: nat, ti: nat, lastMatch: int, score: int)
    requires Scanned(e, query, target, qi, ti, lastMatch, score) && qi < |query| && ti < |target|
    requires target[ti] == query[qi]
    ensures Scanned(e + [ti], query, target, qi + 1, ti + 1, ti,
                    if lastMatch >= 0 then score + ti - lastMatch - 1 else score + ti)
  {
    MatchExtends(e, query, target, qi, ti);
    GreedyStep(e, query, target, ti);
  }

  lemma ScanSkip(e: seq<nat>, query: string, target: string, qi: nat, ti: nat, lastMatch: int, score: int)
    requires Scanned(e, query, target, qi, ti, lastMatch, score) && qi < |query| && ti < |target|
    requires target[ti] != query[qi]
    ensures Scanned(e, query, target, qi, ti + 1, lastMatch, score)
  {
    MatchExtends(e, query, target, qi, ti);
    GreedyStep(e, query, target, ti);
  }

  ghost predicate Matches(query: string, target: string) {
    exists e: seq<nat> :: Embeds(e, query, target)
  }

  /** The least number of skipped characters over all ways to match the query. */
  ghost predicate Least(score: int, query: string, target: string) {
    && (exists e: seq<nat> :: Embeds(e, query, target) && score == Skipped(e))
    && (forall e: seq<nat> :: Embeds(e, query, target) ==> score <= Skipped(e))
  }

  /** An unfinished scan of the whole target means that there is no match. */
  lemma ScanFails(e: seq<nat>, query: string, target: string, qi: nat, lastMatch: int, score: int)
    requires Scanned(e, query, target, qi, |target|, lastMatch, score) && qi < |query|
    ensures !Matches(query, target)
  {
    forall f: seq<nat> ensures !Embeds(f, query, target) {
      assert Embeds(f, query, target) ==> Ahead(e, f, |target|);
    }
  }

  lemma ScanSucceeds(e: seq<nat>, query: string, target: string, ti: nat, lastMatch: int, score: int)
    requires Scanned(e, query, target, |query|, ti, lastMatch, score)
    ensures Matches(query, target) && Least(score, query, target)
  {
    assert query[..|query|] == query;
    WholeTarget(e, query, target, ti);
    forall f: seq<nat> | Embeds(f, query, target) ensures score <= Skipped(f) {
      assert Ahead(e, f, ti);
    }
  }

  /**
    fuzzyScore: it succeeds exactly when the query is a subsequence of the target, and
    its score is the least number of skipped characters over all ways to match it.
   */
  method FuzzyScore(query: string, target: string) returns (score: int, ok: bool)
    ensures ok <==> Matches(query, target)
    ensures ok ==> Least(score, query, target)
    ensures !ok ==> score == 0
  {
    var qi := 0;
    score := 0;
    var lastMatch := -1;
    var ti := 0;
    ghost var e: seq<nat> := [];
    ScanStarts(query, target);
    while ti < |target| && qi < |query|
      invariant 0 <= ti <= |target| && 0 <= qi <= |query|
      invariant Scanned(e, query, target, qi, ti, lastMatch, score)
    {
      if target[ti] == query[qi] {
        ScanMatch(e, query, target, qi, ti, lastMatch, score);
        if lastMatch >= 0 {
          score := score + ti - lastMatch - 1;
        } else {
          score := score + ti;
        }
        lastMatch := ti;
        qi := qi + 1;
        e := e + [ti];
      } else {
        ScanSkip(e, query, target, qi, ti, lastMatch, score);
      }
      ti := ti + 1;
    }
    if qi != |query| {
      ScanFails(e, query, target, qi, lastMatch, score);
      return 0, false;
    }
    ScanSucceeds(e, query, target, ti, lastMatch, score);
    ok := true;
  }
}
