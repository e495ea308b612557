/**
  Connection candidates: the stable priority sort, the deduplication that follows it,
  and the stage loop that dials the best few.
 */
module Candidates {
  import opened Text

  datatype Kind = Host | Srflx

  datatype Candidate = Candidate(
    id: string, kind: Kind, ip: string, port: int, transport: string, priority: int)

  // ---------------------------------------------------------------------------
  // The order of candidates.
  // ---------------------------------------------------------------------------

  /** Text order, character by character. */
  predicate TextLess(a: string, b: string) {
    if b == [] then false
    else if a == [] then true
    else if a[0] != b[0] then a[0] < b[0]
    else TextLess(a[1..], b[1..])
  }

  lemma {:induction false} TextLessTotal(a: string, b: string)
    ensures TextLess(a, b) || TextLess(b, a) || a == b
    ensures !(TextLess(a, b) && TextLess(b, a)) && !TextLess(a, a)
    decreases |a|
  {
    if a != [] {
      TextLessTotal(a[1..], if b == [] then [] else b[1..]);
      if b != [] && a[0] == b[0] && a[1..] == b[1..] {
        assert a == [a[0]] + a[1..] && b == [b[0]] + b[1..];
      }
    }
  }

  lemma {:induction false} TextLessTransitive(a: string, b: string, c: string)
    requires TextLess(a, b) && TextLess(b, c)
    ensures TextLess(a, c)
    decreases |a|
  {
    if a != [] && a[0] == b[0] == c[0] {
      TextLessTransitive(a[1..], b[1..], c[1..]);
    }
  }

  /** Higher priority first, then by ID. */
  predicate Before(a: Candidate, b: Candidate) {
    if a.priority != b.priority then a.priority > b.priority else TextLess(a.id, b.id)
  }

  /** Text order, independently: the first difference decides, and a prefix comes first. */
  lemma {:induction false} TextLessMeaning(a: string, b: string)
    ensures TextLess(a, b) <==>
            exists k :: 0 <= k <= |a| && k < |b| && a[..k] == b[..k] && (k == |a| || a[k] < b[k])
    decreases |a|
  {
    if a != [] && b != [] && a[0] == b[0] {
      var x, y := a[1..], b[1..];
      TextLessMeaning(x, y);
      if TextLess(a, b) {
        var k :| 0 <= k <= |x| && k < |y| && x[..k] == y[..k] && (k == |x| || x[k] < y[k]);
        assert a[..k + 1] == [a[0]] + x[..k] && b[..k + 1] == [b[0]] + y[..k];
        assert a[..k + 1] == b[..k + 1] && (k + 1 == |a| || a[k + 1] < b[k + 1]);
      }
      if k :| 0 <= k <= |a| && k < |b| && a[..k] == b[..k] && (k == |a| || a[k] < b[k]) {
        assert k > 0;
        assert x[..k - 1] == a[..k][1..] && y[..k - 1] == b[..k][1..];
        assert k - 1 == |x| || x[k - 1] < y[k - 1];
      }
    } else if b != [] {
      assert a[..0] == b[..0];
      forall k | 0 < k <= |a| && k < |b| ensures a[..k] != b[..k] {
        assert a[..k][0] == a[0] && b[..k][0] == b[0];
      }
    }
  }

  /** What being sorted means: priorities fall, and IDs rise among equal ones. */
  lemma SortedMeaning(s: seq<Candidate>, i: nat, j: nat)
    requires Sorted(s) && i < j < |s|
    ensures s[i].priority > s[j].priority
            || (s[i].priority == s[j].priority && (s[i].id == s[j].id || TextLess(s[i].id, s[j].id)))
  {
    assert !Before(s[j], s[i]);
    TextLessTotal(s[i].id, s[j].id);
  }

  predicate SameRank(a: Candidate, b: Candidate) { a.priority == b.priority && a.id == b.id }

  lemma BeforeIsOrder(a: Candidate, b: Candidate, c: Candidate)
    ensures Before(a, b) || Before(b, a) <==> !SameRank(a, b)
    ensures !(Before(a, b) && Before(b, a))
    ensures !Before(b, a) && !Before(c, b) ==> !Before(c, a)
  {
    TextLessTotal(a.id, b.id);
    TextLessTotal(b.id, c.id);
    TextLessTotal(a.id, c.id);
    if TextLess(c.id, a.id) {
      if TextLess(a.id, b.id) {
        TextLessTransitive(c.id, a.id, b.id);
      }
      if TextLess(b.id, c.id) {
        TextLessTransitive(b.id, c.id, a.id);
      }
    }
  }

  predicate Sorted(s: seq<Candidate>) {
    forall i, j :: 0 <= i < j < |s| ==> !Before(s[j], s[i])
  }

  // ---------------------------------------------------------------------------
  // Prioritize.
  // ---------------------------------------------------------------------------

  function Inserted(s: seq<Candidate>, x: Candidate): seq<Candidate> {
    if s != [] && Before(x, s[|s| - 1]) then Inserted(s[..|s| - 1], x) + [s[|s| - 1]] else s + [x]
  }

  /** What a stable sort by `Before` makes of a list. */
  function StableSorted(s: seq<Candidate>): seq<Candidate> {
    if s == [] then [] else Inserted(StableSorted(s[..|s| - 1]), s[|s| - 1])
  }

  /** The candidates of x's rank, in their order. */
  function Peers(s: seq<Candidate>, x: Candidate): seq<Candidate> {
    if s == [] then []
    else Peers(s[..|s| - 1], x) + (if SameRank(s[|s| - 1], x) then [s[|s| - 1]] else [])
  }

  lemma {:induction false} InsertedElements(s: seq<Candidate>, x: Candidate)
    ensures multiset(Inserted(s, x)) == multiset(s) + multiset{x}
    ensures forall c :: c in Inserted(s, x) ==> c == x || c in s
  {
    if s != [] && Before(x, s[|s| - 1]) {
      InsertedElements(s[..|s| - 1], x);
      assert s == s[..|s| - 1] + [s[|s| - 1]];
    }
  }

  lemma SortedAppend(s: seq<Candidate>, last: Candidate)
    requires Sorted(s) && forall c :: c in s ==> !Before(last, c)
    ensures Sorted(s + [last])
  {
  }

  lemma {:induction false} InsertedSorted(s: seq<Candidate>, x: Candidate)
    requires Sorted(s)
    ensures Sorted(Inserted(s, x))
  {
    if s == [] {
    } else if Before(x, s[|s| - 1]) {
      var init, last := s[..|s| - 1], s[|s| - 1];
      InsertedSorted(init, x);
      InsertedElements(init, x);
      BeforeIsOrder(x, last, x);
      SortedAppend(Inserted(init, x), last);
    } else {
      forall c | c in s ensures !Before(x, c) {
        BeforeIsOrder(c, s[|s| - 1], x);
        BeforeIsOrder(c, c, c);
      }
      SortedAppend(s, x);
    }
  }

  lemma {:induction false} InsertedStable(s: seq<Candidate>, x: Candidate, y: Candidate)
    ensures Peers(Inserted(s, x), y) == Peers(s, y) + (if SameRank(x, y) then [x] else [])
  {
    if s != [] && Before(x, s[|s| - 1]) {
      var init, last := s[..|s| - 1], s[|s| - 1];
      InsertedStable(init, x, y);
      var r := Inserted(s, x);
      assert r[..|r| - 1] == Inserted(init, x);
      BeforeIsOrder(x, last, x);
    } else {
      assert (s + [x])[..|s|] == s;
    }
  }

  /** The sort yields a sorted permutation that keeps the order within each rank. */
  lemma {:induction false} StableSortedMeaning(s: seq<Candidate>, y: Candidate)
    ensures Sorted(StableSorted(s))
    ensures multiset(StableSorted(s)) == multiset(s)
    ensures Peers(StableSorted(s), y) == Peers(s, y)
  {
    if s != [] {
      var init, last := s[..|s| - 1], s[|s| - 1];
      assert s == init + [last];
      StableSortedMeaning(init, y);
      InsertedSorted(StableSorted(init), last);
      InsertedElements(StableSorted(init), last);
      InsertedStable(StableSorted(init), last, y);
    }
  }

  lemma {:induction false} PeersFirst(s: seq<Candidate>, x: Candidate)
    requires s != []
    ensures Peers(s, x) == (if SameRank(s[0], x) then [s[0]] else []) + Peers(s[1..], x)
    decreases |s|
  {
    var init := s[..|s| - 1];
    if |s| > 1 {
      PeersFirst(init, x);
      assert s[1..][..|s| - 2] == init[1..];
    }
  }

  lemma {:induction false} PeersAreMembers(s: seq<Candidate>, x: Candidate)
    ensures forall c :: c in Peers(s, x) ==> c in s && SameRank(c, x)
  {
    if s != [] {
      PeersAreMembers(s[..|s| - 1], x);
    }
  }

  /** Two lists agree rank by rank. */
  ghost predicate SamePeers(s: seq<Candidate>, t: seq<Candidate>) {
    forall x: Candidate :: Peers(s, x) == Peers(t, x)
  }

  /** Any stable sort gives this result: a sorted list is determined by its ranks' lists. */
  lemma {:induction false} StableSortUnique(s: seq<Candidate>, t: seq<Candidate>)
    requires Sorted(s) && Sorted(t) && SamePeers(s, t)
    ensures s == t
    decreases |s|
  {
    if s != [] && t != [] {
      HeadsAgree(s, t);
      TailsAgree(s, t);
      StableSortUnique(s[1..], t[1..]);
      assert s == [s[0]] + s[1..] && t == [t[0]] + t[1..];
    } else if s != [] {
      PeersFirst(s, s[0]);
    } else if t != [] {
      PeersFirst(t, t[0]);
    }
  }

  lemma HeadsAgree(s: seq<Candidate>, t: seq<Candidate>)
    requires Sorted(s) && Sorted(t) && s != [] && t != []
    requires Peers(s, s[0]) == Peers(t, s[0]) && Peers(s, t[0]) == Peers(t, t[0])
    ensures s[0] == t[0]
  {
    HeadIsPeer(s);
    HeadIsPeer(t);
    PeersAreMembers(t, s[0]);
    PeersAreMembers(s, t[0]);
    BeforeIsOrder(s[0], t[0], s[0]);
    BeforeIsOrder(s[0], s[0], s[0]);
    BeforeIsOrder(t[0], t[0], t[0]);
    assert SameRank(s[0], t[0]);
    PeersFirst(t, s[0]);
  }

  lemma HeadIsPeer(s: seq<Candidate>)
    requires s != []
    ensures Peers(s, s[0]) != [] && Peers(s, s[0])[0] == s[0] && s[0] in Peers(s, s[0])
  {
  }

  lemma TailsAgree(s: seq<Candidate>, t: seq<Candidate>)
    requires s != [] && t != [] && s[0] == t[0] && SamePeers(s, t)
    ensures SamePeers(s[1..], t[1..])
  {
    forall x: Candidate ensures Peers(s[1..], x) == Peers(t[1..], x) {
      PeersFirst(s, x);
      PeersFirst(t, x);
      var n := if SameRank(s[0], x) then 1 else 0;
      assert Peers(s[1..], x) == Peers(s, x)[n..] && Peers(t[1..], x) == Peers(t, x)[n..];
    }
  }

  lemma SortIsStable(s: seq<Candidate>)
    ensures SamePeers(StableSorted(s), s)
  {
    forall x: Candidate ensures Peers(StableSorted(s), x) == Peers(s, x) {
      StableSortedMeaning(s, x);
    }
  }

  /**
    Prioritize: the library's stable sort, in place.  The slice becomes sorted, keeps its
    elements and keeps the order of candidates of equal rank.
   */
  method Prioritize(cands: array<Candidate>)
    modifies cands
    ensures Sorted(cands[..]) && multiset(cands[..]) == multiset(old(cands[..]))
    ensures SamePeers(cands[..], old(cands[..]))
  {
    var sorted := StableSorted(cands[..]);
    SortKeepsElements(cands[..]);
    SortIsStable(cands[..]);
    forall i | 0 <= i < cands.Length {
      cands[i] := sorted[i];
    }
    assert cands[..] == sorted;
  }

  // ---------------------------------------------------------------------------
  // Deduplicate.
  // ---------------------------------------------------------------------------

  /** The IP as it appears in an address: an IPv6 literal in brackets. */
  function Host(c: Candidate): string {
    if ':' in c.ip && !("[" <= c.ip) then "[" + c.ip + "]" else c.ip
  }

  function Address(c: Candidate): string { Host(c) + ":" + Itoa(c.port) }

  /** Addresses as they are dialled; an IPv6 literal is bracketed once. */
  lemma AddressExamples(c: Candidate)
    requires c.port == 10
    ensures c.ip == "10.0.0.1" ==> Address(c) == "10.0.0.1:10"
    ensures c.ip == "::1" || c.ip == "[::1]" ==> Address(c) == "[::1]:10"
  {
    DecimalExample();
    assert "::1"[0] == ':' && "[::1]"[1] == ':';
    assert "[" <= "[::1]" && !("[" <= "::1");
  }

  /** What unicode.ToLower does to a character. */
  type Lower = char -> char

  function Lowered(lower: Lower, s: string): string {
    seq(|s|, i requires 0 <= i < |s| => lower(s[i]))
  }

  function KeyOf(lower: Lower, c: Candidate): string { c.transport + "|" + Lowered(lower, Address(c)) }

  /** The characters of numbers and punctuation. */
  predicate IsMark(c: char) { IsDigit(c) || c == '-' || c == ':' || c == '[' || c == ']' }

  /** Lower-casing leaves marks alone and makes none. */
  ghost predicate KeepsMarks(lower: Lower) {
    forall c: char :: IsMark(c) || IsMark(lower(c)) ==> lower(c) == c
  }

  lemma LoweredConcat(lower: Lower, a: string, b: string)
    ensures Lowered(lower, a + b) == Lowered(lower, a) + Lowered(lower, b)
  {
  }

  lemma LoweredMarks(lower: Lower, s: string)
    requires KeepsMarks(lower) && forall c :: c in s ==> IsMark(c)
    ensures Lowered(lower, s) == s
  {
    forall i | 0 <= i < |s| ensures lower(s[i]) == s[i] {
      assert s[i] in s;
    }
  }

  lemma PortIsMarks(port: int)
    ensures forall c :: c in Itoa(port) ==> IsMark(c) && c != ':'
  {
    var n := if port < 0 then -port else port;
    ParseFormatNat(n);
    forall c | c in FormatNat(n) ensures IsDigit(c) {
    }
  }

  /** The part behind the last separator can be read off. */
  lemma {:induction false} LastFieldUnique(a: string, x: string, b: string, y: string)
    requires ':' !in x && ':' !in y && a + ":" + x == b + ":" + y
    ensures a == b && x == y
    decreases |x|
  {
    var s, t := a + ":" + x, b + ":" + y;
    EndShows(a, x);
    EndShows(b, y);
    if x == [] || y == [] {
      assert a == s[..|s| - 1] && b == t[..|t| - 1];
    } else {
      var x', y' := x[..|x| - 1], y[..|y| - 1];
      assert a + ":" + x' == s[..|s| - 1] && b + ":" + y' == t[..|t| - 1];
      LastFieldUnique(a, x', b, y');
      assert x == x' + [s[|s| - 1]] && y == y' + [t[|t| - 1]];
    }
  }

  lemma EndShows(a: string, x: string)
    requires ':' !in x
    ensures var s := a + ":" + x; s[|s| - 1] == ':' <==> x == []
  {
    var s := a + ":" + x;
    if x != [] {
      assert s[|s| - 1] == x[|x| - 1] && x[|x| - 1] in x;
    }
  }

  lemma LoweredAddress(lower: Lower, c: Candidate)
    requires KeepsMarks(lower)
    ensures Lowered(lower, Address(c)) == Lowered(lower, Host(c)) + ":" + Itoa(c.port)
  {
    PortIsMarks(c.port);
    LoweredMarks(lower, ":");
    LoweredMarks(lower, Itoa(c.port));
    LoweredConcat(lower, Host(c) + ":", Itoa(c.port));
    LoweredConcat(lower, Host(c), ":");
  }

  /**
    What a key stands for: two candidates share one if and only if they agree in transport,
    port and lower-cased host.
   */
  lemma SameKeyIff(lower: Lower, c: Candidate, d: Candidate)
    requires KeepsMarks(lower) && '|' !in c.transport && '|' !in d.transport
    ensures KeyOf(lower, c) == KeyOf(lower, d) <==>
            c.transport == d.transport && c.port == d.port && Lowered(lower, Host(c)) == Lowered(lower, Host(d))
  {
    var a, b := Lowered(lower, Address(c)), Lowered(lower, Address(d));
    LoweredAddress(lower, c);
    LoweredAddress(lower, d);
    if KeyOf(lower, c) == KeyOf(lower, d) {
      FirstFieldUnique(c.transport, d.transport, '|', a, b);
      assert a == KeyOf(lower, c)[|c.transport| + 1..] && b == KeyOf(lower, d)[|d.transport| + 1..];
      SameAddress(lower, c, d);
    }
  }

  lemma SameAddress(lower: Lower, c: Candidate, d: Candidate)
    requires KeepsMarks(lower) && Lowered(lower, Address(c)) == Lowered(lower, Address(d))
    ensures c.port == d.port && Lowered(lower, Host(c)) == Lowered(lower, Host(d))
  {
    LoweredAddress(lower, c);
    LoweredAddress(lower, d);
    PortIsMarks(c.port);
    PortIsMarks(d.port);
    LastFieldUnique(Lowered(lower, Host(c)), Itoa(c.port), Lowered(lower, Host(d)), Itoa(d.port));
    ItoaInjective(c.port, d.port);
  }

  lemma ColonSurvives(lower: Lower, s: string)
    requires KeepsMarks(lower)
    ensures ':' in Lowered(lower, s) <==> ':' in s
  {
    var t := Lowered(lower, s);
    if ':' in s {
      var i :| 0 <= i < |s| && s[i] == ':';
      assert IsMark(s[i]) && t[i] == ':';
    }
    if ':' in t {
      var i :| 0 <= i < |t| && t[i] == ':';
      assert IsMark(lower(s[i])) && s[i] == ':';
    }
  }

  /** For IPs without brackets the host is as good as the IP. */
  lemma SameHostIff(lower: Lower, c: Candidate, d: Candidate)
    requires KeepsMarks(lower) && !("[" <= c.ip) && !("[" <= d.ip)
    ensures Lowered(lower, Host(c)) == Lowered(lower, Host(d)) <==> Lowered(lower, c.ip) == Lowered(lower, d.ip)
  {
    LoweredHost(lower, c);
    LoweredHost(lower, d);
    FirstSurvives(lower, c.ip);
    FirstSurvives(lower, d.ip);
    ColonSurvives(lower, c.ip);
    ColonSurvives(lower, d.ip);
    var a, b := Lowered(lower, c.ip), Lowered(lower, d.ip);
    if ':' in c.ip && ':' in d.ip && "[" + a + "]" == "[" + b + "]" {
      assert a == ("[" + a + "]")[1..|a| + 1] && b == ("[" + b + "]")[1..|b| + 1];
    }
  }

  lemma LoweredHost(lower: Lower, c: Candidate)
    requires KeepsMarks(lower) && !("[" <= c.ip)
    ensures Lowered(lower, Host(c)) == if ':' in c.ip then "[" + Lowered(lower, c.ip) + "]" else Lowered(lower, c.ip)
  {
    LoweredMarks(lower, "[");
    LoweredMarks(lower, "]");
    LoweredConcat(lower, "[" + c.ip, "]");
    LoweredConcat(lower, "[", c.ip);
  }

  lemma FirstSurvives(lower: Lower, s: string)
    requires KeepsMarks(lower) && !("[" <= s)
    ensures !("[" <= Lowered(lower, s))
  {
    if s != [] {
      assert s[0] != '[';
      assert IsMark(lower(s[0])) ==> lower(s[0]) == s[0];
    }
  }

  function Keys(lower: Lower, s: seq<Candidate>): set<string> { set i | 0 <= i < |s| :: KeyOf(lower, s[i]) }

  function Deduplicated(lower: Lower, s: seq<Candidate>): seq<Candidate> {
    if s == [] then []
    else
      var rest, last := Deduplicated(lower, s[..|s| - 1]), s[|s| - 1];
      if KeyOf(lower, last) in Keys(lower, rest) then rest else rest + [last]
  }

  method Deduplicate(lower: Lower, cands: seq<Candidate>) returns (result: seq<Candidate>)
    ensures result == Deduplicated(lower, cands)
  {
    var seen: set<string> := {};
    result := [];
    for i := 0 to |cands|
      invariant result == Deduplicated(lower, cands[..i]) && seen == Keys(lower, result)
    {
      var key := KeyOf(lower, cands[i]);
      assert cands[..i + 1][..i] == cands[..i];
      if key !in seen {
        KeysAppend(lower, result, cands[i]);
        seen := seen + {key};
        result := result + [cands[i]];
      }
    }
    assert cands[..|cands|] == cands;
  }

  lemma KeysAppend(lower: Lower, s: seq<Candidate>, c: Candidate)
    ensures Keys(lower, s + [c]) == Keys(lower, s) + {KeyOf(lower, c)}
  {
    forall k | k in Keys(lower, s) + {KeyOf(lower, c)} ensures k in Keys(lower, s + [c]) {
      if k in Keys(lower, s) {
        var i :| 0 <= i < |s| && KeyOf(lower, s[i]) == k;
        assert (s + [c])[i] == s[i];
      } else {
        assert (s + [c])[|s|] == c;
      }
    }
  }

  /** r keeps candidates of s, at increasing positions `at`, each the first of its key. */
  ghost predicate Firsts(lower: Lower, s: seq<Candidate>, r: seq<Candidate>, at: seq<nat>) {
    && |at| == |r|
    && (forall k :: 0 <= k < |at| ==> at[k] < |s| && r[k] == s[at[k]])
    && (forall k, l :: 0 <= k < l < |at| ==> at[k] < at[l])
    && (forall k, i :: 0 <= k < |at| && 0 <= i < at[k] ==> KeyOf(lower, s[i]) != KeyOf(lower, r[k]))
  }

  ghost predicate Covers(lower: Lower, s: seq<Candidate>, r: seq<Candidate>) {
    forall i :: 0 <= i < |s| ==> KeyOf(lower, s[i]) in Keys(lower, r)
  }

  lemma SkipKeepsFirsts(lower: Lower, s: seq<Candidate>, c: Candidate, r: seq<Candidate>, at: seq<nat>)
    requires Firsts(lower, s, r, at) && Covers(lower, s, r) && KeyOf(lower, c) in Keys(lower, r)
    ensures Firsts(lower, s + [c], r, at) && Covers(lower, s + [c], r)
  {
  }

  lemma TakeKeepsFirsts(lower: Lower, s: seq<Candidate>, c: Candidate, r: seq<Candidate>, at: seq<nat>)
    requires Firsts(lower, s, r, at) && forall i :: 0 <= i < |s| ==> KeyOf(lower, s[i]) != KeyOf(lower, c)
    ensures Firsts(lower, s + [c], r + [c], at + [|s|])
  {
    var s', r', at' := s + [c], r + [c], at + [|s|];
    forall k, i | 0 <= k < |at'| && 0 <= i < at'[k] ensures KeyOf(lower, s'[i]) != KeyOf(lower, r'[k]) {
      assert s'[i] == s[i];
      if k < |at| {
        assert r'[k] == r[k] && at'[k] == at[k];
      }
    }
  }

  lemma TakeKeepsCover(lower: Lower, s: seq<Candidate>, c: Candidate, r: seq<Candidate>)
    requires Covers(lower, s, r)
    ensures Covers(lower, s + [c], r + [c])
  {
    KeysAppend(lower, r, c);
  }

  lemma NewKeyIsNew(lower: Lower, s: seq<Candidate>, c: Candidate, r: seq<Candidate>)
    requires Covers(lower, s, r) && KeyOf(lower, c) !in Keys(lower, r)
    ensures forall i :: 0 <= i < |s| ==> KeyOf(lower, s[i]) != KeyOf(lower, c)
  {
  }

  lemma {:induction false} DeduplicatedMeaning(lower: Lower, s: seq<Candidate>) returns (at: seq<nat>)
    ensures Firsts(lower, s, Deduplicated(lower, s), at) && Covers(lower, s, Deduplicated(lower, s))
  {
    if s == [] {
      at := [];
    } else {
      var init, last := s[..|s| - 1], s[|s| - 1];
      assert s == init + [last];
      at := DeduplicatedMeaning(lower, init);
      var rest := Deduplicated(lower, init);
      if KeyOf(lower, last) in Keys(lower, rest) {
        SkipKeepsFirsts(lower, init, last, rest, at);
      } else {
        NewKeyIsNew(lower, init, last, rest);
        TakeKeepsFirsts(lower, init, last, rest, at);
        TakeKeepsCover(lower, init, last, rest);
        at := at + [|init|];
      }
    }
  }

  lemma FirstsDistinct(lower: Lower, s: seq<Candidate>, r: seq<Candidate>, at: seq<nat>, i: nat, j: nat)
    requires Firsts(lower, s, r, at) && i < j < |r|
    ensures KeyOf(lower, r[i]) != KeyOf(lower, r[j])
  {
    assert at[i] < at[j] && s[at[i]] == r[i];
  }

  lemma FirstsAreMembers(lower: Lower, s: seq<Candidate>, r: seq<Candidate>, at: seq<nat>)
    requires Firsts(lower, s, r, at)
    ensures forall c :: c in r ==> c in s
  {
  }

  /** Exactly the keys of the input survive, once each. */
  lemma OnePerKey(lower: Lower, s: seq<Candidate>)
    ensures Keys(lower, Deduplicated(lower, s)) == Keys(lower, s)
    ensures forall i, j :: 0 <= i < j < |Deduplicated(lower, s)| ==> KeyOf(lower, Deduplicated(lower, s)[i]) != KeyOf(lower, Deduplicated(lower, s)[j])
    ensures forall c :: c in Deduplicated(lower, s) ==> c in s
  {
    var at := DeduplicatedMeaning(lower, s);
    var r := Deduplicated(lower, s);
    forall i, j | 0 <= i < j < |r| ensures KeyOf(lower, r[i]) != KeyOf(lower, r[j]) {
      FirstsDistinct(lower, s, r, at, i, j);
    }
    FirstsAreMembers(lower, s, r, at);
    SameKeys(lower, r, s);
    CoverHasKeys(lower, s, r);
  }

  lemma CoverHasKeys(lower: Lower, s: seq<Candidate>, r: seq<Candidate>)
    requires Covers(lower, s, r)
    ensures Keys(lower, s) <= Keys(lower, r)
  {
  }

  lemma FirstsSorted(lower: Lower, s: seq<Candidate>, r: seq<Candidate>, at: seq<nat>)
    requires Sorted(s) && Firsts(lower, s, r, at)
    ensures Sorted(r)
  {
    forall i, j | 0 <= i < j < |r| ensures !Before(r[j], r[i]) {
      assert at[i] < at[j];
    }
  }

  /** The first candidate of a key comes no later than any other of that key. */
  lemma FirstIsBest(lower: Lower, s: seq<Candidate>, r: seq<Candidate>, at: seq<nat>, k: nat, i: nat)
    requires Sorted(s) && Firsts(lower, s, r, at) && k < |r| && i < |s| && KeyOf(lower, s[i]) == KeyOf(lower, r[k])
    ensures !Before(s[i], r[k])
  {
    assert at[k] <= i && r[k] == s[at[k]];
    if at[k] == i {
      BeforeIsOrder(s[i], s[i], s[i]);
    }
  }

  /** On a sorted list deduplication keeps the order and the best candidate of each key. */
  lemma DeduplicateSorted(lower: Lower, s: seq<Candidate>)
    requires Sorted(s)
    ensures Sorted(Deduplicated(lower, s))
    ensures forall c, d :: c in Deduplicated(lower, s) && d in s && KeyOf(lower, c) == KeyOf(lower, d) ==> !Before(d, c)
  {
    var at := DeduplicatedMeaning(lower, s);
    var r := Deduplicated(lower, s);
    FirstsSorted(lower, s, r, at);
    forall c, d | c in r && d in s && KeyOf(lower, c) == KeyOf(lower, d) ensures !Before(d, c) {
      var k :| 0 <= k < |r| && r[k] == c;
      var i :| 0 <= i < |s| && s[i] == d;
      FirstIsBest(lower, s, r, at, k, i);
    }
  }

  lemma PermutationKeepsKeys(lower: Lower, s: seq<Candidate>, t: seq<Candidate>)
    requires multiset(s) == multiset(t)
    ensures Keys(lower, s) == Keys(lower, t)
  {
    SameElements(s, t);
    SameKeys(lower, s, t);
    SameKeys(lower, t, s);
  }

  lemma SortKeepsElements(s: seq<Candidate>)
    ensures Sorted(StableSorted(s))
    ensures multiset(StableSorted(s)) == multiset(s) && |StableSorted(s)| == |s|
    ensures forall c :: c in StableSorted(s) <==> c in s
  {
    if s != [] {
      StableSortedMeaning(s, s[0]);
      var t := StableSorted(s);
      assert |multiset(t)| == |multiset(s)|;
      SameElements(s, t);
    }
  }

  /**
    The pipeline of LocalCandidates.  Sorting and then deduplicating leaves exactly one
    candidate per transport and address, of the highest priority among its duplicates
    and of the smallest ID among those, and the result is still sorted.
   */
  lemma PipelineKeepsBest(lower: Lower, s: seq<Candidate>)
    ensures var r := Deduplicated(lower, StableSorted(s));
            && Sorted(r)
            && Keys(lower, r) == Keys(lower, s)
            && (forall i, j :: 0 <= i < j < |r| ==> KeyOf(lower, r[i]) != KeyOf(lower, r[j]))
            && (forall c :: c in r ==> c in s)
            && (forall c, d :: c in r && d in s && KeyOf(lower, c) == KeyOf(lower, d) ==> !Before(d, c))
  {
    SortKeepsElements(s);
    PermutationKeepsKeys(lower, StableSorted(s), s);
    OnePerKey(lower, StableSorted(s));
    DeduplicateSorted(lower, StableSorted(s));
  }

  lemma SameElements(s: seq<Candidate>, t: seq<Candidate>)
    requires multiset(s) == multiset(t)
    ensures forall c :: c in s <==> c in t
  {
    forall c ensures c in s <==> c in t {
      assert c in s <==> c in multiset(s);
      assert c in t <==> c in multiset(t);
    }
  }

  lemma SameKeys(lower: Lower, s: seq<Candidate>, t: seq<Candidate>)
    requires forall c :: c in s ==> c in t
    ensures Keys(lower, s) <= Keys(lower, t)
  {
    forall key | key in Keys(lower, s) ensures key in Keys(lower, t) {
      var i :| 0 <= i < |s| && KeyOf(lower, s[i]) == key;
      assert s[i] in t;
    }
  }

  // ---------------------------------------------------------------------------
  // The TCP stages.
  // ---------------------------------------------------------------------------

  const MAX_TRIES: nat := 3

  /** The TCP candidates of a stage among the first n, in list order. */
  function Eligible(s: seq<Candidate>, n: nat, stage: Candidate -> bool): seq<Candidate>
    requires n <= |s|
  {
    if n == 0 then []
    else Eligible(s, n - 1, stage) + (if stage(s[n - 1]) && s[n - 1].transport == "tcp" then [s[n - 1]] else [])
  }

  /** All of them. */
  function EligibleAll(s: seq<Candidate>, stage: Candidate -> bool): seq<Candidate> { Eligible(s, |s|, stage) }

  /** Dials so far: a prefix of the candidates, none of which came up. */
  ghost predicate Tried(cands: seq<Candidate>, n: nat, stage: Candidate -> bool, reaches: nat -> bool, tried: seq<Candidate>)
    requires n <= |cands|
  {
    && |tried| <= MAX_TRIES && (forall k :: 0 <= k < |tried| ==> !reaches(k))
    && (tried == Eligible(cands, n, stage) || (|tried| == MAX_TRIES && tried <= Eligible(cands, n, stage)))
  }

  lemma {:induction false} EligibleGrows(s: seq<Candidate>, n: nat, m: nat, stage: Candidate -> bool)
    requires n <= m <= |s|
    ensures Eligible(s, n, stage) <= Eligible(s, m, stage)
    decreases m
  {
    if n < m {
      EligibleGrows(s, n, m - 1, stage);
    }
  }

  /**
    tryTCP: `reaches` tells for each dial whether the peer came up in time.  The loop
    dials a prefix of the stage's candidates and stops at the first success or after
    three tries, whichever comes first.
   */
  method TryTcp(cands: seq<Candidate>, stage: Candidate -> bool, reaches: nat -> bool)
    returns (tried: seq<Candidate>, ok: bool)
    ensures tried <= EligibleAll(cands, stage) && |tried| <= 3
    ensures forall k :: 0 <= k < |tried| - 1 ==> !reaches(k)
    ensures ok <==> tried != [] && reaches(|tried| - 1)
    ensures !ok ==> |tried| == 3 || tried == EligibleAll(cands, stage)
  {
    tried := [];
    for i := 0 to |cands|
      invariant Tried(cands, i, stage, reaches, tried)
    {
      var c := cands[i];
      EligibleGrows(cands, i + 1, |cands|, stage);
      if stage(c) && c.transport == "tcp" {
        if |tried| >= MAX_TRIES {
          EligibleGrows(cands, i, |cands|, stage);
          return tried, false;
        }
        tried := tried + [c];
        if reaches(|tried| - 1) {
          return tried, true;
        }
      }
    }
    ok := false;
  }

  /** Exactly the TCP candidates of the stage are eligible. */
  lemma {:induction false} EligibleMeaning(s: seq<Candidate>, n: nat, stage: Candidate -> bool)
    requires n <= |s|
    ensures forall c :: c in Eligible(s, n, stage) <==> c in s[..n] && stage(c) && c.transport == "tcp"
  {
    if n > 0 {
      EligibleMeaning(s, n - 1, stage);
      assert s[..n] == s[..n - 1] + [s[n - 1]];
    }
  }

  lemma {:induction false} EligibleSorted(s: seq<Candidate>, n: nat, stage: Candidate -> bool)
    requires Sorted(s) && n <= |s|
    ensures Sorted(Eligible(s, n, stage))
  {
    if n > 0 {
      EligibleSorted(s, n - 1, stage);
      EligibleMeaning(s, n - 1, stage);
      var r := Eligible(s, n - 1, stage);
      forall c | c in r ensures !Before(s[n - 1], c) {
        var k :| 0 <= k < n - 1 && s[k] == c;
      }
      SortedAppend(r, s[n - 1]);
    }
  }

  /** No candidate of a stage is dialled while a better one of that stage is left out. */
  lemma BestFirst(s: seq<Candidate>, stage: Candidate -> bool, tried: seq<Candidate>, i: nat, j: nat)
    requires tried <= EligibleAll(StableSorted(s), stage)
    requires i < |tried| <= j < |EligibleAll(StableSorted(s), stage)|
    ensures !Before(EligibleAll(StableSorted(s), stage)[j], tried[i])
    ensures EligibleAll(StableSorted(s), stage)[j].priority <= tried[i].priority
  {
    StableSortedMeaning(s, tried[i]);
    EligibleSorted(StableSorted(s), |StableSorted(s)|, stage);
  }
}
