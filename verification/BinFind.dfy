/** The backtracking byte search of `binutil/binfind.c`. */
module BinFind {
  import opened Common

  predicate MatchesAt(text: seq<byte>, pattern: seq<byte>, p: nat) {
    p + |pattern| <= |text| && text[p..p + |pattern|] == pattern
  }

  /** The leftmost occurrence from a position on, then the leftmost behind its end, and so on. */
  function Greedy(text: seq<byte>, pattern: seq<byte>, from: nat): seq<nat>
    requires pattern != []
    decreases |text| - from
  {
    if from + |pattern| > |text| then []
    else if MatchesAt(text, pattern, from) then [from] + Greedy(text, pattern, from + |pattern|)
    else Greedy(text, pattern, from + 1)
  }

  /** What is printed: a running number and an offset. */
  datatype Hit = Hit(number: nat, offset: nat)

  function Hits(offsets: seq<nat>): seq<Hit> {
    seq(|offsets|, k requires 0 <= k < |offsets| => Hit(k + 1, offsets[k]))
  }

  lemma NoMatch(text: seq<byte>, pattern: seq<byte>, start: nat, k: nat)
    requires k < |pattern| && start + k < |text| && text[start + k] != pattern[k]
    ensures Greedy(text, pattern, start) == Greedy(text, pattern, start + 1)
  {
    if start + |pattern| <= |text| {
      assert text[start..start + |pattern|][k] == text[start + k];
    }
  }

  lemma FullMatch(text: seq<byte>, pattern: seq<byte>, start: nat)
    requires pattern != [] && MatchesAt(text, pattern, start)
    ensures Greedy(text, pattern, start) == [start] + Greedy(text, pattern, start + |pattern|)
  {
  }

  /** The search: on a mismatch it goes back to the byte after the start of the attempt. */
  method Find(text: seq<byte>, pattern: seq<byte>) returns (hits: seq<Hit>)
    requires pattern != []
    ensures hits == Hits(Greedy(text, pattern, 0))
  {
    hide Greedy;
    hits := [];
    ghost var offsets: seq<nat> := [];
    var next, count, offset := 0, 1, 0;
    var matched := false;
    var i := 0;
    while i < |text|
      invariant 0 <= next < |pattern| && next <= i <= |text|
      invariant matched <==> next > 0
      invariant matched ==> offset == i - next
      invariant text[i - next..i] == pattern[..next]
      invariant count == |offsets| + 1 && hits == Hits(offsets)
      invariant Greedy(text, pattern, 0) == offsets + Greedy(text, pattern, i - next)
      decreases |text| - (i - next), |text| - i
    {
      ghost var start := i - next;
      if text[i] == pattern[next] {
        if next == 0 {
          matched := true;
          offset := i;
        }
        assert text[start..i + 1] == text[start..i] + [text[i]];
        next := next + 1;
        assert pattern[..next] == pattern[..next - 1] + [pattern[next - 1]];
        if next == |pattern| {
          assert pattern[..next] == pattern;
          FullMatch(text, pattern, start);
          matched := false;
          hits := hits + [Hit(count, offset)];
          offsets := offsets + [start];
          next := 0;
          count := count + 1;
        }
      } else {
        NoMatch(text, pattern, start, next);
        if matched {
          matched := false;
          i := offset;
        }
        next := 0;
      }
      i := i + 1;
    }
    NothingLeft(text, pattern, i - next);
  }

  lemma NothingLeft(text: seq<byte>, pattern: seq<byte>, from: nat)
    requires pattern != [] && from + |pattern| > |text|
    ensures Greedy(text, pattern, from) == []
  {
  }

  // ---------- What greedy means ----------

  /**
    Every reported position is an occurrence, no two overlap, and every occurrence is reported or
    starts inside a reported one that starts before it.
  */
  ghost predicate IsGreedy(text: seq<byte>, pattern: seq<byte>, from: nat, s: seq<nat>) {
    && AllMatch(text, pattern, from, s)
    && Apart(pattern, s)
    && AllCovered(text, pattern, from, s)
  }

  predicate AllMatch(text: seq<byte>, pattern: seq<byte>, from: nat, s: seq<nat>) {
    forall i :: 0 <= i < |s| ==> from <= s[i] && MatchesAt(text, pattern, s[i])
  }

  predicate Apart(pattern: seq<byte>, s: seq<nat>) {
    forall i, j :: 0 <= i < j < |s| ==> s[i] + |pattern| <= s[j]
  }

  ghost predicate AllCovered(text: seq<byte>, pattern: seq<byte>, from: nat, s: seq<nat>) {
    forall p :: from <= p && MatchesAt(text, pattern, p) ==> Covered(pattern, s, p)
  }

  ghost predicate Covered(pattern: seq<byte>, s: seq<nat>, p: nat) {
    exists i :: 0 <= i < |s| && s[i] <= p < s[i] + |pattern|
  }

  lemma NoRoom(text: seq<byte>, pattern: seq<byte>, from: nat, s: seq<nat>)
    requires AllMatch(text, pattern, from, s) && from + |pattern| > |text|
    ensures s == []
  {
    assert |s| > 0 ==> MatchesAt(text, pattern, s[0]);
  }

  lemma ApartCons(pattern: seq<byte>, from: nat, rest: seq<nat>)
    requires Apart(pattern, rest) && forall i :: 0 <= i < |rest| ==> from + |pattern| <= rest[i]
    ensures Apart(pattern, [from] + rest)
  {
  }

  lemma CoveredCons(pattern: seq<byte>, from: nat, rest: seq<nat>, p: nat)
    requires from <= p < from + |pattern| || Covered(pattern, rest, p)
    ensures Covered(pattern, [from] + rest, p)
  {
    var s := [from] + rest;
    if from <= p < from + |pattern| {
      assert s[0] <= p < s[0] + |pattern|;
    } else {
      var i :| 0 <= i < |rest| && rest[i] <= p < rest[i] + |pattern|;
      assert s[i + 1] == rest[i];
    }
  }

  /** A reported position in front of a greedy sequence that starts behind it. */
  lemma GreedyCons(text: seq<byte>, pattern: seq<byte>, from: nat, rest: seq<nat>)
    requires MatchesAt(text, pattern, from) && IsGreedy(text, pattern, from + |pattern|, rest)
    ensures IsGreedy(text, pattern, from, [from] + rest)
  {
    hide MatchesAt, Covered, Apart;
    ApartCons(pattern, from, rest);
    forall p | from <= p && MatchesAt(text, pattern, p)
      ensures Covered(pattern, [from] + rest, p)
    {
      CoveredCons(pattern, from, rest, p);
    }
  }

  lemma {:induction false} GreedyIsGreedy(text: seq<byte>, pattern: seq<byte>, from: nat)
    requires pattern != []
    ensures IsGreedy(text, pattern, from, Greedy(text, pattern, from))
    decreases |text| - from
  {
    if from + |pattern| > |text| {
    } else if MatchesAt(text, pattern, from) {
      GreedyIsGreedy(text, pattern, from + |pattern|);
      GreedyCons(text, pattern, from, Greedy(text, pattern, from + |pattern|));
      hide IsGreedy, MatchesAt;
    } else {
      GreedyIsGreedy(text, pattern, from + 1);
      hide IsGreedy, MatchesAt;
    }
  }

  lemma ApartTail(pattern: seq<byte>, s: seq<nat>)
    requires Apart(pattern, s) && s != []
    ensures Apart(pattern, s[1..])
    ensures forall i :: 0 < i < |s| ==> s[0] + |pattern| <= s[i]
  {
  }

  lemma CoveredTail(pattern: seq<byte>, s: seq<nat>, p: nat)
    requires s != [] && Covered(pattern, s, p) && s[0] + |pattern| <= p
    ensures Covered(pattern, s[1..], p)
  {
    var k :| 0 <= k < |s| && s[k] <= p < s[k] + |pattern|;
    assert s[1..][k - 1] == s[k];
  }

  lemma FirstCovers(pattern: seq<byte>, s: seq<nat>, p: nat)
    requires Apart(pattern, s) && Covered(pattern, s, p) && forall i :: 0 <= i < |s| ==> p <= s[i]
    ensures s != [] && s[0] == p
  {
    var i :| 0 <= i < |s| && s[i] <= p < s[i] + |pattern|;
  }

  /** A greedy sequence starts with an occurrence at the start, and goes on behind it. */
  lemma GreedyHead(text: seq<byte>, pattern: seq<byte>, from: nat, s: seq<nat>)
    requires pattern != [] && MatchesAt(text, pattern, from) && IsGreedy(text, pattern, from, s)
    ensures s != [] && s[0] == from && IsGreedy(text, pattern, from + |pattern|, s[1..])
  {
    hide MatchesAt, Covered, Apart;
    assert Covered(pattern, s, from);
    FirstCovers(pattern, s, from);
    ApartTail(pattern, s);
    forall p | from + |pattern| <= p && MatchesAt(text, pattern, p)
      ensures Covered(pattern, s[1..], p)
    {
      CoveredTail(pattern, s, p);
    }
  }

  lemma {:induction false} GreedyUnique(text: seq<byte>, pattern: seq<byte>, from: nat, s: seq<nat>)
    requires pattern != [] && IsGreedy(text, pattern, from, s)
    ensures s == Greedy(text, pattern, from)
    decreases |text| - from
  {
    hide MatchesAt, Covered, Apart;
    if from + |pattern| > |text| {
      NoRoom(text, pattern, from, s);
    } else if MatchesAt(text, pattern, from) {
      GreedyHead(text, pattern, from, s);
      hide IsGreedy, MatchesAt;
      GreedyUnique(text, pattern, from + |pattern|, s[1..]);
      assert s == [from] + s[1..];
    } else {
      hide IsGreedy, MatchesAt;
      GreedyUnique(text, pattern, from + 1, s);
    }
  }

  /** The reported offsets are the one sequence of leftmost non-overlapping occurrences. */
  lemma GreedyCharacterised(text: seq<byte>, pattern: seq<byte>, s: seq<nat>)
    requires pattern != []
    ensures s == Greedy(text, pattern, 0) <==> IsGreedy(text, pattern, 0, s)
  {
    GreedyIsGreedy(text, pattern, 0);
    if IsGreedy(text, pattern, 0, s) {
      GreedyUnique(text, pattern, 0, s);
    }
  }
}
