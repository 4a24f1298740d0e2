/** The relay's in-place Fisher-Yates shuffle of a chain's RPC list. The random
    draws `Math.floor(Math.random() * (i + 1))` are supplied as an oracle: the
    sequence `picks`, whose t-th entry is the index drawn when the loop variable
    is `|a| - 1 - t`. */
module Shuffle {

  /** The draws a run of the loop can make on a list of length `n`: one per
      iteration (none when `n` is 0 or 1), the draw for loop index `i` in `[0, i]`. */
  predicate ValidPicks(picks: seq<int>, n: nat) {
    && |picks| == (if n == 0 then 0 else n - 1)
    && forall t :: 0 <= t < |picks| ==> 0 <= picks[t] <= n - 1 - t
  }

  /** `[s[i], s[j]] = [s[j], s[i]]` */
  function Swap<T>(s: seq<T>, i: nat, j: nat): (r: seq<T>)
    requires i < |s| && j < |s|
    ensures |r| == |s| && r[i] == s[j] && r[j] == s[i]
    ensures forall k :: 0 <= k < |s| && k != i && k != j ==> r[k] == s[k]
  {
    s[i := s[j]][j := s[i]]
  }

  /** The iterations for loop indices `i, i - 1, ..., 1` applied to `s`. */
  function ShuffleDown<T>(s: seq<T>, i: nat, picks: seq<int>): seq<T>
    requires i < |s| && ValidPicks(picks, |s|)
    decreases i
  {
    if i == 0 then s
    else ShuffleDown(Swap(s, i, picks[|s| - 1 - i]), i - 1, picks)
  }

  /** The list the whole loop leaves behind. */
  function Shuffled<T>(s: seq<T>, picks: seq<int>): seq<T>
    requires ValidPicks(picks, |s|)
  {
    if s == [] then s else ShuffleDown(s, |s| - 1, picks)
  }

  /** `for (let i = rpc.length - 1; i > 0; i--) { j = draw; swap rpc[i], rpc[j] }` */
  method ShuffleInPlace<T>(a: array<T>, picks: seq<int>)
    requires ValidPicks(picks, a.Length)
    modifies a
    ensures a[..] == Shuffled(old(a[..]), picks)
  {
    var i := a.Length - 1;
    while i > 0
      invariant -1 <= i < a.Length
      invariant a.Length > 0 ==> 0 <= i && ShuffleDown(a[..], i, picks) == Shuffled(old(a[..]), picks)
    {
      var j := picks[a.Length - 1 - i];
      ghost var before := a[..];
      a[i], a[j] := a[j], a[i];
      assert a[..] == Swap(before, i, j);
      assert ShuffleDown(before, i, picks) == ShuffleDown(a[..], i - 1, picks);
      i := i - 1;
    }
  }

  lemma SwapPermutes<T>(s: seq<T>, i: nat, j: nat)
    requires i < |s| && j < |s|
    ensures multiset(Swap(s, i, j)) == multiset(s)
  {
    var t := s[i := s[j]];
    assert multiset(t) == multiset(s) - multiset{s[i]} + multiset{s[j]};
    assert multiset(t[j := s[i]]) == multiset(t) - multiset{t[j]} + multiset{s[i]};
  }

  lemma {:induction false} ShuffleDownPermutes<T>(s: seq<T>, i: nat, picks: seq<int>)
    requires i < |s| && ValidPicks(picks, |s|)
    ensures |ShuffleDown(s, i, picks)| == |s|
    ensures multiset(ShuffleDown(s, i, picks)) == multiset(s)
    decreases i
  {
    if i > 0 {
      var j := picks[|s| - 1 - i];
      SwapPermutes(s, i, j);
      ShuffleDownPermutes(Swap(s, i, j), i - 1, picks);
    }
  }

  /** Whatever the draws, the shuffle keeps the list's length and its multiset
      of URLs: the stored list is a permutation of what it was. */
  lemma ShuffledPermutes<T>(s: seq<T>, picks: seq<int>)
    requires ValidPicks(picks, |s|)
    ensures |Shuffled(s, picks)| == |s|
    ensures multiset(Shuffled(s, picks)) == multiset(s)
  {
    if s != [] { ShuffleDownPermutes(s, |s| - 1, picks); }
  }

  /** Positions above `i` are never touched by the remaining iterations. */
  lemma {:induction false} ShuffleDownKeepsAbove<T>(s: seq<T>, i: nat, picks: seq<int>, p: nat)
    requires i < p < |s| && ValidPicks(picks, |s|)
    ensures |ShuffleDown(s, i, picks)| == |s|
    ensures ShuffleDown(s, i, picks)[p] == s[p]
    decreases i
  {
    if i > 0 {
      var j := picks[|s| - 1 - i];
      ShuffleDownKeepsAbove(Swap(s, i, j), i - 1, picks, p);
    }
  }

  /** The first draw decides the last slot for good: after the loop the last
      URL is the one found at index `picks[0]` before the shuffle. */
  lemma ShuffledLast<T>(s: seq<T>, picks: seq<int>)
    requires |s| >= 2 && ValidPicks(picks, |s|)
    ensures |Shuffled(s, picks)| == |s| && Shuffled(s, picks)[|s| - 1] == s[picks[0]]
  {
    var n := |s|;
    ShuffleDownKeepsAbove(Swap(s, n - 1, picks[0]), n - 2, picks, n - 1);
  }

  /** Dropping the first draw leaves the draws for the list without its last slot. */
  lemma DropFirstPick(picks: seq<int>, n: nat)
    requires n >= 2 && ValidPicks(picks, n)
    ensures ValidPicks(picks[1..], n - 1)
  {
    forall t | 0 <= t < |picks[1..]| ensures 0 <= picks[1..][t] <= n - 2 - t {
      assert picks[1..][t] == picks[t + 1];
    }
  }

  /** A swap below the last slot commutes with dropping the last slot. */
  lemma SwapBelowLast<T>(s: seq<T>, i: nat, j: nat)
    requires i < |s| - 1 && j < |s| - 1
    ensures Swap(s, i, j) == Swap(s[..|s| - 1], i, j) + [s[|s| - 1]]
  {
  }

  /** One iteration below the last slot on the long list: the swap leaves the
      last element where it is. */
  lemma PrefixStepLong<T>(p: seq<T>, x: T, i: nat, j: nat, picks: seq<int>)
    requires 0 < i < |p| && ValidPicks(picks, |p| + 1) && j == picks[|p| - i]
    ensures j <= i
    ensures ShuffleDown(p + [x], i, picks) == ShuffleDown(Swap(p, i, j) + [x], i - 1, picks)
  {
    var s := p + [x];
    assert s[..|s| - 1] == p;
    SwapBelowLast(s, i, j);
    assert Swap(s, i, j) == Swap(p, i, j) + [x];
    assert ShuffleDown(s, i, picks) == ShuffleDown(Swap(s, i, j), i - 1, picks);
  }

  /** The same iteration on the short list, whose draws start one later. */
  lemma PrefixStepShort<T>(p: seq<T>, i: nat, j: nat, picks: seq<int>)
    requires 0 < i < |p| && ValidPicks(picks, |p| + 1) && j == picks[|p| - i]
    ensures ValidPicks(picks[1..], |p|)
    ensures ShuffleDown(p, i, picks[1..]) == ShuffleDown(Swap(p, i, j), i - 1, picks[1..])
  {
    DropFirstPick(picks, |p| + 1);
    assert picks[1..][|p| - 1 - i] == j;
  }

  /** Iterations below the last slot act on the list without its last element
      exactly as they would on the shorter list with the first draw dropped. */
  lemma {:induction false} ShuffleDownOnPrefix<T>(p: seq<T>, x: T, i: nat, picks: seq<int>)
    requires |p| >= 1 && i < |p| && ValidPicks(picks, |p| + 1)
    ensures ValidPicks(picks[1..], |p|)
    ensures ShuffleDown(p + [x], i, picks) == ShuffleDown(p, i, picks[1..]) + [x]
    decreases i
  {
    DropFirstPick(picks, |p| + 1);
    if i > 0 {
      var j := picks[|p| - i];
      PrefixStepLong(p, x, i, j, picks);
      PrefixStepShort(p, i, j, picks);
      ShuffleDownOnPrefix(Swap(p, i, j), x, i - 1, picks);
    }
  }

  /** Two lists with equal multisets and the same last element have prefixes
      with equal multisets. */
  lemma SameLastSamePrefixMultiset<T>(a: seq<T>, b: seq<T>)
    requires |a| == |b| >= 1 && a[|a| - 1] == b[|b| - 1] && multiset(a) == multiset(b)
    ensures multiset(a[..|a| - 1]) == multiset(b[..|b| - 1])
  {
    var x := a[|a| - 1];
    assert a == a[..|a| - 1] + [x];
    assert b == b[..|b| - 1] + [x];
    assert multiset(a) == multiset(a[..|a| - 1]) + multiset{x};
    assert multiset(b) == multiset(b[..|b| - 1]) + multiset{x};
    var ma, mb := multiset(a[..|a| - 1]), multiset(b[..|b| - 1]);
    forall y ensures ma[y] == mb[y] {
      assert multiset(a)[y] == ma[y] + multiset{x}[y];
      assert multiset(b)[y] == mb[y] + multiset{x}[y];
    }
    assert ma == mb;
  }

  /** One step of the reachability argument: a first draw that brings the
      wanted last element into place, followed by draws that arrange the rest. */
  lemma ReachStep<T>(s: seq<T>, t: seq<T>, j: nat, rest: seq<int>)
    requires |s| == |t| >= 2 && j < |s| && s[j] == t[|t| - 1]
    requires ValidPicks(rest, |s| - 1)
    requires Shuffled(Swap(s, |s| - 1, j)[..|s| - 1], rest) == t[..|t| - 1]
    ensures ValidPicks([j] + rest, |s|) && Shuffled(s, [j] + rest) == t
  {
    var n := |s|;
    var picks := [j] + rest;
    assert picks[1..] == rest;
    assert ValidPicks(picks, n);
    var s1 := Swap(s, n - 1, j);
    var p := s1[..n - 1];
    assert s1 == p + [t[n - 1]];
    ShuffleDownOnPrefix(p, t[n - 1], n - 2, picks);
    assert Shuffled(s, picks) == ShuffleDown(s1, n - 2, picks);
    assert t == t[..n - 1] + [t[n - 1]];
  }

  /** A list of length 0 or 1 has one arrangement, produced without draws. */
  lemma ReachShort<T>(s: seq<T>, t: seq<T>)
    requires |s| <= 1 && multiset(t) == multiset(s)
    ensures ValidPicks([], |s|) && Shuffled(s, []) == t
  {
    assert |t| == |multiset(t)| == |s|;
    if |s| == 1 {
      assert t[0] in multiset(s);
    }
  }

  /** Every arrangement of the list is the outcome of some admissible sequence
      of draws, returned as `picks`: the shuffle can produce each permutation.
      (How often each one occurs depends on `Math.random` and is not modelled.) */
  lemma {:induction false} ShuffleReachesEveryOrder<T>(s: seq<T>, t: seq<T>) returns (picks: seq<int>)
    requires multiset(t) == multiset(s)
    ensures ValidPicks(picks, |s|) && Shuffled(s, picks) == t
    decreases |s|
  {
    var n := |s|;
    if n <= 1 {
      picks := [];
      ReachShort(s, t);
    } else {
      assert |t| == |multiset(t)| == n;
      var x := t[n - 1];
      assert x in multiset(s);
      var j :| 0 <= j < n && s[j] == x;
      var s1 := Swap(s, n - 1, j);
      assert multiset(s1[..n - 1]) == multiset(t[..n - 1]) by {
        SwapPermutes(s, n - 1, j);
        SameLastSamePrefixMultiset(s1, t);
      }
      var rest := ShuffleReachesEveryOrder(s1[..n - 1], t[..n - 1]);
      ReachStep(s, t, j, rest);
      picks := [j] + rest;
    }
  }
}
