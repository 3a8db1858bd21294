/** The in-place Fisher–Yates shuffle of script.js:70-76. The random index
    drawn at each step is an input: `js[i]` is the `j` chosen while the loop
    stands at index `i`. */
module Shuffle {
  /** Draws for a shuffle of `n` elements: one per index, and at index `i`
      a value in `0..i` (the draw at index 0 is never used). */
  predicate ValidDraws(js: seq<nat>, n: nat) {
    |js| == n && forall i :: 0 < i < n ==> js[i] <= i
  }

  /** `s` with the elements at `i` and `j` exchanged. */
  function Swap<T>(s: seq<T>, i: nat, j: nat): (r: seq<T>)
    requires i < |s| && j < |s|
    ensures |r| == |s|
  {
    s[i := s[j]][j := s[i]]
  }

  /** A swap keeps every element with its multiplicity. */
  lemma {:induction false} SwapPermutes<T>(s: seq<T>, i: nat, j: nat)
    requires i < |s| && j < |s|
    ensures multiset(Swap(s, i, j)) == multiset(s)
  {
  }

  /** What remains of the shuffle once the loop stands at index `i`: swap
      position `i` with `js[i]`, then go on with `i - 1`, down to 1. */
  function Shuffled<T>(s: seq<T>, js: seq<nat>, i: int): (r: seq<T>)
    requires ValidDraws(js, |s|) && i < |s|
    ensures |r| == |s|
    decreases i
  {
    if i <= 0 then s else Shuffled(Swap(s, i, js[i]), js, i - 1)
  }

  /** script.js:70-76: walks `i` down from the last index to 1 and exchanges
      `a[i]` with `a[js[i]]`. */
  method ShuffleInPlace<T>(a: array<T>, js: seq<nat>)
    requires ValidDraws(js, a.Length)
    modifies a
    ensures a[..] == Shuffled(old(a[..]), js, a.Length - 1)
  {
    var i := a.Length - 1;
    while i > 0
      invariant -1 <= i < a.Length
      invariant Shuffled(a[..], js, i) == Shuffled(old(a[..]), js, a.Length - 1)
    {
      var j := js[i];
      ghost var before := a[..];
      a[i], a[j] := a[j], a[i];
      assert a[..] == Swap(before, i, j) by {
        forall k | 0 <= k < a.Length ensures a[k] == Swap(before, i, j)[k] { }
      }
      assert Shuffled(before, js, i) == Shuffled(a[..], js, i - 1);
      i := i - 1;
    }
  }

  /** A shuffle only rearranges: it keeps every element with its
      multiplicity. */
  lemma {:induction false} ShuffledPermutes<T>(s: seq<T>, js: seq<nat>, i: int)
    requires ValidDraws(js, |s|) && i < |s|
    ensures multiset(Shuffled(s, js, i)) == multiset(s)
    decreases i
  {
    if i > 0 {
      SwapPermutes(s, i, js[i]);
      ShuffledPermutes(Swap(s, i, js[i]), js, i - 1);
    }
  }

  /** Steps at indices below `|p|` never touch an element appended after `p`. */
  lemma {:induction false} ShuffledAppend<T>(p: seq<T>, x: T, js: seq<nat>, i: int)
    requires ValidDraws(js, |p| + 1) && i < |p|
    ensures ValidDraws(js[..|p|], |p|)
    ensures Shuffled(p + [x], js, i) == Shuffled(p, js[..|p|], i) + [x]
    decreases i
  {
    var ks := js[..|p|];
    assert ValidDraws(ks, |p|) by {
      forall k | 0 < k < |p| ensures ks[k] <= k {
        assert ks[k] == js[k];
      }
    }
    if i > 0 {
      var j := js[i];
      assert ks[i] == j;
      var q := Swap(p, i, j);
      assert Swap(p + [x], i, j) == q + [x] by {
        forall k | 0 <= k < |p| + 1 ensures Swap(p + [x], i, j)[k] == (q + [x])[k] { }
      }
      ShuffledAppend(q, x, js, i - 1);
      calc {
        Shuffled(p + [x], js, i);
        Shuffled(q + [x], js, i - 1);
        Shuffled(q, ks, i - 1) + [x];
        Shuffled(p, ks, i) + [x];
      }
    }
  }

  /** The first step of a shuffle of `n >= 2` elements settles the last
      position; the rest works on the first `n - 1`. */
  lemma {:induction false} LastStep<T>(s: seq<T>, js: seq<nat>)
    requires ValidDraws(js, |s|) && |s| >= 2
    ensures ValidDraws(js[..|s| - 1], |s| - 1)
    ensures Shuffled(s, js, |s| - 1)
         == Shuffled(Swap(s, |s| - 1, js[|s| - 1])[..|s| - 1], js[..|s| - 1], |s| - 2)
            + [s[js[|s| - 1]]]
  {
    var n := |s|;
    var s' := Swap(s, n - 1, js[n - 1]);
    var p, x := s'[..n - 1], s[js[n - 1]];
    assert s'[n - 1] == x;
    assert s' == p + [x];
    ShuffledAppend(p, x, js, n - 2);
    assert Shuffled(s, js, n - 1) == Shuffled(s', js, n - 2);
  }

  /** Removing the last element from two rearrangements of each other that
      end alike leaves rearrangements of each other. */
  lemma {:induction false} DropLastPermutation<T>(p: seq<T>, q: seq<T>, x: T)
    requires multiset(p + [x]) == multiset(q + [x])
    ensures multiset(p) == multiset(q)
  {
    calc {
      multiset(p) + multiset{x};
      multiset(p + [x]);
      multiset(q + [x]);
      multiset(q) + multiset{x};
    }
    assert forall y :: multiset(p)[y] == (multiset(p) + multiset{x})[y] - multiset{x}[y];
  }

  /** Draws that shuffle the first `n - 1` elements after the first step
      swapped the last position with `j`, extended by `j`, shuffle all `n`. */
  lemma {:induction false} ExtendDraws<T>(s: seq<T>, t: seq<T>, js': seq<nat>, j: nat) returns (js: seq<nat>)
    requires |s| == |t| >= 2 && j < |s| && s[j] == t[|t| - 1]
    requires ValidDraws(js', |s| - 1)
    requires Shuffled(Swap(s, |s| - 1, j)[..|s| - 1], js', |s| - 2) == t[..|t| - 1]
    ensures ValidDraws(js, |s|) && Shuffled(s, js, |s| - 1) == t
  {
    var n := |s|;
    js := js' + [j];
    assert js[..n - 1] == js' && js[n - 1] == j;
    LastStep(s, js);
    calc {
      Shuffled(s, js, n - 1);
      Shuffled(Swap(s, n - 1, j)[..n - 1], js', n - 2) + [s[j]];
      t[..n - 1] + [t[n - 1]];
      t;
    }
  }

  /** For two rearrangements of each other, some position `j` of `s` holds
      the last element of `t`; swapping it to the end leaves first parts
      that are again rearrangements of each other. */
  lemma {:induction false} SplitLast<T>(s: seq<T>, t: seq<T>) returns (j: nat, p: seq<T>, u: seq<T>)
    requires multiset(s) == multiset(t) && |s| >= 2
    ensures |t| == |s| && j < |s| && s[j] == t[|t| - 1]
    ensures p == Swap(s, |s| - 1, j)[..|s| - 1] && u == t[..|t| - 1]
    ensures multiset(p) == multiset(u)
  {
    assert |s| == |multiset(s)| == |multiset(t)| == |t|;
    var n := |s|;
    var x := t[n - 1];
    assert x in multiset(s);
    j :| 0 <= j < n && s[j] == x;
    p := Swap(s, n - 1, j)[..n - 1];
    u := t[..n - 1];
    assert Swap(s, n - 1, j) == p + [x];
    assert t == u + [x];
    SwapPermutes(s, n - 1, j);
    DropLastPermutation(p, u, x);
  }

  /** Every rearrangement `t` of `s` is produced by some admissible sequence
      of draws: no order of the deck is out of reach of the shuffle. */
  lemma {:induction false} EveryArrangementReachable<T>(s: seq<T>, t: seq<T>) returns (js: seq<nat>)
    requires multiset(s) == multiset(t)
    ensures ValidDraws(js, |s|) && Shuffled(s, js, |s| - 1) == t
    decreases |s|
  {
    assert |s| == |multiset(s)| == |multiset(t)| == |t|;
    if |s| == 0 {
      js := [];
    } else if |s| == 1 {
      js := [0];
      assert s == [s[0]] && t == [t[0]];
      assert multiset(t) == multiset{t[0]};
      assert s[0] in multiset(t);
    } else {
      var j, p, u := SplitLast(s, t);
      var js' := EveryArrangementReachable(p, u);
      js := ExtendDraws(s, t, js', j);
    }
  }
}
