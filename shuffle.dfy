/** The in-place shuffle of a password's runes: `rand.Shuffle(n, swap)` with
    a swap callback that exchanges two elements of the `[]rune` buffer.
    `rand.Shuffle` is a Fisher-Yates shuffle: for `i` from `n - 1` down to
    `1` it draws `j` in `0..i` and calls `swap(i, j)`. The draws are given as
    a sequence `js`, `js[k]` being the `j` of step `k` (where `i == n - 1 - k`). */
module Shuffle {

  /** The draws `rand.Shuffle` can make for `n` elements: one per step, each
      at most the index it is swapped with. */
  predicate DrawsFit(n: nat, js: seq<nat>) {
    && |js| == (if n == 0 then 0 else n - 1)
    && forall k :: 0 <= k < |js| ==> js[k] <= n - 1 - k
  }

  /** `s` with the elements at `i` and `j` exchanged. */
  function Swap<T>(s: seq<T>, i: nat, j: nat): (r: seq<T>)
    requires i < |s| && j < |s|
    ensures |r| == |s|
    ensures r[i] == s[j] && r[j] == s[i]
    ensures forall m :: 0 <= m < |s| && m != i && m != j ==> r[m] == s[m]
  {
    seq(|s|, m requires 0 <= m < |s| => if m == j then s[i] else if m == i then s[j] else s[m])
  }

  /** A swap keeps the multiset of elements. */
  lemma SwapPermutes<T>(s: seq<T>, i: nat, j: nat)
    requires i < |s| && j < |s|
    ensures multiset(Swap(s, i, j)) == multiset(s)
  {
    assert Swap(s, i, j) == s[i := s[j]][j := s[i]];
  }

  /** The buffer after the first `k` steps of the shuffle. */
  function Steps<T>(s: seq<T>, js: seq<nat>, k: nat): (r: seq<T>)
    requires DrawsFit(|s|, js) && k <= |js|
    ensures |r| == |s|
  {
    if k == 0 then s
    else Swap(Steps(s, js, k - 1), |s| - k, js[k - 1])
  }

  /** The buffer after the whole shuffle. */
  function Shuffled<T>(s: seq<T>, js: seq<nat>): (r: seq<T>)
    requires DrawsFit(|s|, js)
    ensures |r| == |s|
  {
    Steps(s, js, |js|)
  }

  /** Every prefix of the swap sequence permutes the buffer. */
  lemma {:induction false} StepsPermute<T>(s: seq<T>, js: seq<nat>, k: nat)
    requires DrawsFit(|s|, js) && k <= |js|
    ensures multiset(Steps(s, js, k)) == multiset(s)
  {
    if k > 0 {
      StepsPermute(s, js, k - 1);
      PermuteStep(s, js, k);
    }
  }

  lemma PermuteStep<T>(s: seq<T>, js: seq<nat>, k: nat)
    requires DrawsFit(|s|, js) && 0 < k <= |js|
    requires multiset(Steps(s, js, k - 1)) == multiset(s)
    ensures multiset(Steps(s, js, k)) == multiset(s)
  {
    SwapPermutes(Steps(s, js, k - 1), |s| - k, js[k - 1]);
  }

  /** The shuffle is a permutation: it keeps the multiset of characters. */
  lemma ShufflePermutes<T>(s: seq<T>, js: seq<nat>)
    requires DrawsFit(|s|, js)
    ensures multiset(Shuffled(s, js)) == multiset(s)
  {
    StepsPermute(s, js, |js|);
  }

  /** `rand.Shuffle(len(shuff), func(i, j int) { shuff[i], shuff[j] = shuff[j], shuff[i] })`. */
  method ShuffleInPlace(a: array<char>, js: seq<nat>)
    requires DrawsFit(a.Length, js)
    modifies a
    ensures a[..] == Shuffled(old(a[..]), js)
  {
    ghost var s := a[..];
    var k := 0;
    while k < |js|
      invariant 0 <= k <= |js|
      invariant a[..] == Steps(s, js, k)
    {
      var i := a.Length - 1 - k;
      var j := js[k];
      assert i < a.Length && j < a.Length;
      ghost var before := a[..];
      a[i], a[j] := a[j], a[i];
      assert forall m :: 0 <= m < a.Length ==> a[m] == Swap(before, i, j)[m];
      assert a[..] == Swap(before, i, j);
      assert Steps(s, js, k + 1) == Swap(Steps(s, js, k), i, j);
      k := k + 1;
    }
  }
}
