/** Facts about sequence slices and concatenation, each on its own so that a proof about a
    recursive function can cite them without re-deriving them next to its unfoldings. */
module Seqs {
  lemma SlicesAround<T>(a: seq<T>, c: T, b: seq<T>, n: nat)
    requires n <= |a|
    ensures a + [c] + b == a + ([c] + b)
    ensures (a + [c] + b)[..n] == a[..n]
    ensures (a + [c] + b)[n..] == a[n..] + [c] + b
  {
  }

  lemma ConsOfConcat<T>(a: seq<T>, b: seq<T>)
    requires |a| > 0
    ensures |a + b| > 0 && (a + b)[0] == a[0] && (a + b)[1..] == a[1..] + b
  {
  }

  lemma ConsParts<T>(x: T, xs: seq<T>)
    ensures |[x] + xs| > 0 && ([x] + xs)[0] == x && ([x] + xs)[1..] == xs
  {
  }

  lemma SplitLast<T>(s: seq<T>)
    requires |s| > 0
    ensures s == s[..|s| - 1] + [s[|s| - 1]]
  {
  }

  lemma SplitAt<T>(s: seq<T>, n: nat)
    requires n <= |s|
    ensures s == s[..n] + s[n..]
  {
  }

  lemma SliceOfSlice<T>(s: seq<T>, i: nat, m: nat)
    requires i + m <= |s|
    ensures s[i..][..m] == s[i..i + m]
    ensures forall k :: i <= k < |s| ==> s[i..][k - i] == s[k]
  {
  }

  lemma Uncons<T>(s: seq<T>)
    requires |s| > 0
    ensures s == [s[0]] + s[1..]
  {
  }

  lemma ConcatAssoc<T>(x: seq<T>, y: seq<T>, z: seq<T>)
    ensures x + (y + z) == (x + y) + z
  {
  }
}
