/** Facts about sequences and finite sets that the verifier is slow to find on its own. */
module Seqs {

  lemma Assoc<T>(x: seq<T>, y: seq<T>, z: seq<T>)
    ensures x + (y + z) == (x + y) + z
  {}

  /** A concatenation splits where it was joined. */
  lemma Splits<T>(x: seq<T>, y: seq<T>)
    ensures (x + y)[..|x|] == x && (x + y)[|x|..] == y
  {}

  /** The middle part of three, and what follows it. */
  lemma Middle<T>(x: seq<T>, y: seq<T>, z: seq<T>)
    ensures (x + y + z)[|x|..|x| + |y|] == y
    ensures (x + y + z)[|x| + |y|..] == z
  {}

  lemma Rejoin<T>(s: seq<T>, i: nat)
    requires i <= |s|
    ensures s[..i] + s[i..] == s
  {}

  lemma TakeNext<T>(s: seq<T>, i: nat)
    requires i < |s|
    ensures s[..i + 1] == s[..i] + [s[i]]
  {}

  lemma AppendNil<T>(s: seq<T>)
    ensures s + [] == s && [] + s == s
  {}

  lemma SubsetCard<T>(a: set<T>, b: set<T>)
    requires a <= b
    ensures |a| <= |b|
  {
    assert b == a + (b - a);
  }

  /** Replacing the first element of what is left moves the border by one. */
  lemma ReplaceNext<T>(done: seq<T>, s: seq<T>, x: T)
    requires |done| < |s|
    ensures (done + s[|done|..])[|done| := x] == done + [x] + s[|done| + 1..]
  {}
}
