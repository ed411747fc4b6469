/** Facts about sequences that the solver is told by name. */
module Sequences {

  /** Concatenation associates; named, because the solver searches long for it among nested texts. */
  lemma Assoc<T>(a: seq<T>, b: seq<T>, c: seq<T>)
    ensures (a + b) + c == a + (b + c)
    ensures a + [] == a && [] + a == a
  {
  }

  /** The four-part form of the same. */
  lemma Regroup<T>(a: seq<T>, b: seq<T>, c: seq<T>, d: seq<T>)
    ensures a + (b + (c + d)) == (a + b + c) + d == (a + (b + c)) + d
    ensures (a + b) + d == a + (b + d)
    ensures b == [] ==> a + b == a
  {
  }

  /** The prefixes of a sequence with one more element. */
  lemma PrefixesOf<T>(was: seq<T>, e: T)
    ensures forall k | 0 <= k <= |was| :: (was + [e])[..k] == was[..k]
    ensures (was + [e])[..|was| + 1] == was + [e]
  {
  }

  lemma HeadAndTail<T>(s: seq<T>)
    requires s != []
    ensures s == [s[0]] + s[1..] && (|s| == 1 ==> s == [s[0]])
  {
  }
}
