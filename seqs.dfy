/** Facts about sequences that several modules need, stated once for any
    element type. */
module Seqs {

  lemma ConsTail<T>(x: T, s: seq<T>)
    ensures ([x] + s)[1..] == s
  {
  }

  lemma AppendNil<T>(s: seq<T>)
    ensures s + [] == s
  {
  }

  lemma HeadTail<T>(s: seq<T>)
    requires s != []
    ensures [s[0]] + s[1..] == s
  {
  }

  lemma TakeAll<T>(s: seq<T>)
    ensures s[..|s|] == s
  {
  }

  lemma AppendTakeSnoc<T>(d: seq<T>, e: seq<T>, k: nat)
    requires k < |e|
    ensures d + e[..k + 1] == (d + e[..k]) + [e[k]]
  {
    assert e[..k + 1] == e[..k] + [e[k]];
  }

  lemma AppendSplit<T>(d: seq<T>, e: seq<T>, k: nat)
    requires k <= |e|
    ensures d + e == (d + e[..k]) + e[k..]
  {
    assert e == e[..k] + e[k..];
  }

  lemma TakeDrop<T>(s: seq<T>, k: nat)
    requires k <= |s|
    ensures s == s[..k] + s[k..]
  {
  }

  lemma AppendParts<T>(a: seq<T>, b: seq<T>)
    ensures (a + b)[..|a|] == a && (a + b)[|a|..] == b
    ensures forall i :: |a| <= i < |a + b| ==> (a + b)[i] == b[i - |a|]
  {
  }

  /** `s` ends with `p`. */
  predicate EndsWith<T(==)>(s: seq<T>, p: seq<T>)
  {
    |p| <= |s| && s[|s| - |p|..] == p
  }

  lemma AppendEnds<T>(a: seq<T>, b: seq<T>)
    ensures a <= a + b
    ensures EndsWith(a + b, b)
  {
    AppendParts(a, b);
  }

  lemma EndsWithTrans<T>(s: seq<T>, p: seq<T>, q: seq<T>)
    requires EndsWith(s, p) && EndsWith(p, q)
    ensures EndsWith(s, q)
  {
    assert s[|s| - |q|..] == s[|s| - |p|..][|p| - |q|..];
  }

  /** A short enough suffix of `s` is a suffix of any longer suffix of `s`. */
  lemma EndsWithWithin<T>(s: seq<T>, p: seq<T>, q: seq<T>)
    requires EndsWith(s, p) && |q| <= |p|
    ensures EndsWith(s, q) <==> EndsWith(p, q)
  {
    assert s[|s| - |q|..] == s[|s| - |p|..][|p| - |q|..];
  }
}
