/** A text that stands at a place of another one. */
module Texts {

  predicate Holds(b: string, at: nat, s: string) {
    at + |s| <= |b| && b[at..at + |s|] == s
  }

  lemma HoldsBoth(b: string, at: nat, x: string, y: string)
    requires Holds(b, at, x + y)
    ensures Holds(b, at, x) && Holds(b, at + |x|, y)
  {
    assert b[at..at + |x|] == (x + y)[..|x|] == x;
    assert b[at + |x|..at + |x| + |y|] == (x + y)[|x|..] == y;
  }

  lemma HoldsTwo(b: string, at: nat, x: string, y: string, z: string)
    requires Holds(b, at, x + (y + z))
    ensures Holds(b, at, x) && Holds(b, at + |x|, y) && Holds(b, at + |x| + |y|, z)
  {
    hide Holds;
    HoldsBoth(b, at, x, y + z);
    HoldsBoth(b, at + |x|, y, z);
  }

  lemma HoldsRest(b: string, at: nat, s: string, n: nat)
    requires Holds(b, at, s) && n <= |s|
    ensures Holds(b, at + n, s[n..])
  {
    assert s[..n] + s[n..] == s;
    HoldsBoth(b, at, s[..n], s[n..]);
  }

  lemma HoldsHere(b: string, at: nat, s: string)
    requires Holds(b, at, s) && s != ""
    ensures at < |b| && b[at] == s[0]
  {
    assert b[at..at + |s|][0] == b[at];
  }

  lemma HoldsInside(b: string, at: nat, s: string)
    requires Holds(b, at, s)
    ensures at + |s| <= |b|
  {
  }

  lemma HoldsEach(b: string, at: nat, s: string)
    requires Holds(b, at, s)
    ensures forall i :: at <= i < at + |s| ==> b[i] == s[i - at]
  {
    forall i | at <= i < at + |s| ensures b[i] == s[i - at] {
      assert b[at..at + |s|][i - at] == b[i];
    }
  }

  lemma Join<T>(x: seq<T>, y: seq<T>, z: seq<T>)
    ensures x + (y + z) == x + y + z
  {
  }
}
