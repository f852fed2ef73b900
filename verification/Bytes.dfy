/** Byte strings, the common currency of the wire formats, the manifest and the hash. */
module Bytes {

  type Byte = b: int | 0 <= b < 256

  function Zeros(n: nat): (z: seq<Byte>)
    ensures |z| == n
    ensures forall i :: 0 <= i < n ==> z[i] == 0
  {
    seq(n, _ => 0)
  }

  /** Concatenation of a list of byte strings, in order. */
  function Flatten(parts: seq<seq<Byte>>): seq<Byte>
  {
    if parts == [] then [] else parts[0] + Flatten(parts[1..])
  }

  /** Lexicographic order: bytes compare unsigned, and a proper prefix comes first. */
  predicate Precedes(a: seq<Byte>, b: seq<Byte>)
  {
    b != [] && (a == [] || a[0] < b[0] || (a[0] == b[0] && Precedes(a[1..], b[1..])))
  }

  lemma {:induction false} PrecedesIsStrict(a: seq<Byte>, b: seq<Byte>)
    ensures !(Precedes(a, b) && Precedes(b, a))
    ensures a != b ==> Precedes(a, b) || Precedes(b, a)
    ensures !Precedes(a, a)
  {
    if a != [] {
      PrecedesIsStrict(a[1..], if b == [] then a[1..] else b[1..]);
      if b != [] && a != b && a[0] == b[0] {
        assert a == [a[0]] + a[1..] && b == [b[0]] + b[1..];
      }
    }
  }

  lemma {:induction false} PrecedesIsTransitive(a: seq<Byte>, b: seq<Byte>, c: seq<Byte>)
    requires Precedes(a, b) && Precedes(b, c)
    ensures Precedes(a, c)
  {
    if a != [] && a[0] == b[0] && b[0] == c[0] { PrecedesIsTransitive(a[1..], b[1..], c[1..]); }
  }

  /** Said without recursion: a proper prefix, or a smaller byte at the first difference. */
  lemma {:induction false} PrecedesIff(a: seq<Byte>, b: seq<Byte>)
    ensures Precedes(a, b) <==>
      || (|a| < |b| && a == b[..|a|])
      || exists k: nat :: Differ(a, b, k)
  {
    if a == [] || b == [] {
    } else if a[0] == b[0] {
      PrecedesIff(a[1..], b[1..]);
      SameFirst(a, b);
    } else {
      OtherFirst(a, b);
    }
  }

  predicate Differ(a: seq<Byte>, b: seq<Byte>, k: nat)
  {
    k < |a| && k < |b| && a[..k] == b[..k] && a[k] < b[k]
  }

  lemma SameFirst(a: seq<Byte>, b: seq<Byte>)
    requires a != [] && b != [] && a[0] == b[0]
    ensures |a| < |b| && a == b[..|a|] <==> |a[1..]| < |b[1..]| && a[1..] == b[1..][..|a[1..]|]
    ensures (exists k: nat :: Differ(a, b, k)) <==> exists k: nat :: Differ(a[1..], b[1..], k)
  {
    var x, y := a[1..], b[1..];
    assert a == [a[0]] + x;
    if |a| < |b| { assert b[..|a|] == [b[0]] + y[..|x|]; }
    if k: nat :| Differ(a, b, k) {
      assert k > 0;
      OneFurther(a, b, k - 1);
      assert Differ(x, y, k - 1);
    }
    if k: nat :| Differ(x, y, k) {
      OneFurther(a, b, k);
      assert Differ(a, b, k + 1);
    }
  }

  lemma OneFurther(a: seq<Byte>, b: seq<Byte>, k: nat)
    requires a != [] && b != [] && a[0] == b[0] && k < |a[1..]| && k < |b[1..]|
    ensures Differ(a[1..], b[1..], k) <==> Differ(a, b, k + 1)
  {
    var x, y := a[1..], b[1..];
    assert a[..k + 1] == [a[0]] + x[..k] && b[..k + 1] == [b[0]] + y[..k];
    assert a[..k + 1] == b[..k + 1] <==> x[..k] == y[..k] by {
      assert a[..k + 1][1..] == x[..k] && b[..k + 1][1..] == y[..k];
    }
  }

  lemma OtherFirst(a: seq<Byte>, b: seq<Byte>)
    requires a != [] && b != [] && a[0] != b[0]
    ensures !(|a| < |b| && a == b[..|a|])
    ensures (exists k: nat :: Differ(a, b, k)) <==> a[0] < b[0]
  {
    assert |a| < |b| ==> b[..|a|][0] == b[0];
    assert forall k: nat :: 0 < k < |a| && k < |b| ==> a[..k][0] == a[0] && b[..k][0] == b[0];
    assert a[..0] == b[..0];
    if a[0] < b[0] { assert Differ(a, b, 0); }
  }
}
