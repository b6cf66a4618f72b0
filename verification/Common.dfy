/** What several modules share. */
module Common {
  /** A value that may be absent. */
  datatype Option<T> = None | Some(value: T)

  /** An unsigned 8-bit integer. */
  type byte = x: int | 0 <= x < 256

  /** An unsigned 16-bit integer. */
  type word16 = x: int | 0 <= x < 0x1_0000

  /** So many zeros. */
  function Zeros(n: nat): (z: seq<byte>)
    ensures |z| == n
  {
    seq(n, i => 0)
  }

  /** Multiplication with a number that is not negative keeps the order. */
  lemma MulMonotone(d: int, a: int, b: int)
    requires 0 <= d && a <= b
    ensures d * a <= d * b
  {
    assert d * b - d * a == d * (b - a);
  }

  /** The number of positions in which two words of equal length differ. */
  function Distance<T(==)>(v: seq<T>, w: seq<T>): (n: nat)
    requires |v| == |w|
  {
    if v == [] then 0 else (if v[0] == w[0] then 0 else 1) + Distance(v[1..], w[1..])
  }

  lemma {:induction false} DistanceTriangle<T>(u: seq<T>, v: seq<T>, w: seq<T>)
    requires |u| == |v| == |w|
    ensures Distance(v, w) <= Distance(u, v) + Distance(u, w)
  {
    if u == [] {
    } else {
      DistanceTriangle(u[1..], v[1..], w[1..]);
    }
  }

  /** `memcpy` into an array. */
  method CopyInto(target: array<byte>, at: nat, bytes: seq<byte>)
    requires at + |bytes| <= target.Length
    modifies target
    ensures target[..] == old(target[..at]) + bytes + old(target[at + |bytes|..])
  {
    ghost var was := target[..];
    var i := 0;
    while i < |bytes|
      invariant 0 <= i <= |bytes|
      invariant target[..at] == was[..at]
      invariant target[at..at + i] == bytes[..i]
      invariant target[at + i..] == was[at + i..]
    {
      target[at + i] := bytes[i];
      i := i + 1;
    }
    assert bytes[..i] == bytes;
    assert target[..] == target[..at] + target[at..at + i] + target[at + i..];
  }
}
