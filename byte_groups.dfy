/** Bytes and fixed-width elements. The bridge only ever copies bytes, so an element of
    any content type (an `int32_t`, a `float`, ...) is modelled as the group of bytes
    that stores it, and a vector of elements as a sequence of such groups. */
module ByteGroups {

  newtype Byte = b: int | 0 <= b < 256

  /** The bytes of one element, in memory order. */
  type Element = seq<Byte>

  /** Every element of `s` is `w` bytes wide. */
  predicate AllWidth(s: seq<Element>, w: nat) {
    forall i :: 0 <= i < |s| ==> |s[i]| == w
  }

  /** The contiguous memory image of a vector of elements. */
  function Flatten(s: seq<Element>): seq<Byte> {
    if s == [] then [] else s[0] + Flatten(s[1..])
  }

  /** Reading `b` as a contiguous run of `w`-byte elements. */
  function Chunk(b: seq<Byte>, w: nat): (s: seq<Element>)
    requires w > 0 && |b| % w == 0
    ensures AllWidth(s, w)
    ensures |s| * w == |b|
    ensures Flatten(s) == b
    decreases |b|
  {
    if |b| == 0 then []
    else
      DropOneElement(|b|, w);
      var rest := Chunk(b[w..], w);
      assert ([b[..w]] + rest)[1..] == rest;
      [b[..w]] + rest
  }

  lemma DropOneElement(n: nat, w: nat)
    requires w > 0 && n > 0 && n % w == 0
    ensures n >= w && (n - w) % w == 0
  {
    var q := n / w;
    assert n == q * w;
    assert n - w == (q - 1) * w + 0;
    ModUnique(n - w, w, q - 1, 0);
  }

  /** Euclidean division has a unique quotient and remainder. */
  lemma ModUnique(x: int, d: int, q: int, r: int)
    requires d > 0 && x == q * d + r && 0 <= r < d
    ensures x % d == r
  {
    var q', r' := x / d, x % d;
    assert x == q' * d + r';
    assert (q - q') * d == r' - r;
    if q > q' {
      MulAtLeast(q - q', d);
      assert false;
    } else if q < q' {
      MulAtLeast(q' - q, d);
      assert false;
    }
  }

  lemma MulAtLeast(k: int, d: int)
    requires k >= 1 && d > 0
    ensures k * d >= d
  {
  }

  lemma CancelFactor(k: nat, m: nat, w: nat)
    requires w > 0 && k * w <= m * w
    ensures k <= m
  {
  }

  lemma {:induction false} FlattenLength(s: seq<Element>, w: nat)
    requires AllWidth(s, w)
    ensures |Flatten(s)| == |s| * w
  {
    if s != [] {
      FlattenLength(s[1..], w);
      assert |s| * w == (|s| - 1) * w + w;
    }
  }

  lemma {:induction false} FlattenAppend(a: seq<Element>, b: seq<Element>)
    ensures Flatten(a + b) == Flatten(a) + Flatten(b)
  {
    if a == [] {
      assert a + b == b;
    } else {
      assert (a + b)[1..] == a[1..] + b;
      FlattenAppend(a[1..], b);
    }
  }

  /** Reading back the memory image of a vector gives the vector, element for element. */
  lemma {:induction false} ChunkFlatten(s: seq<Element>, w: nat)
    requires w > 0 && AllWidth(s, w)
    ensures |Flatten(s)| % w == 0
    ensures Chunk(Flatten(s), w) == s
  {
    FlattenLength(s, w);
    ModUnique(|Flatten(s)|, w, |s|, 0);
    if s != [] {
      var b := Flatten(s);
      assert b == s[0] + Flatten(s[1..]);
      assert b[..w] == s[0];
      assert b[w..] == Flatten(s[1..]);
      ChunkFlatten(s[1..], w);
      assert s == [s[0]] + s[1..];
    }
  }

  /** The bytes of the elements past the first `k` of a vector are its image past `k * w`. */
  lemma SplitFlatten(s: seq<Element>, k: nat, w: nat)
    requires AllWidth(s, w) && k <= |s|
    ensures k * w <= |Flatten(s)| && Flatten(s)[k * w..] == Flatten(s[k..])
  {
    assert s == s[..k] + s[k..];
    FlattenAppend(s[..k], s[k..]);
    FlattenLength(s[..k], w);
  }
}
