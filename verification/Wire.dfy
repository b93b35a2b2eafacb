/** Bytes, 32-bit words and their big-endian layout on the wire. */
module Wire {

  type byte = x: int | 0 <= x < 0x100
  type uint32 = x: int | 0 <= x < 0x1_0000_0000
  type uint64 = x: int | 0 <= x < 0x1_0000_0000_0000_0000

  const WORD32: int := 0x1_0000_0000
  const WORD64: int := 0x1_0000_0000_0000_0000

  datatype Option<+T> = None | Some(value: T)

  /** The four bytes of `n`, most significant first. */
  function BE32(n: uint32): (b: seq<byte>)
    ensures |b| == 4
  {
    var hi, lo := n / 0x1_0000, n % 0x1_0000;
    [hi / 0x100, hi % 0x100, lo / 0x100, lo % 0x100]
  }

  function FromBE32(b: seq<byte>): uint32
    requires |b| == 4
  {
    var b0: int, b2: int := b[0], b[2];
    (b0 * 0x100 + b[1]) * 0x1_0000 + (b2 * 0x100 + b[3])
  }

  lemma BE32RoundTrip(n: uint32)
    ensures FromBE32(BE32(n)) == n
  {
    var hi, lo := n / 0x1_0000, n % 0x1_0000;
    assert hi / 0x100 * 0x100 + hi % 0x100 == hi;
    assert lo / 0x100 * 0x100 + lo % 0x100 == lo;
  }

  lemma FromBE32RoundTrip(b: seq<byte>)
    requires |b| == 4
    ensures BE32(FromBE32(b)) == b
  {
    var b0: int, b2: int := b[0], b[2];
    var hi, lo := b0 * 0x100 + b[1], b2 * 0x100 + b[3];
    assert FromBE32(b) / 0x1_0000 == hi && FromBE32(b) % 0x1_0000 == lo;
    assert hi / 0x100 == b0 && hi % 0x100 == b[1];
    assert lo / 0x100 == b2 && lo % 0x100 == b[3];
  }

  /** Most significant byte first: what each of the four bytes is worth. */
  lemma BE32Value(n: uint32)
    ensures var b := BE32(n);
            var b0: int, b1: int, b2: int, b3: int := b[0], b[1], b[2], b[3];
            n == b0 * 0x100_0000 + b1 * 0x1_0000 + b2 * 0x100 + b3
  {
    BE32RoundTrip(n);
  }

  /** A set of naturals below `n` has at most `n` members. */
  lemma {:induction false} BoundedSetSize(s: set<int>, n: nat)
    requires forall x :: x in s ==> 0 <= x < n
    ensures |s| <= n
  {
    if n == 0 {
      assert forall x :: x !in s;
    } else {
      var smaller := s - {n - 1};
      BoundedSetSize(smaller, n - 1);
      assert s <= smaller + {n - 1};
      SubsetSize(s, smaller + {n - 1});
    }
  }

  lemma {:induction false} SubsetSize<T>(a: set<T>, b: set<T>)
    requires a <= b
    ensures |a| <= |b|
  {
    if a != {} {
      var x :| x in a;
      SubsetSize(a - {x}, b - {x});
    }
  }
}
