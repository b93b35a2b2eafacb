/** The frame layer: nine header bytes (kind, id, length), then a payload after Data headers only. */
module Frames {
  import opened Wire

  const START: byte := 1
  const END: byte := 2
  const DATA: byte := 3
  const ABORT: byte := 6

  const HEADER_SIZE: nat := 9
  const MAX_LENGTH: nat := 10 * 1024 * 1024

  /** `length` is the header field; writers may announce a length that no payload follows. */
  datatype Frame = Frame(kind: byte, id: uint32, length: uint32, payload: seq<byte>)

  /** How many payload bytes a reader takes after a header: none unless it is a Data header within the limit. */
  function PayloadSize(kind: byte, length: uint32): (n: nat)
    ensures n <= MAX_LENGTH
  {
    if kind == DATA && length <= MAX_LENGTH then length else 0
  }

  predicate WellFramed(f: Frame) {
    |f.payload| == PayloadSize(f.kind, f.length)
  }

  predicate AllWellFramed(fs: seq<Frame>) {
    forall i :: 0 <= i < |fs| ==> WellFramed(fs[i])
  }

  function Encode(f: Frame): (b: seq<byte>)
    ensures |b| == HEADER_SIZE + |f.payload|
  {
    [f.kind] + BE32(f.id) + BE32(f.length) + f.payload
  }

  function EncodeAll(fs: seq<Frame>): seq<byte> {
    if fs == [] then [] else Encode(fs[0]) + EncodeAll(fs[1..])
  }

  function HeaderKind(b: seq<byte>): byte
    requires |b| >= HEADER_SIZE
  {
    b[0]
  }

  function HeaderId(b: seq<byte>): uint32
    requires |b| >= HEADER_SIZE
  {
    FromBE32(b[1..5])
  }

  function HeaderLength(b: seq<byte>): uint32
    requires |b| >= HEADER_SIZE
  {
    FromBE32(b[5..9])
  }

  /** Does `b` begin with a whole frame? */
  predicate HasFrame(b: seq<byte>) {
    && |b| >= HEADER_SIZE
    && |b| >= HEADER_SIZE + PayloadSize(HeaderKind(b), HeaderLength(b))
  }

  function FrameSize(b: seq<byte>): (n: nat)
    requires HasFrame(b)
    ensures HEADER_SIZE <= n <= |b|
  {
    HEADER_SIZE + PayloadSize(HeaderKind(b), HeaderLength(b))
  }

  function FirstFrame(b: seq<byte>): (f: Frame)
    requires HasFrame(b)
    ensures WellFramed(f)
  {
    Frame(HeaderKind(b), HeaderId(b), HeaderLength(b), b[HEADER_SIZE..FrameSize(b)])
  }

  /** Where the fields of a frame lie on the wire: kind, id and length, both most significant byte first, payload. */
  lemma WireLayout(f: Frame)
    ensures var b := Encode(f);
            && b[0] == f.kind && b[9..] == f.payload
            && f.id == b[1] as int * 0x100_0000 + b[2] as int * 0x1_0000 + b[3] as int * 0x100 + b[4] as int
            && f.length == b[5] as int * 0x100_0000 + b[6] as int * 0x1_0000 + b[7] as int * 0x100 + b[8] as int
  {
    var b := Encode(f);
    BE32Value(f.id);
    BE32Value(f.length);
    assert b[1..5] == BE32(f.id) && b[5..9] == BE32(f.length);
    assert b[1..5][0] == b[1] && b[1..5][1] == b[2] && b[1..5][2] == b[3] && b[1..5][3] == b[4];
    assert b[5..9][0] == b[5] && b[5..9][1] == b[6] && b[5..9][2] == b[7] && b[5..9][3] == b[8];
  }

  datatype Parsed = Parsed(frames: seq<Frame>, tail: seq<byte>)

  /** Every byte stream splits into frames and a truncated rest. */
  function Parse(b: seq<byte>): Parsed
    decreases |b|
  {
    if HasFrame(b) then
      var later := Parse(b[FrameSize(b)..]);
      Parsed([FirstFrame(b)] + later.frames, later.tail)
    else
      Parsed([], b)
  }

  /** A frame in front of anything is read back as that frame. */
  lemma FirstOfEncode(f: Frame, rest: seq<byte>)
    requires WellFramed(f)
    ensures var b := Encode(f) + rest;
            HasFrame(b) && FrameSize(b) == |Encode(f)| && FirstFrame(b) == f && b[FrameSize(b)..] == rest
  {
    var b := Encode(f) + rest;
    assert b[1..5] == BE32(f.id);
    assert b[5..9] == BE32(f.length);
    BE32RoundTrip(f.id);
    BE32RoundTrip(f.length);
    assert b[HEADER_SIZE..HEADER_SIZE + |f.payload|] == f.payload;
  }

  /** Re-encoding the first frame gives back the bytes it was read from. */
  lemma EncodeOfFirst(b: seq<byte>)
    requires HasFrame(b)
    ensures Encode(FirstFrame(b)) == b[..FrameSize(b)]
  {
    FromBE32RoundTrip(b[1..5]);
    FromBE32RoundTrip(b[5..9]);
    assert b[..FrameSize(b)] == [b[0]] + b[1..5] + b[5..9] + b[9..FrameSize(b)];
  }

  /** Framing is unambiguous: frames laid out on the wire parse back to exactly those frames. */
  lemma {:induction false} ParseOfEncode(fs: seq<Frame>, tail: seq<byte>)
    requires AllWellFramed(fs) && !HasFrame(tail)
    ensures Parse(EncodeAll(fs) + tail) == Parsed(fs, tail)
  {
    if fs == [] {
      assert EncodeAll(fs) + tail == tail;
    } else {
      var rest := EncodeAll(fs[1..]) + tail;
      assert EncodeAll(fs) + tail == Encode(fs[0]) + rest;
      FirstOfEncode(fs[0], rest);
      ParseOfEncode(fs[1..], tail);
      assert fs == [fs[0]] + fs[1..];
    }
  }

  lemma EncodeAllCons(f: Frame, fs: seq<Frame>)
    ensures EncodeAll([f] + fs) == Encode(f) + EncodeAll(fs)
  {
    assert ([f] + fs)[1..] == fs;
  }

  lemma {:induction false} ParsedFramesAreWhole(b: seq<byte>)
    ensures AllWellFramed(Parse(b).frames) && !HasFrame(Parse(b).tail)
    decreases |b|
  {
    if HasFrame(b) {
      ParsedFramesAreWhole(b[FrameSize(b)..]);
    }
  }

  /** Parsing loses nothing: the frames and the tail re-encode to the stream. */
  lemma {:induction false} EncodeOfParse(b: seq<byte>)
    ensures EncodeAll(Parse(b).frames) + Parse(b).tail == b
    decreases |b|
  {
    if HasFrame(b) {
      var head, rest := b[..FrameSize(b)], b[FrameSize(b)..];
      EncodeOfParse(rest);
      EncodeOfFirst(b);
      var p := Parse(rest);
      EncodeAllCons(FirstFrame(b), p.frames);
      Regroup(head, EncodeAll(p.frames), p.tail);
      assert b == head + rest;
    }
  }

  lemma Regroup<T>(a: seq<T>, b: seq<T>, c: seq<T>)
    ensures (a + b) + c == a + (b + c)
  {
  }

  lemma {:induction false} EncodeAllAppend(a: seq<Frame>, b: seq<Frame>)
    ensures EncodeAll(a + b) == EncodeAll(a) + EncodeAll(b)
  {
    if a == [] {
      assert a + b == b;
    } else {
      EncodeAllAppend(a[1..], b);
      assert (a + b)[1..] == a[1..] + b;
      Regroup(Encode(a[0]), EncodeAll(a[1..]), EncodeAll(b));
    }
  }

  lemma EncodeAllOne(f: Frame)
    ensures EncodeAll([f]) == Encode(f)
  {
    assert EncodeAll([f][1..]) == [];
  }

  // The frames the writers produce. Length fields are cast to 32 bits.

  function StartFrame(id: uint32, announced: nat): (f: Frame)
    ensures WellFramed(f)
  {
    Frame(START, id, announced % WORD32, [])
  }

  function DataFrame(id: uint32, chunk: seq<byte>): (f: Frame)
    ensures |chunk| <= MAX_LENGTH ==> WellFramed(f)
  {
    Frame(DATA, id, |chunk| % WORD32, chunk)
  }

  function EndFrame(id: uint32): (f: Frame)
    ensures WellFramed(f)
  {
    Frame(END, id, 0, [])
  }

  function AbortFrame(id: uint32): (f: Frame)
    ensures WellFramed(f)
  {
    Frame(ABORT, id, 0, [])
  }
}
