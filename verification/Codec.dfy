/** The application header: its binary form and what its decoder accepts. */
module Codec {
  import opened Wire

  const REQUEST: byte := 1
  const RESPONSE: byte := 2
  const NOTIFY: byte := 3
  const ACK: byte := 4
  const ERROR: byte := 5

  type Name = seq<byte>

  datatype Header = Header(name: Name, isError: bool, messageType: byte, payload: seq<byte>)

  const ZERO_HEADER: Header := Header([], false, 0, [])

  /** Lengths are cast to 32 bits before they are written. */
  function Encode(h: Header): (b: seq<byte>)
    ensures |b| == 10 + |h.name| + |h.payload|
  {
    BE32(|h.name| % WORD32) + h.name + [if h.isError then 1 else 0, h.messageType] + BE32(|h.payload| % WORD32)
        + h.payload
  }

  /** Both length fields hold what they should. */
  predicate Short(h: Header) {
    |h.name| < WORD32 && |h.payload| < WORD32
  }

  /** Decoding fills a header field by field; a failure leaves the fields filled so far. */
  datatype Decoded = Decoded(header: Header, used: nat) | Malformed(partial: Header)

  function Decode(into: Header, b: seq<byte>): Decoded {
    if |b| < 4 then Malformed(into)
    else
      var n := FromBE32(b[..4]);
      if |b| < 4 + n then Malformed(into)
      else
        var named := into.(name := b[4..4 + n]);
        var at := 4 + n;
        if |b| < at + 1 then Malformed(named)
        else
          var flagged := named.(isError := b[at] == 1);
          if |b| < at + 2 then Malformed(flagged)
          else
            var typed := flagged.(messageType := b[at + 1]);
            if |b| < at + 6 then Malformed(typed)
            else
              var m := FromBE32(b[at + 2..at + 6]);
              var rest := b[at + 6..];
              if |rest| < m then Malformed(typed.(payload := rest + seq(m - |rest|, _ => 0)))
              else Decoded(typed.(payload := rest[..m]), at + 6 + m)
  }

  predicate Decodes(b: seq<byte>) {
    Decode(ZERO_HEADER, b).Decoded?
  }

  /** An encoding cut after the name, and what is left of it. */
  function AfterName(h: Header): seq<byte> {
    [if h.isError then 1 else 0, h.messageType] + BE32(|h.payload| % WORD32) + h.payload
  }

  lemma EncodeInTwo(h: Header, tail: seq<byte>)
    ensures Encode(h) + tail == BE32(|h.name| % WORD32) + h.name + (AfterName(h) + tail)
  {
  }

  lemma NameField(n: seq<byte>, name: seq<byte>, rest: seq<byte>, b: seq<byte>)
    requires b == n + name + rest && |n| == 4
    ensures b[..4] == n && b[4..4 + |name|] == name && b[4 + |name|..] == rest
  {
  }

  lemma PayloadField(h: Header, tail: seq<byte>)
    ensures var r := AfterName(h) + tail;
            && r[0] == (if h.isError then 1 else 0) && r[1] == h.messageType
            && r[2..6] == BE32(|h.payload| % WORD32) && r[6..] == h.payload + tail
  {
  }

  /** Where the fields of an encoding are. */
  lemma Fields(h: Header, tail: seq<byte>)
    ensures var b := Encode(h) + tail;
            var at := 4 + |h.name|;
            && b[..4] == BE32(|h.name| % WORD32) && b[4..at] == h.name
            && b[at] == (if h.isError then 1 else 0) && b[at + 1] == h.messageType
            && b[at + 2..at + 6] == BE32(|h.payload| % WORD32) && b[at + 6..] == h.payload + tail
  {
    var b := Encode(h) + tail;
    EncodeInTwo(h, tail);
    NameField(BE32(|h.name| % WORD32), h.name, AfterName(h) + tail, b);
    PayloadField(h, tail);
    Rebase(b, 4 + |h.name|);
  }

  lemma LengthFields(h: Header)
    requires Short(h)
    ensures FromBE32(BE32(|h.name| % WORD32)) == |h.name| && FromBE32(BE32(|h.payload| % WORD32)) == |h.payload|
  {
    WordRoundTrip(|h.name|);
    WordRoundTrip(|h.payload|);
  }

  lemma WordRoundTrip(n: nat)
    requires n < WORD32
    ensures FromBE32(BE32(n % WORD32)) == n
  {
    assert n % WORD32 == n;
    BE32RoundTrip(n);
  }

  lemma Rebase(b: seq<byte>, at: nat)
    requires at + 6 <= |b|
    ensures var r := b[at..];
            b[at] == r[0] && b[at + 1] == r[1] && b[at + 2..at + 6] == r[2..6] && b[at + 6..] == r[6..]
  {
  }

  /** Decoding an encoding gives back the header, whatever was in the receiver, and ignores what follows. */
  lemma DecodeOfEncode(into: Header, h: Header, tail: seq<byte>)
    requires Short(h)
    ensures Decode(into, Encode(h) + tail) == Decoded(h, |Encode(h)|)
  {
    Fields(h, tail);
    LengthFields(h);
    assert (h.payload + tail)[..|h.payload|] == h.payload;
  }

  lemma DecodeOfExactEncode(into: Header, h: Header)
    requires Short(h)
    ensures Decode(into, Encode(h)) == Decoded(h, |Encode(h)|)
  {
    DecodeOfEncode(into, h, []);
    assert Encode(h) + [] == Encode(h);
  }

  /** The round trip holds exactly for headers whose two lengths fit 32 bits. */
  lemma RoundTripIffShort(h: Header)
    ensures (exists n :: Decode(ZERO_HEADER, Encode(h)) == Decoded(h, n)) <==> Short(h)
  {
    if Short(h) {
      DecodeOfExactEncode(ZERO_HEADER, h);
    } else {
      Fields(h, []);
      assert Encode(h) + [] == Encode(h);
      BE32RoundTrip(|h.name| % WORD32);
      BE32RoundTrip(|h.payload| % WORD32);
    }
  }

  /** A field that lies within a prefix is the same there. */
  lemma SliceOfPrefix(b: seq<byte>, i: nat, j: nat, k: nat)
    requires i <= j <= k <= |b|
    ensures b[..k][i..j] == b[i..j]
  {
  }

  /** No strict prefix of an encoding decodes. */
  lemma NoPrefixDecodes(into: Header, h: Header, k: nat)
    requires Short(h) && k < |Encode(h)|
    ensures Decode(into, Encode(h)[..k]).Malformed?
  {
    var b, p := Encode(h), Encode(h)[..k];
    var at := 4 + |h.name|;
    Fields(h, []);
    LengthFields(h);
    assert b + [] == b;
    if k >= 4 {
      SliceOfPrefix(b, 0, 4, k);
      assert p[..4] == b[..4];
      assert FromBE32(p[..4]) == |h.name|;
      if k >= at + 6 {
        SliceOfPrefix(b, at + 2, at + 6, k);
        assert FromBE32(p[at + 2..at + 6]) == |h.payload|;
        assert |p[at + 6..]| < |h.payload|;
      }
    }
  }

  /**
   What a decoder has filled in when it meets the end of a strict prefix: the fields that arrived whole, and what came
   of the payload, padded with zeros to its announced length.
   */
  lemma FieldsInPrefix(into: Header, h: Header, k: nat)
    requires Short(h) && k < |Encode(h)|
    ensures var at := 4 + |h.name|;
            Decode(into, Encode(h)[..k]) ==
            Malformed(Header(if k < at then into.name else h.name,
                             if k < at + 1 then into.isError else h.isError,
                             if k < at + 2 then into.messageType else h.messageType,
                             if k < at + 6 then into.payload
                             else h.payload[..k - at - 6] + seq(|h.payload| - (k - at - 6), _ => 0)))
  {
    var b, p := Encode(h), Encode(h)[..k];
    var at := 4 + |h.name|;
    NoPrefixDecodes(into, h, k);
    Fields(h, []);
    LengthFields(h);
    assert b + [] == b;
    if k >= at {
      SliceOfPrefix(b, 0, 4, k);
      assert p[..4] == b[..4];
      SliceOfPrefix(b, 4, at, k);
      assert p[4..at] == h.name;
    }
    if k >= at + 6 {
      SliceOfPrefix(b, at + 2, at + 6, k);
      assert p[at + 6..] == b[at + 6..][..k - at - 6] == h.payload[..k - at - 6];
    }
  }

  /** In particular its name is still missing, or there in full. */
  lemma NameInPrefix(into: Header, h: Header, k: nat)
    requires Short(h) && k < |Encode(h)|
    ensures var d := Decode(into, Encode(h)[..k]);
            d.Malformed? && d.partial.name == if k < 4 + |h.name| then into.name else h.name
  {
    FieldsInPrefix(into, h, k);
  }

  /** The consumed bytes with the error flag in its canonical form. */
  function Canonical(b: seq<byte>, at: nat): seq<byte>
    requires at < |b|
  {
    b[at := if b[at] == 1 then 1 else 0]
  }

  /** Whatever decodes is, up to the error flag, the encoding of the header it decodes to. */
  lemma EncodeOfDecode(into: Header, b: seq<byte>)
    requires Decode(into, b).Decoded?
    ensures var d := Decode(into, b);
            && Short(d.header) && d.used <= |b| && 4 + |d.header.name| < d.used
            && Encode(d.header) == Canonical(b[..d.used], 4 + |d.header.name|)
  {
    var d := Decode(into, b);
    var h := d.header;
    var c, at, flag := b[..d.used], 4 + |h.name|, if h.isError then 1 else 0;
    DecodedFields(into, b);
    WordField(c[..4], |h.name|);
    WordField(c[at + 2..at + 6], |h.payload|);
    Cut(c, at, flag);
    assert Encode(h) == BE32(|h.name| % WORD32) + h.name + [flag, h.messageType] + BE32(|h.payload| % WORD32)
           + h.payload;
  }

  lemma WordField(w: seq<byte>, n: nat)
    requires |w| == 4 && FromBE32(w) == n
    ensures n < WORD32 && BE32(n % WORD32) == w
  {
    FromBE32RoundTrip(w);
  }

  lemma DecodedFields(into: Header, b: seq<byte>)
    requires Decode(into, b).Decoded?
    ensures var d := Decode(into, b);
            var at := 4 + |d.header.name|;
            && at + 6 + |d.header.payload| == d.used <= |b|
            && var c := b[..d.used];
            && FromBE32(c[..4]) == |d.header.name| && c[4..at] == d.header.name
            && d.header.isError == (c[at] == 1) && d.header.messageType == c[at + 1]
            && FromBE32(c[at + 2..at + 6]) == |d.header.payload| && c[at + 6..] == d.header.payload
  {
    var d := Decode(into, b);
    var c, at := b[..d.used], 4 + |d.header.name|;
    assert c[..4] == b[..4];
    assert c[4..at] == b[4..at];
    assert c[at + 2..at + 6] == b[at + 2..at + 6];
    assert c[at + 6..] == b[at + 6..][..|d.header.payload|];
  }

  lemma Cut(b: seq<byte>, at: nat, flag: byte)
    requires 4 <= at && at + 6 <= |b|
    ensures b[at := flag] == b[..4] + b[4..at] + [flag, b[at + 1]] + b[at + 2..at + 6] + b[at + 6..]
  {
  }

  /** A short text that does not begin with a zero byte claims a name longer than itself. */
  lemma TextNeverDecodes(into: Header, b: seq<byte>)
    requires |b| < 0x100_0000
    requires b != [] ==> b[0] != 0
    ensures Decode(into, b) == Malformed(into)
  {
    if |b| >= 4 {
      assert b[..4][0] == b[0];
      var b0: int := b[0];
      assert FromBE32(b[..4]) >= b0 * 0x100_0000;
    }
  }

  // ---- The struct and its two methods ----

  class HeaderRecord {
    var name: Name
    var isError: bool
    var messageType: byte
    var payload: seq<byte>

    function Value(): Header
      reads this
    {
      Header(name, isError, messageType, payload)
    }

    constructor (h: Header)
      ensures Value() == h
    {
      name, isError, messageType, payload := h.name, h.isError, h.messageType, h.payload;
    }

    method MarshalBinary() returns (buffer: seq<byte>)
      ensures buffer == Encode(Value())
    {
      buffer := BE32(|name| % WORD32);
      buffer := buffer + name;
      var isErrorByte: byte := 0;
      if isError {
        isErrorByte := 1;
      }
      buffer := buffer + [isErrorByte];
      buffer := buffer + [messageType];
      buffer := buffer + BE32(|payload| % WORD32);
      buffer := buffer + payload;
      assert buffer == Encode(Value());
    }

    method UnmarshalBinary(data: seq<byte>) returns (ok: bool)
      modifies this
      ensures ok == Decode(old(Value()), data).Decoded?
      ensures Value() == (match Decode(old(Value()), data) case Decoded(h, _) => h case Malformed(h) => h)
    {
      var at := 0;
      if |data| < 4 {
        return false;
      }
      var nameLen := FromBE32(data[..4]);
      at := 4;
      if |data| - at < nameLen {
        return false;
      }
      name := data[at..at + nameLen];
      at := at + nameLen;
      if |data| - at < 1 {
        return false;
      }
      isError := data[at] == 1;
      at := at + 1;
      if |data| - at < 1 {
        return false;
      }
      messageType := data[at];
      at := at + 1;
      if |data| - at < 4 {
        return false;
      }
      var payloadLen := FromBE32(data[at..at + 4]);
      at := at + 4;
      if |data| - at < payloadLen {
        payload := data[at..] + seq(payloadLen - (|data| - at), _ => 0);
        return false;
      }
      payload := data[at..at + payloadLen];
      assert payload == data[at..][..payloadLen];
      return true;
    }
  }
}
