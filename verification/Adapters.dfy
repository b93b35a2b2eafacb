/**
 What the application layer sees. The adapters drop the event type: aborted messages and error texts
 arrive as ordinary messages, so only the header codec keeps them from acting.
 */
module Adapters {
  import opened Wire
  import opened Frames
  import opened Reader
  import opened Writers
  import opened Interleave
  import Codec

  function Ascii(s: string): (b: seq<byte>)
    ensures |b| == |s|
  {
    seq(|s|, i requires 0 <= i < |s| => s[i] as int % 0x100)
  }

  function Decimal(n: nat): seq<byte> {
    (if n < 10 then [] else Decimal(n / 10)) + [48 + n % 10]
  }

  /** The number a text of digits reads as. */
  function Reading(digits: seq<byte>): int {
    if digits == [] then 0 else 10 * Reading(digits[..|digits| - 1]) + digits[|digits| - 1] - 48
  }

  predicate AllDigits(s: seq<byte>) {
    forall i :: 0 <= i < |s| ==> 48 <= s[i] < 58
  }

  lemma DecimalStep(n: nat)
    ensures var d := Decimal(n);
            && d != [] && d[|d| - 1] == 48 + n % 10
            && d[..|d| - 1] == if n < 10 then [] else Decimal(n / 10)
  {
  }

  lemma {:induction false} DecimalReads(n: nat)
    ensures AllDigits(Decimal(n)) && Reading(Decimal(n)) == n
  {
    var d := Decimal(n);
    DecimalStep(n);
    if n >= 10 {
      DecimalReads(n / 10);
      assert forall i :: 0 <= i < |d| - 1 ==> d[i] == d[..|d| - 1][i];
    }
  }

  function Pow10(k: nat): nat {
    if k == 0 then 1 else 10 * Pow10(k - 1)
  }

  lemma {:induction false} DecimalLength(n: nat, digits: nat)
    requires 0 < digits && n < Pow10(digits)
    ensures |Decimal(n)| <= digits
    decreases digits
  {
    if digits > 1 {
      DecimalLength(n / 10, digits - 1);
    } else {
      assert Pow10(1) == 10;
    }
  }

  /** The bytes of an error message as the readers put them on the channel. */
  function ErrorText(c: Cause): seq<byte> {
    match c
    case ContextDone => Ascii("context done")
    case UnexpectedEOF => Ascii("unexpected EOF")
    case TooLong(n) => Ascii("data length ") + Decimal(n) + Ascii(" exceeds maximum ") + Decimal(MAX_LENGTH)
    case AlreadyExists(id) => Ascii("frame ID ") + Decimal(id) + Ascii(" already exists")
    case UnknownFrame(id) => Ascii("unknown frame ID: ") + Decimal(id)
    case Oversize => Ascii("message size would exceed maximum: ") + Decimal(MAX_LENGTH)
    case UnknownKind(kind) => Ascii("unknown message type: ") + Decimal(kind)
  }

  lemma ErrorTextShape(c: Cause)
    ensures 0 < |ErrorText(c)| < 100 && ErrorText(c)[0] != 0
  {
    assert Pow10(10) == 10_000_000_000;
    var n := match c
      case TooLong(n) => n
      case AlreadyExists(id) => id
      case UnknownFrame(id) => id
      case UnknownKind(kind) => kind
      case _ => 0;
    DecimalLength(n, 10);
    DecimalLength(MAX_LENGTH, 10);
  }

  datatype ApiMessage = ApiMessage(sequence: uint32, data: seq<byte>)

  /** Errors carry no id of their own. */
  function ToApi(e: Event): ApiMessage {
    match e
    case Complete(id, data) => ApiMessage(id, data)
    case Aborted(id, data) => ApiMessage(id, data)
    case Failed(c) => ApiMessage(0, ErrorText(c))
  }

  datatype OldMessage = OldMessage(id: uint32, data: seq<byte>, kind: byte)

  const COMPLETE_KIND: byte := 5

  /** The forwarding goroutine of the multiplexer adapter. */
  method ForwardApi(ch: seq<Event>) returns (apiCh: seq<ApiMessage>)
    ensures |apiCh| == |ch| && forall i :: 0 <= i < |ch| ==> apiCh[i] == ToApi(ch[i])
    ensures forall i :: 0 <= i < |ch| ==>
              match ch[i]
              case Failed(c) => apiCh[i].sequence == 0 && apiCh[i].data == ErrorText(c)
              case Complete(id, data) => apiCh[i] == ApiMessage(id, data)
              case Aborted(id, data) => apiCh[i] == ApiMessage(id, data)
  {
    apiCh := [];
    for i := 0 to |ch|
      invariant |apiCh| == i && forall j :: 0 <= j < i ==> apiCh[j] == ToApi(ch[j])
    {
      apiCh := apiCh + [ToApi(ch[i])];
    }
  }

  /** The forwarding goroutine of the module's wrapper: every message is stamped Complete, whatever it was. */
  method ForwardOld(apiCh: seq<ApiMessage>) returns (oldCh: seq<OldMessage>)
    ensures |oldCh| == |apiCh|
    ensures forall i :: 0 <= i < |apiCh| ==> oldCh[i] == OldMessage(apiCh[i].sequence, apiCh[i].data, COMPLETE_KIND)
  {
    oldCh := [];
    for i := 0 to |apiCh|
      invariant |oldCh| == i
      invariant forall j :: 0 <= j < i ==> oldCh[j] == OldMessage(apiCh[j].sequence, apiCh[j].data, COMPLETE_KIND)
    {
      oldCh := oldCh + [OldMessage(apiCh[i].sequence, apiCh[i].data, COMPLETE_KIND)];
    }
  }

  /** No multiplexer error, of any reader on any stream, is ever taken for a header. */
  lemma ErrorsNeverDecode(c: Cause)
    ensures !Codec.Decodes(ToApi(Failed(c)).data)
  {
    ErrorTextShape(c);
    Codec.TextNeverDecodes(Codec.ZERO_HEADER, ErrorText(c));
  }

  /** A strict prefix of the chunks is a strict prefix of the bytes. */
  lemma FewerChunksFewerBytes(job: Job, k: nat)
    requires Chunked(job) && k <= |job.chunks|
    ensures |Concat(job.chunks[..k])| == |Concat(job.chunks)| <==> k == |job.chunks|
  {
    if k < |job.chunks| {
      ConcatSnoc(job.chunks, k);
      ConcatPrefix(job.chunks, k + 1);
    } else {
      assert job.chunks[..k] == job.chunks;
    }
  }

  /** All data chunks are on the wire, whether or not the writer then aborted. */
  predicate AllChunksSent(job: Job, pc: Pc) {
    pc.Completed? || (pc.Cut? && pc.k == |job.chunks|)
  }

  /** A writer's message decodes exactly when every data chunk was written, and then to the header it was made from. */
  lemma DecodesIffAllChunksSent(job: Job, pc: Pc, h: Codec.Header)
    requires Sendable(job) && Concat(job.chunks) == Codec.Encode(h) && Terminal(pc) && InRange(job, pc)
    ensures var data := ToApi(EventOf(job, pc)).data;
            && (Codec.Decodes(data) <==> AllChunksSent(job, pc))
            && (AllChunksSent(job, pc) ==> Codec.Decode(Codec.ZERO_HEADER, data) == Codec.Decoded(h, |data|))
  {
    var b := Codec.Encode(h);
    Codec.DecodeOfExactEncode(Codec.ZERO_HEADER, h);
    if pc.Cut? {
      FewerChunksFewerBytes(job, pc.k);
      ConcatPrefix(job.chunks, pc.k);
      if pc.k < |job.chunks| {
        Codec.NoPrefixDecodes(Codec.ZERO_HEADER, h, |Concat(job.chunks[..pc.k])|);
      } else {
        assert job.chunks[..pc.k] == job.chunks;
      }
    }
  }

  ghost predicate SendsHeaders(jobs: seq<Job>, headers: seq<Codec.Header>) {
    |headers| == |jobs| && forall w :: 0 <= w < |jobs| ==> Concat(jobs[w].chunks) == Codec.Encode(headers[w])
  }

  /**
   Only whole messages decode. Over any run with distinct ids in flight, from the writers' frames through
   bytes, the reader's loop and the adapter: message `i` of the application channel carries the id of the
   `i`-th terminated writer, and decodes exactly when all of that writer's chunks were written, to the
   header that writer sent.
   */
  lemma OnlyWholeMessagesDecode(v: Variant, jobs: seq<Job>, headers: seq<Codec.Header>, moves: seq<Move>, i: nat)
    requires AllSendable(jobs) && ClashFree(jobs, moves) && SendsHeaders(jobs, headers)
    requires i < |Run(v, map[], EncodeAll(Exec(jobs, moves).wire), None).events|
    ensures var s := Exec(jobs, moves);
            var m := ToApi(Run(v, map[], EncodeAll(s.wire), None).events[i]);
            && i < |s.ended| && s.ended[i] < |jobs|
            && var w := s.ended[i];
            && m.sequence == jobs[w].id
            && (Codec.Decodes(m.data) <==> AllChunksSent(jobs[w], s.pcs[w]))
            && (Codec.Decodes(m.data)
                ==> Codec.Decode(Codec.ZERO_HEADER, m.data) == Codec.Decoded(headers[w], |m.data|))
  {
    EndToEnd(v, jobs, moves);
    var s := Exec(jobs, moves);
    var w := s.ended[i];
    DecodesIffAllChunksSent(jobs[w], s.pcs[w], headers[w]);
  }
}
