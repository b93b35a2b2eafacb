/** The metric counters of the counting readers, and the books they must balance with. */
module Conservation {
  import opened Wire
  import opened Frames
  import opened Reader

  /** Four of the atomic 64-bit counters, with their wrap-around. */
  datatype Gauges = Gauges(messagesRead: uint64, bytesRead: uint64, errors: uint64, pendingMessages: uint64)

  const ZERO_GAUGES: Gauges := Gauges(0, 0, 0, 0)

  function Plus(x: uint64, n: nat): uint64 {
    (x + n) % WORD64
  }

  /** `Add(^uint64(0))`. */
  function MinusOne(x: uint64): uint64 {
    (x + WORD64 - 1) % WORD64
  }

  /** What the reader loop does to its counters on one whole frame. */
  function GaugeFrame(g: Gauges, p: Pending, f: Frame): Gauges {
    if f.length > MAX_LENGTH then g
    else if f.kind == START then
      if f.id in p then g else g.(pendingMessages := Plus(g.pendingMessages, 1))
    else if f.kind == DATA then
      if f.length == 0 || f.id !in p then g
      else if |p[f.id]| + f.length > MAX_LENGTH then g.(pendingMessages := MinusOne(g.pendingMessages))
      else g.(bytesRead := Plus(g.bytesRead, f.length))
    else if f.kind == END then
      if f.id !in p then g
      else g.(messagesRead := Plus(g.messagesRead, 1), pendingMessages := MinusOne(g.pendingMessages))
    else if f.kind == ABORT then
      if f.id !in p then g else g.(pendingMessages := MinusOne(g.pendingMessages))
    else g.(errors := Plus(g.errors, 1))
  }

  function GaugeClose(g: Gauges, p: Pending): Gauges {
    if |p| > 0 then g.(pendingMessages := 0) else g
  }

  /** The counters over one pass of the loop: a truncated tail leaves them alone. */
  function GaugeIterate(g: Gauges, p: Pending, b: seq<byte>): Gauges {
    if HasFrame(b) then GaugeFrame(g, p, FirstFrame(b)) else g
  }

  function GaugeAfterHeader(g: Gauges, p: Pending, kind: byte, id: uint32, length: uint32, rest: seq<byte>): Gauges {
    var n := PayloadSize(kind, length);
    if n <= |rest| then GaugeFrame(g, p, Frame(kind, id, length, rest[..n])) else g
  }

  lemma GaugeIterateAfterHeader(g: Gauges, p: Pending, b: seq<byte>)
    requires |b| >= HEADER_SIZE
    ensures GaugeIterate(g, p, b)
         == GaugeAfterHeader(g, p, HeaderKind(b), HeaderId(b), HeaderLength(b), b[HEADER_SIZE..])
  {
    var rest, n := b[HEADER_SIZE..], PayloadSize(HeaderKind(b), HeaderLength(b));
    if n <= |rest| {
      assert rest[..n] == b[HEADER_SIZE..FrameSize(b)];
    }
  }

  /** The counters over a whole run of the loop. */
  function GaugeRun(g: Gauges, p: Pending, b: seq<byte>, cancel: Option<nat>): Gauges
    decreases |b|
  {
    if cancel == Some(0) then g
    else match Iterate(Counting, p, b)
      case Stop => g
      case Next(o, rest) =>
        GaugeRun(GaugeIterate(g, p, b), o.pending, rest, if cancel.Some? then Some(cancel.value - 1) else None)
  }

  /** A bookkeeper who sees only events and the partial messages before and after. */
  datatype Ledger = Ledger(starts: nat, completed: nat, aborted: nat, dropped: nat, closed: nat,
                           delivered: nat, discarded: nat, strange: nat)

  const EMPTY_LEDGER: Ledger := Ledger(0, 0, 0, 0, 0, 0, 0, 0)

  function Book(l: Ledger, p: Pending, f: Frame, o: Outcome): Ledger {
    if o.events == [] then if |o.pending| > |p| then l.(starts := l.starts + 1) else l
    else match o.events[0]
      case Complete(_, data) => l.(completed := l.completed + 1, delivered := l.delivered + |data|)
      case Aborted(_, data) => l.(aborted := l.aborted + 1, delivered := l.delivered + |data|)
      case Failed(c) =>
        if c.Oversize? && f.id in p then l.(dropped := l.dropped + 1, discarded := l.discarded + |p[f.id]|)
        else if c.UnknownKind? then l.(strange := l.strange + 1) else l
  }

  ghost function BookClose(l: Ledger, p: Pending): Ledger {
    l.(closed := l.closed + |p|, discarded := l.discarded + Total(p))
  }

  /** The bytes held in partial messages. */
  ghost function Total(p: Pending): nat {
    if p == map[] then 0
    else
      var id :| id in p;
      |p[id]| + Total(p - {id})
  }

  lemma {:induction false} TotalRemove(p: Pending, id: uint32)
    requires id in p
    ensures Total(p) == |p[id]| + Total(p - {id})
  {
    var first :| first in p && Total(p) == |p[first]| + Total(p - {first});
    if first != id {
      TotalRemove(p - {first}, id);
      TotalRemove(p - {id}, first);
      assert p - {first} - {id} == p - {id} - {first};
    }
  }

  lemma TotalAdd(p: Pending, id: uint32)
    requires id !in p
    ensures Total(p[id := []]) == Total(p) && |p[id := []]| == |p| + 1
  {
    var q := p[id := []];
    TotalRemove(q, id);
    assert q - {id} == p;
    SizeRemove(q, id);
  }

  lemma TotalGrow(p: Pending, id: uint32, more: seq<byte>)
    requires id in p
    ensures var q := p[id := p[id] + more];
            Total(q) == Total(p) + |more| && |q| == |p|
  {
    var q := p[id := p[id] + more];
    TotalRemove(p, id);
    TotalRemove(q, id);
    assert q - {id} == p - {id};
    SizeRemove(p, id);
    SizeRemove(q, id);
  }

  lemma SizeRemove(p: Pending, id: uint32)
    requires id in p
    ensures |p - {id}| == |p| - 1
  {
    assert (p - {id}).Keys == p.Keys - {id};
    assert |p| == |p.Keys| && |p - {id}| == |(p - {id}).Keys|;
  }

  lemma PendingFitsIds(p: Pending)
    ensures |p| <= WORD32
  {
    BoundedSetSize(p.Keys, WORD32);
  }

  datatype Op = Whole(frame: Frame) | Close

  datatype Books = Books(pending: Pending, gauges: Gauges, ledger: Ledger)

  ghost function Apply(s: Books, op: Op): Books {
    match op
    case Whole(f) =>
      var o := OnFrame(Counting, s.pending, f);
      Books(o.pending, GaugeFrame(s.gauges, s.pending, f), Book(s.ledger, s.pending, f, o))
    case Close => Books(map[], GaugeClose(s.gauges, s.pending), BookClose(s.ledger, s.pending))
  }

  ghost function ApplyAll(s: Books, ops: seq<Op>): Books
    decreases |ops|
  {
    if ops == [] then s else ApplyAll(Apply(s, ops[0]), ops[1..])
  }

  /** The counters agree with the books. */
  ghost predicate Balanced(s: Books) {
    var l := s.ledger;
    && s.gauges.pendingMessages == |s.pending|
    && l.starts == l.completed + l.aborted + l.dropped + l.closed + |s.pending|
    && s.gauges.bytesRead == (l.delivered + l.discarded + Total(s.pending)) % WORD64
    && s.gauges.messagesRead == l.completed % WORD64
    && s.gauges.errors == l.strange % WORD64
  }

  lemma PlusModulo(x: uint64, t: nat, n: nat)
    requires x == t % WORD64
    ensures Plus(x, n) == (t + n) % WORD64
  {
  }

  lemma MinusOneSmall(n: nat)
    requires 0 < n <= WORD32
    ensures MinusOne(n) == n - 1
  {
  }

  lemma RemoveBalances(s: Books, id: uint32)
    requires Balanced(s) && id in s.pending
    ensures |s.pending - {id}| == |s.pending| - 1 == MinusOne(s.gauges.pendingMessages)
    ensures Total(s.pending) == |s.pending[id]| + Total(s.pending - {id})
  {
    SizeRemove(s.pending, id);
    TotalRemove(s.pending, id);
    PendingFitsIds(s.pending);
    MinusOneSmall(|s.pending|);
  }

  lemma AppendBalances(s: Books, f: Frame)
    requires Balanced(s) && WellFramed(f) && f.kind == DATA && 0 < f.length <= MAX_LENGTH && f.id in s.pending
    requires |s.pending[f.id]| + f.length <= MAX_LENGTH
    ensures Balanced(Apply(s, Whole(f)))
  {
    var p, l := s.pending, s.ledger;
    var q := p[f.id := p[f.id] + f.payload];
    TotalGrow(p, f.id, f.payload);
    var t := l.delivered + l.discarded + Total(p);
    PlusModulo(s.gauges.bytesRead, t, f.length);
    assert Apply(s, Whole(f)) == Books(q, s.gauges.(bytesRead := Plus(s.gauges.bytesRead, f.length)), l);
    assert l.delivered + l.discarded + Total(q) == t + f.length;
  }

  lemma DataBalances(s: Books, f: Frame)
    requires Balanced(s) && WellFramed(f) && f.kind == DATA && 0 < f.length <= MAX_LENGTH && f.id in s.pending
    ensures Balanced(Apply(s, Whole(f)))
  {
    if |s.pending[f.id]| + f.length > MAX_LENGTH {
      RemoveBalances(s, f.id);
    } else {
      AppendBalances(s, f);
    }
  }

  lemma LastBalances(s: Books, f: Frame)
    requires Balanced(s) && (f.kind == END || f.kind == ABORT) && f.length <= MAX_LENGTH && f.id in s.pending
    ensures Balanced(Apply(s, Whole(f)))
  {
    RemoveBalances(s, f.id);
    PlusModulo(s.gauges.messagesRead, s.ledger.completed, 1);
  }

  lemma StartBalances(s: Books, f: Frame)
    requires Balanced(s) && f.kind == START && f.length <= MAX_LENGTH && f.id !in s.pending
    ensures Balanced(Apply(s, Whole(f)))
  {
    var q := s.pending[f.id := []];
    TotalAdd(s.pending, f.id);
    PendingFitsIds(q);
    assert Plus(s.gauges.pendingMessages, 1) == |q|;
  }

  /** Frames that neither start, extend nor finish a message. */
  predicate Idle(p: Pending, f: Frame) {
    || f.length > MAX_LENGTH
    || (if f.kind == START then f.id in p
        else if f.kind == DATA then f.length == 0 || f.id !in p
        else f.id !in p || (f.kind != END && f.kind != ABORT))
  }

  lemma IdleBalances(s: Books, f: Frame)
    requires Balanced(s) && Idle(s.pending, f)
    ensures Balanced(Apply(s, Whole(f)))
  {
    assert OnFrame(Counting, s.pending, f).pending == s.pending;
    PlusModulo(s.gauges.errors, s.ledger.strange, 1);
  }

  lemma FrameBalances(s: Books, f: Frame)
    requires Balanced(s) && WellFramed(f)
    ensures Balanced(Apply(s, Whole(f)))
  {
    if Idle(s.pending, f) {
      IdleBalances(s, f);
    } else if f.kind == START {
      StartBalances(s, f);
    } else if f.kind == DATA {
      DataBalances(s, f);
    } else {
      LastBalances(s, f);
    }
  }

  /**
   Conservation: after any frames and any closes between them, `PendingMessages` is the number of partial
   messages, accepted Starts are completed, aborted, dropped, closed or pending, and `BytesRead` counts
   the bytes delivered, discarded or still pending, and `Errors` the frames of unknown kinds, modulo 2^64.
   */
  lemma {:induction false} BooksBalance(s: Books, ops: seq<Op>)
    requires Balanced(s) && forall i :: 0 <= i < |ops| && ops[i].Whole? ==> WellFramed(ops[i].frame)
    ensures Balanced(ApplyAll(s, ops))
    decreases |ops|
  {
    if ops != [] {
      if ops[0].Whole? {
        FrameBalances(s, ops[0].frame);
      } else {
        assert Total(map[]) == 0;
      }
      BooksBalance(Apply(s, ops[0]), ops[1..]);
    }
  }

  const FRESH: Books := Books(map[], ZERO_GAUGES, EMPTY_LEDGER)

  /** A fresh node starts balanced, so it stays so. */
  lemma FreshBooksBalance(ops: seq<Op>)
    requires forall i :: 0 <= i < |ops| && ops[i].Whole? ==> WellFramed(ops[i].frame)
    ensures Balanced(ApplyAll(FRESH, ops))
  {
    FreshIsBalanced();
    BooksBalance(FRESH, ops);
  }

  lemma FreshIsBalanced()
    ensures Balanced(FRESH)
  {
  }

  function Wholes(fs: seq<Frame>): (ops: seq<Op>)
    ensures |ops| == |fs| && forall i :: 0 <= i < |ops| ==> ops[i] == Whole(fs[i])
  {
    seq(|fs|, i requires 0 <= i < |fs| => Whole(fs[i]))
  }

  lemma WholesCons(f: Frame, fs: seq<Frame>)
    ensures Wholes([f] + fs) == [Whole(f)] + Wholes(fs)
  {
  }

  lemma FramesTakenCons(b: seq<byte>, cancel: Option<nat>)
    requires HasFrame(b) && cancel != Some(0)
    ensures FramesTaken(b, cancel) == [FirstFrame(b)] + FramesTaken(b[FrameSize(b)..], Later(cancel))
  {
    if cancel.Some? {
      TakenStep(b, cancel.value);
    }
  }

  /** Whatever the bytes, the loop's counters and partial messages are those of the books it keeps frame by frame. */
  lemma {:induction false} RunKeepsBooks(s: Books, b: seq<byte>, cancel: Option<nat>)
    ensures var end := ApplyAll(s, Wholes(FramesTaken(b, cancel)));
            && end.gauges == GaugeRun(s.gauges, s.pending, b, cancel)
            && end.pending == Run(Counting, s.pending, b, cancel).pending
    decreases |b|
  {
    if cancel == Some(0) {
      assert FramesTaken(b, cancel) == [];
    } else if HasFrame(b) {
      var f := FirstFrame(b);
      FramesTakenCons(b, cancel);
      WholesCons(f, FramesTaken(b[FrameSize(b)..], Later(cancel)));
      RunKeepsBooks(Apply(s, Whole(f)), b[FrameSize(b)..], Later(cancel));
    } else {
      assert FramesTaken(b, cancel) == [];
      if b != [] && |b| != HEADER_SIZE {
        assert GaugeRun(s.gauges, s.pending, [], Later(cancel)) == s.gauges;
        assert Run(Counting, s.pending, [], Later(cancel)).pending == s.pending;
      }
    }
  }

  /** So the books balance after every run of a counting reader, on any bytes, cancelled anywhere or not at all. */
  lemma EveryRunBalances(s: Books, b: seq<byte>, cancel: Option<nat>)
    requires Balanced(s)
    ensures var end := ApplyAll(s, Wholes(FramesTaken(b, cancel)));
            && Balanced(end)
            && end.gauges == GaugeRun(s.gauges, s.pending, b, cancel)
            && end.gauges.pendingMessages == |Run(Counting, s.pending, b, cancel).pending|
  {
    RunKeepsBooks(s, b, cancel);
    ParsedFramesAreWhole(b);
    var ops := Wholes(FramesTaken(b, cancel));
    forall i | 0 <= i < |ops| && ops[i].Whole? ensures WellFramed(ops[i].frame) {
      assert ops[i] == Whole(Parse(b).frames[i]);
    }
    BooksBalance(s, ops);
  }
}
