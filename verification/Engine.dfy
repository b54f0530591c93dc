/** The durable single-writer engine as values: what a command does live and on replay, the two
    logs a command history stands for, and recovery from whatever a crash left of them
    (internal/engine/actor.go, engine.go, outbox.go). */
module Engine {
  import opened Basics
  import opened Bytes
  import opened Codecs
  import opened Events
  import opened Wal

  /** The arguments SubmitLimit is called with. */
  datatype Ticket = Ticket(req: u64, order: u64, user: u64, side: byte, price: i64, qty: i64)

  /** The order book the engine drives: any deterministic one. */
  datatype OrderBook<!B> = OrderBook(
    empty: B,
    submit: (B, Ticket) -> (B, seq<Emitted>),
    cancel: (B, u64, u64) -> (B, seq<Emitted>, bool))

  function TicketOf(c: Command): Ticket {
    Ticket(c.req, c.order, c.user, c.side, c.price, c.qty)
  }

  // ---- one command ---------------------------------------------------------------------------

  predicate WellFormedSubmit(c: Command) {
    c.order != 0 && c.qty > 0 && c.price > 0 && (c.side == 1 || c.side == 2)
  }

  /** The running actor validates first; a rejected command gets no end marker. */
  function Live<B>(ob: OrderBook<B>, b: B, c: Command): (B, seq<Emitted>, bool) {
    if c.typ == CMD_SUBMIT then
      if !WellFormedSubmit(c) then (b, [Rejected(c.req, c.order, c.user)], false)
      else
        var (b', es) := ob.submit(b, TicketOf(c));
        (b', es, true)
    else if c.typ == CMD_CANCEL then
      if c.cancel == 0 then (b, [Rejected(c.req, 0, 0)], false)
      else
        var (b', es, ok) := ob.cancel(b, c.req, c.cancel);
        (b', es + (if ok then [] else [Rejected(c.req, c.cancel, 0)]), true)
    else (b, [Rejected(c.req, c.order, c.user)], true)
  }

  /** Replay applies without validating and always writes the end marker. */
  function Replayed<B>(ob: OrderBook<B>, b: B, c: Command): (B, seq<Emitted>) {
    if c.typ == CMD_SUBMIT then ob.submit(b, TicketOf(c))
    else if c.typ == CMD_CANCEL then
      var (b', es, ok) := ob.cancel(b, c.req, c.cancel);
      (b', es)
    else (b, [])
  }

  /** Commands that pass the actor's validation, cancels that find their order. */
  predicate Faithful<B>(ob: OrderBook<B>, b: B, c: Command) {
    || (c.typ == CMD_SUBMIT && WellFormedSubmit(c))
    || (c.typ == CMD_CANCEL && c.cancel != 0 && ob.cancel(b, c.req, c.cancel).2)
  }

  /** Replaying a command reproduces what it did live exactly when it is faithful. */
  lemma ReplayIsLive<B>(ob: OrderBook<B>, b: B, c: Command)
    ensures (var (b', es) := Replayed(ob, b, c); Live(ob, b, c) == (b', es, true)) <==> Faithful(ob, b, c)
  {
    if c.typ == CMD_CANCEL && c.cancel != 0 {
      var (b', es, ok) := ob.cancel(b, c.req, c.cancel);
      if ok {
        assert es + [] == es;
      } else {
        assert |Live(ob, b, c).1| == |es| + 1;
      }
    }
  }

  // ---- the logs of a history -----------------------------------------------------------------

  function Word(x: int): u64 {
    x % TWO64
  }

  /** Sequence number, position within the command (16 bits) and the emission's own fields. */
  function Stamped(seqNo: u64, i: nat, e: Emitted): Event {
    var idx := i % 0x1_0000;
    match e
    case Accepted(req, order, user) => Event(EV_ACCEPTED, seqNo, idx, Word(req), Word(order), Word(user), 0, 0, 0, 0)
    case Rejected(req, order, user) => Event(EV_REJECTED, seqNo, idx, Word(req), Word(order), Word(user), 0, 0, 0, 0)
    case Added(req, order, user) => Event(EV_ADDED, seqNo, idx, Word(req), Word(order), Word(user), 0, 0, 0, 0)
    case Cancelled(req, order) => Event(EV_CANCELLED, seqNo, idx, Word(req), Word(order), 0, 0, 0, 0, 0)
    case Traded(req, maker, taker, price, qty) =>
      Event(EV_TRADE, seqNo, idx, Word(req), 0, 0, Word(maker), Word(taker), Signed(Word(price)), Signed(Word(qty)))
  }

  function EndMarker(seqNo: u64): Event {
    Event(EV_CMD_END, seqNo, 0, 0, 0, 0, 0, 0, 0, 0)
  }

  function EventPayloads(seqNo: u64, es: seq<Emitted>): (ps: seq<seq<byte>>)
    ensures |ps| == |es|
    ensures forall i :: 0 <= i < |ps| ==> ps[i] == EncodedEv(Stamped(seqNo, i, es[i]))
  {
    seq(|es|, i requires 0 <= i < |es| => EncodedEv(Stamped(seqNo, i, es[i])))
  }

  /** The complete event records of one command. */
  function Records(seqNo: u64, es: seq<Emitted>): seq<seq<byte>> {
    EventPayloads(seqNo, es) + [EncodedEv(EndMarker(seqNo))]
  }

  type History = cs: seq<Command> | |cs| < TWO64

  function BookAfter<B>(ob: OrderBook<B>, cs: seq<Command>): B
    decreases |cs|
  {
    if cs == [] then ob.empty else Replayed(ob, BookAfter(ob, Init(cs)), Last(cs)).0
  }

  /** Records of the command log: the n-th command under sequence number n. */
  function CmdLog(cs: History): (ps: seq<seq<byte>>)
    ensures |ps| == |cs|
    ensures forall i :: 0 <= i < |ps| ==> ps[i] == EncodedCmd(i + 1, cs[i])
  {
    seq(|cs|, i requires 0 <= i < |cs| => EncodedCmd(i + 1, cs[i]))
  }

  /** events(1), end(1), ..., events(n), end(n). */
  function EventLog<B>(ob: OrderBook<B>, cs: History): seq<seq<byte>>
    decreases |cs|
  {
    if cs == [] then []
    else EventLog(ob, Init(cs)) + Records(|cs|, Replayed(ob, BookAfter(ob, Init(cs)), Last(cs)).1)
  }

  // ---- recovery ------------------------------------------------------------------------------

  /** Position after the last end marker among the decoded records, and that marker's number. */
  function LastEnd(ps: seq<seq<byte>>): (r: Option<(nat, u64)>)
    ensures r.Some? ==> r.value.0 <= |ps|
    decreases |ps|
  {
    if ps == [] then Some((0, 0))
    else
      var before := LastEnd(Init(ps));
      if before.None? then None
      else
        match DecodedEv(Last(ps))
        case Err(_) => None
        case Ok(e) => if e.typ == EV_CMD_END then Some((|ps|, e.seqNo)) else before
  }

  /** Scan and repair of the event log: a torn tail is an error, a clean end or a bare header ends
      the scan, and the file is cut after the last end marker if there is one. */
  function Repaired(crc: Checksum, ev: seq<byte>): Option<(u64, seq<byte>)> {
    var (ps, end) := Parse(crc, DEFAULT_MAX_PAYLOAD, ev);
    var scan := LastEnd(ps);
    if scan.None? || !(end.End? || end.HeaderOnly?) then None
    else
      var (k, complete) := scan.value;
      Some((complete, if k == 0 then ev else TruncateTo(ev, Size(ps[..k]))))
  }

  datatype Progress<B> = Progress(book: B, lastSeq: u64, added: seq<seq<byte>>)

  /** Replays command records; commands above `complete` write their events again. */
  function Replay<B>(ob: OrderBook<B>, complete: u64, recs: seq<seq<byte>>): Option<Progress<B>>
    decreases |recs|
  {
    if recs == [] then Some(Progress(ob.empty, 0, []))
    else
      var before := Replay(ob, complete, Init(recs));
      if before.None? then None
      else
        match DecodedCmd(Last(recs))
        case Err(_) => None
        case Ok((s, c)) =>
          var (b, es) := Replayed(ob, before.value.book, c);
          Some(Progress(b, if s > before.value.lastSeq then s else before.value.lastSeq,
                        before.value.added + (if s <= complete then [] else Records(s, es))))
  }

  datatype Disk = Disk(cmd: seq<byte>, ev: seq<byte>)

  datatype Ready<B> = Ready(book: B, lastSeq: u64, disk: Disk)

  /** Repair, replay, refill. A command log that ends in a bare header is an error. */
  function Recovered<B>(crc: Checksum, ob: OrderBook<B>, d: Disk): Option<Ready<B>> {
    var repair := Repaired(crc, d.ev);
    if repair.None? then None
    else
      var (complete, ev) := repair.value;
      var (recs, end) := Parse(crc, DEFAULT_MAX_PAYLOAD, d.cmd);
      var run := Replay(ob, complete, recs);
      if run.None? || !(end.End? || end.CutHeader? || end.CutPayload?) then None
      else Some(Ready(run.value.book, run.value.lastSeq, Disk(d.cmd, ev + Frames(crc, run.value.added))))
  }
}
