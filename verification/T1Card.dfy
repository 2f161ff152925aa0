/**
 What sits behind the UART: either arbitrary hardware, or a conforming T=1 card
 (section 11.6 of ISO/IEC 7816-3) on a link that loses nothing.
 */
module T1Card {
  import opened Errors
  import opened Sequences
  import opened T1Codec
  import opened CardAtr

  const RESYNCH_REQUEST: Byte := 0xc0
  const RESYNCH_RESPONSE: Byte := 0xe0
  const IFS_REQUEST: Byte := 0xc1
  const IFS_RESPONSE: Byte := 0xe1
  const WTX_REQUEST: Byte := 0xc3
  const WTX_RESPONSE: Byte := 0xe3

  /** What a protocol control byte says. */
  datatype Control = I(ns: bool, more: bool) | R(nr: bool) | S(code: Byte)

  function ControlOf(p: Byte): Control {
    if p & 0x80 == 0 then I(p & 0x40 != 0, p & 0x20 != 0)
    else if p & 0xc0 == 0x80 then R(p & 0x10 != 0)
    else S(p)
  }

  function IByte(n: bool, more: bool): Byte {
    (if n then 0x40 else 0) | (if more then 0x20 else 0)
  }

  /** An R-block byte; the low bits report an error to the sender. */
  function RByte(n: bool, err: Byte): Byte {
    0x80 | (if n then 0x10 else 0) | (err & 0x0f)
  }

  /** A block with its control byte read. */
  datatype Message = Message(control: Control, inf: seq<Byte>)

  function MessageOf(b: Block): Message {
    Message(ControlOf(b.pcb), b.inf)
  }

  function BlockOf(m: Message, err: Byte): Block {
    Block(match m.control case I(n, more) => IByte(n, more) case R(n) => RByte(n, err) case S(code) => code, m.inf)
  }

  /** A message that is no request or grant of waiting time, and whose control byte reads back. */
  predicate Plain(m: Message) {
    m.control.S? ==> m.control.code in {RESYNCH_REQUEST, RESYNCH_RESPONSE, IFS_REQUEST, IFS_RESPONSE}
  }

  lemma MessageOfBlock(m: Message, err: Byte)
    requires Plain(m)
    ensures MessageOf(BlockOf(m, err)) == m
    ensures BlockOf(m, err).pcb != WTX_REQUEST && BlockOf(m, err).pcb != WTX_RESPONSE
  {
    match m.control
    case I(n, more) => ControlBytes(n, more, err);
    case R(n) => ControlBytes(n, false, err);
    case S(_) => SupervisoryBytes();
  }

  lemma ControlBytes(n: bool, more: bool, err: Byte)
    ensures ControlOf(IByte(n, more)) == I(n, more) && IByte(n, more) != WTX_REQUEST
    ensures ControlOf(RByte(n, err)) == R(n) && RByte(n, err) != WTX_REQUEST
    ensures IByte(n, more) != WTX_RESPONSE && RByte(n, err) != WTX_RESPONSE
  {
  }

  lemma SupervisoryBytes()
    ensures ControlOf(RESYNCH_REQUEST) == S(RESYNCH_REQUEST) && ControlOf(RESYNCH_RESPONSE) == S(RESYNCH_RESPONSE)
    ensures ControlOf(IFS_REQUEST) == S(IFS_REQUEST) && ControlOf(IFS_RESPONSE) == S(IFS_RESPONSE)
    ensures ControlOf(WTX_REQUEST) == S(WTX_REQUEST)
  {
  }

  // -------------------------------------------------------- conforming card

  datatype Phase =
    | Receiving
    | Owing(reply: seq<Byte>, deferrals: nat)
    | Responding(rest: seq<Byte>)

  /** What the card's application has gone through. */
  datatype Happening = Ran(command: seq<Byte>) | WasReset

  /**
   `nr` is the sequence bit the card expects next, `ns` the one it sends next,
   `limit` the field size the host announced, `last` the I-block it would send
   again. `history` is what its application has gone through, `said` every
   I-block it has composed. A greedy card fills every field as far as it may.
   */
  datatype Card = Card(nr: bool, ns: bool, phase: Phase, received: seq<Byte>, rejects: nat, limit: nat,
                       last: Option<Message>, history: seq<Happening>, said: seq<Message>, greedy: bool)

  /** The freedom a conforming card and its reader have at each step. */
  datatype Choice = Choice(reject: bool, defer: bool, err: Byte, size: nat, wtx: Byte, ready: bool, elapsed: nat)

  type App = seq<Happening> -> seq<Byte>

  const REJECT_LIMIT := 3
  const DEFAULT_LIMIT := 32
  const FIELD_MAX := 254

  /** The protocol state behind a reset or a resynchronisation. */
  function Restarted(c: Card): Card {
    Card(false, false, Receiving, [], 0, DEFAULT_LIMIT, None, c.history, c.said, c.greedy)
  }

  /** Composes the next information field of a response, at most as long as the host announced. */
  function SendNext(c: Card, rest: seq<Byte>, ch: Choice): (Card, Message) {
    var n := Min(if c.greedy then c.limit else Min(ch.size + 1, c.limit), |rest|);
    var more := n < |rest|;
    var m := Message(I(c.ns, more), rest[..n]);
    (c.(ns := !c.ns, phase := if more then Responding(rest[n..]) else Receiving, last := Some(m), said := c.said + [m]), m)
  }

  /** Asks for the block the card expects. */
  function Ask(c: Card): (Card, Message) {
    (c, Message(R(c.nr), []))
  }

  /** Sends the latest I-block once more. */
  function Resend(c: Card): (Card, Message) {
    if c.last.Some? then (c, c.last.value) else Ask(c)
  }

  function Supervised(c: Card, code: Byte, inf: seq<Byte>): (Card, Message) {
    if code == RESYNCH_REQUEST && inf == [] then (Restarted(c), Message(S(RESYNCH_RESPONSE), []))
    else if code == IFS_REQUEST && |inf| == 1 && 1 <= inf[0] as int <= FIELD_MAX then
      (c.(limit := inf[0] as int), Message(S(IFS_RESPONSE), inf))
    else Ask(c)
  }

  /** An I-block that the card takes: part of a command, or its end. */
  function Accept(app: App, c: Card, more: bool, inf: seq<Byte>, ch: Choice): (Card, Message) {
    var taken := c.(nr := !c.nr, rejects := 0, last := None);
    if more then Ask(taken.(received := c.received + inf))
    else
      var history := c.history + [Ran(c.received + inf)];
      var done := taken.(received := [], history := history);
      if ch.defer then Ask(done.(phase := Owing(app(history), 1))) else SendNext(done, app(history), ch)
  }

  /**
   The answer of the card to one block. It refuses a block, or defers a reply,
   fewer than three times; blocks longer than its own field size it never takes.
   */
  function CardStep(app: App, ifsc: nat, c: Card, m: Message, ch: Choice): (Card, Message) {
    match (m.control, c.phase)
    case (S(code), _) => Supervised(c, code, m.inf)
    case (I(s, more), Receiving) =>
      if s != c.nr || |m.inf| > ifsc then Ask(c)
      else if ch.reject && c.rejects + 1 < REJECT_LIMIT then Ask(c.(rejects := c.rejects + 1))
      else Accept(app, c, more, m.inf, ch)
    case (R(s), Owing(reply, k)) =>
      if ch.defer && k < REJECT_LIMIT then Ask(c.(phase := Owing(reply, k + 1))) else SendNext(c, reply, ch)
    case (R(s), Responding(rest)) => if s == c.ns then SendNext(c, rest, ch) else Resend(c)
    case (R(s), Receiving) => if s == c.ns then Ask(c) else Resend(c)
    case _ => Ask(c)
  }

  /** The card keeps to the field size announced to it. */
  predicate Sane(c: Card) {
    1 <= c.limit <= FIELD_MAX && (c.last.Some? ==> c.last.value.control.I? && |c.last.value.inf| <= FIELD_MAX)
  }

  /** The card after a step, and its answer, are within the rules, and nothing it did is undone. */
  predicate Proceeds(c: Card, step: (Card, Message)) {
    && Sane(step.0) && Plain(step.1) && |step.1.inf| <= FIELD_MAX
    && c.history <= step.0.history && c.said <= step.0.said && c.greedy == step.0.greedy
  }

  lemma SendNextProceeds(c: Card, rest: seq<Byte>, ch: Choice)
    requires Sane(c)
    ensures Proceeds(c, SendNext(c, rest, ch))
  {
  }

  lemma SupervisedProceeds(c: Card, code: Byte, inf: seq<Byte>)
    requires Sane(c)
    ensures Proceeds(c, Supervised(c, code, inf))
  {
  }

  lemma AcceptProceeds(app: App, c: Card, more: bool, inf: seq<Byte>, ch: Choice)
    requires Sane(c)
    ensures Proceeds(c, Accept(app, c, more, inf, ch))
  {
    var history := c.history + [Ran(c.received + inf)];
    SendNextProceeds(c.(nr := !c.nr, rejects := 0, last := None, received := [], history := history), app(history), ch);
  }

  lemma StepStaysSane(app: App, ifsc: nat, c: Card, m: Message, ch: Choice)
    requires Sane(c)
    ensures Proceeds(c, CardStep(app, ifsc, c, m, ch))
  {
    match m.control
    case S(code) => SupervisedProceeds(c, code, m.inf);
    case I(_, more) => AcceptProceeds(app, c, more, m.inf, ch);
    case R(_) =>
      match c.phase
      case Owing(reply, _) => SendNextProceeds(c, reply, ch);
      case Responding(rest) => SendNextProceeds(c, rest, ch);
      case Receiving =>
  }

  // ---------------------------------------------------------------- hardware

  /** A reply held back until the time asked for, as a multiplier, is granted. */
  datatype Held = Held(reply: Block, multiplier: Byte)

  /** What arbitrary hardware would answer to the next call, whichever call it is. */
  datatype Answer = Answer(detected: Result<bool>, ready: Result<bool>, data: Result<seq<Byte>>, done: Result<Unit>, elapsed: nat)

  /**
   A card with its reader: the rate the UART runs at, the block held back while
   more time is asked for, together with what was asked for, and the bytes waiting to be read. While `answering`,
   the waiting bytes are an answer to reset and arrive in any portions.
   */
  datatype Reader = Reader(app: App, atr: Atr, rate: Baud, card: Card, held: Option<Held>, pending: seq<Byte>, answering: bool)

  datatype Peer = Arbitrary(answers: nat -> Answer) | Conforming(choices: nat -> Choice, reader: Reader)

  /** The peer and the number of hardware calls made so far. */
  datatype Hardware = Hardware(pos: nat, peer: Peer) {
    function Advance(p: Peer): Hardware {
      Hardware(pos + 1, p)
    }
  }

  function Elapsed(h: Hardware): nat {
    match h.peer
    case Arbitrary(answers) => answers(h.pos).elapsed
    case Conforming(choices, _) => choices(h.pos).elapsed
  }

  function Detect(h: Hardware): (Hardware, Result<bool>) {
    match h.peer
    case Arbitrary(answers) => (h.Advance(h.peer), answers(h.pos).detected)
    case Conforming(_, _) => (h.Advance(h.peer), Success(true))
  }

  function DataReady(h: Hardware): (Hardware, Result<bool>) {
    match h.peer
    case Arbitrary(answers) => (h.Advance(h.peer), answers(h.pos).ready)
    case Conforming(choices, r) => (h.Advance(h.peer), Success(choices(h.pos).ready && r.pending != []))
  }

  /** How many of the waiting bytes a read of `room` bytes returns. */
  function Portion(r: Reader, room: nat, ch: Choice): (n: nat)
    ensures n <= |r.pending| && n <= room
  {
    var n := Min(room, |r.pending|);
    if r.answering then Min(n, ch.size + 1) else n
  }

  function ReadData(h: Hardware, room: nat): (Hardware, Result<seq<Byte>>) {
    match h.peer
    case Arbitrary(answers) => (h.Advance(h.peer), answers(h.pos).data)
    case Conforming(choices, r) =>
      var n := Portion(r, room, choices(h.pos));
      (h.Advance(Conforming(choices, r.(pending := r.pending[n..], answering := r.answering && n < |r.pending|))), Success(r.pending[..n]))
  }

  /** A reset sets the UART to 9600 baud, drops what it has received, and makes the card answer. */
  function ResetCard(h: Hardware): (Hardware, Result<Unit>) {
    match h.peer
    case Arbitrary(answers) => (h.Advance(h.peer), answers(h.pos).done)
    case Conforming(choices, r) =>
      var card := Restarted(r.card).(history := r.card.history + [WasReset]);
      (h.Advance(Conforming(choices, Reader(r.app, r.atr, Baud9600, card, None, r.atr.bytes, true))), Success(Unit))
  }

  function SetRate(h: Hardware, rate: Baud): (Hardware, Result<Unit>) {
    match h.peer
    case Arbitrary(answers) => (h.Advance(h.peer), answers(h.pos).done)
    case Conforming(choices, r) => (h.Advance(Conforming(choices, r.(rate := rate))), Success(Unit))
  }

  /** Puts a reply on the wire, or asks for more time first. */
  function Emit(r: Reader, reply: Block, ch: Choice): Reader
    requires |reply.inf| <= FIELD_MAX
  {
    if ch.wtx != 0
    then r.(held := Some(Held(reply, ch.wtx)), pending := FrameOf(r.atr.params.useCrc, Block(WTX_REQUEST, [ch.wtx])), answering := false)
    else r.(held := None, pending := FrameOf(r.atr.params.useCrc, reply), answering := false)
  }

  /** A reader with a card that keeps to its limits. */
  predicate Genuine(r: Reader) {
    Sane(r.card) && (r.held.Some? ==> |r.held.value.reply.inf| <= FIELD_MAX)
  }

  function Listen(r: Reader, b: Block, ch: Choice): Reader
    requires Genuine(r)
  {
    if r.held.Some? && b == Block(WTX_RESPONSE, [r.held.value.multiplier]) then Emit(r, r.held.value.reply, ch)
    else
      StepStaysSane(r.app, r.atr.params.ifsc, r.card, MessageOf(b), ch);
      var (card, reply) := CardStep(r.app, r.atr.params.ifsc, r.card, MessageOf(b), ch);
      Emit(r.(card := card), BlockOf(reply, ch.err), ch)
  }

  /** The block a frame carries, as the card hears it: at the rate of its answer to reset and undamaged. */
  function Hears(r: Reader, frame: seq<Byte>): Option<Block> {
    if r.rate == r.atr.params.baud && |frame| >= 3 && |frame| == AnnouncedLength(r.atr.params.useCrc, frame)
    then match ParseFrame(r.atr.params.useCrc, frame) case Success(b) => Some(b) case Failure(_) => None
    else None
  }

  function WriteData(h: Hardware, frame: seq<Byte>): (Hardware, Result<Unit>)
    requires h.peer.Conforming? ==> Genuine(h.peer.reader)
  {
    match h.peer
    case Arbitrary(answers) => (h.Advance(h.peer), answers(h.pos).done)
    case Conforming(choices, r) =>
      var heard := Hears(r, frame);
      (h.Advance(Conforming(choices, if heard.Some? then Listen(r, heard.value, choices(h.pos)) else r)), Success(Unit))
  }

  /** The card receives exactly the block the host encodes. */
  lemma CardHears(h: Hardware, b: Block)
    requires h.peer.Conforming? && Genuine(h.peer.reader) && h.peer.reader.rate == h.peer.reader.atr.params.baud
    requires |b.inf| <= MaxInf(h.peer.reader.atr.params.useCrc)
    ensures var r := h.peer.reader;
            WriteData(h, FrameOf(r.atr.params.useCrc, b)) ==
            (h.Advance(h.peer.(reader := Listen(r, b, h.peer.choices(h.pos)))), Success(Unit))
  {
    ParseAfterEncode(h.peer.reader.atr.params.useCrc, b);
  }

  // ------------------------------------------------------- what stays the same

  /** The peer behind the UART is the same card as before, genuine still. */
  ghost predicate SamePeer(p: Peer, q: Peer) {
    && p.Conforming? == q.Conforming?
    && (p.Conforming? ==>
          && q.choices == p.choices && q.reader.app == p.reader.app && q.reader.atr == p.reader.atr
          && (Genuine(p.reader) ==> Genuine(q.reader)) && q.reader.card.greedy == p.reader.card.greedy)
  }

  lemma WriteKeeps(h: Hardware, frame: seq<Byte>)
    requires h.peer.Conforming? ==> Genuine(h.peer.reader)
    ensures SamePeer(h.peer, WriteData(h, frame).0.peer)
  {
    if h.peer.Conforming? {
      var r, ch := h.peer.reader, h.peer.choices(h.pos);
      var heard := Hears(r, frame);
      if heard.Some? { StepStaysSane(r.app, r.atr.params.ifsc, r.card, MessageOf(heard.value), ch); }
    }
  }

  lemma ReadKeeps(h: Hardware, room: nat)
    ensures SamePeer(h.peer, ReadData(h, room).0.peer)
  {
  }

  lemma ResetKeeps(h: Hardware)
    ensures SamePeer(h.peer, ResetCard(h).0.peer)
  {
  }
}
