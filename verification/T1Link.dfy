/** What crosses the UART and what it amounts to: rounds, chains of I-blocks, the clock, and the steps of a conforming card. */
module T1Link {
  import opened Errors
  import opened Sequences
  import opened T1Codec
  import opened CardAtr
  import opened T1Card

  // ------------------------------------------------------------- the wire log

  /** What happens at the hardware, in order; a block is written as its frame. */
  datatype Event = Wrote(useCrc: bool, b: Block) | Got(chunk: seq<Byte>) | Fault(error: Error) | DidReset | SetTo(rate: Baud)

  /** What is heard once e has happened behind the bytes heard before. */
  function HeardBehind(bytes: seq<Byte>, e: Event): seq<Byte> {
    if e.Wrote? || e.DidReset? then [] else if e.Got? then bytes + e.chunk else bytes
  }

  /** The bytes read since the last write or reset. */
  ghost function Heard(wire: seq<Event>): seq<Byte> {
    if wire == [] then [] else HeardBehind(Heard(wire[..|wire| - 1]), wire[|wire| - 1])
  }

  lemma HeardAppend(wire: seq<Event>, e: Event)
    ensures Heard(wire + [e]) == HeardBehind(Heard(wire), e)
  {
    assert (wire + [e])[..|wire|] == wire;
  }

  /** The bytes read since the last write start with the frame of b. */
  ghost predicate Answered(wire: seq<Event>, useCrc: bool, b: Block) {
    var h := Heard(wire);
    |h| >= 3 && AnnouncedLength(useCrc, h) <= FRAME_MAX && AnnouncedLength(useCrc, h) <= |h|
    && ParseFrame(useCrc, h[..AnnouncedLength(useCrc, h)]) == Success(b)
  }

  lemma FrameHeard(wire: seq<Event>, bytes: seq<Byte>, useCrc: bool, r: Result<Block>)
    requires |bytes| >= 3 && bytes <= Heard(wire)
    requires AnnouncedLength(useCrc, bytes) <= FRAME_MAX && AnnouncedLength(useCrc, bytes) <= |bytes|
    requires r == ParseFrame(useCrc, bytes[..AnnouncedLength(useCrc, bytes)])
    ensures r.Success? ==> Answered(wire, useCrc, r.value)
  {
    var n := AnnouncedLength(useCrc, bytes);
    assert Heard(wire)[..n] == bytes[..n];
  }

  // ------------------------------------------------------------------- rounds

  /** Nothing was written from this position on. */
  ghost predicate NoWrites(wire: seq<Event>, from: nat) {
    forall i :: from <= i < |wire| ==> !wire[i].Wrote?
  }

  /** The event at this position grants exactly the waiting time that was asked for since the write before it. */
  ghost predicate IsGrant(wire: seq<Event>, i: nat, useCrc: bool)
    requires i < |wire|
  {
    && wire[i].Wrote? && wire[i].useCrc == useCrc && wire[i].b.pcb == WTX_RESPONSE && |wire[i].b.inf| == 1 && wire[i].b.inf[0] != 0
    && Answered(wire[..i], useCrc, Block(WTX_REQUEST, wire[i].b.inf))
  }

  /** If something was written here it is b, if there is one, or such a grant. */
  ghost predicate Permitted(wire: seq<Event>, i: nat, useCrc: bool, b: Option<Block>)
    requires i < |wire|
  {
    wire[i].Wrote? ==> (b.Some? && wire[i] == Wrote(useCrc, b.value)) || IsGrant(wire, i, useCrc)
  }

  /** Whatever was written from this position on grants waiting time that was asked for. */
  ghost predicate OnlyGrants(wire: seq<Event>, from: nat, useCrc: bool) {
    forall i :: from <= i < |wire| ==> Permitted(wire, i, useCrc, None)
  }

  /** From position `from` on, the host wrote only b, first of all, and grants of waiting time that was asked for. */
  ghost predicate Sends(wire: seq<Event>, from: nat, useCrc: bool, b: Block) {
    && from < |wire| && wire[from] == Wrote(useCrc, b)
    && forall i :: from <= i < |wire| ==> Permitted(wire, i, useCrc, Some(b))
  }

  /** What was permitted stays so, and b is permitted besides. */
  lemma PermittedStill(wire: seq<Event>, wire': seq<Event>, i: nat, useCrc: bool, b: Option<Block>, b': Option<Block>)
    requires wire <= wire' && i < |wire| && Permitted(wire, i, useCrc, b) && (b == b' || b.None?)
    ensures Permitted(wire', i, useCrc, b')
  {
    assert wire'[..i] == wire[..i];
  }

  /** Grants, and then no writes. */
  lemma GrantsThenNone(wire: seq<Event>, wire': seq<Event>, from: nat, useCrc: bool)
    requires wire <= wire' && OnlyGrants(wire, from, useCrc) && NoWrites(wire', |wire|)
    ensures OnlyGrants(wire', from, useCrc)
  {
    forall i | from <= i < |wire'| ensures Permitted(wire', i, useCrc, None) {
      if i < |wire| { PermittedStill(wire, wire', i, useCrc, None, None); }
    }
  }

  /** Grants, and then more grants. */
  lemma GrantsThenMore(wire: seq<Event>, wire': seq<Event>, from: nat, useCrc: bool)
    requires wire <= wire' && OnlyGrants(wire, from, useCrc) && OnlyGrants(wire', |wire|, useCrc)
    ensures OnlyGrants(wire', from, useCrc)
  {
    forall i | from <= i < |wire'| ensures Permitted(wire', i, useCrc, None) {
      if i < |wire| { PermittedStill(wire, wire', i, useCrc, None, None); }
    }
  }

  /** A request for waiting time that was heard, and its grant. */
  lemma GrantGranted(wire: seq<Event>, useCrc: bool, request: Block)
    requires Answered(wire, useCrc, request) && request.pcb == WTX_REQUEST && |request.inf| == 1 && request.inf[0] != 0
    ensures OnlyGrants(wire + [Wrote(useCrc, Block(WTX_RESPONSE, request.inf))], |wire|, useCrc)
  {
    assert (wire + [Wrote(useCrc, Block(WTX_RESPONSE, request.inf))])[..|wire|] == wire;
  }

  /** The block, and then only grants. */
  lemma SendsThenGrants(wire: seq<Event>, wire': seq<Event>, useCrc: bool, b: Block)
    requires wire + [Wrote(useCrc, b)] <= wire' && OnlyGrants(wire', |wire| + 1, useCrc)
    ensures Sends(wire', |wire|, useCrc, b)
  {
    assert wire'[|wire|] == (wire + [Wrote(useCrc, b)])[|wire|];
    forall i | |wire| <= i < |wire'| ensures Permitted(wire', i, useCrc, Some(b)) {
      if i > |wire| { PermittedStill(wire', wire', i, useCrc, None, Some(b)); }
    }
  }

  /** Sending b again is still only sending b. */
  lemma SendsAgain(wire: seq<Event>, wire': seq<Event>, from: nat, useCrc: bool, b: Block)
    requires wire <= wire' && from <= |wire| && Sends(wire', |wire|, useCrc, b)
    requires from == |wire| || Sends(wire, from, useCrc, b)
    ensures Sends(wire', from, useCrc, b)
  {
    forall i | from <= i < |wire'| ensures Permitted(wire', i, useCrc, Some(b)) {
      if i < |wire| { PermittedStill(wire, wire', i, useCrc, Some(b), Some(b)); }
    }
  }

  /** From position `from` on, the host wrote b and heard x as the answer to it. */
  ghost predicate Turn(wire: seq<Event>, from: nat, useCrc: bool, b: Block, x: Block) {
    Sends(wire, from, useCrc, b) && Answered(wire, useCrc, x) && x.pcb != WTX_REQUEST
  }

  /** A block, the answer to it, and all that happened from the writing of the one to the hearing of the other. */
  datatype Exchange = Exchange(m: Message, reply: Message, x: Block, events: seq<Event>)

  ghost predicate Genuinely(useCrc: bool, e: Exchange) {
    e.reply == MessageOf(e.x) && Turn(e.events, 0, useCrc, BlockOf(e.m, 0), e.x)
  }

  /** What happened in these rounds, one after the other. */
  ghost function Span(rounds: seq<Exchange>): seq<Event> {
    if rounds == [] then [] else Span(rounds[..|rounds| - 1]) + rounds[|rounds| - 1].events
  }

  /** What is booked for a command: the wire before it, its rounds, the host's I-blocks acknowledged in them and the card's heard. */
  datatype Books = Books(prelude: seq<Event>, rounds: seq<Exchange>, accepted: seq<Message>, replies: seq<Message>)

  /** Behind the prelude, the wire consists of the rounds and nothing else, and the books agree with them at every page. */
  ghost predicate Ledger(wire: seq<Event>, useCrc: bool, books: Books) {
    forall n :: 0 <= n <= |books.rounds| ==> Page(wire, useCrc, books, n)
  }

  /** The first n rounds are genuine and account for the wire and the books up to there. */
  ghost predicate Page(wire: seq<Event>, useCrc: bool, books: Books, n: nat)
    requires n <= |books.rounds|
  {
    var rounds := books.rounds[..n];
    var there := Books(books.prelude, rounds, AcceptedIn(rounds), RepliesIn(rounds));
    && books.prelude + Span(rounds) <= wire && (n > 0 ==> Genuinely(useCrc, books.rounds[n - 1]))
    && (n == |books.rounds| ==> there == books && books.prelude + Span(rounds) == wire)
  }

  /** What is heard since a write does not depend on what came before it. */
  lemma {:induction false} HeardSince(wire: seq<Event>, events: seq<Event>)
    requires events != [] && events[0].Wrote?
    ensures Heard(wire + events) == Heard(events)
  {
    var n := |events| - 1;
    assert (wire + events)[..|wire| + n] == wire + events[..n] && (wire + events)[|wire| + n] == events[n];
    if n > 0 { HeardSince(wire, events[..n]); }
  }

  lemma TurnAlone(wire: seq<Event>, events: seq<Event>, useCrc: bool, m: Message, x: Block)
    requires Turn(wire + events, |wire|, useCrc, BlockOf(m, 0), x)
    ensures Genuinely(useCrc, Exchange(m, MessageOf(x), x, events))
  {
    var all := wire + events;
    assert all[|wire|] == events[0];
    HeardSince(wire, events);
    forall i | 0 <= i < |events| ensures Permitted(events, i, useCrc, Some(BlockOf(m, 0))) {
      PermittedAlone(wire, events, i, useCrc, BlockOf(m, 0));
    }
  }

  lemma PermittedAlone(wire: seq<Event>, events: seq<Event>, i: nat, useCrc: bool, b: Block)
    requires i < |events| && events[0] == Wrote(useCrc, b) && Permitted(wire + events, |wire| + i, useCrc, Some(b))
    ensures Permitted(events, i, useCrc, Some(b))
  {
    assert (wire + events)[|wire| + i] == events[i] && (wire + events)[..|wire| + i] == wire + events[..i];
    if i > 0 { HeardSince(wire, events[..i]); }
  }

  /** The card acknowledged the I-block: it asks for the other sequence bit, or answers with its own I-block. */
  predicate Accepts(sent: Message, reply: Message) {
    match (sent.control, reply.control)
    case (I(ns, _), R(nr)) => nr != ns
    case (I(_, _), I(_, _)) => true
    case _ => false
  }

  /** The I-blocks of the host that were acknowledged in these rounds. */
  ghost function AcceptedIn(rounds: seq<Exchange>): seq<Message> {
    if rounds == [] then []
    else
      var e := rounds[|rounds| - 1];
      AcceptedIn(rounds[..|rounds| - 1]) + if Accepts(e.m, e.reply) then [e.m] else []
  }

  /** The I-blocks of the card that were heard in these rounds. */
  ghost function RepliesIn(rounds: seq<Exchange>): seq<Message> {
    if rounds == [] then []
    else
      var e := rounds[|rounds| - 1];
      RepliesIn(rounds[..|rounds| - 1]) + if e.reply.control.I? then [e.reply] else []
  }

  lemma RoundsGrow(rounds: seq<Exchange>, e: Exchange)
    ensures AcceptedIn(rounds + [e]) == AcceptedIn(rounds) + if Accepts(e.m, e.reply) then [e.m] else []
    ensures RepliesIn(rounds + [e]) == RepliesIn(rounds) + if e.reply.control.I? then [e.reply] else []
    ensures Span(rounds + [e]) == Span(rounds) + e.events
  {
    assert (rounds + [e])[..|rounds|] == rounds;
  }

  /** The books with one more round in them. */
  ghost function Booking(books: Books, e: Exchange): Books {
    Books(books.prelude, books.rounds + [e],
          books.accepted + (if Accepts(e.m, e.reply) then [e.m] else []),
          books.replies + (if e.reply.control.I? then [e.reply] else []))
  }

  lemma PageStays(wire: seq<Event>, useCrc: bool, books: Books, e: Exchange, n: nat)
    requires n <= |books.rounds| && Page(wire, useCrc, books, n)
    ensures Page(wire + e.events, useCrc, Booking(books, e), n)
  {
    assert Booking(books, e).rounds[..n] == books.rounds[..n];
  }

  lemma NewPage(wire: seq<Event>, useCrc: bool, books: Books, e: Exchange)
    requires Page(wire, useCrc, books, |books.rounds|) && Genuinely(useCrc, e)
    ensures Page(wire + e.events, useCrc, Booking(books, e), |books.rounds| + 1)
  {
    var rounds := books.rounds;
    assert rounds[..|rounds|] == rounds;
    assert (rounds + [e])[..|rounds| + 1] == rounds + [e];
    RoundsGrow(rounds, e);
    assert books.prelude + (Span(rounds) + e.events) == wire + e.events;
  }

  lemma LedgerGrows(wire: seq<Event>, useCrc: bool, books: Books, e: Exchange)
    requires Ledger(wire, useCrc, books) && Genuinely(useCrc, e)
    ensures Ledger(wire + e.events, useCrc, Booking(books, e))
  {
    forall n | 0 <= n <= |Booking(books, e).rounds| ensures Page(wire + e.events, useCrc, Booking(books, e), n) {
      if n <= |books.rounds| {
        PageStays(wire, useCrc, books, e, n);
      } else {
        NewPage(wire, useCrc, books, e);
      }
    }
  }

  /** The books of a command that is about to begin. */
  lemma LedgerOpens(wire: seq<Event>, useCrc: bool)
    ensures Ledger(wire, useCrc, Books(wire, [], [], []))
  {
  }

  /** What the books say, read off at their last page. */
  lemma LedgerSpans(wire: seq<Event>, useCrc: bool, books: Books)
    requires Ledger(wire, useCrc, books)
    ensures wire == books.prelude + Span(books.rounds)
    ensures books.accepted == AcceptedIn(books.rounds) && books.replies == RepliesIn(books.rounds)
    ensures forall i :: 0 <= i < |books.rounds| ==> Genuinely(useCrc, books.rounds[i])
  {
    var n := |books.rounds|;
    assert Page(wire, useCrc, books, n) && books.rounds[..n] == books.rounds;
    forall i | 0 <= i < n ensures Genuinely(useCrc, books.rounds[i]) {
      assert Page(wire, useCrc, books, i + 1);
    }
  }

  // ---------------------------------------------------------------- the clock

  const POLL_INTERVAL := 5
  const CLOCK_MAX := 0xffff_ffff_ffff_ffff

  function DeadlineAfter(now: nat, ms: nat): nat {
    if now + ms > CLOCK_MAX then CLOCK_MAX else now + ms
  }

  function Left(now: nat, deadline: nat): nat {
    if now < deadline then deadline - now else 0
  }

  /** A card and reader that answer at once: no waiting, no time lost in calls, no requests for more of it. */
  ghost predicate Prompt(p: Peer) {
    p.Conforming? && AtOnce(p.choices)
  }

  ghost predicate AtOnce(choices: nat -> Choice) {
    forall n :: choices(n).ready && choices(n).elapsed == 0 && choices(n).wtx == 0
  }

  /**
   From time t0 to t: being late means that the deadline, or a window opened
   since, ran out; a prompt card with `slack` left takes no more than `cost` and
   makes nobody late.
   */
  predicate InTime(t0: nat, late0: bool, t: nat, late: bool, prompt: bool, slack: nat, cost: nat, window: nat, deadline: nat) {
    && t0 <= t && (late0 ==> late)
    && (late ==> late0 || t >= deadline || t >= DeadlineAfter(t0, window))
    && (prompt && t0 + slack < deadline <= CLOCK_MAX && window >= DEFAULT_TIMEOUT ==> t <= t0 + cost && (late ==> late0))
  }

  // ------------------------------------------------------- chains of I-blocks

  /** The concatenated information fields. */
  ghost function Inf(bs: seq<Message>): seq<Byte> {
    if bs == [] then [] else Inf(bs[..|bs| - 1]) + bs[|bs| - 1].inf
  }

  lemma InfAppend(bs: seq<Message>, b: Message)
    ensures Inf(bs + [b]) == Inf(bs) + b.inf
  {
    assert (bs + [b])[..|bs|] == bs;
  }

  /** `out` is done and `rest` remains of `total`. */
  ghost predicate Splits(total: seq<Byte>, out: seq<Byte>, rest: seq<Byte>) {
    total == out + rest
  }

  lemma SplitFurther(total: seq<Byte>, out: seq<Byte>, rest: seq<Byte>, inf: seq<Byte>, left: seq<Byte>)
    requires Splits(total, out, rest) && Splits(rest, inf, left)
    ensures Splits(total, out + inf, left) && |out + inf| <= |total|
    ensures left == [] ==> total == out + inf
  {
  }

  /** The sequence bit due behind a chain that starts with bit s. */
  ghost function NextBit(bs: seq<Message>, s: bool): bool {
    if bs == [] then s else !NextBit(bs[..|bs| - 1], s)
  }

  /** I-blocks with alternating sequence bits that all announce more. */
  ghost predicate OpenChain(bs: seq<Message>, s: bool) {
    bs == [] || (var n := |bs| - 1; OpenChain(bs[..n], s) && bs[n].control == I(NextBit(bs[..n], s), true))
  }

  /** I-blocks with alternating sequence bits of which only the last does not announce more. */
  ghost predicate Chain(bs: seq<Message>, s: bool) {
    bs != [] && var n := |bs| - 1; OpenChain(bs[..n], s) && bs[n].control == I(NextBit(bs[..n], s), false)
  }

  lemma ChainAppend(bs: seq<Message>, s: bool, b: Message)
    requires OpenChain(bs, s)
    ensures NextBit(bs + [b], s) == !NextBit(bs, s)
    ensures b.control == I(NextBit(bs, s), true) ==> OpenChain(bs + [b], s)
    ensures b.control == I(NextBit(bs, s), false) ==> Chain(bs + [b], s)
  {
    assert (bs + [b])[..|bs|] == bs;
  }

  /** These I-blocks form a chain from bit s to `bit` that carries `data`, open at every block but the last of a closed one. */
  ghost predicate Carries(bs: seq<Message>, s: bool, bit: bool, data: seq<Byte>, closed: bool) {
    forall n :: 0 <= n <= |bs| ==> CarriesUpTo(bs, n, s, bit, data, closed)
  }

  ghost predicate CarriesUpTo(bs: seq<Message>, n: nat, s: bool, bit: bool, data: seq<Byte>, closed: bool)
    requires n <= |bs|
  {
    if n < |bs| then OpenChain(bs[..n], s)
    else bit == NextBit(bs, s) && data == Inf(bs) && if closed then Chain(bs, s) else OpenChain(bs, s)
  }

  lemma CarriesNothing(s: bool)
    ensures Carries([], s, s, [], false)
  {
  }

  lemma CarriesAll(bs: seq<Message>, s: bool, bit: bool, data: seq<Byte>, closed: bool)
    requires Carries(bs, s, bit, data, closed)
    ensures bit == NextBit(bs, s) && data == Inf(bs) && if closed then Chain(bs, s) else OpenChain(bs, s)
  {
    assert CarriesUpTo(bs, |bs|, s, bit, data, closed);
  }

  lemma CarriesMore(bs: seq<Message>, s: bool, bit: bool, data: seq<Byte>, m: Message)
    requires Carries(bs, s, bit, data, false) && m.control.I? && m.control.ns == bit
    ensures Carries(bs + [m], s, !bit, data + m.inf, !m.control.more)
  {
    CarriesAll(bs, s, bit, data, false);
    ChainAppend(bs, s, m);
    InfAppend(bs, m);
    var all, next, more, closed := bs + [m], !bit, data + m.inf, !m.control.more;
    forall n | 0 <= n <= |all| ensures CarriesUpTo(all, n, s, next, more, closed) {
      if n < |bs| {
        assert all[..n] == bs[..n] && CarriesUpTo(bs, n, s, bit, data, false);
      } else if n == |bs| {
        assert all[..n] == bs;
      }
    }
  }

  /** The messages sent carry the first `offset` bytes of the command, in a chain that is open until they are all. */
  ghost predicate SentSoFar(sent: seq<Message>, ns: bool, apdu: seq<Byte>, offset: nat, bit: bool) {
    offset <= |apdu| && Carries(sent, ns, bit, apdu[..offset], offset == |apdu|)
  }

  lemma SentMore(sent: seq<Message>, ns: bool, apdu: seq<Byte>, offset: nat, size: nat, bit: bool)
    requires SentSoFar(sent, ns, apdu, offset, bit) && offset < offset + size <= |apdu|
    ensures SentSoFar(sent + [Message(I(bit, offset + size < |apdu|), apdu[offset..offset + size])], ns, apdu, offset + size, !bit)
  {
    CarriesMore(sent, ns, bit, apdu[..offset], Message(I(bit, offset + size < |apdu|), apdu[offset..offset + size]));
    assert apdu[..offset] + apdu[offset..offset + size] == apdu[..offset + size];
  }

  /** The number of blocks for n bytes, `size` to a block. */
  function Chunks(n: nat, size: nat): nat
    requires size > 0
  {
    if n == 0 then 0 else 1 + Chunks(n - Min(size, n), size)
  }

  /**
   These events are a command and its response: they fall into rounds, and in
   these the host's acknowledged I-blocks are a chain from bit ns that carries
   exactly `apdu`, the card's I-blocks one from bit nr that carries exactly `out`.
   */
  ghost predicate Transcript(events: seq<Event>, useCrc: bool, ns: bool, nr: bool, apdu: seq<Byte>, out: seq<Byte>) {
    exists rounds :: Transcribes(rounds, events, useCrc, ns, nr, apdu, out)
  }

  ghost predicate Transcribes(rounds: seq<Exchange>, events: seq<Event>, useCrc: bool, ns: bool, nr: bool, apdu: seq<Byte>, out: seq<Byte>) {
    && events == Span(rounds) && (forall i :: 0 <= i < |rounds| ==> Genuinely(useCrc, rounds[i]))
    && Chain(AcceptedIn(rounds), ns) && Inf(AcceptedIn(rounds)) == apdu
    && Chain(RepliesIn(rounds), nr) && Inf(RepliesIn(rounds)) == out
  }

  /** Books that balance and hold both chains are such a transcript. */
  lemma BooksTranscribe(wire: seq<Event>, useCrc: bool, books: Books, ns: bool, nr: bool, bit: bool, bit': bool, apdu: seq<Byte>, out: seq<Byte>)
    requires Ledger(wire, useCrc, books)
    requires Carries(books.accepted, ns, bit, apdu, true) && Carries(books.replies, nr, bit', out, true)
    ensures books.prelude <= wire && Transcript(wire[|books.prelude|..], useCrc, ns, nr, apdu, out)
  {
    LedgerSpans(wire, useCrc, books);
    CarriesAll(books.accepted, ns, bit, apdu, true);
    CarriesAll(books.replies, nr, bit', out, true);
    assert wire[|books.prelude|..] == Span(books.rounds);
    assert Transcribes(books.rounds, wire[|books.prelude|..], useCrc, ns, nr, apdu, out);
  }

  // ------------------------------------------------------- answers to reset

  /** These chunks were read, one after the other. */
  function Gots(chunks: seq<seq<Byte>>): seq<Event> {
    if chunks == [] then [] else Gots(chunks[..|chunks| - 1]) + [Got(chunks[|chunks| - 1])]
  }

  lemma GotsAppend(chunks: seq<seq<Byte>>, c: seq<Byte>)
    ensures Gots(chunks + [c]) == Gots(chunks) + [Got(c)]
  {
    assert (chunks + [c])[..|chunks|] == chunks;
  }

  /**
   What reading an answer to reset came to when these chunks were heard: the
   answer, or the error, that they amount to; if they amount to neither yet,
   the window ran out, the hardware failed or the buffer is full.
   */
  ghost predicate AtrHeard(chunks: seq<seq<Byte>>, events: seq<Event>, r: Result<Atr>, expired: bool) {
    if Feed([], chunks) == Failure(NOT_READY)
    then
      || (r == Failure(TIMEOUT) && expired && events == Gots(chunks))
      || (r == Failure(PROTOCOL_ERROR) && |Flatten(chunks)| == ATR_MAX && events == Gots(chunks))
      || (r.Failure? && events == Gots(chunks) + [Fault(r.error)])
    else r == Feed([], chunks) && events == Gots(chunks)
  }

  ghost predicate AtrLog(events: seq<Event>, r: Result<Atr>, expired: bool) {
    exists chunks :: AtrHeard(chunks, events, r, expired)
  }

  /** Only a timeout depends on the clock. */
  lemma AtrLogWeakens(events: seq<Event>, r: Result<Atr>, expired: bool, expired': bool)
    requires AtrLog(events, r, expired) && (expired && r == Failure(TIMEOUT) ==> expired')
    ensures AtrLog(events, r, expired')
  {
    var chunks :| AtrHeard(chunks, events, r, expired);
    assert AtrHeard(chunks, events, r, expired');
  }

  /** The answer that was read is one. */
  lemma {:induction false} FedIsParsed(bytes: seq<Byte>, chunks: seq<seq<Byte>>)
    requires Feed(bytes, chunks).Success?
    ensures WholeAnswer(Feed(bytes, chunks).value)
    decreases |chunks|
  {
    if chunks[0] == [] {
      FedIsParsed(bytes, chunks[1..]);
    } else if Parse(bytes + chunks[0]) == Failure(NOT_READY) {
      FedIsParsed(bytes + chunks[0], chunks[1..]);
    } else {
      AcceptedParams(bytes + chunks[0]);
      AnswerParses(Feed(bytes, chunks).value);
    }
  }

  lemma AtrLogParses(events: seq<Event>, r: Result<Atr>, expired: bool)
    requires AtrLog(events, r, expired) && r.Success?
    ensures WholeAnswer(r.value)
  {
    var chunks :| AtrHeard(chunks, events, r, expired);
    FedIsParsed([], chunks);
  }

  /** Whenever the bytes heard are an answer to reset, that answer is the result. */
  lemma HeardWhole(chunks: seq<seq<Byte>>, events: seq<Event>, r: Result<Atr>, expired: bool)
    requires AtrHeard(chunks, events, r, expired) && Parse(Flatten(chunks)).Success?
    ensures r == Parse(Flatten(chunks))
  {
    assert [] + Flatten(chunks) == Flatten(chunks);
    AnyChunking([], chunks);
  }

  /** The chunks heard so far are the beginning `bytes` of an answer. */
  ghost predicate AtrBegun(chunks: seq<seq<Byte>>, bytes: seq<Byte>, before: seq<Event>, wire: seq<Event>) {
    Feed([], chunks) == Failure(NOT_READY) && bytes == Flatten(chunks) && wire == before + Gots(chunks)
  }

  lemma AtrGoesOn(chunks: seq<seq<Byte>>, bytes: seq<Byte>, before: seq<Event>, wire: seq<Event>, c: seq<Byte>)
    requires AtrBegun(chunks, bytes, before, wire)
    ensures var r := if c == [] then Failure(NOT_READY) else Parse(bytes + c);
            if r == Failure(NOT_READY) then AtrBegun(chunks + [c], bytes + c, before, wire + [Got(c)])
            else AtrLog((wire + [Got(c)])[|before|..], r, false)
  {
    FeedOn(bytes, chunks, c);
    GotsAppend(chunks, c);
    assert wire + [Got(c)] == before + Gots(chunks + [c]);
    assert (wire + [Got(c)])[|before|..] == Gots(chunks + [c]);
    var r := if c == [] then Failure(NOT_READY) else Parse(bytes + c);
    if r != Failure(NOT_READY) { assert AtrHeard(chunks + [c], (wire + [Got(c)])[|before|..], r, false); }
  }

  lemma AtrBreaksOff(chunks: seq<seq<Byte>>, bytes: seq<Byte>, before: seq<Event>, wire: seq<Event>, wire': seq<Event>, e: Error, expired: bool)
    requires AtrBegun(chunks, bytes, before, wire)
    requires || (wire' == wire && ((e == TIMEOUT && expired) || (e == PROTOCOL_ERROR && |bytes| == ATR_MAX)))
             || wire' == wire + [Fault(e)]
    ensures before <= wire' && AtrLog(wire'[|before|..], Failure(e), expired)
  {
    assert wire'[|before|..] == if wire' == wire then Gots(chunks) else Gots(chunks) + [Fault(e)];
    assert AtrHeard(chunks, wire'[|before|..], Failure(e), expired);
  }

  /** The card that has answered to a reset as far as `bytes`. */
  ghost predicate Replying(p: Peer, bytes: seq<Byte>) {
    && p.Conforming? && p.reader.answering && p.reader.pending != []
    && WholeAnswer(p.reader.atr) && bytes + p.reader.pending == p.reader.atr.bytes
  }

  /** The peer with this much of its answer left to read. */
  ghost function Unread(p: Peer, pending: seq<Byte>): Peer
    requires p.Conforming?
  {
    p.(reader := p.reader.(pending := pending, answering := pending != []))
  }

  /** The peer whose card was reset and has answered. */
  ghost function AfterReset(p: Peer): Peer
    requires p.Conforming?
  {
    var card := Restarted(p.reader.card).(history := p.reader.card.history + [WasReset]);
    p.(reader := Reader(p.reader.app, p.reader.atr, Baud9600, card, None, [], false))
  }

  /** The peer at the rate of its answer to reset. */
  ghost function Rated(p: Peer): Peer
    requires p.Conforming?
  {
    p.(reader := p.reader.(rate := p.reader.atr.params.baud))
  }

  /** Reading on from a conforming card gives the whole answer, or a part that asks for more. */
  lemma ReplyRead(p: Peer, bytes: seq<Byte>, chunk: seq<Byte>, rest: seq<Byte>)
    requires Replying(p, bytes) && chunk != [] && p.reader.pending == chunk + rest
    ensures |bytes + chunk| <= ATR_MAX
    ensures if rest == [] then Parse(bytes + chunk) == Success(p.reader.atr)
            else Parse(bytes + chunk) == Failure(NOT_READY) && Replying(Unread(p, rest), bytes + chunk)
  {
    var all := p.reader.atr.bytes;
    AnswerParses(p.reader.atr);
    assert all == (bytes + chunk) + rest;
    if rest == [] {
      assert bytes + chunk == all;
    } else {
      assert all[..|bytes + chunk|] == bytes + chunk;
      StrictPrefixNotReady(all, |bytes + chunk|);
    }
  }

  /** One attempt at an answer: a reset, and what was read behind it; a malformed answer may be asked for again. */
  ghost predicate AtrAttempt(events: seq<Event>, r: Result<Atr>, again: bool, expired: bool) {
    || (r.Failure? && events == [Fault(r.error)] && !again)
    || (events != [] && events[0] == DidReset && AtrLog(events[1..], r, expired) && again == (r == Failure(PROTOCOL_ERROR)))
  }

  lemma AttemptWeakens(events: seq<Event>, r: Result<Atr>, again: bool, expired: bool, expired': bool)
    requires AtrAttempt(events, r, again, expired) && (expired && r == Failure(TIMEOUT) ==> expired')
    ensures AtrAttempt(events, r, again, expired')
  {
    if !(r.Failure? && events == [Fault(r.error)] && !again) { AtrLogWeakens(events[1..], r, expired, expired'); }
  }

  /** An attempt that is made again ended in a malformed answer. */
  lemma MalformedBefore(events: seq<Event>, r: Result<Atr>, expired: bool)
    requires AtrAttempt(events, r, true, expired)
    ensures AtrAttempt(events, Failure(PROTOCOL_ERROR), true, true)
  {
    AttemptWeakens(events, r, true, expired, true);
  }

  /** At most two attempts, the second only behind a malformed answer. */
  ghost predicate AtrTries(events: seq<Event>, r: Result<Atr>, expired: bool) {
    || AtrAttempt(events, r, false, expired)
    || exists k, again ::
         0 <= k <= |events| && AtrAttempt(events[..k], Failure(PROTOCOL_ERROR), true, true) && AtrAttempt(events[k..], r, again, expired)
  }

  lemma TriesWeaken(events: seq<Event>, r: Result<Atr>, expired: bool, expired': bool)
    requires AtrTries(events, r, expired) && (expired ==> expired')
    ensures AtrTries(events, r, expired')
  {
    if AtrAttempt(events, r, false, expired) {
      AttemptWeakens(events, r, false, expired, expired');
    } else {
      var k, again :| 0 <= k <= |events| && AtrAttempt(events[..k], Failure(PROTOCOL_ERROR), true, true) && AtrAttempt(events[k..], r, again, expired);
      AttemptWeakens(events[k..], r, again, expired, expired');
    }
  }

  lemma ResetWeakens(events: seq<Event>, r: Result<Atr>, expired: bool, expired': bool)
    requires ResetLog(events, r, expired) && (expired ==> expired')
    ensures ResetLog(events, r, expired')
  {
    if events != [] && !(r.Failure? && AtrTries(events, r, expired)) {
      var n := |events| - 1;
      if r.Success? {
        TriesWeaken(events[..n], r, expired, expired');
      } else {
        var a :| AtrTries(events[..n], Success(a), expired);
        TriesWeaken(events[..n], Success(a), expired, expired');
      }
    } else if events != [] {
      TriesWeaken(events, r, expired, expired');
    }
  }

  /** A reset that led to an answer and to its rate being set, or broke off on the way. */
  ghost predicate ResetLog(events: seq<Event>, r: Result<Atr>, expired: bool) {
    || (events == [] && r.Failure?)
    || (r.Failure? && AtrTries(events, r, expired))
    || (&& events != [] && var n := |events| - 1;
        if r.Success? then AtrTries(events[..n], r, expired) && events[n] == SetTo(r.value.params.baud)
        else events[n] == Fault(r.error) && exists a :: AtrTries(events[..n], Success(a), expired))
  }

  lemma TriedAgain(before: seq<Event>, mid: seq<Event>, wire: seq<Event>, r: Result<Atr>, again: bool, expired: bool)
    requires before <= mid <= wire
    requires AtrAttempt(mid[|before|..], Failure(PROTOCOL_ERROR), true, true) && AtrAttempt(wire[|mid|..], r, again, expired)
    ensures AtrTries(wire[|before|..], r, expired)
  {
    var events, k := wire[|before|..], |mid| - |before|;
    assert events[..k] == mid[|before|..] && events[k..] == wire[|mid|..];
  }

  lemma RateSet(before: seq<Event>, wire: seq<Event>, a: Atr, e: Event, expired: bool)
    requires before <= wire && AtrTries(wire[|before|..], Success(a), expired)
    ensures e == SetTo(a.params.baud) ==> ResetLog((wire + [e])[|before|..], Success(a), expired)
    ensures e.Fault? ==> ResetLog((wire + [e])[|before|..], Failure(e.error), expired)
  {
    var events := (wire + [e])[|before|..];
    assert events[..|events| - 1] == wire[|before|..];
  }

  /** The field size was announced and confirmed, at last in a resynchronised protocol if that was called for. */
  ghost predicate Announced(before: seq<Event>, wire: seq<Event>, useCrc: bool, resynchronized: bool, ifsd: Byte) {
    exists j, k :: AnnouncedAt(before, wire, useCrc, resynchronized, ifsd, j, k)
  }

  ghost predicate AnnouncedAt(before: seq<Event>, wire: seq<Event>, useCrc: bool, resynchronized: bool, ifsd: Byte, j: nat, k: nat) {
    && before <= wire && |before| <= j <= k < |wire| && Turn(wire, k, useCrc, Block(IFS_REQUEST, [ifsd]), Block(IFS_RESPONSE, [ifsd]))
    && (if j == k then !resynchronized && k == |before|
        else Turn(wire[..k], j, useCrc, Block(RESYNCH_REQUEST, []), Block(RESYNCH_RESPONSE, [])))
    && (resynchronized ==> j == |before|)
  }

  /** Two exchanges in a row, the first of which resynchronises. */
  lemma AnnouncedInTurn(before: seq<Event>, mid: seq<Event>, wire: seq<Event>, useCrc: bool, ifsd: Byte)
    requires before <= mid <= wire && |before| < |mid|
    requires Turn(mid, |before|, useCrc, Block(RESYNCH_REQUEST, []), Block(RESYNCH_RESPONSE, []))
    requires Turn(wire, |mid|, useCrc, Block(IFS_REQUEST, [ifsd]), Block(IFS_RESPONSE, [ifsd]))
    ensures Announced(before, wire, useCrc, true, ifsd)
  {
    assert wire[..|mid|] == mid;
    assert AnnouncedAt(before, wire, useCrc, true, ifsd, |before|, |mid|);
  }

  lemma AnnouncedLater(before: seq<Event>, mid: seq<Event>, wire: seq<Event>, useCrc: bool, ifsd: Byte)
    requires before <= mid && Announced(mid, wire, useCrc, true, ifsd)
    ensures Announced(before, wire, useCrc, false, ifsd)
  {
    var j, k :| AnnouncedAt(mid, wire, useCrc, true, ifsd, j, k);
    assert AnnouncedAt(before, wire, useCrc, false, ifsd, j, k);
  }

  lemma AnnouncedAtOnce(before: seq<Event>, wire: seq<Event>, useCrc: bool, ifsd: Byte)
    requires before <= wire && Turn(wire, |before|, useCrc, Block(IFS_REQUEST, [ifsd]), Block(IFS_RESPONSE, [ifsd]))
    ensures Announced(before, wire, useCrc, false, ifsd)
  {
    assert AnnouncedAt(before, wire, useCrc, false, ifsd, |before|, |before|);
  }

  /** The card was reset, answered `a`, and agreed to the host's field size. */
  ghost predicate SetUp(before: seq<Event>, wire: seq<Event>, a: Atr, ifsd: Byte) {
    && before <= wire
    && exists mid :: (&& |before| <= mid <= |wire| && ResetLog(wire[|before|..mid], Success(a), true)
                      && Announced(wire[..mid], wire, a.params.useCrc, a.params.baud != Baud38400, ifsd))
  }

  lemma SetUpLog(before: seq<Event>, mid: seq<Event>, wire: seq<Event>, a: Atr, ifsd: Byte, expired: bool)
    requires before <= mid <= wire && ResetLog(mid[|before|..], Success(a), expired)
    requires Announced(mid, wire, a.params.useCrc, a.params.baud != Baud38400, ifsd)
    ensures SetUp(before, wire, a, ifsd)
  {
    ResetWeakens(mid[|before|..], Success(a), expired, true);
    assert wire[|before|..|mid|] == mid[|before|..] && wire[..|mid|] == mid;
  }

  // ------------------------------------------------- what a reader has waiting

  /** A reader that hears the host and holds nothing back. */
  predicate Idle(r: Reader) {
    Genuine(r) && r.held.None? && !r.answering && r.rate == r.atr.params.baud
  }

  /** The frame of x is waiting to be read. */
  predicate Offers(r: Reader, x: Block) {
    !r.answering && |x.inf| <= FIELD_MAX && r.pending == FrameOf(r.atr.params.useCrc, x)
  }

  predicate Fit(useCrc: bool, m: Message) {
    |m.inf| <= MaxInf(useCrc)
  }

  /** What the first read of a waiting frame returns: the frame if it fits, else a part that announces too much. */
  lemma FirstRead(useCrc: bool, x: Block)
    requires |x.inf| <= FIELD_MAX
    ensures var f := FrameOf(useCrc, x);
            && |f| > 3 && |f| == AnnouncedLength(useCrc, f)
            && (|x.inf| <= MaxInf(useCrc) ==> |f| <= FRAME_MAX && ParseFrame(useCrc, f) == Success(x))
            && (|x.inf| > MaxInf(useCrc) ==> |f| > FRAME_MAX && AnnouncedLength(useCrc, f[..FRAME_MAX]) > FRAME_MAX)
  {
    if |x.inf| <= MaxInf(useCrc) { ParseAfterEncode(useCrc, x); }
  }

  /** The readers differ at most in what is waiting to be read. */
  ghost predicate SameBut(base: Reader, r: Reader) {
    r == base.(pending := r.pending)
  }

  /** The reader put `reply` on the wire, or a request for more time in front of it. */
  ghost predicate Emitted(base: Reader, reply: Block, r: Reader)
    requires |reply.inf| <= FIELD_MAX
  {
    exists ch :: r == Emit(base, reply, ch)
  }

  /** A reader at rest that is about to send `reply`. */
  ghost predicate AboutToSend(base: Reader, reply: Block) {
    Idle(base) && reply.pcb != WTX_REQUEST && |reply.inf| <= FIELD_MAX
  }

  /** A request for more time, while `reply` is held back. */
  predicate AsksForTime(x: Block) {
    x.pcb == WTX_REQUEST && |x.inf| == 1 && x.inf[0] != 0
  }

  /** What a reader that emitted `reply` has waiting. */
  lemma EmittedOffers(base: Reader, reply: Block, r: Reader) returns (x: Block)
    requires AboutToSend(base, reply) && Emitted(base, reply, r)
    ensures Offers(r, x) && r.atr == base.atr
    ensures || (x == reply && SameBut(base, r))
            || (AsksForTime(x) && SameBut(base.(held := Some(Held(reply, x.inf[0]))), r))
    ensures r.held.None? ==> x == reply
  {
    var ch :| r == Emit(base, reply, ch);
    x := if ch.wtx != 0 then Block(WTX_REQUEST, [ch.wtx]) else reply;
  }

  /** A granted extension makes the card emit the held reply, or ask again. */
  lemma GrantEmits(h: Hardware, base: Reader, reply: Block, m: Byte)
    requires AboutToSend(base, reply) && h.peer.Conforming? && SameBut(base.(held := Some(Held(reply, m))), h.peer.reader)
    ensures var h' := WriteData(h, FrameOf(base.atr.params.useCrc, Block(WTX_RESPONSE, [m])));
            && h'.1.Success? && h'.0.peer.Conforming? && Emitted(base, reply, h'.0.peer.reader)
  {
    CardHears(h, Block(WTX_RESPONSE, [m]));
    var ch := h.peer.choices(h.pos);
    assert Emit(h.peer.reader, reply, ch) == Emit(base, reply, ch);
  }

  /** What a card is made of and does not change: its application and the parameters of its answer to reset. */
  datatype Make = Make(app: App, params: Params)

  function MakeOf(r: Reader): Make {
    Make(r.app, r.atr.params)
  }

  /** The card, in state c, took m, and answered x in state c'. */
  ghost predicate Stepped(k: Make, c: Card, m: Message, c': Card, x: Message) {
    exists ch :: StepsWith(k, c, m, c', x, ch)
  }

  ghost predicate StepsWith(k: Make, c: Card, m: Message, c': Card, x: Message, ch: Choice) {
    CardStep(k.app, k.params.ifsc, c, m, ch) == (c', x)
  }

  /** A block that is not a grant makes an idle card step and emit its answer. */
  lemma BlockEmits(h: Hardware, b: Block) returns (card: Card, reply: Block)
    requires h.peer.Conforming? && Idle(h.peer.reader) && b.pcb != WTX_RESPONSE
    requires |b.inf| <= MaxInf(h.peer.reader.atr.params.useCrc)
    ensures var r := h.peer.reader;
            var h' := WriteData(h, FrameOf(r.atr.params.useCrc, b));
            && h'.1.Success? && h'.0.peer.Conforming?
            && AboutToSend(r.(card := card), reply) && Emitted(r.(card := card), reply, h'.0.peer.reader)
            && Stepped(MakeOf(r), r.card, MessageOf(b), card, MessageOf(reply))
            && (Prompt(h.peer) ==> h'.0.peer.reader == r.(card := card, pending := FrameOf(r.atr.params.useCrc, reply)))
  {
    var r, ch := h.peer.reader, h.peer.choices(h.pos);
    CardHears(h, b);
    StepStaysSane(r.app, r.atr.params.ifsc, r.card, MessageOf(b), ch);
    var (c, x) := CardStep(r.app, r.atr.params.ifsc, r.card, MessageOf(b), ch);
    MessageOfBlock(x, ch.err);
    card, reply := c, BlockOf(x, ch.err);
    assert StepsWith(MakeOf(r), r.card, MessageOf(b), card, x, ch);
  }

  // ----------------------------------------------------- steps of the card

  /** The card has composed an I-block that the host's frames cannot hold, and would send it again. */
  predicate Stuck(useCrc: bool, c: Card) {
    && !c.phase.Owing? && c.last.Some? && !Fit(useCrc, c.last.value)
    && c.said != [] && c.said[|c.said| - 1] == c.last.value
  }

  /** What an exchange ends in when the card answers x: too long a block makes the host repeat its own. */
  function Outcome(useCrc: bool, m: Message, c': Card, x: Message): Result<Message> {
    if Fit(useCrc, x) then Success(x)
    else if m.control.R? then Failure(PROTOCOL_ERROR)
    else Success(Message(R(c'.nr), []))
  }

  /** The exchange of m with a card in state c led to state c' and to this result. */
  ghost predicate Exchanged(k: Make, c: Card, m: Message, c': Card, result: Result<Message>) {
    exists x :: Stepped(k, c, m, c', x) && result == Outcome(k.params.useCrc, m, c', x)
  }

  /** An R-block asks for the next block, or for the stuck one again. */
  predicate Aligned(useCrc: bool, c: Card, m: Message) {
    m.control.R? ==> m.control.nr == c.ns || Stuck(useCrc, c)
  }

  /** A stuck card has gone past this block. */
  predicate Past(c: Card, m: Message) {
    match m.control case I(s, _) => c.nr != s case R(s) => c.ns != s case S(_) => false
  }

  /** A block that drew too long an answer leaves the card stuck behind it. */
  lemma TooLong(k: Make, c: Card, m: Message, c': Card, x: Message)
    requires Stepped(k, c, m, c', x) && !Fit(k.params.useCrc, x) && Aligned(k.params.useCrc, c, m)
    ensures Stuck(k.params.useCrc, c') && Past(c', m) && c'.last == Some(x)
  {
    var ch :| StepsWith(k, c, m, c', x, ch);
  }

  /** A stuck card does not move: it repeats its block when asked for it, and asks for the host's next. */
  lemma StaysStuck(k: Make, c: Card, m: Message, c': Card, y: Message)
    requires Stuck(k.params.useCrc, c) && Past(c, m) && Stepped(k, c, m, c', y)
    ensures c' == c && y == if m.control.R? then c.last.value else Message(R(c.nr), [])
  {
    var ch :| StepsWith(k, c, m, c', y, ch);
  }

  /** A block that drew too long an answer, sent again, draws it again or is asked for by its successor. */
  lemma Repeats(k: Make, c: Card, m: Message, c': Card, x: Message, c'': Card, y: Message)
    requires Stepped(k, c, m, c', x) && !Fit(k.params.useCrc, x) && Aligned(k.params.useCrc, c, m)
    requires Stepped(k, c', m, c'', y)
    ensures c'' == c' && Stuck(k.params.useCrc, c') && !m.control.S?
    ensures y == if m.control.R? then x else Message(R(c'.nr), [])
  {
    TooLong(k, c, m, c', x);
    StaysStuck(k, c', m, c'', y);
  }

  /** The most that a card may put of `total` into one field. */
  function Share(c: Card, total: seq<Byte>): nat {
    Min(c.limit, |total|)
  }

  /** The card composed m, with sequence bit ns, as the next part of `total`, and keeps the rest. */
  ghost predicate Sent(c: Card, m: Message, ns: bool, total: seq<Byte>) {
    && c.ns == !ns && c.last == Some(m) && |m.inf| <= Share(c, total) && (c.greedy ==> |m.inf| == Share(c, total))
    && match m.control
       case I(n, more) =>
         && n == ns
         && (if more then c.phase.Responding? && m.inf != [] && m.inf + c.phase.rest == total
             else c.phase == Receiving && m.inf == total)
       case _ => false
  }

  /** The card composed m; apart from its sending side it is as before. */
  ghost predicate Composed(c: Card, c': Card, m: Message) {
    c' == c.(ns := c'.ns, phase := c'.phase, last := Some(m), said := c.said + [m])
  }

  lemma SendNextSends(c: Card, rest: seq<Byte>, ch: Choice)
    requires c.limit >= 1
    ensures var (c', m) := SendNext(c, rest, ch); Sent(c', m, c.ns, rest) && Composed(c, c', m)
  {
  }

  ghost function Refused(c: Card, k: nat): Card {
    c.(rejects := k)
  }

  /** The card that has handed the command ending in `data` to its application and has not replied yet. */
  ghost function Executing(c: Card, data: seq<Byte>): Card {
    c.(nr := !c.nr, rejects := 0, last := None, received := [], history := c.history + [Ran(c.received + data)])
  }

  ghost function ReplyTo(k: Make, c: Card, data: seq<Byte>): seq<Byte> {
    k.app(c.history + [Ran(c.received + data)])
  }

  /** What an accepted I-block does to the card. */
  ghost predicate Took(k: Make, c: Card, data: seq<Byte>, more: bool, c': Card, reply: Message) {
    var useCrc, total, base := k.params.useCrc, ReplyTo(k, c, data), Executing(c, data);
    if more then c' == c.(nr := !c.nr, rejects := 0, last := None, received := c.received + data) && reply == Message(R(!c.nr), [])
    else
      || (reply == Message(R(!c.nr), []) && c' == base.(phase := Owing(total, 1)))
      || (Fit(useCrc, reply) && Sent(c', reply, c.ns, total) && Composed(base, c', reply))
      || (reply == Message(R(!c.nr), []) && Stuck(useCrc, c') && Sent(c', c'.last.value, c.ns, total) && Composed(base, c', c'.last.value))
  }

  lemma AcceptTakes(k: Make, c: Card, n: nat, data: seq<Byte>, more: bool, ch: Choice)
    requires c.phase == Receiving && Sane(c)
    ensures var (c', x) := Accept(k.app, Refused(c, n), more, data, ch);
            var result := Outcome(k.params.useCrc, Message(I(c.nr, more), data), c', x);
            result.Success? && result.value.control != R(c.nr) && Took(k, c, data, more, c', result.value)
  {
    if !more && !ch.defer { SendNextSends(Executing(c, data), ReplyTo(k, c, data), ch); }
  }

  /** A card in step that refused the block n times refuses it again, fewer than three times in all, or takes it. */
  lemma ChunkStep(k: Make, c: Card, n: nat, data: seq<Byte>, more: bool, c': Card, result: Result<Message>)
    requires c.phase == Receiving && Sane(c) && |data| <= k.params.ifsc
    requires Exchanged(k, Refused(c, n), Message(I(c.nr, more), data), c', result)
    ensures result.Success?
    ensures result.value.control == R(c.nr) ==> n + 1 < REJECT_LIMIT && c' == Refused(c, n + 1)
    ensures result.value.control != R(c.nr) ==> Took(k, c, data, more, c', result.value)
  {
    var m := Message(I(c.nr, more), data);
    var x :| Stepped(k, Refused(c, n), m, c', x) && result == Outcome(k.params.useCrc, m, c', x);
    var ch :| StepsWith(k, Refused(c, n), m, c', x, ch);
    if ch.reject && n + 1 < REJECT_LIMIT {
      assert c' == Refused(c, n + 1) && x == Message(R(c.nr), []);
    } else {
      AcceptTakes(k, c, n, data, more, ch);
    }
  }

  /** A card that owes a reply defers it, fewer than three times, or starts it. */
  lemma PollStep(k: Make, c: Card, c': Card, result: Result<Message>)
    requires c.phase.Owing? && Sane(c) && Exchanged(k, c, Message(R(c.ns), []), c', result)
    ensures var (total, n) := (c.phase.reply, c.phase.deferrals);
            || (result == Success(Message(R(c.nr), [])) && n < REJECT_LIMIT && c' == c.(phase := Owing(total, n + 1)))
            || Continued(k, c, total, c', result)
  {
    var m := Message(R(c.ns), []);
    var x :| Stepped(k, c, m, c', x) && result == Outcome(k.params.useCrc, m, c', x);
    var ch :| StepsWith(k, c, m, c', x, ch);
    SendNextSends(c, c.phase.reply, ch);
  }

  /** The card composed the next part of `rest`; if it is too long the host gets nowhere. */
  ghost predicate Continued(k: Make, c: Card, rest: seq<Byte>, c': Card, result: Result<Message>) {
    c'.last.Some? && forall m :: c'.last == Some(m) ==> Continues(k, c, rest, c', result, m)
  }

  ghost predicate Continues(k: Make, c: Card, rest: seq<Byte>, c': Card, result: Result<Message>, m: Message) {
    && Sent(c', m, c.ns, rest) && Composed(c, c', m)
    && result == if Fit(k.params.useCrc, m) then Success(m) else Failure(PROTOCOL_ERROR)
  }

  /** A card in the middle of a response continues it when asked for the next sequence bit. */
  lemma ContinueStep(k: Make, c: Card, c': Card, result: Result<Message>)
    requires c.phase.Responding? && Sane(c) && Exchanged(k, c, Message(R(c.ns), []), c', result)
    ensures Continued(k, c, c.phase.rest, c', result)
  {
    var m := Message(R(c.ns), []);
    var x :| Stepped(k, c, m, c', x) && result == Outcome(k.params.useCrc, m, c', x);
    var ch :| StepsWith(k, c, m, c', x, ch);
    SendNextSends(c, c.phase.rest, ch);
  }

  /** A stuck card asked for its block again sends it again. */
  lemma StuckStep(k: Make, c: Card, c': Card, result: Result<Message>)
    requires Stuck(k.params.useCrc, c) && Exchanged(k, c, Message(R(!c.ns), []), c', result)
    ensures c' == c && result == Failure(PROTOCOL_ERROR)
  {
    var m := Message(R(!c.ns), []);
    var x :| Stepped(k, c, m, c', x) && result == Outcome(k.params.useCrc, m, c', x);
    var ch :| StepsWith(k, c, m, c', x, ch);
  }

  /** A supervisory request that the card answers. */
  lemma SupervisoryStep(k: Make, c: Card, request: Byte, inf: seq<Byte>, c': Card, result: Result<Message>)
    requires |inf| <= 1 && Exchanged(k, c, Message(S(request), inf), c', result)
    requires Supervised(c, request, inf).1.control.S?
    ensures (c', result) == (Supervised(c, request, inf).0, Success(Supervised(c, request, inf).1))
  {
    var m := Message(S(request), inf);
    var x :| Stepped(k, c, m, c', x) && result == Outcome(k.params.useCrc, m, c', x);
    var ch :| StepsWith(k, c, m, c', x, ch);
  }

  // ------------------------------------------------- blocks sent more than once

  /** The state of an exchange of m, begun with the card in state c0, before its n-th attempt; x was too long an answer. */
  ghost predicate Pursued(k: Make, c0: Card, m: Message, c: Card, x: Option<Message>, n: nat) {
    if n == 0 then c == c0
    else x.Some? && Stepped(k, c0, m, c, x.value) && !Fit(k.params.useCrc, x.value) && !m.control.S? && (n > 1 ==> m.control.R?)
  }

  lemma PursueOnce(k: Make, c0: Card, m: Message, c: Card, x: Option<Message>, n: nat, c': Card, y: Message)
    requires Pursued(k, c0, m, c, x, n) && Aligned(k.params.useCrc, c0, m) && Stepped(k, c, m, c', y)
    ensures Fit(k.params.useCrc, y) ==> Exchanged(k, c0, m, c', Success(y)) && (m.control.R? ==> n == 0)
    ensures !Fit(k.params.useCrc, y) ==> Pursued(k, c0, m, c', Some(y), n + 1)
  {
    if n > 0 {
      Repeats(k, c0, m, c, x.value, c', y);
      assert Stepped(k, c0, m, c', x.value);
    } else if !Fit(k.params.useCrc, y) {
      var ch :| StepsWith(k, c, m, c', y, ch);
    }
  }

  lemma PursuedOut(k: Make, c0: Card, m: Message, c: Card, x: Option<Message>, n: nat)
    requires Pursued(k, c0, m, c, x, n) && n > 1
    ensures m.control.R? && Exchanged(k, c0, m, c, Failure(PROTOCOL_ERROR))
  {
    assert Stepped(k, c0, m, c, x.value);
  }

  // ------------------------------------------------------- a whole command

  /** The card that has executed the command ending in `apdu` and has not replied; `nr` is the bit it expects next. */
  ghost function Executed(c: Card, apdu: seq<Byte>, nr: bool): Card {
    c.(nr := nr, rejects := 0, last := None, received := [], history := c.history + [Ran(c.received + apdu)])
  }

  /** The card holds the beginning `done` of the command being sent. */
  ghost predicate PartlySent(c: Card, c': Card, done: seq<Byte>) {
    c' == c.(nr := c'.nr, received := c.received + done, last := c'.last)
  }

  /** Where a card that started in state c stands when `offset` bytes of the command are taken; r was the last answer. */
  ghost predicate Following(k: Make, c: Card, apdu: seq<Byte>, offset: nat, c': Card, r: Result<Message>)
    requires offset <= |apdu|
  {
    if offset < |apdu| then PartlySent(c, c', apdu[..offset])
    else Continued(k, Executed(c, apdu, c'.nr), ReplyTo(k, c, apdu), c', r)
  }

  /** What the end of a command does to a card that holds its beginning. */
  lemma LastPart(k: Make, c: Card, mid: Card, apdu: seq<Byte>, offset: nat, c': Card, r: Result<Message>)
    requires offset <= |apdu| && PartlySent(c, mid, apdu[..offset]) && mid.rejects == 0
    requires Continued(k, Executing(mid, apdu[offset..]), ReplyTo(k, mid, apdu[offset..]), c', r)
    ensures Following(k, c, apdu, |apdu|, c', r) && c'.nr == !mid.nr
  {
    assert Continues(k, Executing(mid, apdu[offset..]), ReplyTo(k, mid, apdu[offset..]), c', r, c'.last.value);
    assert apdu[..offset] + apdu[offset..] == apdu;
    assert (c.received + apdu[..offset]) + apdu[offset..] == c.received + apdu;
  }

  lemma NextPart(k: Make, c: Card, mid: Card, apdu: seq<Byte>, offset: nat, size: nat, c': Card, r: Result<Message>)
    requires offset + size < |apdu| && PartlySent(c, mid, apdu[..offset])
    requires c' == mid.(nr := !mid.nr, rejects := 0, last := None, received := mid.received + apdu[offset..offset + size])
    requires mid.rejects == 0
    ensures Following(k, c, apdu, offset + size, c', r)
  {
    assert apdu[..offset] + apdu[offset..offset + size] == apdu[..offset + size];
    assert (c.received + apdu[..offset]) + apdu[offset..offset + size] == c.received + apdu[..offset + size];
  }

  /** Every I-block from this position on fits the host's frames. */
  ghost predicate AllFit(useCrc: bool, said: seq<Message>, from: nat) {
    forall i :: from <= i < |said| ==> Fit(useCrc, said[i])
  }

  /** The blocks composed from this position on are a reply of no more than `total`, each no longer than it may be; greed shows in the first. */
  ghost predicate Blocks(c: Card, from: nat, total: seq<Byte>) {
    && from < |c.said| && (forall i :: from <= i < |c.said| ==> |c.said[i].inf| <= Share(c, total))
    && (c.greedy ==> |c.said[from].inf| == Share(c, total))
  }

  /** Only the sending side of the card has moved, and it has composed some blocks of the reply `total`. */
  ghost predicate Spoken(c: Card, total: seq<Byte>, c': Card) {
    c' == c.(ns := c'.ns, phase := c'.phase, last := c'.last, said := c'.said) && c.said <= c'.said && Blocks(c', |c.said|, total)
  }

  /** `out` of `total` is taken; `m`, with sequence bit ns, is the part of `rest` just sent; all blocks so far fit. */
  ghost predicate Answering(useCrc: bool, base: Card, total: seq<Byte>, out: seq<Byte>, rest: seq<Byte>, m: Message, ns: bool, c: Card) {
    Splits(total, out, rest) && Sent(c, m, ns, rest) && Spoken(base, total, c) && AllFit(useCrc, c.said, |base.said|)
  }

  /** Some block of the reply was too long. */
  ghost predicate Spoiled(useCrc: bool, base: Card, total: seq<Byte>, c: Card) {
    Spoken(base, total, c) && !AllFit(useCrc, c.said, |base.said|)
  }

  /** How a reply begins. */
  lemma ReplyBegins(k: Make, base: Card, total: seq<Byte>, c: Card, r: Result<Message>)
    requires Continued(k, base, total, c, r)
    ensures r.Success? ==> Answering(k.params.useCrc, base, total, [], total, r.value, base.ns, c)
    ensures r.Failure? ==> r.error == PROTOCOL_ERROR && Spoiled(k.params.useCrc, base, total, c)
  {
    assert Continues(k, base, total, c, r, c.last.value);
    assert [] + total == total;
    assert c.said[|base.said|] == c.last.value;
  }

  /** How it goes on. */
  lemma ReplyGoesOn(k: Make, base: Card, total: seq<Byte>, out: seq<Byte>, rest: seq<Byte>, m: Message, ns: bool, c: Card, c': Card, r: Result<Message>)
    requires Answering(k.params.useCrc, base, total, out, rest, m, ns, c) && m.control.I? && m.control.more
    requires Continued(k, c, c.phase.rest, c', r)
    ensures r.Success? ==> Answering(k.params.useCrc, base, total, out + m.inf, c.phase.rest, r.value, !ns, c')
    ensures r.Failure? ==> r.error == PROTOCOL_ERROR && Spoiled(k.params.useCrc, base, total, c')
    ensures m.inf != [] && |out + m.inf| <= |total|
  {
    assert Continues(k, c, c.phase.rest, c', r, c'.last.value);
    SplitFurther(total, out, rest, m.inf, c.phase.rest);
    SaidMore(base, total, c, c');
    assert c'.said[|c.said|] == c'.last.value;
    assert forall i :: |base.said| <= i < |c.said| ==> c'.said[i] == c.said[i];
  }

  lemma SaidMore(base: Card, total: seq<Byte>, c: Card, c': Card)
    requires Spoken(base, total, c) && c'.last.Some? && Composed(c, c', c'.last.value) && |c'.last.value.inf| <= Share(c, total)
    ensures Spoken(base, total, c')
  {
    assert forall i :: |base.said| <= i < |c.said| ==> c'.said[i] == c.said[i];
  }

  /**
   What a command does to a conforming card, and what it returns: the reply if it
   has room and every block the card chose fits a frame, and an error otherwise.
   */
  ghost predicate Served(k: Make, history: seq<Happening>, said: seq<Message>, apdu: seq<Byte>, capacity: nat, c: Card, r: Result<seq<Byte>>) {
    var total := k.app(history + [Ran(apdu)]);
    && c.history == history + [Ran(apdu)] && said <= c.said && Blocks(c, |said|, total)
    && match r
       case Success(out) => out == total && |total| <= capacity && AllFit(k.params.useCrc, c.said, |said|)
       case Failure(e) => (e == BUFFER_TOO_SMALL && |total| > capacity) || (e == PROTOCOL_ERROR && !AllFit(k.params.useCrc, c.said, |said|))
  }

  /** As served, with the empty command, which no card ever sees, refused. */
  ghost predicate Settled(k: Make, history: seq<Happening>, said: seq<Message>, apdu: seq<Byte>, capacity: nat, c: Card, r: Result<seq<Byte>>) {
    if apdu == [] then r == Failure(INVALID_ARGUMENT) && c.history == history && c.said == said
    else Served(k, history, said, apdu, capacity, c, r)
  }

  /** A reply is returned if and only if it has room and every block the card chose fits a frame. */
  lemma ReturnedExactlyIfItFits(k: Make, history: seq<Happening>, said: seq<Message>, apdu: seq<Byte>, capacity: nat, c: Card, r: Result<seq<Byte>>)
    requires Served(k, history, said, apdu, capacity, c, r)
    ensures r == Success(k.app(history + [Ran(apdu)])) ==> |k.app(history + [Ran(apdu)])| <= capacity && AllFit(k.params.useCrc, c.said, |said|)
    ensures |k.app(history + [Ran(apdu)])| <= capacity && AllFit(k.params.useCrc, c.said, |said|) ==> r == Success(k.app(history + [Ran(apdu)]))
  {
  }
}
