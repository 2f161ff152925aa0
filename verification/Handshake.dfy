/** The opening of a control connection: which HELLO is welcome, and what the two ends make of each other's words. */
module Handshake {
  import opened Errors
  import opened FrameCodec
  import opened Connection

  // ------------------------------------------------- HELLO, byte by byte

  /** The version at an offset as one number, major version first. */
  function VersionAt(p: seq<Byte>, o: nat): nat
    requires o + 4 <= |p|
  {
    65536 * (p[o] as int + 256 * p[o + 1] as int) + p[o + 2] as int + 256 * p[o + 3] as int
  }

  const VERSION_1_0 := 65536

  /** The range of versions in a HELLO holds 1.0. */
  predicate Speaks(p: seq<Byte>)
    requires |p| == 12
  {
    VersionAt(p, 0) <= VERSION_1_0 <= VersionAt(p, 4)
  }

  /** The assigned bits of the capability word whose lowest byte this is. */
  function Bits(low: nat): Capabilities {
    Capabilities(low % 2 == 1, low / 2 % 2 == 1, low / 4 % 2 == 1, low / 8 % 2 == 1, 0)
  }

  /** The bits that both have. */
  predicate Both(c: Capabilities, a: Capabilities, b: Capabilities) {
    && c.events == (a.events && b.events) && c.card == (a.card && b.card)
    && c.stats == (a.stats && b.stats) && c.binding == (a.binding && b.binding) && c.others == 0
  }

  lemma TwoBytes(p: seq<Byte>, o: nat)
    requires o + 2 <= |p|
    ensures Num(p, o, 2) == p[o] as int + 256 * p[o + 1] as int
  {
    var s := p[o..o + 2];
    assert s[1..] == [s[1]] && s[1..][1..] == [];
    assert Value(s[1..]) == s[1];
  }

  lemma LowByte(p: seq<Byte>, o: nat)
    requires o + 4 <= |p|
    ensures exists high: nat :: Num(p, o, 4) == p[o] as int + 256 * high
  {
    var s := p[o..o + 4];
    assert Num(p, o, 4) == p[o] as int + 256 * Value(s[1..]);
  }

  lemma Halved(low: nat, k: nat)
    ensures (low + 2 * k) % 2 == low % 2 && (low + 2 * k) / 2 == low / 2 + k
  {
  }

  lemma WordBits(n: nat, low: nat, high: nat)
    requires n == low + 256 * high
    ensures Known(Word(n)) == Bits(low)
  {
    Halved(low, 128 * high);
    Halved(low / 2, 64 * high);
    Halved(low / 2 / 2, 32 * high);
    Halved(low / 2 / 2 / 2, 16 * high);
    assert low / 2 / 2 == low / 4 && low / 4 / 2 == low / 8;
  }

  lemma CapsBits(p: seq<Byte>, o: nat)
    requires o + 4 <= |p|
    ensures Known(Caps(p, o)) == Bits(p[o] as int)
  {
    LowByte(p, o);
    var high: nat :| Num(p, o, 4) == p[o] as int + 256 * high;
    WordBits(Num(p, o, 4), p[o] as int, high);
  }

  lemma SpeaksExactly(p: seq<Byte>)
    requires |p| == 12
    ensures IncludesV1(p) <==> Speaks(p)
  {
    TwoBytes(p, 0);
    TwoBytes(p, 2);
    TwoBytes(p, 4);
    TwoBytes(p, 6);
  }

  // --------------------------------------------------- the server's verdict

  predicate IsHello(f: Frame) {
    FrameOk(f) && f.header.mtype == HELLO && f.header.kind == Request
  }

  /** A server that hears a HELLO asks for a welcome exactly if the versions include 1.0, and for a refusal otherwise. */
  lemma HelloVerdict(supported: Capabilities, f: Frame)
    requires IsHello(f)
    ensures var r := Report(Start(ControlServer, supported), false, f);
            && |f.payload| == 12 && r.Success?
            && r.value.notice == (if Speaks(f.payload) then HelloResponseRequired else VersionMismatchResponseRequired)
            && Both(r.value.negotiated, Bits(f.payload[8] as int), supported)
  {
    SpeaksExactly(f.payload);
    CapsBits(f.payload, 8);
  }

  // ------------------------------------------------------ the two ends' logs

  /** What the log of a server says of it, read up to any point. */
  predicate ServerOpening(supported: Capabilities, m: Machine, log: seq<Hop>) {
    forall n :: 0 <= n <= |log| ==> ServerTold(supported, m, log, n)
  }

  /** The first two frames of a server's log: the HELLO, and the answer to it, which decides. */
  predicate ServerTold(supported: Capabilities, m: Machine, log: seq<Hop>, n: nat)
    requires n <= |log|
  {
    && m.role == ControlServer && m.supported == Known(supported)
    && (log == [] ==> m == Start(ControlServer, supported))
    && (n >= 1 ==>
          && !log[0].outbound && IsHello(log[0].frame)
          && m.compatible == IncludesV1(log[0].frame.payload) && m.negotiated == Shared(Caps(log[0].frame.payload, 8), Known(supported)))
    && (|log| == 1 ==> m.phase == Handshake && m.pending == Some(log[0].frame.header))
    && (n >= 2 ==>
          && m.phase == (if m.compatible then Active else Closed) && log[1].outbound && FrameOk(log[1].frame) && log[1].frame.header.mtype == HELLO
          && if m.compatible then log[1].frame.header.kind == Response && Caps(log[1].frame.payload, 4) == m.negotiated
             else log[1].frame.header.kind == ErrorResponse)
  }

  lemma OpeningStep(supported: Capabilities, m: Machine, log: seq<Hop>, h: Hop)
    requires ServerOpening(supported, m, log) && FrameOk(h.frame) && Accepts(m, h.outbound, h.frame)
    ensures ServerOpening(supported, Process(m, h.outbound, h.frame), log + [h])
  {
    assert ServerTold(supported, m, log, |log|);
    assert forall i :: 0 <= i < |log| ==> (log + [h])[i] == log[i];
    assert ServerTold(supported, Process(m, h.outbound, h.frame), log + [h], |log| + 1);
  }

  lemma {:induction false} ServerOpens(supported: Capabilities, log: seq<Hop>)
    requires Legal(Start(ControlServer, supported), log)
    ensures ServerOpening(supported, Follow(Start(ControlServer, supported), log), log)
  {
    if log != [] {
      var before, h := log[..|log| - 1], log[|log| - 1];
      assert before + [h] == log;
      LogGrows(Start(ControlServer, supported), before, h);
      ServerOpens(supported, before);
      OpeningStep(supported, Follow(Start(ControlServer, supported), before), before, h);
    }
  }

  predicate ClientOpening(m: Machine, log: seq<Hop>) {
    forall n :: 0 <= n <= |log| ==> ClientTold(m, log, n)
  }

  /** The first two frames of a client's log: its HELLO, and the answer that it got. */
  predicate ClientTold(m: Machine, log: seq<Hop>, n: nat)
    requires n <= |log|
  {
    && m.role == ControlClient
    && (log == [] ==> m.phase == Initial)
    && (n >= 1 ==> log[0].outbound && IsHello(log[0].frame))
    && (|log| == 1 ==> m.phase == Handshake)
    && (n >= 2 ==>
          && !log[1].outbound && m.phase == (if log[1].frame.header.kind == Response then Active else Closed)
          && (m.phase == Active ==> m.negotiated == Known(Caps(log[1].frame.payload, 4))))
  }

  lemma ClientStep(m: Machine, log: seq<Hop>, h: Hop)
    requires ClientOpening(m, log) && FrameOk(h.frame) && Accepts(m, h.outbound, h.frame)
    ensures ClientOpening(Process(m, h.outbound, h.frame), log + [h])
  {
    assert ClientTold(m, log, |log|);
    assert forall i :: 0 <= i < |log| ==> (log + [h])[i] == log[i];
    assert ClientTold(Process(m, h.outbound, h.frame), log + [h], |log| + 1);
  }

  lemma {:induction false} ClientOpens(offered: Capabilities, log: seq<Hop>)
    requires Legal(Start(ControlClient, offered), log)
    ensures ClientOpening(Follow(Start(ControlClient, offered), log), log)
  {
    if log != [] {
      var before, h := log[..|log| - 1], log[|log| - 1];
      assert before + [h] == log;
      LogGrows(Start(ControlClient, offered), before, h);
      ClientOpens(offered, before);
      ClientStep(Follow(Start(ControlClient, offered), before), before, h);
    }
  }

  /** The first frame in one direction. */
  lemma {:induction false} FirstPassed(log: seq<Hop>, outbound: bool)
    requires log != []
    ensures log[0].outbound == outbound ==> Passed(log, outbound) != [] && Passed(log, outbound)[0] == log[0].frame
    ensures log[0].outbound != outbound && |log| >= 2 && log[1].outbound == outbound ==>
              Passed(log, outbound) != [] && Passed(log, outbound)[0] == log[1].frame
  {
    if |log| == 1 {
      assert log[..0] == [];
    } else {
      var before := log[..|log| - 1];
      FirstPassed(before, outbound);
      if |log| == 2 { assert before[..0] == []; }
    }
  }

  /** How a run of the control protocol has opened, as far as it has got, in terms of the HELLO that the client sent. */
  predicate Opened(hello: Frame, supported: Capabilities, l: Link)
    requires |hello.payload| == 12
  {
    && (|l.serverLog| >= 2 ==> l.server.phase == if Speaks(hello.payload) then Active else Closed)
    && (|l.clientLog| >= 2 ==> l.client.phase == if Speaks(hello.payload) then Active else Closed)
    && (|l.serverLog| >= 1 ==> l.serverLog[0].frame == hello && Both(l.server.negotiated, Bits(hello.payload[8] as int), supported))
    && (l.client.phase == Active ==> |l.clientLog| >= 2 && Both(l.client.negotiated, Bits(hello.payload[8] as int), supported))
  }

  /**
   On every run, a handshake that is completed leaves an end active exactly if
   the HELLO's versions include 1.0, with exactly the assigned bits negotiated
   that both the HELLO's word and the server have.
   */
  lemma EveryHandshake(offered: Capabilities, supported: Capabilities, moves: seq<Move>, l: Link)
    requires Runs(Begin(true, offered, supported), moves, l)
    ensures l.clientLog == [] ==> l.serverLog == [] && l.client.phase == Initial && l.server.phase == Initial
    ensures l.clientLog != [] ==>
              && l.clientLog[0].outbound && IsHello(l.clientLog[0].frame) && |l.clientLog[0].frame.payload| == 12
              && Opened(l.clientLog[0].frame, supported, l)
  {
    RunOpens(offered, supported, moves, l);
    OpeningShown(supported, l);
  }

  lemma RunOpens(offered: Capabilities, supported: Capabilities, moves: seq<Move>, l: Link)
    requires Runs(Begin(true, offered, supported), moves, l)
    ensures Sound(l) && ServerOpening(supported, l.server, l.serverLog) && ClientOpening(l.client, l.clientLog)
  {
    var begin := Begin(true, offered, supported);
    BeginLawful(true, offered, supported);
    RunLawful(begin, begin, moves, l);
    ServerOpens(supported, l.serverLog);
    ClientOpens(offered, l.clientLog);
  }

  lemma OpeningShown(supported: Capabilities, l: Link)
    requires Sound(l) && ServerOpening(supported, l.server, l.serverLog) && ClientOpening(l.client, l.clientLog)
    ensures l.clientLog == [] ==> l.serverLog == [] && l.client.phase == Initial && l.server.phase == Initial
    ensures l.clientLog != [] ==>
              && l.clientLog[0].outbound && IsHello(l.clientLog[0].frame) && |l.clientLog[0].frame.payload| == 12
              && Opened(l.clientLog[0].frame, supported, l)
  {
    assert ServerTold(supported, l.server, l.serverLog, |l.serverLog|) && ClientTold(l.client, l.clientLog, |l.clientLog|);
    SameHello(supported, l);
    if l.clientLog != [] { OpenedBy(supported, l); }
  }

  /** The server has heard nothing but what the client said. */
  lemma SameHello(supported: Capabilities, l: Link)
    requires Sound(l) && ServerOpening(supported, l.server, l.serverLog) && ClientOpening(l.client, l.clientLog)
    ensures l.serverLog != [] ==> l.clientLog != [] && l.serverLog[0].frame == l.clientLog[0].frame
  {
    assert ServerTold(supported, l.server, l.serverLog, |l.serverLog|) && ClientTold(l.client, l.clientLog, |l.clientLog|);
    if l.serverLog != [] {
      FirstPassed(l.serverLog, false);
      if l.clientLog != [] { FirstPassed(l.clientLog, true); }
    }
  }

  lemma OpenedBy(supported: Capabilities, l: Link)
    requires Sound(l) && ServerOpening(supported, l.server, l.serverLog) && ClientOpening(l.client, l.clientLog) && l.clientLog != []
    requires l.serverLog != [] ==> l.serverLog[0].frame == l.clientLog[0].frame
    ensures |l.clientLog[0].frame.payload| == 12 && Opened(l.clientLog[0].frame, supported, l)
  {
    assert ServerTold(supported, l.server, l.serverLog, |l.serverLog|) && ClientTold(l.client, l.clientLog, |l.clientLog|);
    SpeaksExactly(l.clientLog[0].frame.payload);
    CapsBits(l.clientLog[0].frame.payload, 8);
    if |l.clientLog| >= 2 { AnswerArrived(supported, l); }
  }

  /** A client that has its answer has the one the server gave. */
  lemma AnswerArrived(supported: Capabilities, l: Link)
    requires Sound(l) && ServerOpening(supported, l.server, l.serverLog) && ClientOpening(l.client, l.clientLog) && |l.clientLog| >= 2
    ensures |l.serverLog| >= 2 && l.clientLog[1].frame == l.serverLog[1].frame
  {
    assert ServerTold(supported, l.server, l.serverLog, |l.serverLog|) && ClientTold(l.client, l.clientLog, |l.clientLog|);
    FirstPassed(l.clientLog, false);
    assert Passed(l.serverLog, true) != [];
    if l.serverLog != [] { FirstPassed(l.serverLog, true); }
  }
}
