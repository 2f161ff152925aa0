/** What an answer to reset says, from the side of the card that writes it (section 8.2 of ISO/IEC 7816-3). */
module AtrWriter {
  import opened Errors
  import opened T1Codec
  import opened CardAtr

  /**
   One group of interface bytes. Its lead is the byte that announces it: T0 for the first group, which counts the historical
   bytes too, and TD for the others, which names the protocol too.
  */
  datatype Interface = Interface(lead: Byte, protocol: Byte, ta: Option<Byte>, tb: Option<Byte>, tc: Option<Byte>)

  datatype Card = Card(convention: Byte, groups: seq<Interface>, historical: seq<Byte>)

  // ------------------------------------------------------------- the writer

  function Optional(b: Option<Byte>): seq<Byte> {
    match b
    case None => []
    case Some(x) => [x]
  }

  function Nibble(a: bool, b: bool, c: bool, d: bool): Byte {
    (if a then 1 else 0) | (if b then 2 else 0) | (if c then 4 else 0) | if d then 8 else 0
  }

  function Joined(high: Byte, low: Byte): Byte {
    (high << 4) | low
  }

  /** Which bytes of group n there are; TD is there if a group follows. */
  function Presence(gs: seq<Interface>, n: nat): Byte
    requires n < |gs|
  {
    Nibble(gs[n].ta.Some?, gs[n].tb.Some?, gs[n].tc.Some?, n + 1 < |gs|)
  }

  /** The byte that announces group n holds its presence and another half. */
  predicate Announced(gs: seq<Interface>, n: nat, low: Byte)
    requires n < |gs|
  {
    low < 16 && gs[n].lead == Joined(Presence(gs, n), low)
  }

  function Next(gs: seq<Interface>, n: nat): Option<Byte> {
    if n < |gs| then Some(gs[n].lead) else None
  }

  function WriteGroup(g: Interface, td: Option<Byte>): seq<Byte> {
    Optional(g.ta) + Optional(g.tb) + Optional(g.tc) + Optional(td)
  }

  /** The interface bytes from group n on. */
  function WriteFrom(gs: seq<Interface>, n: nat): seq<Byte>
    requires n <= |gs|
    decreases |gs| - n
  {
    if n == |gs| then [] else WriteGroup(gs[n], Next(gs, n + 1)) + WriteFrom(gs, n + 1)
  }

  /** Some group before n is for another protocol than T=0. */
  predicate Others(gs: seq<Interface>, n: nat)
    requires n <= |gs|
  {
    exists i :: 0 < i < n && gs[i].protocol != 0
  }

  function Body(c: Card): seq<Byte>
    requires |c.groups| > 0
  {
    [c.convention, c.groups[0].lead] + WriteFrom(c.groups, 0) + c.historical
  }

  function Write(c: Card): seq<Byte>
    requires |c.groups| > 0
  {
    Body(c) + if Others(c.groups, |c.groups|) then [Lrc(Body(c)[1..])] else []
  }

  predicate Supported(ta: Option<Byte>) {
    ta.Some? ==> ta.value == 0x11 || ta.value == 0x12 || ta.value == 0x13
  }

  predicate WellFormed(c: Card) {
    && (c.convention == 0x3b || c.convention == 0x3f)
    && |c.groups| > 0 && Supported(c.groups[0].ta) && |c.historical| < 16
    && Announced(c.groups, 0, |c.historical| as Byte)
    && (forall i :: 0 < i < |c.groups| ==> Announced(c.groups, i, c.groups[i].protocol))
    && |Write(c)| <= ATR_MAX
  }

  // ------------------------------------------------------- what it announces

  function Pow2(n: nat): nat {
    if n == 0 then 1 else 2 * Pow2(n - 1)
  }

  function Speed(b: Baud): nat {
    match b
    case Baud9600 => 9600
    case Baud19200 => 19200
    case Baud38400 => 38400
  }

  /** TA1 holds one more than the number of times the default rate is doubled. */
  predicate Runs(gs: seq<Interface>, b: Baud)
    requires |gs| > 0
  {
    match gs[0].ta
    case None => Speed(b) == 9600
    case Some(ta) => exists n: nat :: n < 3 && ta == 0x11 + n as Byte && Speed(b) == 9600 * Pow2(n)
  }

  /** A group that speaks about T=1: the third or a later one, announced for that protocol. */
  predicate Specific(gs: seq<Interface>, n: nat)
    requires n < |gs|
  {
    n >= 2 && gs[n].protocol == 1
  }

  /** The field size: the last usable TA of such a group. */
  function FieldSize(gs: seq<Interface>, n: nat): nat
    requires n <= |gs|
  {
    if n == 0 then 32
    else if Specific(gs, n - 1) && gs[n - 1].ta.Some? && gs[n - 1].ta.value != 0 && gs[n - 1].ta.value != 255 then gs[n - 1].ta.value as int
    else FieldSize(gs, n - 1)
  }

  /** The block waiting time: a tenth of a second doubled as often as the last TB says, within what the host grants. */
  function WaitingTime(gs: seq<Interface>, n: nat): nat
    requires n <= |gs|
  {
    if n == 0 then 500
    else if Specific(gs, n - 1) && gs[n - 1].tb.Some? then Clamp(500, 3000, 100 * Pow2((gs[n - 1].tb.value >> 4) as int))
    else WaitingTime(gs, n - 1)
  }

  /** The lowest bit of the last TC tells whether blocks end in a CRC. */
  predicate Crc(gs: seq<Interface>, n: nat)
    requires n <= |gs|
  {
    n > 0 && if Specific(gs, n - 1) && gs[n - 1].tc.Some? then gs[n - 1].tc.value % 2 == 1 else Crc(gs, n - 1)
  }

  /** The parameters that the first n groups announce. */
  predicate Announces(gs: seq<Interface>, n: nat, p: Params)
    requires n <= |gs|
  {
    && (if n == 0 then p.baud == Baud9600 else Runs(gs, p.baud))
    && p.ifsc == FieldSize(gs, n) && p.blockTimeout == WaitingTime(gs, n) && p.useCrc == Crc(gs, n)
  }

  // ------------------------------------------------------- small facts on bits

  lemma NibbleRead(a: bool, b: bool, c: bool, d: bool)
    ensures var m := Nibble(a, b, c, d);
            && m < 16 && (m == 0 <==> !a && !b && !c && !d)
            && (m & 1 != 0 <==> a) && (m & 2 != 0 <==> b) && (m & 4 != 0 <==> c) && (m & 8 != 0 <==> d)
  {
  }

  lemma JoinedRead(high: Byte, low: Byte)
    requires high < 16 && low < 16
    ensures Joined(high, low) >> 4 == high && Joined(high, low) & 0x0f == low
  {
  }

  lemma Rejoined(b: Byte)
    ensures Joined(b >> 4, b & 0x0f) == b && b >> 4 < 16 && b & 0x0f < 16
  {
  }

  lemma Renibbled(m: Byte)
    requires m < 16
    ensures Nibble(m & 1 != 0, m & 2 != 0, m & 4 != 0, m & 8 != 0) == m
  {
  }

  lemma LastBit(b: Byte)
    ensures b & 1 != 0 <==> b % 2 == 1
  {
  }

  lemma Doubled(bwi: nat)
    ensures Clamp(500, 3000, 100 * Pow2(bwi)) == Clamp(DEFAULT_TIMEOUT, OPERATION_TIMEOUT, Waiting(bwi))
  {
    assert Pow2(1) == 2 && Pow2(2) == 4 && Pow2(3) == 8 && Pow2(4) == 16 && Pow2(5) == 32;
    if bwi >= 5 { Large(bwi); }
  }

  lemma {:induction false} Large(n: nat)
    requires n >= 5
    ensures Pow2(n) >= 32
  {
    assert Pow2(1) == 2 && Pow2(2) == 4 && Pow2(3) == 8 && Pow2(4) == 16 && Pow2(5) == 32;
    if n > 5 { Large(n - 1); }
  }

  // --------------------------------------------------- what is written is read

  function Behind(g: Interface, offset: nat): nat {
    offset + |Optional(g.ta)| + |Optional(g.tb)| + |Optional(g.tc)|
  }

  lemma Parted<T>(s: seq<T>, o: nat, first: seq<T>, rest: seq<T>)
    requires o <= |s| && first + rest <= s[o..]
    ensures first <= s[o..] && o + |first| <= |s| && rest <= s[o + |first|..]
  {
    assert s[o..][..|first| + |rest|] == first + rest;
    assert s[o..][|first|..] == s[o + |first|..];
  }

  lemma TakeReads(bytes: seq<Byte>, offset: nat, b: Option<Byte>)
    requires offset <= |bytes| && Optional(b) <= bytes[offset..]
    ensures Take(bytes, offset, b.Some?) == Success((b, offset + |Optional(b)|))
  {
    if b.Some? {
      assert bytes[offset] == bytes[offset..][0] == Optional(b)[0];
    }
  }

  lemma StepReads(bytes: seq<Byte>, offset: nat, g: Interface, td: Option<Byte>)
    requires offset <= |bytes| && WriteGroup(g, td) <= bytes[offset..]
    ensures var m := Nibble(g.ta.Some?, g.tb.Some?, g.tc.Some?, td.Some?);
            && TakeGroup(bytes, offset, m) == Success(Group(g.ta, g.tb, g.tc, Behind(g, offset)))
            && Take(bytes, Behind(g, offset), m & 8 != 0) == Success((td, offset + |WriteGroup(g, td)|))
  {
    NibbleRead(g.ta.Some?, g.tb.Some?, g.tc.Some?, td.Some?);
    var a, b, c := Optional(g.ta), Optional(g.tb), Optional(g.tc);
    Parted(bytes, offset, a + b + c, Optional(td));
    Parted(bytes, offset, a + b, c);
    Parted(bytes, offset, a, b);
    TakeReads(bytes, offset, g.ta);
    TakeReads(bytes, offset + |a|, g.tb);
    TakeReads(bytes, offset + |a + b|, g.tc);
    TakeReads(bytes, offset + |a + b + c|, td);
  }

  /** Where a walk stands before group n of what was written. */
  predicate Before(gs: seq<Interface>, n: nat, bytes: seq<Byte>, w: Walk) {
    && AtGroup(gs, n, w) && w.offset <= |bytes| && WriteFrom(gs, n) <= bytes[w.offset..]
    && w.interfaces == Presence(gs, n)
    && w.nonT0 == Others(gs, n + 1) && Announces(gs, n, w.params)
  }

  /** A walk that has come to group n. */
  predicate AtGroup(gs: seq<Interface>, n: nat, w: Walk) {
    n < |gs| && w.group == n + 1 && w.t1 == (n > 0 && gs[n].protocol == 1)
  }

  function Taken(g: Interface, offset: nat): Group {
    Group(g.ta, g.tb, g.tc, offset)
  }

  /** The effect of a group is what it announces. */
  lemma ApplySays(gs: seq<Interface>, n: nat, w: Walk, offset: nat)
    requires AtGroup(gs, n, w) && Supported(gs[0].ta) && Announces(gs, n, w.params)
    ensures var r := Apply(w, Taken(gs[n], offset)); r.Success? && Announces(gs, n + 1, r.value)
  {
    SaysRate(gs, n, w, offset);
    SaysSize(gs, n, w, offset);
    SaysTime(gs, n, w, offset);
    SaysCrc(gs, n, w, offset);
  }

  lemma SaysRate(gs: seq<Interface>, n: nat, w: Walk, offset: nat)
    requires AtGroup(gs, n, w) && Supported(gs[0].ta) && (if n == 0 then w.params.baud == Baud9600 else Runs(gs, w.params.baud))
    ensures var r := Apply(w, Taken(gs[n], offset)); r.Success? && Runs(gs, r.value.baud)
  {
    if n == 0 && gs[0].ta.Some? { RateSays(gs); }
  }

  lemma SaysSize(gs: seq<Interface>, n: nat, w: Walk, offset: nat)
    requires AtGroup(gs, n, w) && w.params.ifsc == FieldSize(gs, n)
    ensures var r := Apply(w, Taken(gs[n], offset)); r.Success? ==> r.value.ifsc == FieldSize(gs, n + 1)
  {
    if gs[n].ta.Some? { Usable(gs[n].ta.value); }
  }

  lemma SaysTime(gs: seq<Interface>, n: nat, w: Walk, offset: nat)
    requires AtGroup(gs, n, w) && w.params.blockTimeout == WaitingTime(gs, n)
    ensures var r := Apply(w, Taken(gs[n], offset)); r.Success? ==> r.value.blockTimeout == WaitingTime(gs, n + 1)
  {
    if gs[n].tb.Some? { Doubled((gs[n].tb.value >> 4) as int); }
  }

  lemma SaysCrc(gs: seq<Interface>, n: nat, w: Walk, offset: nat)
    requires AtGroup(gs, n, w) && w.params.useCrc == Crc(gs, n)
    ensures var r := Apply(w, Taken(gs[n], offset)); r.Success? ==> r.value.useCrc == Crc(gs, n + 1)
  {
    if gs[n].tc.Some? { LastBit(gs[n].tc.value); }
  }

  lemma Usable(b: Byte)
    ensures 1 <= b <= 254 <==> b != 0 && b != 255
  {
  }

  lemma RateSays(gs: seq<Interface>)
    requires |gs| > 0 && gs[0].ta.Some? && Supported(gs[0].ta)
    ensures BaudOf(gs[0].ta.value).Success? && Runs(gs, BaudOf(gs[0].ta.value).value)
  {
    var n := if gs[0].ta.value == 0x11 then 0 else if gs[0].ta.value == 0x12 then 1 else 2;
    assert Pow2(0) == 1 && Pow2(1) == 2 && Pow2(2) == 4;
    assert gs[0].ta.value == 0x11 + n as Byte;
  }

  /** One step over a group that was written with TD behind it. */
  lemma StepWritten(bytes: seq<Byte>, w: Walk, g: Interface, td: Option<Byte>, p: Params)
    requires w.offset <= |bytes| && WriteGroup(g, td) <= bytes[w.offset..]
    requires w.interfaces == Nibble(g.ta.Some?, g.tb.Some?, g.tc.Some?, td.Some?)
    requires Apply(w, Taken(g, Behind(g, w.offset))) == Success(p)
    ensures var o := w.offset + |WriteGroup(g, td)|;
            Step(bytes, w) == match td
                              case None => Success(w.(offset := o, interfaces := 0, params := p))
                              case Some(d) => Success(Walk(o, w.group + 1, d >> 4, d & 0x0f == 1, w.nonT0 || d & 0x0f != 0, p))
  {
    StepReads(bytes, w.offset, g, td);
  }

  lemma GroupFirst(gs: seq<Interface>, n: nat, bytes: seq<Byte>, offset: nat)
    requires n < |gs| && offset <= |bytes| && WriteFrom(gs, n) <= bytes[offset..]
    ensures var g := WriteGroup(gs[n], Next(gs, n + 1));
            && g <= bytes[offset..] && offset + |g| <= |bytes| && WriteFrom(gs, n + 1) <= bytes[offset + |g|..]
            && |WriteFrom(gs, n)| == |g| + |WriteFrom(gs, n + 1)|
  {
    Parted(bytes, offset, WriteGroup(gs[n], Next(gs, n + 1)), WriteFrom(gs, n + 1));
  }

  /** What the byte that announces group n says when it is taken apart. */
  predicate Halves(gs: seq<Interface>, n: nat)
    requires n < |gs|
  {
    gs[n].lead >> 4 == Presence(gs, n) && gs[n].lead & 0x0f == gs[n].protocol
  }

  lemma AnnouncedIs(gs: seq<Interface>, n: nat, low: Byte)
    requires n < |gs| && Announced(gs, n, low)
    ensures gs[n].lead >> 4 == Presence(gs, n) && gs[n].lead & 0x0f == low
  {
    NibbleRead(gs[n].ta.Some?, gs[n].tb.Some?, gs[n].tc.Some?, n + 1 < |gs|);
    JoinedRead(Presence(gs, n), low);
  }

  lemma StepOver(gs: seq<Interface>, n: nat, bytes: seq<Byte>, w: Walk)
    requires Before(gs, n, bytes, w) && Supported(gs[0].ta) && n + 1 < |gs|
    ensures var o := w.offset + |WriteGroup(gs[n], Next(gs, n + 1))|;
            && Step(bytes, w).Success? && Announces(gs, n + 1, Step(bytes, w).value.params)
            && Step(bytes, w).value == Walk(o, n + 2, gs[n + 1].lead >> 4, gs[n + 1].lead & 0x0f == 1,
                                            Others(gs, n + 1) || gs[n + 1].lead & 0x0f != 0, Step(bytes, w).value.params)
  {
    GroupFirst(gs, n, bytes, w.offset);
    ApplySays(gs, n, w, Behind(gs[n], w.offset));
    StepWritten(bytes, w, gs[n], Next(gs, n + 1), Apply(w, Taken(gs[n], Behind(gs[n], w.offset))).value);
  }

  lemma OthersNext(gs: seq<Interface>, n: nat)
    requires n + 1 < |gs|
    ensures Others(gs, n + 2) == (Others(gs, n + 1) || gs[n + 1].protocol != 0)
  {
  }

  /** A step over a written group that others follow comes to the next of them. */
  lemma StepToNext(gs: seq<Interface>, n: nat, bytes: seq<Byte>, w: Walk)
    requires Before(gs, n, bytes, w) && Supported(gs[0].ta) && n + 1 < |gs| && Halves(gs, n + 1)
    ensures Step(bytes, w).Success? && Before(gs, n + 1, bytes, Step(bytes, w).value)
    ensures Step(bytes, w).value.offset + |WriteFrom(gs, n + 1)| == w.offset + |WriteFrom(gs, n)|
  {
    GroupFirst(gs, n, bytes, w.offset);
    StepOver(gs, n, bytes, w);
    OthersNext(gs, n);
  }

  lemma StepToEnd(gs: seq<Interface>, bytes: seq<Byte>, w: Walk)
    requires |gs| > 0 && Before(gs, |gs| - 1, bytes, w) && Supported(gs[0].ta)
    ensures Step(bytes, w).Success?
    ensures var end := Step(bytes, w).value;
            && end.interfaces == 0 && end.offset == w.offset + |WriteFrom(gs, |gs| - 1)|
            && end.nonT0 == Others(gs, |gs|) && Announces(gs, |gs|, end.params)
  {
    var n := |gs| - 1;
    GroupFirst(gs, n, bytes, w.offset);
    ApplySays(gs, n, w, Behind(gs[n], w.offset));
    StepWritten(bytes, w, gs[n], None, Apply(w, Taken(gs[n], Behind(gs[n], w.offset))).value);
  }

  /** A group without any byte is the last, and adds nothing. */
  lemma EmptyGroup(gs: seq<Interface>, n: nat, p: Params)
    requires n < |gs| && Presence(gs, n) == 0 && Announces(gs, n, p)
    ensures n + 1 == |gs| && WriteFrom(gs, n) == [] && Announces(gs, n + 1, p)
  {
    NibbleRead(gs[n].ta.Some?, gs[n].tb.Some?, gs[n].tc.Some?, n + 1 < |gs|);
    assert WriteFrom(gs, n + 1) == [];
  }

  /** The walk over what was written ends behind it with what it announces. */
  lemma {:induction false} WalkReads(gs: seq<Interface>, n: nat, bytes: seq<Byte>, w: Walk)
    requires Before(gs, n, bytes, w) && Supported(gs[0].ta) && forall i :: 0 < i < |gs| ==> Halves(gs, i)
    ensures WalkAll(bytes, w).Success?
    ensures var end := WalkAll(bytes, w).value;
            && end.offset == w.offset + |WriteFrom(gs, n)| && end.nonT0 == Others(gs, |gs|) && Announces(gs, |gs|, end.params)
    decreases |gs| - n
  {
    if w.interfaces == 0 {
      EmptyGroup(gs, n, w.params);
    } else if n + 1 < |gs| {
      StepToNext(gs, n, bytes, w);
      WalkReads(gs, n + 1, bytes, Step(bytes, w).value);
    } else {
      StepToEnd(gs, bytes, w);
    }
  }

  lemma CountRead(k: nat)
    requires k < 16
    ensures k as Byte < 16 && (k as Byte) as int == k
  {
  }

  /** The second byte holds the presence of the first group and the number of historical bytes. */
  lemma SecondByte(c: Card)
    requires WellFormed(c)
    ensures Write(c)[1] >> 4 == Presence(c.groups, 0) && (Write(c)[1] & 0x0f) as int == |c.historical|
  {
    CountRead(|c.historical|);
    AnnouncedIs(c.groups, 0, |c.historical| as Byte);
  }

  lemma StartsBefore(c: Card)
    requires WellFormed(c)
    ensures Before(c.groups, 0, Write(c), Start(Write(c)))
  {
    SecondByte(c);
    assert Write(c)[2..][..|WriteFrom(c.groups, 0)|] == WriteFrom(c.groups, 0);
  }

  lemma ChecksumFits(c: Card)
    requires WellFormed(c) && Others(c.groups, |c.groups|)
    ensures Lrc(Write(c)[1..]) == 0
  {
    var front := Body(c)[1..];
    assert Write(c)[1..] == front + [Lrc(front)];
    LrcAppend(front, Lrc(front));
  }

  /** What is left to check once the walk has ended as it should. */
  lemma ParseEnds(bytes: seq<Byte>, end: Walk)
    requires 2 <= |bytes| <= ATR_MAX && (bytes[0] == 0x3b || bytes[0] == 0x3f)
    requires WalkAll(bytes, Start(bytes)) == Success(end) && Expected(bytes, end) == |bytes|
    requires end.nonT0 ==> Lrc(bytes[1..]) == 0
    ensures Parse(bytes) == Success(Atr(bytes, end.params))
  {
  }

  /** An answer that a card writes is accepted, with the parameters it announces. */
  lemma WrittenIsRead(c: Card)
    requires WellFormed(c)
    ensures Parse(Write(c)).Success? && Parse(Write(c)).value.bytes == Write(c)
    ensures Announces(c.groups, |c.groups|, Parse(Write(c)).value.params)
  {
    StartsBefore(c);
    SecondByte(c);
    forall i | 0 < i < |c.groups| ensures Halves(c.groups, i) {
      AnnouncedIs(c.groups, i, c.groups[i].protocol);
    }
    WalkReads(c.groups, 0, Write(c), Start(Write(c)));
    if Others(c.groups, |c.groups|) { ChecksumFits(c); }
    ParseEnds(Write(c), WalkAll(Write(c), Start(Write(c))).value);
  }

  // --------------------------------------------- what is accepted was written

  lemma GroupTaken(bytes: seq<Byte>, offset: nat, m: Byte)
    requires offset <= |bytes| && TakeGroup(bytes, offset, m).Success?
    ensures var g := TakeGroup(bytes, offset, m).value;
            var front := Optional(g.ta) + Optional(g.tb) + Optional(g.tc);
            && (g.ta.Some? <==> m & 1 != 0) && (g.tb.Some? <==> m & 2 != 0) && (g.tc.Some? <==> m & 4 != 0)
            && g.offset == offset + |front| <= |bytes| && bytes[offset..g.offset] == front
  {
  }

  lemma StepParts(bytes: seq<Byte>, w: Walk)
    requires Step(bytes, w).Success?
    ensures TakeGroup(bytes, w.offset, w.interfaces).Success?
    ensures var g := TakeGroup(bytes, w.offset, w.interfaces).value;
            && Apply(w, g).Success? && Take(bytes, g.offset, w.interfaces & 8 != 0).Success?
  {
  }

  lemma BytesTaken(bytes: seq<Byte>, offset: nat, front: seq<Byte>, end: nat, present: bool)
    requires offset <= end <= |bytes| && bytes[offset..end] == front && Take(bytes, end, present).Success?
    ensures var td := Take(bytes, end, present).value.0;
            var all := front + Optional(td);
            (td.Some? <==> present) && offset + |all| <= |bytes| && all == bytes[offset..offset + |all|]
  {
  }

  /** A step that succeeds has read a group and the byte behind it. */
  lemma StepUnwritten(bytes: seq<Byte>, w: Walk) returns (g: Interface, td: Option<Byte>)
    requires w.offset <= |bytes| && w.interfaces < 16 && Step(bytes, w).Success?
    ensures w.offset + |WriteGroup(g, td)| <= |bytes| && WriteGroup(g, td) == bytes[w.offset..w.offset + |WriteGroup(g, td)|]
    ensures w.interfaces == Nibble(g.ta.Some?, g.tb.Some?, g.tc.Some?, td.Some?)
    ensures Apply(w, Taken(g, Behind(g, w.offset))).Success?
  {
    StepParts(bytes, w);
    GroupTaken(bytes, w.offset, w.interfaces);
    Renibbled(w.interfaces);
    var r := TakeGroup(bytes, w.offset, w.interfaces).value;
    g := Interface(0, 0, r.ta, r.tb, r.tc);
    td := Take(bytes, r.offset, w.interfaces & 8 != 0).value.0;
    BytesTaken(bytes, w.offset, Optional(g.ta) + Optional(g.tb) + Optional(g.tc), r.offset, w.interfaces & 8 != 0);
  }

  lemma {:induction false} Shifted(g: Interface, rest: seq<Interface>, n: nat)
    requires n <= |rest|
    ensures WriteFrom([g] + rest, n + 1) == WriteFrom(rest, n)
    decreases |rest| - n
  {
    if n < |rest| {
      assert ([g] + rest)[n + 1] == rest[n];
      Shifted(g, rest, n + 1);
    }
  }

  /** What a list of groups stands for in the bytes of a walk. */
  predicate Stands(gs: seq<Interface>, bytes: seq<Byte>, w: Walk, end: Walk) {
    && |gs| > 0 && w.offset <= end.offset <= |bytes|
    && (forall i :: 0 <= i < |gs| ==> Halves(gs, i))
    && WriteFrom(gs, 0) == bytes[w.offset..end.offset]
    && end.nonT0 == (w.nonT0 || Others(gs, |gs|)) && (w.group == 1 ==> Supported(gs[0].ta))
  }

  lemma SupportedIs(w: Walk, g: Group)
    requires Apply(w, g).Success? && w.group == 1
    ensures Supported(g.ta)
  {
  }

  lemma LastStands(bytes: seq<Byte>, w: Walk, g: Interface, end: Walk)
    requires w.offset <= |bytes| && g.lead >> 4 == Nibble(g.ta.Some?, g.tb.Some?, g.tc.Some?, false) && g.lead & 0x0f == g.protocol
    requires WriteGroup(g, None) <= bytes[w.offset..] && end.offset == w.offset + |WriteGroup(g, None)| && end.nonT0 == w.nonT0
    requires w.group == 1 ==> Supported(g.ta)
    ensures Stands([g], bytes, w, end)
  {
    assert WriteFrom([g], 1) == [];
    assert WriteFrom([g], 0) == WriteGroup(g, None) + [];
  }

  lemma HalvesInFront(g: Interface, rest: seq<Interface>)
    requires |rest| > 0 && forall i :: 0 <= i < |rest| ==> Halves(rest, i)
    requires g.lead >> 4 == Nibble(g.ta.Some?, g.tb.Some?, g.tc.Some?, true) && g.lead & 0x0f == g.protocol
    ensures forall i :: 0 <= i <= |rest| ==> Halves([g] + rest, i)
  {
    forall i | 0 <= i <= |rest| ensures Halves([g] + rest, i) {
      if i > 0 {
        assert Halves(rest, i - 1) && ([g] + rest)[i] == rest[i - 1];
      }
    }
  }

  lemma Cut<T>(s: seq<T>, a: nat, b: nat, c: nat)
    requires a <= b <= c <= |s|
    ensures s[a..c] == s[a..b] + s[b..c]
  {
  }

  /** A group in front of a list of others. */
  lemma MoreStands(bytes: seq<Byte>, w: Walk, g: Interface, rest: seq<Interface>, next: Walk, end: Walk)
    requires Stands(rest, bytes, next, end)
    requires g.lead >> 4 == Nibble(g.ta.Some?, g.tb.Some?, g.tc.Some?, true) && g.lead & 0x0f == g.protocol
    requires next.offset == w.offset + |WriteGroup(g, Some(rest[0].lead))| <= |bytes|
    requires WriteGroup(g, Some(rest[0].lead)) == bytes[w.offset..next.offset]
    requires next.nonT0 == (w.nonT0 || rest[0].protocol != 0) && (w.group == 1 ==> Supported(g.ta))
    ensures Stands([g] + rest, bytes, w, end)
  {
    Shifted(g, rest, 0);
    HalvesInFront(g, rest);
    OthersAlong(g, rest);
    Cut(bytes, w.offset, next.offset, end.offset);
    assert WriteFrom([g] + rest, 0) == WriteGroup(g, Some(rest[0].lead)) + WriteFrom(rest, 0);
  }

  lemma OthersAlong(g: Interface, rest: seq<Interface>)
    requires |rest| > 0
    ensures Others([g] + rest, |rest| + 1) == (rest[0].protocol != 0 || Others(rest, |rest|))
  {
    var gs := [g] + rest;
    assert forall i :: 0 <= i < |rest| ==> gs[i + 1] == rest[i];
    if i :| 0 < i < |gs| && gs[i].protocol != 0 {
      assert rest[i - 1].protocol != 0;
    }
  }

  /** The same with what the step does and the byte that announced the group. */
  lemma StepStands(bytes: seq<Byte>, w: Walk, lead: Byte) returns (g: Interface, td: Option<Byte>)
    requires w.offset <= |bytes| && w.interfaces == lead >> 4 && Step(bytes, w).Success?
    ensures g.lead == lead && g.protocol == lead & 0x0f && (w.group == 1 ==> Supported(g.ta))
    ensures w.offset + |WriteGroup(g, td)| <= |bytes| && WriteGroup(g, td) == bytes[w.offset..w.offset + |WriteGroup(g, td)|]
    ensures w.interfaces == Nibble(g.ta.Some?, g.tb.Some?, g.tc.Some?, td.Some?)
    ensures var o, next := w.offset + |WriteGroup(g, td)|, Step(bytes, w).value;
            match td
            case None => next == w.(offset := o, interfaces := 0, params := next.params)
            case Some(d) => next == Walk(o, w.group + 1, d >> 4, d & 0x0f == 1, w.nonT0 || d & 0x0f != 0, next.params)
  {
    Rejoined(lead);
    g, td := StepUnwritten(bytes, w);
    StepWritten(bytes, w, g, td, Apply(w, Taken(g, Behind(g, w.offset))).value);
    if w.group == 1 { SupportedIs(w, Taken(g, Behind(g, w.offset))); }
    g := g.(lead := lead, protocol := lead & 0x0f);
  }

  lemma EmptyStands(bytes: seq<Byte>, w: Walk, lead: Byte)
    requires w.offset <= |bytes| && w.interfaces == 0 == lead >> 4
    ensures Stands([Interface(lead, lead & 0x0f, None, None, None)], bytes, w, w)
  {
    NibbleRead(false, false, false, false);
    LastStands(bytes, w, Interface(lead, lead & 0x0f, None, None, None), w);
  }

  /** Every walk that succeeds has read a list of groups. */
  lemma {:induction false} WalkUnwritten(bytes: seq<Byte>, w: Walk, lead: Byte) returns (gs: seq<Interface>)
    requires w.offset <= |bytes| && w.interfaces == lead >> 4 && WalkAll(bytes, w).Success?
    ensures Stands(gs, bytes, w, WalkAll(bytes, w).value) && gs[0].lead == lead
    decreases |bytes| - w.offset, w.interfaces != 0
  {
    if w.interfaces == 0 {
      EmptyStands(bytes, w, lead);
      gs := [Interface(lead, lead & 0x0f, None, None, None)];
    } else {
      var g, td := StepStands(bytes, w, lead);
      var next := Step(bytes, w).value;
      if td.None? {
        LastStands(bytes, w, g, next);
        gs := [g];
      } else {
        var rest := WalkUnwritten(bytes, next, td.value);
        assert Halves(rest, 0);
        MoreStands(bytes, w, g, rest, next, WalkAll(bytes, w).value);
        gs := [g] + rest;
      }
    }
  }

  /** Every answer that is accepted is one that a card can have written. */
  lemma ReadWasWritten(bytes: seq<Byte>) returns (c: Card)
    requires Parse(bytes).Success?
    ensures WellFormed(c) && Write(c) == bytes
  {
    var end := WalkAll(bytes, Start(bytes)).value;
    var gs := WalkUnwritten(bytes, Start(bytes), bytes[1]);
    Counted(bytes[1]);
    c := Card(bytes[0], gs, bytes[end.offset..end.offset + (bytes[1] & 0x0f) as int]);
    BodyIs(bytes, c, end);
    WholeIs(bytes, c, end);
    forall i | 0 <= i < |gs| ensures Announced(gs, i, gs[i].protocol) {
      HalvesJoin(gs, i);
    }
  }

  lemma HalvesJoin(gs: seq<Interface>, n: nat)
    requires n < |gs| && Halves(gs, n)
    ensures Announced(gs, n, gs[n].protocol)
  {
    Rejoined(gs[n].lead);
  }

  lemma WholeIs(bytes: seq<Byte>, c: Card, end: Walk)
    requires |bytes| > 1 && |c.groups| > 0 && end.nonT0 == Others(c.groups, |c.groups|)
    requires end.offset + |c.historical| + (if end.nonT0 then 1 else 0) == |bytes|
    requires Body(c) == bytes[..end.offset + |c.historical|] && (end.nonT0 ==> Lrc(bytes[1..]) == 0)
    ensures Write(c) == bytes
  {
    if end.nonT0 { LastIsChecksum(bytes); }
  }

  lemma BodyIs(bytes: seq<Byte>, c: Card, end: Walk)
    requires |bytes| >= 2 && Stands(c.groups, bytes, Start(bytes), end) && c.groups[0].lead == bytes[1] && c.convention == bytes[0]
    requires var o := end.offset + |c.historical|; o <= |bytes| && c.historical == bytes[end.offset..o]
    ensures Body(c) == bytes[..end.offset + |c.historical|]
  {
    var o := end.offset + |c.historical|;
    Cut(bytes, 0, 2, o);
    Cut(bytes, 2, end.offset, o);
    assert bytes[0..2] == [bytes[0], bytes[1]];
  }

  lemma Counted(b: Byte)
    ensures (b & 0x0f) as int < 16 && ((b & 0x0f) as int) as Byte == b & 0x0f
  {
  }

  lemma LastIsChecksum(bytes: seq<Byte>)
    requires |bytes| > 1 && Lrc(bytes[1..]) == 0
    ensures bytes == bytes[..|bytes| - 1] + [Lrc(bytes[..|bytes| - 1][1..])]
  {
    var front, last := bytes[..|bytes| - 1], bytes[|bytes| - 1];
    assert bytes[1..] == front[1..] + [last];
    LrcAppend(front[1..], last);
  }
}
