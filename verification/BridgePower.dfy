/** The USB bridge's backend power: a cached state against two GPIO lines that a failed write may still have moved. */
module BridgePower {
  import opened Errors

  datatype Line =
    | Gpio2 | Gpio3 | Gpio7 | Gpio11
    | StreamGate | Endpoint4Enable | Endpoint4Nak | TransferThreshold | MaxBulkPacket | StreamOutputA | StreamOutputB | StreamReverse
    | OtherRegister(address: nat)

  datatype Power = Unknown | Off | On | Disconnected

  datatype Layout = Q3u4 | Mlt5pe | SingleReceiver

  /** One transfer: a failed write may or may not have reached the device; a read that succeeds gives the register. */
  datatype Answer = Answer(applied: bool, error: Option<Error>, value: nat)

  /** What an initialisation is asked to do: the image and arguments as checked, and the registers it sets up. */
  datatype Setup = Setup(layout: Layout, supported: bool, imageOk: bool, argumentsOk: bool, requireCold: bool, lnb: bool,
                         writes: seq<(Line, nat)>)

  /** The line that holds the tuners in reset. */
  function ResetLine(layout: Layout): Line {
    if layout == SingleReceiver then Gpio3 else Gpio7
  }

  predicate LinesOff(lines: map<Line, nat>) {
    Gpio2 in lines && Gpio7 in lines && lines[Gpio2] == 0 && lines[Gpio7] == 1
  }

  predicate LinesOn(lines: map<Line, nat>) {
    Gpio2 in lines && Gpio7 in lines && lines[Gpio2] == 1 && lines[Gpio7] == 0
  }

  /** The cached state, where it claims to know, agrees with the device. */
  predicate Agrees(power: Power, lines: map<Line, nat>) {
    (power == On ==> LinesOn(lines)) && (power == Off ==> LinesOff(lines))
  }

  /** What a register must hold: one bit of it, or all. */
  datatype Test = Bit(line: Line, weight: nat, high: bool) | Whole(line: Line, value: nat)

  predicate Passes(t: Test, lines: map<Line, nat>) {
    && t.line in lines
    && match t
       case Bit(line, weight, high) => weight > 0 && (lines[line] / weight % 2 == 1) == high
       case Whole(line, value) => lines[line] == value
  }

  const TRANSFER_THRESHOLD := 0x95d0
  const MAX_BULK_PACKET := 0x80

  /** The stream path as it must be found after an initialisation: gate shut, endpoint 4 enabled and not refusing, both outputs off. */
  const STREAM_TESTS: seq<Test> := [
    Bit(StreamGate, 0x01, false), Bit(Endpoint4Enable, 0x20, true), Bit(Endpoint4Nak, 0x20, false),
    Whole(TransferThreshold, TRANSFER_THRESHOLD), Whole(MaxBulkPacket, MAX_BULK_PACKET),
    Bit(StreamOutputA, 0x01, false), Bit(StreamOutputB, 0x01, false), Whole(StreamReverse, 0)
  ]

  datatype Operation = SetPower(on: bool) | SetLnb(on: bool) | Initialize(setup: Setup)

  /** The call gets as far as the initialisation proper. */
  predicate Initialises(op: Operation) {
    op.Initialize? && op.setup.supported
  }

  class Controller {
    const world: nat -> Answer
    var asked: nat
    var power: Power
    var lnbLost: bool
    /** The device's registers. */
    var lines: map<Line, nat>
    /** How many transfers reported that the device is gone. */
    ghost var losses: nat

    ghost predicate Valid()
      reads this
    {
      Agrees(power, lines)
    }

    constructor (world: nat -> Answer, lines: map<Line, nat>, power: Power)
      requires Agrees(power, lines)
      ensures Valid() && this.power == power && this.lines == lines && this.world == world && asked == 0
    {
      this.world, this.lines, this.power, asked, lnbLost, losses := world, lines, power, 0, false, 0;
    }

    /** A transport on which every transfer from the n-th on succeeds. */
    ghost predicate Reliable(n: nat) {
      forall i :: n <= i ==> world(i).error == None
    }

    method Ask() returns (a: Answer)
      modifies `asked, `losses
      ensures a == world(old(asked)) && asked == old(asked) + 1
      ensures losses == old(losses) + (if a.error == Some(DISCONNECTED) then 1 else 0)
    {
      a := world(asked);
      asked := asked + 1;
      losses := losses + if a.error == Some(DISCONNECTED) then 1 else 0;
    }

    /** Writes a register; a reported failure leaves open whether the value is there. */
    method Write(line: Line, value: nat) returns (failed: Option<Error>)
      modifies `asked, `losses, `lines
      ensures failed == world(old(asked)).error && asked == old(asked) + 1
      ensures failed.None? ==> lines == old(lines)[line := value]
      ensures lines == old(lines) || lines == old(lines)[line := value]
      ensures losses == old(losses) + (if failed == Some(DISCONNECTED) then 1 else 0)
    {
      var a := Ask();
      if a.error.None? || a.applied { lines := lines[line := value]; }
      failed := a.error;
    }

    method Read(line: Line) returns (r: Result<nat>)
      modifies `asked, `losses
      ensures r.Success? ==> line in lines && r.value == lines[line]
      ensures losses == old(losses) + (if r == Failure(DISCONNECTED) then 1 else 0)
    {
      var a := Ask();
      r := if a.error.Some? then Failure(a.error.value)
           else if line in lines then Success(lines[line]) else Failure(PROTOCOL_ERROR);
    }

    // --------------------------------------------------------- backend power

    /** Brings both lines back after a failed power-up. */
    method RestoreOff(cause: Error) returns (r: Result<Unit>)
      requires cause != DISCONNECTED
      modifies this
      ensures Valid() && lnbLost == old(lnbLost) && power != On && r.Failure?
      ensures (losses > old(losses)) == (power == Disconnected) && (power == Disconnected ==> r == Failure(DISCONNECTED))
    {
      var backend := Write(Gpio2, 0);
      if backend == Some(DISCONNECTED) {
        power := Disconnected;
        return Failure(DISCONNECTED);
      }
      var reset := Write(Gpio7, 1);
      if reset == Some(DISCONNECTED) {
        power := Disconnected;
        return Failure(DISCONNECTED);
      }
      power := if backend.None? && reset.None? then Off else Unknown;
      r := Failure(cause);
    }

    /** Turns the backend on or off, unless it is known to be there already. */
    method SetBackendPower(on: bool) returns (r: Result<Unit>)
      requires Valid()
      modifies this
      ensures Valid() && lnbLost == old(lnbLost)
      ensures r.Success? ==> power == (if on then On else Off)
      ensures old(power) == Disconnected ==>
                r == Failure(DISCONNECTED) && power == Disconnected && lines == old(lines) && asked == old(asked)
      ensures old(power) != Disconnected ==> (losses > old(losses)) == (power == Disconnected)
      ensures r.Failure? ==> power != On
      ensures Reliable(old(asked)) && old(power) != Disconnected ==> r.Success?
      ensures old(power) == (if on then On else Off) ==> r.Success? && lines == old(lines) && asked == old(asked)
      ensures on && old(power) == Unknown && world(old(asked)).error == Some(DISCONNECTED) ==>
                r == Failure(DISCONNECTED) && power == Disconnected && asked == old(asked) + 1
    {
      if power == Disconnected { return Failure(DISCONNECTED); }
      if power == if on then On else Off { return Success(Unit); }
      if on { r := PowerOn(); } else { r := PowerOff(); }
    }

    method PowerOn() returns (r: Result<Unit>)
      requires Valid() && power != Disconnected
      modifies this
      ensures Valid() && lnbLost == old(lnbLost) && r.Success? == (power == On)
      ensures (losses > old(losses)) == (power == Disconnected) && (Reliable(old(asked)) ==> r.Success?)
      ensures world(old(asked)).error == Some(DISCONNECTED) ==>
                r == Failure(DISCONNECTED) && power == Disconnected && asked == old(asked) + 1
    {
      var reset := Write(Gpio7, 0);
      if reset.Some? {
        if reset.value == DISCONNECTED {
          power := Disconnected;
          return Failure(DISCONNECTED);
        }
        r := RestoreOff(reset.value);
        return;
      }
      var backend := Write(Gpio2, 1);
      if backend.Some? {
        if backend.value == DISCONNECTED {
          power := Disconnected;
          return Failure(DISCONNECTED);
        }
        r := RestoreOff(backend.value);
        return;
      }
      power := On;
      r := Success(Unit);
    }

    method PowerOff() returns (r: Result<Unit>)
      requires power != Disconnected
      modifies this
      ensures Valid() && lnbLost == old(lnbLost) && r.Success? == (power == Off) && power != On
      ensures (losses > old(losses)) == (power == Disconnected) && (Reliable(old(asked)) ==> r.Success?)
    {
      var backend := Write(Gpio2, 0);
      if backend == Some(DISCONNECTED) {
        power := Disconnected;
        return Failure(DISCONNECTED);
      }
      var reset := Write(Gpio7, 1);
      if reset == Some(DISCONNECTED) {
        power := Disconnected;
        return Failure(DISCONNECTED);
      }
      var first := if backend.Some? then backend else reset;
      power := if first.None? then Off else Unknown;
      r := if first.None? then Success(Unit) else Failure(first.value);
    }

    method SetLnbPower(on: bool) returns (r: Result<Unit>)
      requires Valid()
      modifies this
      ensures Valid() && power == old(power)
      ensures old(lnbLost) ==> r == Failure(DISCONNECTED) && lnbLost && lines == old(lines) && asked == old(asked)
      ensures !old(lnbLost) ==> lnbLost == (losses > old(losses)) && (r.Success? <==> world(old(asked)).error.None?)
      ensures r.Success? ==> lines == old(lines)[Gpio11 := if on then 1 else 0]
      ensures r.Failure? && !old(lnbLost) ==> Some(r.error) == world(old(asked)).error
    {
      if lnbLost { return Failure(DISCONNECTED); }
      var failed := Write(Gpio11, if on then 1 else 0);
      if failed == Some(DISCONNECTED) { lnbLost := true; }
      r := if failed.None? then Success(Unit) else Failure(failed.value);
    }

    // -------------------------------------------------------- initialisation

    /** Sets up registers in order and stops at the first failure. */
    method WarmInitialize(writes: seq<(Line, nat)>) returns (r: Result<Unit>)
      modifies `asked, `losses, `lines
      ensures Reliable(old(asked)) ==> r.Success?
    {
      for i := 0 to |writes|
        invariant asked >= old(asked)
      {
        var failed := Write(writes[i].0, writes[i].1);
        if failed.Some? { return Failure(failed.value); }
      }
      r := Success(Unit);
    }

    method Verify(t: Test) returns (r: Result<Unit>)
      modifies `asked, `losses
      ensures r.Success? ==> Passes(t, lines)
    {
      var read := Read(t.line);
      if read.Failure? { return Failure(read.error); }
      r := if Passes(t, lines) then Success(Unit) else Failure(PROTOCOL_ERROR);
    }

    /** Reads the stream path back, then that the backend is off and the tuners are held in reset. */
    method VerifyState(layout: Layout, lnb: bool) returns (r: Result<Unit>)
      modifies `asked, `losses
      ensures r.Success? ==> Verified(layout, lnb)
    {
      for i := 0 to |STREAM_TESTS|
        invariant forall k :: 0 <= k < i ==> Passes(STREAM_TESTS[k], lines)
      {
        r := Verify(STREAM_TESTS[i]);
        if r.Failure? { return; }
      }
      r := Verify(Whole(Gpio2, 0));
      if r.Failure? { return; }
      r := Verify(Whole(ResetLine(layout), 1));
      if r.Failure? || !lnb { return; }
      r := Verify(Whole(Gpio11, 0));
    }

    /** The device as an initialisation leaves it: streams at rest, the backend off, the tuners in reset, and no LNB power. */
    ghost predicate Verified(layout: Layout, lnb: bool)
      reads `lines
    {
      && (forall k :: 0 <= k < |STREAM_TESTS| ==> Passes(STREAM_TESTS[k], lines))
      && Passes(Whole(Gpio2, 0), lines) && Passes(Whole(ResetLine(layout), 1), lines) && (lnb ==> Passes(Whole(Gpio11, 0), lines))
    }

    /** Loads firmware if the device has none, sets the board up and verifies it; any failure leaves the state unknown. */
    method InitializeLocked(setup: Setup) returns (r: Result<Unit>)
      modifies this
      ensures power == if r.Success? then Off else Unknown
      ensures lnbLost == (old(lnbLost) && r.Failure?)
      ensures r.Success? ==> Verified(setup.layout, setup.lnb)
      ensures setup.layout != SingleReceiver ==> Valid()
      ensures !setup.imageOk ==> r == Failure(FIRMWARE_REJECTED)
      ensures setup.imageOk && setup.argumentsOk && world(old(asked)).error.Some? ==>
                r == Failure(world(old(asked)).error.value) && asked == old(asked) + 1
    {
      power := Unknown;
      if !setup.imageOk { return Failure(FIRMWARE_REJECTED); }
      if !setup.argumentsOk { return Failure(INVALID_ARGUMENT); }
      var version := Ask();
      if version.error.Some? { return Failure(version.error.value); }
      if version.value != 0 {
        if setup.requireCold { return Failure(NOT_READY); }
      } else {
        var load := Ask();
        if load.error.Some? { return Failure(load.error.value); }
      }
      r := WarmInitialize(setup.writes);
      if r.Failure? { return; }
      r := VerifyState(setup.layout, setup.lnb);
      if r.Failure? { return; }
      power, lnbLost := Off, false;
    }

    // ------------------------------------------------------------ whole runs

    /** One call, on a board whose reset line is GPIO 7. */
    method Perform(op: Operation) returns (r: Result<Unit>)
      requires Valid() && (op.Initialize? ==> op.setup.layout != SingleReceiver)
      modifies this
      ensures Valid()
      ensures op.SetPower? && r.Success? ==> if op.on then LinesOn(lines) else LinesOff(lines)
      ensures old(power) == Disconnected ==> (power == Disconnected <==> !Initialises(op))
      ensures old(power) == Disconnected && op.SetPower? ==> r == Failure(DISCONNECTED) && lines == old(lines)
      ensures Initialises(op) ==> power == if r.Success? then Off else Unknown
      ensures Initialises(op) && !op.setup.imageOk ==> r == Failure(FIRMWARE_REJECTED)
      ensures op.SetPower? && r.Success? ==> power == if op.on then On else Off
      ensures op.SetPower? && Reliable(old(asked)) && old(power) != Disconnected ==> r.Success?
    {
      match op
      case SetPower(on) => r := SetBackendPower(on);
      case SetLnb(on) => r := SetLnbPower(on);
      case Initialize(setup) => if setup.supported { r := InitializeLocked(setup); } else { r := Failure(UNSUPPORTED); }
    }

    /** Any sequence of calls keeps the cache honest; without an initialisation, a lost device stays lost. */
    method Drive(ops: seq<Operation>)
      requires Valid() && forall i :: 0 <= i < |ops| && ops[i].Initialize? ==> ops[i].setup.layout != SingleReceiver
      modifies this
      ensures Valid()
      ensures old(power) == Disconnected && (forall i :: 0 <= i < |ops| ==> !Initialises(ops[i])) ==> power == Disconnected
    {
      for i := 0 to |ops|
        invariant Valid()
        invariant old(power) == Disconnected && (forall k :: 0 <= k < i ==> !Initialises(ops[k])) ==> power == Disconnected
      {
        var r := Perform(ops[i]);
      }
    }
  }

  /** A transport that loses the device in its first transfer, lets the second time out, and works from then on. */
  function Flickering(n: nat): Answer {
    Answer(true, if n == 0 then Some(DISCONNECTED) else if n == 1 then Some(TIMEOUT) else None, 0)
  }

  /**
    * A lost device does not stay lost until an initialisation succeeds: one whose version query times out is enough for
    * the next power-up to be attempted again, and it may succeed.
    */
  method FailedInitialisationReopens(setup: Setup)
    returns (c: Controller, lost: Result<Unit>, refused: Result<Unit>, failed: Result<Unit>, again: Result<Unit>)
    requires setup.layout != SingleReceiver && setup.imageOk && setup.argumentsOk
    ensures fresh(c) && c.Valid()
    ensures lost == Failure(DISCONNECTED) && refused == Failure(DISCONNECTED)
    ensures failed == Failure(TIMEOUT) && again.Success? && LinesOn(c.lines)
  {
    c := new Controller(Flickering, map[], Unknown);
    lost := c.SetBackendPower(true);
    assert c.power == Disconnected;
    refused := c.SetBackendPower(true);
    failed := c.InitializeLocked(setup);
    again := c.SetBackendPower(true);
  }
}
