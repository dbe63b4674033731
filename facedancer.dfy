/**
 * The Facedancer adapter protocol (umap2/phy/facedancer/facedancer.py): a
 * command frame is a 4-byte little-endian header `app | verb | length(u16)`
 * followed by `length` payload bytes; the adapter is reset by pulsing the
 * serial port's RTS/DTR lines and waiting for a frame with verb 0x7f.
 *
 * The serial port is abstract: two control-line flags, an input queue, an
 * output buffer, and the adapter's scripted replies, one of which arrives on
 * the input queue each time DTR falls from high to low (the adapter is
 * released from reset and announces itself). A read of `n` bytes returns the
 * first `min(n, queued)` bytes: fewer than `n` only when the queue runs dry,
 * which is how a read timeout shows up.
 */
module Facedancer {
  import opened Bytes

  datatype Error =
    | PackError                                // struct.pack rejected a field
    | UnpackError                              // struct.unpack got fewer than 4 header bytes
    | ShortRead(expected: nat, received: nat)  // fewer payload bytes than the header declared
    | ResetFault                               // the adapter never acknowledged a reset

  /** A FacedancerCommand: the fields are whatever the caller passed, checked only when packed. */
  datatype Command = Command(app: int, verb: int, data: seq<byte>)

  const HeaderSize: nat := 4
  const ResetAckVerb: byte := 0x7f
  const ResetReadSize: nat := 1024
  const DefaultResetCount: int := 10

  /** The ranges of the '<BBH' fields: `app` and `verb` are bytes, the payload length a u16. */
  predicate Packable(c: Command) {
    0 <= c.app < 256 && 0 <= c.verb < 256 && |c.data| < U16Limit
  }

  /** `FacedancerCommand.as_bytestring`: header then payload, or the packing error. */
  function AsBytestring(c: Command): (r: Result<seq<byte>, Error>)
    ensures r.Success? <==> Packable(c)
    ensures r.Failure? ==> r.error == PackError
    ensures r.Success? ==>
      && |r.value| == HeaderSize + |c.data|
      && r.value[0] == c.app && r.value[1] == c.verb
      && LeU16(r.value[2], r.value[3]) == |c.data|
      && r.value[HeaderSize..] == c.data
  {
    if Packable(c) then
      var header: seq<byte> := [c.app, c.verb] + U16Le(|c.data|);
      Success(header + c.data)
    else
      Failure(PackError)
  }

  /** The acceptance test of one reset attempt: a whole frame with verb 0x7f, any app byte. */
  predicate IsResetAck(rsp: seq<byte>) {
    |rsp| >= HeaderSize && rsp[1] == ResetAckVerb && LeU16(rsp[2], rsp[3]) == |rsp| - HeaderSize
  }

  /** A reset response is accepted exactly when it is the encoding of some command with verb 0x7f. */
  lemma ResetAckIsAckFrame(rsp: seq<byte>)
    ensures IsResetAck(rsp) <==> exists c: Command :: c.verb == ResetAckVerb && AsBytestring(c) == Success(rsp)
  {
    if IsResetAck(rsp) {
      var c := Command(rsp[0], rsp[1], rsp[HeaderSize..]);
      var enc := AsBytestring(c).value;
      U16LeOfLeU16(rsp[2], rsp[3]);
      assert enc == rsp by {
        assert enc[..HeaderSize] == rsp[..HeaderSize];
        assert enc == enc[..HeaderSize] + enc[HeaderSize..];
        assert rsp == rsp[..HeaderSize] + rsp[HeaderSize..];
      }
    }
  }

  // ---------------------------------------------------------------------
  // The abstract serial port, as a value

  /** The (RTS, DTR) line levels at the moment of a read. */
  datatype Lines = Lines(rts: bool, dtr: bool)

  /** RTS high, DTR low: the adapter released from reset. */
  const Released := Lines(true, false)

  datatype PortState = PortState(
    rts: bool,
    dtr: bool,
    input: seq<byte>,           // bytes waiting to be read
    replies: seq<seq<byte>>,    // what the adapter sends on each DTR falling edge
    output: seq<byte>,          // bytes written so far
    readLog: seq<Lines>)        // the line levels at every read, oldest first

  function SetRtsSpec(s: PortState, v: bool): PortState {
    s.(rts := v)
  }

  /** Lowering DTR from high releases the adapter, which queues its next reply. */
  function SetDtrSpec(s: PortState, v: bool): PortState {
    if !v && s.dtr && s.replies != [] then
      s.(dtr := false, input := s.input + s.replies[0], replies := s.replies[1..])
    else
      s.(dtr := v)
  }

  /** A read of up to `n` bytes: the first `min(n, |input|)` queued bytes. */
  function ReadSpec(s: PortState, n: nat): (r: (seq<byte>, PortState))
    ensures |r.0| == (if n < |s.input| then n else |s.input|)
    ensures s.input == r.0 + r.1.input
    ensures r.1 == s.(input := r.1.input, readLog := s.readLog + [Lines(s.rts, s.dtr)])
  {
    var k := if n < |s.input| then n else |s.input|;
    (s.input[..k], s.(input := s.input[k..], readLog := s.readLog + [Lines(s.rts, s.dtr)]))
  }

  function WriteSpec(s: PortState, b: seq<byte>): PortState {
    s.(output := s.output + b)
  }

  /** `Facedancer.halt`: RTS then DTR raised. */
  function HaltSpec(s: PortState): (t: PortState)
    ensures t.rts && t.dtr && t.input == s.input && t.replies == s.replies
    ensures t.output == s.output && t.readLog == s.readLog
  {
    SetDtrSpec(SetRtsSpec(s, true), true)
  }

  // ---------------------------------------------------------------------
  // readcmd

  /** `Facedancer.readcmd`: header, then exactly the declared payload, or an error. */
  function ReadCmdSpec(s: PortState): (Result<Command, Error>, PortState) {
    var (b, s1) := ReadSpec(s, HeaderSize);
    if |b| != HeaderSize then
      (Failure(UnpackError), s1)
    else
      var n := LeU16(b[2], b[3]);
      var (data, s2) := if n > 0 then ReadSpec(s1, n) else ([], s1);
      if |data| != n then
        (Failure(ShortRead(n, |data|)), s2)
      else
        (Success(Command(b[0], b[1], data)), s2)
  }

  /** Round trip: reading back an encoded command yields it and leaves the rest of the stream. */
  lemma ReadCmdRoundTrip(s: PortState, c: Command, rest: seq<byte>)
    requires Packable(c)
    requires s.input == AsBytestring(c).value + rest
    ensures ReadCmdSpec(s).0 == Success(c)
    ensures ReadCmdSpec(s).1 == s.(input := rest, readLog := s.readLog + seq(if |c.data| > 0 then 2 else 1, _ => Lines(s.rts, s.dtr)))
  {
    var enc := AsBytestring(c).value;
    var (b, s1) := ReadSpec(s, HeaderSize);
    assert b == enc[..HeaderSize];
    assert s1.input == c.data + rest by {
      assert s.input[HeaderSize..] == enc[HeaderSize..] + rest;
    }
    var n := LeU16(b[2], b[3]);
    assert n == |c.data|;
    if n > 0 {
      var (data, s2) := ReadSpec(s1, n);
      assert data == c.data;
      assert s2.input == rest;
    }
  }

  /** Converse: a command is only returned when the stream began with its exact encoding. */
  lemma ReadCmdConsumesWholeFrame(s: PortState)
    ensures var (r, t) := ReadCmdSpec(s);
      r.Success? ==> Packable(r.value) && s.input == AsBytestring(r.value).value + t.input
  {
    var (r, t) := ReadCmdSpec(s);
    if r.Success? {
      var c := r.value;
      var (b, s1) := ReadSpec(s, HeaderSize);
      var enc := AsBytestring(c).value;
      U16LeOfLeU16(b[2], b[3]);
      assert enc[..HeaderSize] == b;
      assert enc == b + c.data;
    }
  }

  /** readcmd succeeds exactly when the whole declared frame is queued; otherwise it names the error. */
  lemma ReadCmdOutcome(s: PortState)
    ensures |s.input| < HeaderSize ==> ReadCmdSpec(s).0 == Failure(UnpackError)
    ensures |s.input| >= HeaderSize ==>
      var n := LeU16(s.input[2], s.input[3]);
      && (ReadCmdSpec(s).0.Success? <==> |s.input| - HeaderSize >= n)
      && (|s.input| - HeaderSize < n ==>
            ReadCmdSpec(s).0 == Failure(ShortRead(n, |s.input| - HeaderSize)) && ReadCmdSpec(s).1.input == [])
  {
    if |s.input| >= HeaderSize {
      var (b, s1) := ReadSpec(s, HeaderSize);
      assert b == s.input[..HeaderSize];
      assert |s1.input| == |s.input| - HeaderSize;
    }
  }

  /** A header declaring no payload is answered with an empty command after a single read. */
  lemma ReadCmdEmptyPayload(s: PortState)
    requires |s.input| >= HeaderSize && LeU16(s.input[2], s.input[3]) == 0
    ensures ReadCmdSpec(s).0 == Success(Command(s.input[0], s.input[1], []))
    ensures ReadCmdSpec(s).1 == s.(input := s.input[HeaderSize..], readLog := s.readLog + [Lines(s.rts, s.dtr)])
  {
    var (b, s1) := ReadSpec(s, HeaderSize);
    assert b == s.input[..HeaderSize];
  }

  // ---------------------------------------------------------------------
  // reset

  /** One attempt of `Facedancer.reset`: halt, lower DTR, read up to 1024 bytes. */
  function ResetAttempt(s: PortState): (seq<byte>, PortState) {
    ReadSpec(SetDtrSpec(HaltSpec(s), false), ResetReadSize)
  }

  /** `Facedancer.reset(count)`: up to `count` attempts, stopping at the first acknowledgement. */
  function ResetSpec(s: PortState, count: int): (Outcome<Error>, PortState)
    decreases count
  {
    if count <= 0 then
      (Fail(ResetFault), s)
    else
      var (rsp, s1) := ResetAttempt(s);
      if IsResetAck(rsp) then (Pass, s1) else ResetSpec(s1, count - 1)
  }

  /**
   * Whatever the adapter does, reset writes nothing, reads at most `count`
   * times, always with RTS high and DTR low, and gives up only after exactly
   * `count` reads.
   */
  lemma {:induction false} ResetReadLog(s: PortState, count: int)
    ensures var (o, t) := ResetSpec(s, count);
      && t.output == s.output
      && |s.readLog| <= |t.readLog| <= |s.readLog| + (if count > 0 then count else 0)
      && t.readLog == s.readLog + seq(|t.readLog| - |s.readLog|, _ => Released)
      && (o.Fail? ==> o.error == ResetFault && |t.readLog| == |s.readLog| + (if count > 0 then count else 0))
      && (o.Pass? ==> |t.readLog| > |s.readLog| && t.rts && !t.dtr)
    decreases count
  {
    if count > 0 {
      var (rsp, s1) := ResetAttempt(s);
      assert s1.readLog == s.readLog + [Released];
      if !IsResetAck(rsp) {
        ResetReadLog(s1, count - 1);
        var t := ResetSpec(s1, count - 1).1;
        var k := |t.readLog| - |s1.readLog|;
        assert s.readLog + seq(k + 1, _ => Released) == s.readLog + [Released] + seq(k, _ => Released);
      }
    }
  }

  /**
   * An adapter whose first `k - 1` replies are rejected and whose `k`-th is an
   * acknowledgement (each short enough for one read, nothing stale queued) is
   * reset after exactly `k` reads, provided `k <= count`.
   */
  lemma {:induction false} ResetAcksOnAttempt(s: PortState, count: int, k: nat)
    requires 1 <= k <= count && k <= |s.replies| && s.input == []
    requires forall i :: 0 <= i < k ==> |s.replies[i]| <= ResetReadSize
    requires forall i :: 0 <= i < k - 1 ==> !IsResetAck(s.replies[i])
    requires IsResetAck(s.replies[k - 1])
    ensures ResetSpec(s, count).0 == Pass
    ensures ResetSpec(s, count).1 ==
      s.(rts := true, dtr := false, replies := s.replies[k..], readLog := s.readLog + seq(k, _ => Released))
    decreases k
  {
    var (rsp, s1) := ResetAttempt(s);
    assert rsp == s.replies[0] && s1.input == [];
    assert s1 == s.(rts := true, dtr := false, replies := s.replies[1..], readLog := s.readLog + [Released]);
    if k > 1 {
      assert !IsResetAck(rsp);
      ResetAcksOnAttempt(s1, count - 1, k - 1);
      assert s.replies[1..][k - 1..] == s.replies[k..];
      assert s.readLog + [Released] + seq(k - 1, _ => Released) == s.readLog + seq(k, _ => Released);
    }
  }

  /** An adapter that never acknowledges within `count` replies makes reset fail after `count` reads. */
  lemma {:induction false} ResetFaultsWithoutAck(s: PortState, count: int)
    requires s.input == []
    requires forall i :: 0 <= i < count && i < |s.replies| ==>
      |s.replies[i]| <= ResetReadSize && !IsResetAck(s.replies[i])
    ensures ResetSpec(s, count).0 == Fail(ResetFault)
    ensures |ResetSpec(s, count).1.readLog| == |s.readLog| + (if count > 0 then count else 0)
    decreases count
  {
    if count > 0 {
      var (rsp, s1) := ResetAttempt(s);
      assert s1.input == [];
      assert !IsResetAck(rsp) by {
        if s.replies != [] { assert rsp == s.replies[0]; } else { assert rsp == []; }
      }
      assert s1.replies == if s.replies == [] then [] else s.replies[1..];
      forall i | 0 <= i < count - 1 && i < |s1.replies|
        ensures |s1.replies[i]| <= ResetReadSize && !IsResetAck(s1.replies[i])
      {
        assert s1.replies[i] == s.replies[i + 1];
      }
      ResetFaultsWithoutAck(s1, count - 1);
    }
  }

  // ---------------------------------------------------------------------
  // The port and the adapter as objects

  /** The serial link's state, updated in place by the adapter driver. */
  class SerialPort {
    var rts: bool
    var dtr: bool
    var input: seq<byte>
    var replies: seq<seq<byte>>
    var output: seq<byte>
    ghost var readLog: seq<Lines>

    ghost function State(): PortState
      reads this
    {
      PortState(rts, dtr, input, replies, output, readLog)
    }

    constructor (input: seq<byte>, replies: seq<seq<byte>>)
      ensures State() == PortState(false, false, input, replies, [], [])
    {
      this.rts, this.dtr := false, false;
      this.input, this.replies := input, replies;
      this.output, this.readLog := [], [];
    }

    method SetRts(v: bool)
      modifies this
      ensures State() == SetRtsSpec(old(State()), v)
    {
      rts := v;
    }

    method SetDtr(v: bool)
      modifies this
      ensures State() == SetDtrSpec(old(State()), v)
    {
      if !v && dtr && replies != [] {
        input, replies := input + replies[0], replies[1..];
      }
      dtr := v;
    }

    method Read(n: nat) returns (b: seq<byte>)
      modifies this
      ensures (b, State()) == ReadSpec(old(State()), n)
    {
      var k := if n < |input| then n else |input|;
      b, input := input[..k], input[k..];
      readLog := readLog + [Lines(rts, dtr)];
    }

    method Write(b: seq<byte>)
      modifies this
      ensures State() == WriteSpec(old(State()), b)
    {
      output := output + b;
    }
  }

  /** `Facedancer`: the protocol driver bound to one serial port. */
  class Facedancer {
    const port: SerialPort

    /** Binds the port without resetting; used only by `Open`, which resets before handing out the driver. */
    constructor (serialport: SerialPort)
      ensures port == serialport
    {
      port := serialport;
    }

    /** `Facedancer.__init__`: bind the port and reset with the default count; a reset fault means no driver. */
    static method Open(serialport: SerialPort) returns (r: Result<Facedancer, Error>)
      modifies serialport
      ensures (if r.Success? then Pass else Fail(ResetFault), serialport.State())
        == ResetSpec(old(serialport.State()), DefaultResetCount)
      ensures r.Failure? ==> r.error == ResetFault
      ensures r.Success? ==> fresh(r.value) && r.value.port == serialport
    {
      var f := new Facedancer(serialport);
      var o := f.Reset(DefaultResetCount);
      if o.Fail? {
        return Failure(o.error);
      }
      return Success(f);
    }

    method Halt()
      modifies port
      ensures port.State() == HaltSpec(old(port.State()))
    {
      port.SetRts(true);
      port.SetDtr(true);
    }

    method Reset(count: int) returns (r: Outcome<Error>)
      modifies port
      ensures (r, port.State()) == ResetSpec(old(port.State()), count)
    {
      ghost var s0 := port.State();
      var i := 0;
      while i < count
        invariant 0 <= i
        invariant ResetSpec(s0, count) == ResetSpec(port.State(), count - i)
        decreases count - i
      {
        Halt();
        port.SetDtr(false);
        var rsp := Read(ResetReadSize);
        if |rsp| < HeaderSize {
          i := i + 1;
          continue;
        }
        var verb, n := rsp[1], LeU16(rsp[2], rsp[3]);
        if verb == ResetAckVerb && n == |rsp| - HeaderSize {
          return Pass;
        }
        i := i + 1;
      }
      return Fail(ResetFault);
    }

    method Read(n: nat) returns (b: seq<byte>)
      modifies port
      ensures (b, port.State()) == ReadSpec(old(port.State()), n)
    {
      b := port.Read(n);
    }

    method ReadCmd() returns (r: Result<Command, Error>)
      modifies port
      ensures (r, port.State()) == ReadCmdSpec(old(port.State()))
    {
      var b := Read(HeaderSize);
      if |b| != HeaderSize {
        return Failure(UnpackError);
      }
      var app, verb, n := b[0], b[1], LeU16(b[2], b[3]);
      var data: seq<byte> := [];
      if n > 0 {
        data := Read(n);
      }
      if |data| != n {
        return Failure(ShortRead(n, |data|));
      }
      return Success(Command(app, verb, data));
    }

    method Write(b: seq<byte>)
      modifies port
      ensures port.State() == WriteSpec(old(port.State()), b)
    {
      port.Write(b);
    }

    /** `Facedancer.writecmd`: append the command's encoding; a packing error writes nothing. */
    method WriteCmd(c: Command) returns (r: Outcome<Error>)
      modifies port
      ensures r.Pass? <==> Packable(c)
      ensures r.Fail? ==> r.error == PackError && port.State() == old(port.State())
      ensures r.Pass? ==> port.State() == WriteSpec(old(port.State()), AsBytestring(c).value)
    {
      var frame := AsBytestring(c);
      if frame.Failure? {
        return Fail(frame.error);
      }
      Write(frame.value);
      return Pass;
    }
  }
}
