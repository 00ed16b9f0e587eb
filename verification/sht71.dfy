/**
 * The sensor's command set and the complete reading: the status register,
 * then a temperature measurement, then a relative-humidity measurement, each
 * one exchange, stopping at the first exchange whose checksum does not match.
 */
module Sht71 {
  import opened Options
  import opened Gpio
  import opened Protocol
  import Discipline

  /** The sensor's commands; the three address bits above them are always zero. */
  datatype Command = MeasureTemperature | MeasureRelativeHumidity | ReadStatusRegister | SoftReset

  /** The command byte put on the wire: address 000 followed by the five command bits. */
  function Opcode(c: Command): (b: bv8)
    ensures b < 0x20
  {
    match c
    case MeasureTemperature => 0x03
    case MeasureRelativeHumidity => 0x05
    case ReadStatusRegister => 0x07
    case SoftReset => 0x1E
  }

  /** Distinct commands put distinct bytes on the wire. */
  lemma {:induction false} OpcodeInjective(c: Command, d: Command)
    ensures Opcode(c) == Opcode(d) <==> c == d
  {
  }

  /** The raw readings a successful `Read` stores. */
  datatype Measurement = Measurement(status: bv8, soT: bv16, soRh: bv16)

  /** What a reading yields: the result, the measurement afterwards, the exchanges made, the samples left. */
  datatype Reading = Reading(result: Result, m: Measurement, exchanges: seq<Exchange>, rest: seq<Level>)

  /** The low byte of a payload variable: all of a one-byte variable. */
  function LowByte(w: bv16): bv8 {
    (w & 0xFF) as bv8
  }

  /** The commands `Read` issues in order, each with the width of the variable its payload fills. */
  function Plan(i: nat): (Command, Width)
    requires i < 3
  {
    [(ReadStatusRegister, Byte), (MeasureTemperature, Word), (MeasureRelativeHumidity, Word)][i]
  }

  /** The samples the `k`-th of `exchanges` starts from: the input, then what each left unread. */
  function InputOf(samples: seq<Level>, exchanges: seq<Exchange>, k: nat): seq<Level>
    requires k <= |exchanges|
  {
    if k == 0 then samples else exchanges[k - 1].rest
  }

  /** An exchange as a reading performs it, given the command byte, the payload width and the samples. */
  type Transmit = (bv8, Width, seq<Level>) -> Option<Exchange>

  /** The driver's exchange, its payload variable starting at zero. */
  function Transmission(): Transmit {
    (command, width, samples) => StartTransmission(command, width, 0, samples)
  }

  /**
   * The exchanges of a reading from its `i`-th command on, stopping after the
   * first exchange that fails. None when an exchange runs out of samples
   * before it finishes.
   */
  function Run(transmit: Transmit, i: nat, samples: seq<Level>): (r: Option<seq<Exchange>>)
    requires i <= 3
    ensures r.Some? ==> |r.value| <= 3 - i
    ensures r.Some? && i < 3 ==> 1 <= |r.value|
    ensures r.Some? ==> forall k :: 0 <= k < |r.value| - 1 ==> r.value[k].result == Success
    ensures r.Some? && 0 < |r.value| < 3 - i ==> r.value[|r.value| - 1].result == CrcError
    decreases 3 - i, 1
  {
    if i == 3 then Some([])
    else
      match transmit(Opcode(Plan(i).0), Plan(i).1, samples)
      case None => None
      case Some(e) => Continue(transmit, i, e)
  }

  /** The exchanges from the `i`-th command on, given that the `i`-th exchange was `e`. */
  function Continue(transmit: Transmit, i: nat, e: Exchange): (r: Option<seq<Exchange>>)
    requires i < 3
    ensures r.Some? ==> 1 <= |r.value| <= 3 - i && r.value[0] == e
    ensures r.Some? ==> forall k :: 0 <= k < |r.value| - 1 ==> r.value[k].result == Success
    ensures r.Some? && |r.value| < 3 - i ==> r.value[|r.value| - 1].result == CrcError
    decreases 3 - i, 0
  {
    if e.result != Success then assert e.result == CrcError; assert [e][0] == e; Some([e])
    else
      match Run(transmit, i + 1, e.rest)
      case None => None
      case Some(others) => Some([e] + others)
  }

  /**
   * A reading into `m` over the exchange `transmit`: the status register,
   * then the temperature, then the relative humidity. On a checksum mismatch
   * the reading stops there and leaves `m` as it was; only when all three
   * exchanges succeed does `m` take the three payload variables.
   */
  function ReadWith(transmit: Transmit, m: Measurement, samples: seq<Level>): (r: Option<Reading>)
    ensures r.Some? <==> Run(transmit, 0, samples).Some?
    ensures r.Some? ==> r.value.exchanges == Run(transmit, 0, samples).value
    ensures r.Some? ==> 1 <= |r.value.exchanges| <= 3
    ensures r.Some? ==> forall k :: 0 <= k < |r.value.exchanges| - 1 ==> r.value.exchanges[k].result == Success
    ensures r.Some? ==> r.value.result == r.value.exchanges[|r.value.exchanges| - 1].result
    ensures r.Some? ==> r.value.rest == r.value.exchanges[|r.value.exchanges| - 1].rest
    ensures r.Some? && |r.value.exchanges| < 3 ==> r.value.result == CrcError
    ensures r.Some? && r.value.result != Success ==> r.value.m == m
    ensures r.Some? && r.value.result == Success ==>
      var e := r.value.exchanges;
      |e| == 3 && r.value.m == Measurement(LowByte(e[0].word), e[1].word, e[2].word)
  {
    match Run(transmit, 0, samples)
    case None => None
    case Some(e) =>
      var last := e[|e| - 1];
      if last.result != Success then Some(Reading(last.result, m, e, last.rest))
      else Some(Reading(Success, Measurement(LowByte(e[0].word), e[1].word, e[2].word), e, last.rest))
  }

  /**
   * The driver's reading: `ReadWith` over `StartTransmission`. The payload
   * variables start at zero, which changes nothing
   * (`Protocol.ExchangeIgnoresPriorWord`).
   */
  function Read(m: Measurement, samples: seq<Level>): (r: Option<Reading>)
    ensures StartTransmission(Opcode(ReadStatusRegister), Byte, 0, samples).None? ==> r.None?
    ensures r.Some? ==> 1 <= |r.value.exchanges| <= 3
    ensures r.Some? ==> r.value.exchanges[0] == StartTransmission(Opcode(ReadStatusRegister), Byte, 0, samples).value
    ensures r.Some? && r.value.result != Success ==> r.value.m == m
  {
    TransmissionStarts(Opcode(ReadStatusRegister), Byte, samples);
    ReadWith(Transmission(), m, samples)
  }

  /** Every line operation of a reading, exchange after exchange. */
  function Trace(exchanges: seq<Exchange>): seq<Event>
    decreases |exchanges|
  {
    if |exchanges| == 0 then [] else exchanges[0].trace + Trace(exchanges[1..])
  }

  // ------------------------------------------------------------ command order

  /**
   * The `k`-th exchange of a run from command `i` is that command, with its
   * width, performed on the samples the previous exchange left unread.
   */
  lemma {:induction false} RunIssuesInOrder(transmit: Transmit, i: nat, samples: seq<Level>)
    requires i <= 3 && Run(transmit, i, samples).Some?
    ensures
      var e := Run(transmit, i, samples).value;
      forall k :: 0 <= k < |e| ==>
        transmit(Opcode(Plan(i + k).0), Plan(i + k).1, InputOf(samples, e, k)) == Some(e[k])
    decreases 3 - i
  {
    var e := Run(transmit, i, samples).value;
    if i < 3 {
      var first := transmit(Opcode(Plan(i).0), Plan(i).1, samples).value;
      if first.result == Success {
        var others := Run(transmit, i + 1, first.rest).value;
        assert e == [first] + others;
        RunIssuesInOrder(transmit, i + 1, first.rest);
        forall k | 1 <= k < |e|
          ensures transmit(Opcode(Plan(i + k).0), Plan(i + k).1, InputOf(samples, e, k)) == Some(e[k])
        {
          assert InputOf(samples, e, k) == InputOf(first.rest, others, k - 1);
        }
      }
    }
  }

  /** The `k`-th exchange of a reading over `transmit` is the `k`-th command sent on what the previous one left. */
  lemma {:induction false} ReadWithIssuesInOrder(transmit: Transmit, m: Measurement, samples: seq<Level>, k: nat)
    requires ReadWith(transmit, m, samples).Some? && k < |ReadWith(transmit, m, samples).value.exchanges|
    ensures
      var e := ReadWith(transmit, m, samples).value.exchanges;
      transmit(Opcode(Plan(k).0), Plan(k).1, InputOf(samples, e, k)) == Some(e[k])
  {
    RunIssuesInOrder(transmit, 0, samples);
  }

  lemma {:induction false} TransmissionStarts(command: bv8, width: Width, samples: seq<Level>)
    ensures Transmission()(command, width, samples) == StartTransmission(command, width, 0, samples)
  {
  }

  /**
   * The `k`-th exchange of a reading is `StartTransmission` of the `k`-th
   * command, with its payload width, on the samples the previous exchange
   * left unread: status register (one byte), then temperature (two bytes),
   * then relative humidity (two bytes).
   */
  lemma {:induction false} ReadIssuesCommandsInOrder(m: Measurement, samples: seq<Level>, k: nat)
    requires Read(m, samples).Some? && k < |Read(m, samples).value.exchanges|
    ensures
      var e := Read(m, samples).value.exchanges;
      StartTransmission(Opcode(Plan(k).0), Plan(k).1, 0, InputOf(samples, e, k)) == Some(e[k])
  {
    var e := Read(m, samples).value.exchanges;
    ReadWithIssuesInOrder(Transmission(), m, samples, k);
    TransmissionStarts(Opcode(Plan(k).0), Plan(k).1, InputOf(samples, e, k));
  }

  // ----------------------------------------------------------- line discipline

  /** Every exchange `transmit` completes leaves the lines idle, from whatever state they were in. */
  ghost predicate EndsIdle(transmit: Transmit) {
    forall command, width, samples, bus: Bus :: transmit(command, width, samples).Some? ==>
      Replay(bus, transmit(command, width, samples).value.trace) == Some(Idle())
  }

  lemma {:induction false} TransmissionEndsIdle()
    ensures EndsIdle(Transmission())
  {
    forall command, width, samples, bus: Bus | Transmission()(command, width, samples).Some?
      ensures Replay(bus, Transmission()(command, width, samples).value.trace) == Some(Idle())
    {
      Discipline.ExchangeLeavesBusIdle(command, width, 0, samples, bus);
    }
  }

  /** Exchanges that each leave the lines idle from any state leave them idle one after the other. */
  lemma {:induction false} TraceEndsIdle(exchanges: seq<Exchange>, bus: Bus)
    requires |exchanges| > 0
    requires forall k, b: Bus :: 0 <= k < |exchanges| ==> Replay(b, exchanges[k].trace) == Some(Idle())
    ensures Replay(bus, Trace(exchanges)) == Some(Idle())
    decreases |exchanges|
  {
    var first := exchanges[0].trace;
    assert Trace(exchanges) == first + Trace(exchanges[1..]);
    Discipline.ReplayThrough(bus, first, Trace(exchanges[1..]), Idle());
    if |exchanges| > 1 {
      assert forall k :: 0 <= k < |exchanges| - 1 ==> exchanges[1..][k] == exchanges[k + 1];
      TraceEndsIdle(exchanges[1..], Idle());
    } else {
      assert Trace(exchanges[1..]) == [];
    }
  }

  /** Over exchanges that each leave the lines idle, a whole reading leaves them idle. */
  lemma {:induction false} ReadWithEndsIdle(transmit: Transmit, m: Measurement, samples: seq<Level>, bus: Bus)
    requires EndsIdle(transmit) && ReadWith(transmit, m, samples).Some?
    ensures Replay(bus, Trace(ReadWith(transmit, m, samples).value.exchanges)) == Some(Idle())
  {
    var e := ReadWith(transmit, m, samples).value.exchanges;
    RunIssuesInOrder(transmit, 0, samples);
    forall k, b: Bus | 0 <= k < |e|
      ensures Replay(b, e[k].trace) == Some(Idle())
    {
      assert transmit(Opcode(Plan(k).0), Plan(k).1, InputOf(samples, e, k)) == Some(e[k]);
    }
    TraceEndsIdle(e, bus);
  }

  /**
   * Whatever state the lines start in, a reading writes levels only to
   * outputs, reads the data line only while it is an input, and leaves both
   * lines outputs with the clock Low and the data line High.
   */
  lemma {:induction false} ReadLeavesBusIdle(m: Measurement, samples: seq<Level>, bus: Bus)
    requires Read(m, samples).Some?
    ensures Replay(bus, Trace(Read(m, samples).value.exchanges)) == Some(Idle())
  {
    TransmissionEndsIdle();
    ReadWithEndsIdle(Transmission(), m, samples, bus);
  }

  // ----------------------------------------------------------------- payloads

  /** Every exchange `transmit` completes fills its payload variable with the big-endian value of its payload. */
  ghost predicate StoresPayload(transmit: Transmit) {
    forall command, width, samples :: transmit(command, width, samples).Some? ==>
      var e := transmit(command, width, samples).value;
      |e.payload| == Size(width) && e.word as int == Value(e.payload)
  }

  lemma {:induction false} TransmissionStoresPayload()
    ensures StoresPayload(Transmission())
  {
    forall command, width, samples | Transmission()(command, width, samples).Some?
      ensures
        var e := Transmission()(command, width, samples).value;
        |e.payload| == Size(width) && e.word as int == Value(e.payload)
    {
      ExchangeDelivers(command, width, 0, samples);
    }
  }

  /** A payload variable holding less than 256 keeps its value in its low byte. */
  lemma {:induction false} LowByteKeepsSmall(w: bv16)
    requires w as int < 0x100
    ensures LowByte(w) as int == w as int
  {
  }

  /**
   * Over exchanges that fill their payload variables, a successful reading
   * stores the big-endian values of the payloads received: one byte of
   * status, two of temperature, two of humidity.
   */
  lemma {:induction false} ReadWithStoresPayloads(transmit: Transmit, m: Measurement, samples: seq<Level>)
    requires StoresPayload(transmit)
    requires ReadWith(transmit, m, samples).Some? && ReadWith(transmit, m, samples).value.result == Success
    ensures
      var r := ReadWith(transmit, m, samples).value;
      var e := r.exchanges;
      && |e[0].payload| == 1 && |e[1].payload| == 2 && |e[2].payload| == 2
      && r.m.status as int == Value(e[0].payload)
      && r.m.soT as int == Value(e[1].payload)
      && r.m.soRh as int == Value(e[2].payload)
  {
    var e := ReadWith(transmit, m, samples).value.exchanges;
    RunIssuesInOrder(transmit, 0, samples);
    assert transmit(Opcode(Plan(0).0), Plan(0).1, InputOf(samples, e, 0)) == Some(e[0]);
    assert transmit(Opcode(Plan(1).0), Plan(1).1, InputOf(samples, e, 1)) == Some(e[1]);
    assert transmit(Opcode(Plan(2).0), Plan(2).1, InputOf(samples, e, 2)) == Some(e[2]);
    assert Value(e[0].payload) < 0x100 by {
      assert e[0].payload[..0] == [];
    }
    LowByteKeepsSmall(e[0].word);
  }

  /**
   * After a successful reading the measurement holds the big-endian values
   * of the payloads received: one byte of status, two of temperature, two
   * of humidity.
   */
  lemma {:induction false} ReadStoresPayloads(m: Measurement, samples: seq<Level>)
    requires Read(m, samples).Some? && Read(m, samples).value.result == Success
    ensures
      var r := Read(m, samples).value;
      var e := r.exchanges;
      && |e[0].payload| == 1 && |e[1].payload| == 2 && |e[2].payload| == 2
      && r.m.status as int == Value(e[0].payload)
      && r.m.soT as int == Value(e[1].payload)
      && r.m.soRh as int == Value(e[2].payload)
  {
    TransmissionStoresPayload();
    ReadWithStoresPayloads(Transmission(), m, samples);
  }
}
