/**
 * The line discipline an exchange keeps: replaying its trace from any state
 * of the lines never writes a level to an input line nor reads the data line
 * while the host drives it, and leaves both lines outputs with the clock Low
 * and the data line High.
 */
module Discipline {
  import opened Options
  import opened Gpio
  import opened Protocol

  /** The host owns both lines and the clock rests Low. */
  predicate Driving(bus: Bus) {
    bus.clk == Pin(Output, Low) && bus.data.dir == Output
  }

  /** The host owns the clock, which rests Low; the sensor owns the data line. */
  predicate Listening(bus: Bus) {
    bus.clk == Pin(Output, Low) && bus.data.dir == Input
  }

  /** Replaying `trace` from `bus` keeps the discipline and ends with `P` holding. */
  predicate EndsIn(bus: Bus, trace: seq<Event>, P: Bus -> bool) {
    var r := Replay(bus, trace);
    r.Some? && P(r.value)
  }

  /** A replay that reached `mid` carries on from there. */
  lemma {:induction false} ReplayThrough(bus: Bus, s: seq<Event>, t: seq<Event>, mid: Bus)
    requires Replay(bus, s) == Some(mid)
    ensures Replay(bus, s + t) == Replay(mid, t)
  {
    ReplayAppend(bus, s, t);
  }

  /** The start condition takes the lines over whatever state they were in. */
  lemma {:induction false} StartConditionTakesOver(bus: Bus)
    ensures Replay(bus, StartCondition()) == Some(Bus(Pin(Output, Low), Pin(Output, Low)))
  {
  }

  /** A clock pulse on an output clock leaves it Low and the data line untouched. */
  lemma {:induction false} ClockCyclePulses(bus: Bus)
    requires bus.clk.dir == Output
    ensures Replay(bus, ClockCycle()) == Some(bus.(clk := Pin(Output, Low)))
  {
  }

  /** Writing a bit while driving leaves data at that bit's level and the clock back Low. */
  lemma {:induction false} WriteDataBitDrives(bus: Bus, bit: bv8)
    requires Driving(bus)
    ensures Replay(bus, WriteDataBit(bit)) == Some(bus.(data := Pin(Output, LevelOf(bit != 0))))
  {
  }

  /** Each pass of the shift-out loop writes data while it is an output and leaves the clock Low. */
  lemma {:induction false} ShiftOutFromKeepsDriving(bus: Bus, command: bv8, k: nat)
    requires Driving(bus) && k <= 8
    ensures EndsIn(bus, ShiftOutFrom(command, k), Driving)
    decreases 8 - k
  {
    if k < 8 {
      var bit := WriteDataBit(command & Mask(k));
      var rest := ShiftOutFrom(command, k + 1);
      assert ShiftOutFrom(command, k) == bit + rest;
      var mid := Bus(Pin(Output, Low), Pin(Output, bit[0].level));
      assert Replay(bus, bit) == Some(mid);
      ReplayThrough(bus, bit, rest, mid);
      ShiftOutFromKeepsDriving(mid, command, k + 1);
    }
  }

  /** Handing the data line over turns a driving host into a listening one. */
  lemma {:induction false} ReleaseHandsOver(bus: Bus)
    requires Driving(bus)
    ensures EndsIn(bus, Release(), Listening)
  {
  }

  /** The busy wait only reads the data line, which is then an input, and changes nothing. */
  lemma {:induction false} PollKeepsListening(bus: Bus, samples: seq<Level>)
    requires Listening(bus) && BusyPolls(samples) < |samples|
    ensures Replay(bus, Poll(samples)) == Some(bus)
    decreases |samples|
  {
    if samples[0] == High {
      var rest := Poll(samples[1..]);
      assert Poll(samples) == [Sample(High)] + rest;
      ReplayThrough(bus, [Sample(High)], rest, bus);
      PollKeepsListening(bus, samples[1..]);
    }
  }

  /** Clocking bits in pulses the clock and reads the data line, leaving the lines as they were. */
  lemma {:induction false} ClockInKeepsListening(bus: Bus, bits: seq<Level>)
    requires Listening(bus)
    ensures Replay(bus, ClockIn(bits)) == Some(bus)
    decreases |bits|
  {
    if |bits| > 0 {
      var one := [Drive(Clk, High), Sample(bits[0]), Drive(Clk, Low)];
      var rest := ClockIn(bits[1..]);
      assert ClockIn(bits) == one + rest;
      var up := bus.(clk := Pin(Output, High));
      assert Replay(bus, one) == Some(bus) by {
        assert Replay(up, one[2..]) == Some(bus) by {
          assert one[2..][1..] == [];
        }
        assert one[1..][1..] == one[2..];
        assert Replay(up, one[1..]) == Some(bus);
      }
      ReplayThrough(bus, one, rest, bus);
      ClockInKeepsListening(bus, bits[1..]);
    }
  }

  /**
   * The acknowledgment takes the data line back, pulls it Low for one clock
   * pulse and hands it to the sensor again, the clock resting Low.
   */
  lemma {:induction false} AcknowledgeHandsBack(bus: Bus)
    requires Listening(bus)
    ensures Replay(bus, Acknowledge()) == Some(bus.(data := Pin(Input, Low)))
  {
  }

  /** A received byte, acknowledgment included, keeps the host listening. */
  lemma {:induction false} ReadByteKeepsListening(bus: Bus, bits: seq<Level>)
    requires Listening(bus) && |bits| == 8
    ensures EndsIn(bus, ReadByte(bits).1, Listening)
  {
    ClockInKeepsListening(bus, bits);
    ReplayThrough(bus, ClockIn(bits), Acknowledge(), bus);
    assert ReadByte(bits).1 == ClockIn(bits) + Acknowledge();
  }

  lemma {:induction false} ReceiveBytesKeepsListening(bus: Bus, samples: seq<Level>, n: nat)
    requires Listening(bus) && |samples| >= 8 * n
    ensures EndsIn(bus, ReceiveBytes(samples, n).1, Listening)
    decreases n
  {
    if n > 0 {
      var first := ReadByte(Frame(samples, 0)).1;
      var others := ReceiveBytes(samples[8..], n - 1).1;
      assert ReceiveBytes(samples, n).1 == first + others;
      ReadByteKeepsListening(bus, Frame(samples, 0));
      var mid := Replay(bus, first).value;
      ReplayThrough(bus, first, others, mid);
      ReceiveBytesKeepsListening(mid, samples[8..], n - 1);
    }
  }

  /** The payload bytes and the checksum byte keep the host listening. */
  lemma {:induction false} ResponseKeepsListening(bus: Bus, received: seq<Level>, width: Width)
    requires Listening(bus) && |received| >= 8 * (Size(width) + 1)
    ensures EndsIn(bus, ReceiveResponse(received, width).2, Listening)
  {
    var n := Size(width);
    var payload := ReceiveBytes(received, n).1;
    var checksum := ReadByte(Frame(received, n)).1;
    assert ReceiveResponse(received, width).2 == payload + checksum;
    ReceiveBytesKeepsListening(bus, received, n);
    var mid := Replay(bus, payload).value;
    ReplayThrough(bus, payload, checksum, mid);
    ReadByteKeepsListening(mid, Frame(received, n));
  }

  /** Up to the end of the busy wait the host has taken the lines over and handed data to the sensor. */
  lemma {:induction false} HandshakeEndsListening(command: bv8, samples: seq<Level>, bus: Bus)
    requires BusyPolls(samples) < |samples|
    ensures EndsIn(bus, StartCondition() + ShiftOut(command) + Release() + Poll(samples), Listening)
  {
    var start := StartCondition();
    var shift := ShiftOut(command);
    var b0 := Bus(Pin(Output, Low), Pin(Output, Low));
    StartConditionTakesOver(bus);
    ShiftOutFromKeepsDriving(b0, command, 0);
    var b1 := Replay(b0, shift).value;
    ReplayThrough(bus, start, shift, b0);
    ReleaseHandsOver(b1);
    var b2 := Replay(b1, Release()).value;
    ReplayThrough(bus, start + shift, Release(), b1);
    PollKeepsListening(b2, samples);
    ReplayThrough(bus, start + shift + Release(), Poll(samples), b2);
  }

  /** The trace of an exchange, response and final release included, ends with the lines idle. */
  lemma {:induction false} ExchangeTraceEndsIdle(command: bv8, width: Width, samples: seq<Level>, bus: Bus)
    requires Answers(samples, width)
    ensures
      var received := samples[BusyPolls(samples) + 1..];
      Replay(bus, ExchangeTrace(command, samples, ReceiveResponse(received, width).2)) == Some(Idle())
  {
    var received := samples[BusyPolls(samples) + 1..];
    var response := ReceiveResponse(received, width).2;
    var finish := [Direct(Data, Output), Drive(Data, High)];
    var handshake := StartCondition() + ShiftOut(command) + Release() + Poll(samples);
    HandshakeEndsListening(command, samples, bus);
    var b2 := Replay(bus, handshake).value;
    ResponseKeepsListening(b2, received, width);
    var b3 := Replay(b2, response).value;
    ReplayThrough(bus, handshake, response, b2);
    assert Replay(b3, finish) == Some(Idle());
    ReplayThrough(bus, handshake + response, finish, b3);
  }

  /**
   * Whatever state the lines start in, an exchange writes levels only to
   * outputs, reads the data line only while it is an input, and leaves both
   * lines outputs with the clock Low and the data line High.
   */
  lemma {:induction false} ExchangeLeavesBusIdle(command: bv8, width: Width, word: bv16, samples: seq<Level>, bus: Bus)
    requires Answers(samples, width)
    ensures Replay(bus, StartTransmission(command, width, word, samples).value.trace) == Some(Idle())
  {
    TraceOfExchange(command, width, word, samples);
    ExchangeTraceEndsIdle(command, width, samples, bus);
  }
}
