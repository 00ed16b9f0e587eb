/**
 * Where each phase of an exchange sits in its trace: the start condition,
 * the command bits, the release of the data line, the busy wait, one block
 * of 29 events per received byte, and the final drive of the data line High.
 */
module Framing {
  import opened Gpio
  import opened Protocol

  /** The part of an exchange trace up to the end of the busy wait. */
  function Handshake(command: bv8, samples: seq<Level>): (h: seq<Event>)
    requires BusyPolls(samples) < |samples|
    ensures |h| == 39 + BusyPolls(samples)
  {
    StartCondition() + ShiftOut(command) + Release() + Poll(samples)
  }

  /** An exchange trace is the handshake, the response, and the final drive of data High. */
  lemma {:induction false} Split(command: bv8, samples: seq<Level>, response: seq<Event>)
    requires BusyPolls(samples) < |samples|
    ensures
      var t := ExchangeTrace(command, samples, response);
      var p := BusyPolls(samples);
      && t[..39 + p] == Handshake(command, samples)
      && t[39 + p..] == response + [Direct(Data, Output), Drive(Data, High)]
  {
    var h := Handshake(command, samples);
    var finish := [Direct(Data, Output), Drive(Data, High)];
    var t := ExchangeTrace(command, samples, response);
    assert t == h + (response + finish);
  }

  /** The phases of the handshake, each at its offset. */
  lemma {:induction false} HandshakeLayout(command: bv8, samples: seq<Level>)
    requires BusyPolls(samples) < |samples|
    ensures
      var h := Handshake(command, samples);
      && h[..11] == StartCondition()
      && h[11..35] == ShiftOut(command)
      && h[35..38] == Release()
      && h[38..] == Poll(samples)
  {
    var a := StartCondition();
    var b := a + ShiftOut(command);
    var c := b + Release();
    var h := c + Poll(samples);
    assert h[..38] == c;
    assert c[..35] == b;
    assert b[..11] == a;
    assert h[35..38] == c[35..];
    assert h[11..35] == b[11..];
  }

  /** A response's trace is that of its payload bytes, then that of its checksum byte. */
  lemma {:induction false} ResponseTrace(received: seq<Level>, width: Width)
    requires |received| >= 8 * (Size(width) + 1)
    ensures ReceiveResponse(received, width).2
      == ReceiveBytes(received, Size(width)).1 + ReadByte(Frame(received, Size(width))).1
  {
  }

  /** The blocks of a response: one per payload byte, then the checksum byte's. */
  lemma {:induction false} ResponseBlocks(received: seq<Level>, width: Width, j: nat)
    requires |received| >= 8 * (Size(width) + 1) && j <= Size(width)
    ensures Block(ReceiveResponse(received, width).2, j) == ReadByte(Frame(received, j)).1
  {
    var n := Size(width);
    var payload := ReceiveBytes(received, n).1;
    var checksum := ReadByte(Frame(received, n)).1;
    ResponseTrace(received, width);
    if j < n {
      BlockOfPrefix(payload, checksum, j);
      ReceivedBlocks(received, n, j);
    } else {
      BlockAfter(payload, checksum, n);
    }
  }

  /** A block that lies within `a` is the same block of `a + b`. */
  lemma {:induction false} BlockOfPrefix(a: seq<Event>, b: seq<Event>, j: nat)
    requires 29 * j + 29 <= |a|
    ensures Block(a + b, j) == Block(a, j)
  {
    SliceOfAppend(a, b, 29 * j, 29 * j + 29);
  }

  /** A block of 29 events appended after `k` whole blocks is block `k` of the result. */
  lemma {:induction false} BlockAfter(a: seq<Event>, b: seq<Event>, k: nat)
    requires |a| == 29 * k && |b| == 29
    ensures Block(a + b, k) == b
  {
    SliceOfAppend(a, b, 29 * k, 29 * k + 29);
  }

  lemma {:induction false} StartInTrace(command: bv8, samples: seq<Level>, response: seq<Event>)
    requires BusyPolls(samples) < |samples|
    ensures ExchangeTrace(command, samples, response)[..11] ==
      [ Direct(Clk, Output), Direct(Data, Output)
      , Drive(Clk, Low), Drive(Data, High)
      , Drive(Clk, High), Drive(Data, Low), Drive(Clk, Low), Drive(Clk, High)
      , Drive(Data, High), Drive(Clk, Low), Drive(Data, Low)
      ]
  {
    var t := ExchangeTrace(command, samples, response);
    Split(command, samples, response);
    HandshakeLayout(command, samples);
    assert t[..11] == t[..39 + BusyPolls(samples)][..11];
  }

  /**
   * An answered exchange begins with the transmission start: both lines
   * outputs, clock Low and data High, then data falls while the clock is
   * High, the clock pulses Low and High, data rises while the clock is High,
   * and both lines end Low.
   */
  lemma {:induction false} BeginsWithStart(command: bv8, width: Width, word: bv16, samples: seq<Level>)
    requires Answers(samples, width)
    ensures StartTransmission(command, width, word, samples).value.trace[..11] ==
      [ Direct(Clk, Output), Direct(Data, Output)
      , Drive(Clk, Low), Drive(Data, High)
      , Drive(Clk, High), Drive(Data, Low), Drive(Clk, Low), Drive(Clk, High)
      , Drive(Data, High), Drive(Clk, Low), Drive(Data, Low)
      ]
  {
    TraceOfExchange(command, width, word, samples);
    StartInTrace(command, samples, ReceiveResponse(samples[BusyPolls(samples) + 1..], width).2);
  }

  lemma {:induction false} CommandInTrace(command: bv8, samples: seq<Level>, response: seq<Event>)
    requires BusyPolls(samples) < |samples|
    ensures
      var t := ExchangeTrace(command, samples, response);
      && (forall k :: 0 <= k < 8 ==> SendsBit(t[11..35], k, CommandLevel(command, k)))
      && t[35..38] == [Direct(Data, Input), Drive(Clk, High), Drive(Clk, Low)]
  {
    var t := ExchangeTrace(command, samples, response);
    var h := Handshake(command, samples);
    Split(command, samples, response);
    HandshakeLayout(command, samples);
    assert t[11..35] == h[11..35];
    assert t[35..38] == h[35..38];
  }

  /**
   * Next come the command's eight bits, most significant first, each written
   * to data and clocked once; then data becomes an input and the clock pulses.
   */
  lemma {:induction false} ShiftsOutCommand(command: bv8, width: Width, word: bv16, samples: seq<Level>)
    requires Answers(samples, width)
    ensures
      var t := StartTransmission(command, width, word, samples).value.trace;
      && (forall k :: 0 <= k < 8 ==> SendsBit(t[11..35], k, CommandLevel(command, k)))
      && t[35..38] == [Direct(Data, Input), Drive(Clk, High), Drive(Clk, Low)]
  {
    TraceOfExchange(command, width, word, samples);
    CommandInTrace(command, samples, ReceiveResponse(samples[BusyPolls(samples) + 1..], width).2);
  }

  lemma {:induction false} WaitInTrace(command: bv8, samples: seq<Level>, response: seq<Event>)
    requires BusyPolls(samples) < |samples|
    ensures
      var t := ExchangeTrace(command, samples, response);
      var p := BusyPolls(samples);
      && (forall i :: 0 <= i < p ==> t[38..][i] == Sample(High))
      && t[38..][p] == Sample(Low)
  {
    var p := BusyPolls(samples);
    var t := ExchangeTrace(command, samples, response);
    Split(command, samples, response);
    HandshakeLayout(command, samples);
    var poll := t[38..39 + p];
    assert poll == Poll(samples) by {
      assert poll == t[..39 + p][38..];
    }
    assert forall i :: 0 <= i <= p ==> t[38..][i] == poll[i];
  }

  /**
   * Then the data line is read until it reports Low: every read before the
   * last reported High, the last reported Low, and nothing else happens.
   */
  lemma {:induction false} WaitsForSensor(command: bv8, width: Width, word: bv16, samples: seq<Level>)
    requires Answers(samples, width)
    ensures
      var t := StartTransmission(command, width, word, samples).value.trace;
      var p := BusyPolls(samples);
      && |t| > 38 + p
      && (forall i :: 0 <= i < p ==> t[38..][i] == Sample(High))
      && t[38..][p] == Sample(Low)
  {
    TraceOfExchange(command, width, word, samples);
    WaitInTrace(command, samples, ReceiveResponse(samples[BusyPolls(samples) + 1..], width).2);
  }

  /** Past the handshake, the blocks of a trace are those of its response, and it ends driving data High. */
  lemma {:induction false} ResponseInTrace(command: bv8, samples: seq<Level>, response: seq<Event>)
    requires BusyPolls(samples) < |samples|
    ensures
      var t := ExchangeTrace(command, samples, response);
      var p := BusyPolls(samples);
      && (forall j :: 0 <= j && 29 * j + 29 <= |response| ==> Block(t[39 + p..], j) == Block(response, j))
      && t[|t| - 2..] == [Direct(Data, Output), Drive(Data, High)]
  {
    var p := BusyPolls(samples);
    var finish := [Direct(Data, Output), Drive(Data, High)];
    var t := ExchangeTrace(command, samples, response);
    Split(command, samples, response);
    assert t[|t| - 2..] == t[39 + p..][|response|..];
    forall j | 0 <= j && 29 * j + 29 <= |response|
      ensures Block(t[39 + p..], j) == Block(response, j)
    {
      SliceOfAppend(response, finish, 29 * j, 29 * j + 29);
    }
  }

  /**
   * Then one block of 29 events per received byte, payload bytes first and
   * the checksum byte last, each the trace of reading the matching eight
   * samples after the busy wait; and finally the data line is driven High.
   */
  lemma {:induction false} ShiftsInResponse(command: bv8, width: Width, word: bv16, samples: seq<Level>)
    requires Answers(samples, width)
    ensures
      var t := StartTransmission(command, width, word, samples).value.trace;
      var p := BusyPolls(samples);
      var received := samples[p + 1..];
      && |t| == 41 + p + 29 * (Size(width) + 1)
      && (forall j :: 0 <= j <= Size(width) ==> Block(t[39 + p..], j) == ReadByte(Frame(received, j)).1)
      && t[|t| - 2..] == [Direct(Data, Output), Drive(Data, High)]
  {
    TraceOfExchange(command, width, word, samples);
    ResponseFramed(command, width, samples);
  }

  /** `ShiftsInResponse`, stated of the trace built from the response. */
  lemma {:induction false} ResponseFramed(command: bv8, width: Width, samples: seq<Level>)
    requires Answers(samples, width)
    ensures
      var p := BusyPolls(samples);
      var received := samples[p + 1..];
      var t := ExchangeTrace(command, samples, ReceiveResponse(received, width).2);
      && (forall j :: 0 <= j <= Size(width) ==> Block(t[39 + p..], j) == ReadByte(Frame(received, j)).1)
      && t[|t| - 2..] == [Direct(Data, Output), Drive(Data, High)]
  {
    var received := samples[BusyPolls(samples) + 1..];
    var response := ReceiveResponse(received, width).2;
    ResponseInTrace(command, samples, response);
    forall j | 0 <= j <= Size(width)
      ensures Block(response, j) == ReadByte(Frame(received, j)).1
    {
      ResponseBlocks(received, width, j);
    }
  }
}
