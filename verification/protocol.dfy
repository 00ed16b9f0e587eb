/**
 * One command/response exchange with the sensor, bit-banged over a clock line
 * and a data line: start condition, command shift-out, release of the data
 * line, wait for the sensor to pull it Low, shift-in of the payload bytes and
 * of the checksum byte (each acknowledged by the host), and the checksum check.
 *
 * The exchange is a function of the command, the payload width, the initial
 * value of the payload variable and the levels the data line reports, in the
 * order it is read. It yields the trace of line operations, the bytes
 * received, the assembled payload word and the verdict.
 */
module Protocol {
  import opened Options
  import opened Gpio
  import Crc8

  datatype Result = Success | CrcError

  /** The size of the payload variable an exchange fills: one or two bytes. */
  datatype Width = Byte | Word

  function Size(width: Width): nat {
    match width
    case Byte => 1
    case Word => 2
  }

  function LevelOf(bit: bool): Level {
    if bit then High else Low
  }

  /** The level that carries bit `7 - k` of `command`: the `k`-th bit on the wire. */
  function CommandLevel(command: bv8, k: nat): Level
    requires k < 8
  {
    LevelOf(Crc8.Bit(command, 7 - k))
  }

  /** Events `3k`, `3k + 1`, `3k + 2` of `t` drive data to `level`, then pulse the clock. */
  predicate SendsBit(t: seq<Event>, k: nat, level: Level) {
    && 3 * k + 2 < |t|
    && t[3 * k] == Drive(Data, level)
    && t[3 * k + 1] == Drive(Clk, High)
    && t[3 * k + 2] == Drive(Clk, Low)
  }

  /** Events `3k`, `3k + 1`, `3k + 2` of `t` raise the clock, read `level`, lower the clock. */
  predicate ReadsBit(t: seq<Event>, k: nat, level: Level) {
    && 3 * k + 2 < |t|
    && t[3 * k] == Drive(Clk, High)
    && t[3 * k + 1] == Sample(level)
    && t[3 * k + 2] == Drive(Clk, Low)
  }

  /** The `k`-th group of eight samples of `samples`. */
  function Frame(samples: seq<Level>, k: nat): (f: seq<Level>)
    requires 8 * k + 8 <= |samples|
    ensures |f| == 8
  {
    samples[8 * k..8 * k + 8]
  }

  /** The `k`-th group of 29 events: the trace of one received byte. */
  function Block(trace: seq<Event>, k: nat): (b: seq<Event>)
    requires 29 * k + 29 <= |trace|
    ensures |b| == 29
  {
    trace[29 * k..29 * k + 29]
  }

  // ---------------------------------------------------------------- clocking

  /** A clock pulse: the clock line High, then Low. */
  function ClockCycle(): seq<Event> {
    [Drive(Clk, High), Drive(Clk, Low)]
  }

  /** Drives the data line High for a nonzero `bit`, Low otherwise, then pulses the clock. */
  function WriteDataBit(bit: bv8): seq<Event> {
    [Drive(Data, if bit > 0 then High else Low)] + ClockCycle()
  }

  // ------------------------------------------------------- start and command

  /** Both lines become outputs, the clock Low and data High; then the start pattern. */
  function StartCondition(): seq<Event> {
    [ Direct(Clk, Output), Direct(Data, Output)
    , Drive(Clk, Low), Drive(Data, High)
    , Drive(Clk, High), Drive(Data, Low), Drive(Clk, Low), Drive(Clk, High)
    , Drive(Data, High), Drive(Clk, Low), Drive(Data, Low)
    ]
  }

  /** The mask of the `k`-th pass of the shift-out loop, whose mask starts at 0x80 and halves. */
  function Mask(k: nat): bv8
    requires k <= 8
  {
    (0x80 as bv8) >> k
  }

  /** The write of the `k`-th pass drives High exactly when bit `7 - k` of the command is set. */
  lemma {:induction false} MaskSelectsBit(command: bv8, k: nat)
    requires k < 8
    ensures WriteDataBit(command & Mask(k))[0] == Drive(Data, CommandLevel(command, k))
  {
  }

  /**
   * The shift-out loop from its `k`-th pass on: the command bits from bit
   * `7 - k` down to bit 0, each a data write followed by a clock pulse.
   */
  function ShiftOutFrom(command: bv8, k: nat): (r: seq<Event>)
    requires k <= 8
    ensures |r| == 3 * (8 - k)
    ensures forall j :: k <= j < 8 ==> SendsBit(r, j - k, CommandLevel(command, j))
    decreases 8 - k
  {
    if k == 8 then []
    else
      MaskSelectsBit(command, k);
      var rest := ShiftOutFrom(command, k + 1);
      var head := WriteDataBit(command & Mask(k));
      assert forall j :: k < j < 8 ==> SendsBit(head + rest, j - k, CommandLevel(command, j)) by {
        forall j | k < j < 8
          ensures SendsBit(head + rest, j - k, CommandLevel(command, j))
        {
          SendsBitAfter(head, rest, j - k - 1, CommandLevel(command, j));
        }
      }
      head + rest
  }

  /** A bit sent at slot `k` of `rest` is sent at slot `k + 1` once one slot is put before it. */
  lemma {:induction false} SendsBitAfter(head: seq<Event>, rest: seq<Event>, k: nat, level: Level)
    requires |head| == 3 && SendsBit(rest, k, level)
    ensures SendsBit(head + rest, k + 1, level)
  {
    var r := head + rest;
    assert r[3 * k + 3] == rest[3 * k] && r[3 * k + 4] == rest[3 * k + 1] && r[3 * k + 5] == rest[3 * k + 2];
  }

  /** The command on the data line, most significant bit first, each bit clocked once. */
  function ShiftOut(command: bv8): (r: seq<Event>)
    ensures |r| == 24
    ensures forall k :: 0 <= k < 8 ==> SendsBit(r, k, CommandLevel(command, k))
  {
    ShiftOutFrom(command, 0)
  }

  /** The data line is handed to the sensor and one more clock pulse is given. */
  function Release(): seq<Event> {
    [Direct(Data, Input)] + ClockCycle()
  }

  // ---------------------------------------------------------------- busy wait

  /** How many reads of the data line report High before the first Low. */
  function BusyPolls(samples: seq<Level>): (n: nat)
    ensures n <= |samples|
    ensures forall i :: 0 <= i < n ==> samples[i] == High
    ensures n < |samples| ==> samples[n] == Low
    decreases |samples|
  {
    if |samples| == 0 || samples[0] == Low then 0
    else
      var tail := samples[1..];
      var n := BusyPolls(tail);
      assert forall i :: 0 <= i < 1 + n ==> samples[i] == High by {
        forall i | 0 < i < 1 + n
          ensures samples[i] == High
        {
          assert samples[i] == tail[i - 1];
        }
      }
      assert 1 + n < |samples| ==> samples[1 + n] == Low by {
        if 1 + n < |samples| {
          assert samples[1 + n] == tail[n];
        }
      }
      1 + n
  }

  /** One read of the data line per level, in order. */
  function Reads(levels: seq<Level>): (r: seq<Event>)
    ensures |r| == |levels|
    ensures forall i :: 0 <= i < |r| ==> r[i] == Sample(levels[i])
  {
    if |levels| == 0 then [] else [Sample(levels[0])] + Reads(levels[1..])
  }

  /**
   * The reads of the loop that spins while the data line is High: every read
   * but the last reports High, the last reports Low, and they are the first
   * samples in order.
   */
  function Poll(samples: seq<Level>): (r: seq<Event>)
    requires BusyPolls(samples) < |samples|
    ensures |r| == BusyPolls(samples) + 1
    ensures forall i :: 0 <= i < |r| - 1 ==> r[i] == Sample(High)
    ensures r[|r| - 1] == Sample(Low)
    ensures forall i :: 0 <= i < |r| ==> r[i] == Sample(samples[i])
  {
    Reads(samples[..BusyPolls(samples) + 1])
  }

  // ------------------------------------------------------------ byte shift-in

  /**
   * `b` holds `bits` in its low `|bits|` bits, first bit highest, and zeros
   * above: bit `i` is set exactly when `i` counts back from the last of
   * `bits` to a High one.
   */
  predicate Encodes(b: bv8, bits: seq<Level>)
    requires |bits| <= 8
  {
    forall i :: 0 <= i < 8 ==> (Crc8.Bit(b, i) <==> i < |bits| && bits[|bits| - 1 - i] == High)
  }

  /** Shifting left by one moves every bit up one place and or-ing in `c` sets bit 0. */
  lemma {:induction false} ShiftInBit(x: bv8, c: bv8, i: nat)
    requires c <= 1 && i < 8
    ensures Crc8.Bit((x << 1) | c, i) <==> if i == 0 then c == 1 else Crc8.Bit(x, i - 1)
  {
  }

  /** The byte built by shifting left and or-ing in each sample in turn. */
  function Assemble(bits: seq<Level>): (b: bv8)
    requires |bits| <= 8
    ensures Encodes(b, bits)
    decreases |bits|
  {
    if |bits| == 0 then 0
    else
      var m := |bits|;
      var front := Assemble(bits[..m - 1]);
      var c: bv8 := if bits[m - 1] == High then 1 else 0;
      var b := (front << 1) | c;
      forall i | 0 <= i < 8
        ensures Crc8.Bit(b, i) <==> if i == 0 then c == 1 else Crc8.Bit(front, i - 1)
      {
        ShiftInBit(front, c, i);
      }
      assert forall k :: 0 <= k < m - 1 ==> bits[..m - 1][k] == bits[k];
      b
  }

  /** One clock pulse per sample, the data line read while the clock is High. */
  function ClockIn(bits: seq<Level>): (r: seq<Event>)
    ensures |r| == 3 * |bits|
    ensures forall k :: 0 <= k < |bits| ==> ReadsBit(r, k, bits[k])
    decreases |bits|
  {
    if |bits| == 0 then []
    else
      var rest := ClockIn(bits[1..]);
      var r := [Drive(Clk, High), Sample(bits[0]), Drive(Clk, Low)] + rest;
      assert forall i :: 3 <= i < |r| ==> r[i] == rest[i - 3];
      assert forall k :: 1 <= k < |bits| ==> ReadsBit(rest, k - 1, bits[k]);
      r
  }

  /** The host's acknowledgment of a received byte. */
  function Acknowledge(): seq<Event> {
    [Direct(Data, Output), Drive(Data, Low)] + ClockCycle() + [Direct(Data, Input)]
  }

  /**
   * One received byte: eight samples, each taken between a clock High and a
   * clock Low, assembled first bit highest, then the acknowledgment.
   */
  function ReadByte(bits: seq<Level>): (r: (bv8, seq<Event>))
    requires |bits| == 8
    ensures Encodes(r.0, bits)
    ensures |r.1| == 29
    ensures forall k :: 0 <= k < 8 ==> ReadsBit(r.1, k, bits[k])
    ensures r.1[24..] == [Direct(Data, Output), Drive(Data, Low), Drive(Clk, High), Drive(Clk, Low), Direct(Data, Input)]
  {
    var clocked := ClockIn(bits);
    var r := (Assemble(bits), clocked + Acknowledge());
    assert forall i :: 0 <= i < 24 ==> r.1[i] == clocked[i];
    r
  }

  /** `n` bytes received one after the other, with their traces. */
  function ReceiveBytes(samples: seq<Level>, n: nat): (r: (seq<bv8>, seq<Event>))
    requires |samples| >= 8 * n
    ensures |r.0| == n && |r.1| == 29 * n
    ensures forall j :: 0 <= j < n ==> Encodes(r.0[j], Frame(samples, j))
    decreases n
  {
    if n == 0 then ([], [])
    else
      var first := ReadByte(Frame(samples, 0));
      var others := ReceiveBytes(samples[8..], n - 1);
      var bytes := others.0;
      var r := ([first.0] + bytes, first.1 + others.1);
      forall j | 1 <= j < n
        ensures Frame(samples, j) == Frame(samples[8..], j - 1)
      {
        FrameAfterFirst(samples, j - 1);
      }
      assert forall j :: 1 <= j < n ==> r.0[j] == bytes[j - 1];
      r
  }

  lemma {:induction false} FrameAfterFirst(samples: seq<Level>, j: nat)
    requires 8 * j + 16 <= |samples|
    ensures Frame(samples, j + 1) == Frame(samples[8..], j)
  {
    SliceOfDrop(samples, 8, 8 * j, 8 * j + 8);
  }

  lemma {:induction false} SliceOfDrop<T>(s: seq<T>, d: nat, lo: nat, hi: nat)
    requires d + hi <= |s| && lo <= hi
    ensures s[d..][lo..hi] == s[d + lo..d + hi]
  {
  }

  lemma {:induction false} SliceOfAppend<T>(a: seq<T>, b: seq<T>, lo: nat, hi: nat)
    requires lo <= hi <= |a| + |b|
    ensures |a| <= lo ==> (a + b)[lo..hi] == b[lo - |a|..hi - |a|]
    ensures hi <= |a| ==> (a + b)[lo..hi] == a[lo..hi]
  {
  }

  /** Past a first block `a`, the blocks of `a + b` are those of `b`. */
  lemma {:induction false} BlockOfAppend(a: seq<Event>, b: seq<Event>, j: nat)
    requires |a| == 29 && 29 * j + 29 <= |a| + |b|
    ensures Block(a + b, j) == if j == 0 then a else Block(b, j - 1)
  {
    SliceOfAppend(a, b, 29 * j, 29 * j + 29);
  }

  /** Receiving `n` bytes traces the first byte, then the other `n - 1`. */
  lemma {:induction false} ReceiveBytesTrace(samples: seq<Level>, n: nat)
    requires |samples| >= 8 * n && n > 0
    ensures ReceiveBytes(samples, n).1 == ReadByte(Frame(samples, 0)).1 + ReceiveBytes(samples[8..], n - 1).1
  {
  }

  /** The trace of the `j`-th received byte is `ReadByte`'s trace for the `j`-th frame of samples. */
  lemma {:induction false} ReceivedBlocks(samples: seq<Level>, n: nat, j: nat)
    requires |samples| >= 8 * n && j < n
    ensures Block(ReceiveBytes(samples, n).1, j) == ReadByte(Frame(samples, j)).1
    decreases n
  {
    ReceiveBytesTrace(samples, n);
    BlockOfAppend(ReadByte(Frame(samples, 0)).1, ReceiveBytes(samples[8..], n - 1).1, j);
    if j > 0 {
      ReceivedBlocks(samples[8..], n - 1, j - 1);
      FrameAfterFirst(samples, j - 1);
    }
  }


  // ------------------------------------------------------------ word assembly

  function Truncation(width: Width): bv16 {
    match width
    case Byte => 0x00FF
    case Word => 0xFFFF
  }

  /** `data <<= 8; data |= byte` on a payload variable of `Size(width)` bytes. */
  function Shift8(width: Width, word: bv16, byte: bv8): bv16 {
    ((word << 8) & Truncation(width)) | (byte as bv16)
  }

  /** The payload variable after each of `bytes` has been shifted in. */
  function Store(width: Width, word: bv16, bytes: seq<bv8>): bv16
    decreases |bytes|
  {
    if |bytes| == 0 then word else Store(width, Shift8(width, word, bytes[0]), bytes[1..])
  }

  /** The unsigned number whose big-endian bytes are `bytes`. */
  function Value(bytes: seq<bv8>): nat
    decreases |bytes|
  {
    if |bytes| == 0 then 0 else 256 * Value(bytes[..|bytes| - 1]) + bytes[|bytes| - 1] as nat
  }

  lemma {:induction false} WidenByte(b: bv8)
    ensures (b as bv16) as int == b as int
  {
  }

  /** Two bytes side by side in sixteen bits are worth 256 times the high byte plus the low byte. */
  lemma {:induction false} ConcatBytes(hi: bv8, lo: bv8)
    ensures (((hi as bv16) << 8) | lo as bv16) as int == 256 * hi as int + lo as int
  {
  }

  /** A two-byte variable ends up holding `b0` above `b1`, whatever it held before. */
  lemma {:induction false} StoreWord(word: bv16, b0: bv8, b1: bv8)
    ensures Store(Word, word, [b0, b1]) == ((b0 as bv16) << 8) | b1 as bv16
  {
    var first := Shift8(Word, word, b0);
    assert [b0, b1][1..] == [b1];
    assert Store(Word, word, [b0, b1]) == Store(Word, first, [b1]);
    assert Store(Word, first, [b1]) == Shift8(Word, first, b1) by {
      assert [b1][1..] == [];
    }
  }

  /** A one-byte variable ends up holding `b0`: the shift by eight clears it entirely. */
  lemma {:induction false} StoreByte(word: bv16, b0: bv8)
    ensures Store(Byte, word, [b0]) == b0 as bv16
  {
    assert [b0][1..] == [];
    assert Store(Byte, word, [b0]) == Shift8(Byte, word, b0);
  }

  /** After `Size(width)` bytes the payload variable holds the same whatever it held before. */
  lemma {:induction false} StoreIgnoresPriorWord(width: Width, word: bv16, other: bv16, bytes: seq<bv8>)
    requires |bytes| == Size(width)
    ensures Store(width, word, bytes) == Store(width, other, bytes)
  {
    if width == Word {
      assert bytes == [bytes[0], bytes[1]];
      StoreWord(word, bytes[0], bytes[1]);
      StoreWord(other, bytes[0], bytes[1]);
    } else {
      assert bytes == [bytes[0]];
      StoreByte(word, bytes[0]);
      StoreByte(other, bytes[0]);
    }
  }

  /**
   * Whatever the payload variable held before, after `Size(width)` bytes it
   * holds exactly their big-endian value: every earlier bit is shifted out.
   */
  lemma {:induction false} StoreIsBigEndian(width: Width, word: bv16, bytes: seq<bv8>)
    requires |bytes| == Size(width)
    ensures Store(width, word, bytes) as int == Value(bytes)
  {
    assert Value(bytes[..1]) == bytes[0] as nat by {
      assert bytes[..1][..0] == [];
    }
    var stored := Store(width, word, bytes);
    if width == Word {
      var b0, b1 := bytes[0], bytes[1];
      assert bytes == [b0, b1];
      StoreWord(word, b0, b1);
      var v := ((b0 as bv16) << 8) | b1 as bv16;
      assert stored == v;
      ConcatBytes(b0, b1);
      assert stored as int == 256 * b0 as int + b1 as int;
      assert Value(bytes) == 256 * b0 as nat + b1 as nat by {
        assert bytes[..|bytes| - 1] == bytes[..1];
      }
    } else {
      var b0 := bytes[0];
      assert bytes == [b0];
      StoreByte(word, b0);
      assert stored == b0 as bv16;
      WidenByte(b0);
      assert stored as int == b0 as int;
      assert Value(bytes) == b0 as nat by {
        assert bytes[..|bytes| - 1] == [];
      }
    }
  }

  // ----------------------------------------------------------------- exchange

  /**
   * The samples suffice to finish an exchange: the sensor pulls the data line
   * Low at some read, and the reads after it cover the payload and checksum.
   */
  predicate Answers(samples: seq<Level>, width: Width) {
    BusyPolls(samples) < |samples| && |samples| - BusyPolls(samples) - 1 >= 8 * (Size(width) + 1)
  }

  datatype Exchange = Exchange(
    trace: seq<Event>,
    payload: seq<bv8>,     // the payload bytes, in the order received
    checksum: bv8,         // the checksum byte the sensor sent
    word: bv16,            // the payload variable afterwards
    result: Result,
    rest: seq<Level>)      // the samples left unread

  /**
   * The response after the busy wait: `Size(width)` payload bytes, then the
   * checksum byte, each acknowledged.
   */
  function ReceiveResponse(received: seq<Level>, width: Width): (r: (seq<bv8>, bv8, seq<Event>))
    requires |received| >= 8 * (Size(width) + 1)
    ensures |r.0| == Size(width)
    ensures forall j :: 0 <= j < Size(width) ==> Encodes(r.0[j], Frame(received, j))
    ensures Encodes(r.1, Frame(received, Size(width)))
    ensures |r.2| == 29 * (Size(width) + 1)
  {
    var n := Size(width);
    var (payload, payloadTrace) := ReceiveBytes(received, n);
    var (checksum, checksumTrace) := ReadByte(Frame(received, n));
    (payload, checksum, payloadTrace + checksumTrace)
  }

  /**
   * The verdict on a response: the accumulator starts fresh, takes the
   * command and then the payload bytes, and its reversed value must equal the
   * checksum byte; the checksum byte itself is never accumulated. Success
   * means the checksum byte is the bit-reversed CRC of the command and the
   * payload, computed by polynomial division without the table.
   */
  function Verdict(command: bv8, payload: seq<bv8>, checksum: bv8): (r: Result)
    ensures r == Success <==> Crc8.Reverse(Crc8.Bitwise(0, [command] + payload)) == checksum
  {
    var crc := Crc8.AddAll(Crc8.Fresh().Add(command), payload);
    assert crc == Crc8.AddAll(Crc8.Fresh(), [command] + payload) by {
      assert ([command] + payload)[1..] == payload;
    }
    Crc8.ChecksumIsBitwise([command] + payload);
    if crc.Reversed() == checksum then Success else CrcError
  }

  /** Everything the host does on the lines in one exchange, in order. */
  function ExchangeTrace(command: bv8, samples: seq<Level>, response: seq<Event>): (t: seq<Event>)
    requires BusyPolls(samples) < |samples|
    ensures |t| == 41 + BusyPolls(samples) + |response|
  {
    StartCondition() + ShiftOut(command) + Release()
    + Poll(samples)
    + response
    + [Direct(Data, Output), Drive(Data, High)]
  }

  /**
   * One exchange for `command`, filling a payload variable of `Size(width)`
   * bytes that held `word`, reading the data line levels from `samples`.
   * None when the samples run out before the exchange finishes: either every
   * sample reads High, so the busy wait has not ended within them, or the
   * wait ends but too few samples follow it for the payload and the checksum.
   */
  function StartTransmission(command: bv8, width: Width, word: bv16, samples: seq<Level>): (r: Option<Exchange>)
    ensures r.Some? <==> Answers(samples, width)
  {
    if !Answers(samples, width) then None
    else
      var received := samples[BusyPolls(samples) + 1..];
      var response := ReceiveResponse(received, width);
      Some(Exchange(
        ExchangeTrace(command, samples, response.2),
        response.0,
        response.1,
        Store(width, word, response.0),
        Verdict(command, response.0, response.1),
        received[8 * (Size(width) + 1)..]))
  }

  /**
   * What an answered exchange delivers: one byte per eight samples after the
   * busy wait, payload first and checksum last, each assembled first bit
   * highest; the payload variable holding the payload's big-endian value
   * whatever it held before; Success exactly when the reversed checksum of
   * the command and the payload equals the checksum byte; and the samples
   * after the checksum byte left unread.
   */
  lemma {:induction false} ExchangeDelivers(command: bv8, width: Width, word: bv16, samples: seq<Level>)
    requires Answers(samples, width)
    ensures
      var received := samples[BusyPolls(samples) + 1..];
      var e := StartTransmission(command, width, word, samples).value;
      && |e.payload| == Size(width)
      && (forall j :: 0 <= j < Size(width) ==> Encodes(e.payload[j], Frame(received, j)))
      && Encodes(e.checksum, Frame(received, Size(width)))
      && e.word as int == Value(e.payload)
      && (e.result == Success <==> Crc8.Reverse(Crc8.Bitwise(0, [command] + e.payload)) == e.checksum)
      && e.rest == received[8 * (Size(width) + 1)..]
  {
    var received := samples[BusyPolls(samples) + 1..];
    BytesOfExchange(command, width, word, samples);
    VerdictOfExchange(command, width, word, samples);
    StoreIsBigEndian(width, word, ReceiveResponse(received, width).0);
  }

  /** The bytes and the payload variable of an answered exchange, in terms of the response. */
  lemma {:induction false} BytesOfExchange(command: bv8, width: Width, word: bv16, samples: seq<Level>)
    requires Answers(samples, width)
    ensures
      var response := ReceiveResponse(samples[BusyPolls(samples) + 1..], width);
      var e := StartTransmission(command, width, word, samples).value;
      e.payload == response.0 && e.checksum == response.1 && e.word == Store(width, word, response.0)
  {
  }

  /** The verdict of an answered exchange and the samples it leaves, in terms of the response. */
  lemma {:induction false} VerdictOfExchange(command: bv8, width: Width, word: bv16, samples: seq<Level>)
    requires Answers(samples, width)
    ensures
      var received := samples[BusyPolls(samples) + 1..];
      var response := ReceiveResponse(received, width);
      var e := StartTransmission(command, width, word, samples).value;
      e.result == Verdict(command, response.0, response.1) && e.rest == received[8 * (Size(width) + 1)..]
  {
  }

  /** The trace an answered exchange records, as a function of the response alone. */
  lemma {:induction false} TraceOfExchange(command: bv8, width: Width, word: bv16, samples: seq<Level>)
    requires Answers(samples, width)
    ensures StartTransmission(command, width, word, samples).value.trace
      == ExchangeTrace(command, samples, ReceiveResponse(samples[BusyPolls(samples) + 1..], width).2)
  {
  }

  /**
   * The exchange does not depend on what the payload variable held before:
   * whatever determinate value it held, every earlier bit is shifted out.
   * Reading an uninitialised variable is undefined behaviour in C++, and this
   * lemma says nothing about that case.
   */
  lemma {:induction false} ExchangeIgnoresPriorWord(command: bv8, width: Width, word: bv16, other: bv16, samples: seq<Level>)
    ensures StartTransmission(command, width, word, samples) == StartTransmission(command, width, other, samples)
  {
    if Answers(samples, width) {
      StoreIgnoresPriorWord(width, word, other, ReceiveResponse(samples[BusyPolls(samples) + 1..], width).0);
    }
  }
}
