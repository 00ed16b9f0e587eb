/**
 * The two digital lines the driver toggles, seen only through the operations
 * it performs on them: each assignment of a direction or a level to a line,
 * and each read of the data line, is one event of a trace.
 */
module Gpio {
  import opened Options

  datatype Line = Clk | Data

  datatype Direction = Output | Input

  datatype Level = Low | High

  datatype Event =
    | Direct(line: Line, dir: Direction)   // the line's direction is set
    | Drive(line: Line, level: Level)      // the line's level is written
    | Sample(level: Level)                 // the data line is read and reports `level`

  /** What is known of one line: its direction and the level last written to it. */
  datatype Pin = Pin(dir: Direction, level: Level)

  datatype Bus = Bus(clk: Pin, data: Pin) {

    function Of(line: Line): Pin {
      match line
      case Clk => clk
      case Data => data
    }

    function With(line: Line, pin: Pin): (b: Bus)
      ensures b.Of(line) == pin
      ensures forall other: Line :: other != line ==> b.Of(other) == Of(other)
    {
      match line
      case Clk => this.(clk := pin)
      case Data => this.(data := pin)
    }
  }

  /**
   * The state after one event, or None when the event breaks the line
   * discipline: a level may be written only to an output line, and the data
   * line may be read only while it is an input. A direction change keeps
   * the level last written, a write keeps the direction, a read changes
   * nothing, and the other line is never touched.
   */
  function Step(bus: Bus, e: Event): (r: Option<Bus>)
    ensures r.None? <==> ((e.Drive? && bus.Of(e.line).dir == Input) || (e.Sample? && bus.data.dir == Output))
    ensures r.Some? && e.Sample? ==> r.value == bus
    ensures r.Some? && e.Direct? ==> r.value.Of(e.line) == Pin(e.dir, bus.Of(e.line).level)
    ensures r.Some? && e.Drive? ==> r.value.Of(e.line) == Pin(Output, e.level)
    ensures r.Some? && !e.Sample? ==> forall other: Line :: other != e.line ==> r.value.Of(other) == bus.Of(other)
  {
    match e
    case Direct(line, dir) => Some(bus.With(line, bus.Of(line).(dir := dir)))
    case Drive(line, level) =>
      if bus.Of(line).dir == Input then None
      else
        assert bus.Of(line).dir == Output;
        Some(bus.With(line, bus.Of(line).(level := level)))
    case Sample(_) => if bus.data.dir == Output then None else Some(bus)
  }

  /** The state after a whole trace, or None when some event breaks the discipline. */
  function Replay(bus: Bus, trace: seq<Event>): Option<Bus>
    decreases |trace|
  {
    if |trace| == 0 then Some(bus)
    else match Step(bus, trace[0])
      case None => None
      case Some(next) => Replay(next, trace[1..])
  }

  /** Replaying `s + t` is replaying `s`, then `t` from where `s` left the bus. */
  lemma {:induction false} ReplayAppend(bus: Bus, s: seq<Event>, t: seq<Event>)
    ensures Replay(bus, s + t) == (match Replay(bus, s) case None => None case Some(b) => Replay(b, t))
    decreases |s|
  {
    if |s| == 0 {
      assert s + t == t;
    } else {
      assert (s + t)[0] == s[0];
      assert (s + t)[1..] == s[1..] + t;
      match Step(bus, s[0])
      case None =>
      case Some(next) => ReplayAppend(next, s[1..], t);
    }
  }

  /** The bus a finished exchange leaves: both lines outputs, clock Low, data High. */
  function Idle(): Bus {
    Bus(Pin(Output, Low), Pin(Output, High))
  }
}
