# SHT71 bit-banged driver, modelled in Dafny

This project models the core of a small Linux driver for the Sensirion SHT71
humidity and temperature sensor. The driver talks to the sensor over two
GPIO lines, a clock line and a data line, by toggling them from user space.
It has three parts, and the project has one module per part plus two for
the lines:

- `Crc8` (crc8.dfy) is the sensor's CRC-8 accumulator (`class Crc`). It holds
  a byte of state, updates it through the constant 256-entry table `kTable`
  (kept as 32 rows of eight entries, each row packed into a 64-bit word),
  and reverses the bit order of the final value. Every table entry is
  proved to be the remainder of dividing its index followed by eight zero
  bits (the index times x^8) by the polynomial x^8 + x^5 + x^4 + 1. The table-driven accumulator is proved equal to
  `Bitwise`, a reference that divides bit by bit without the table.
- `Protocol` (protocol.dfy) is one command/response exchange
  (`Sht71::startTransmission<T>` with `clockCycle`, `writeDataBit` and
  `readByte`), written as a pure function. The inputs are:
  - the command byte;
  - the payload width (one byte for `uint8_t`, two for `uint16_t`);
  - what the payload variable held before;
  - the levels the data line reports, in the order it is read.

  The output is the trace of line operations, the payload bytes, the checksum
  byte, the payload variable afterwards, `Success` or `CrcError`, and the
  samples left unread. It is `None` when the samples run out before the
  exchange ends. Either every sample reads High, so the busy wait has not
  ended within them, or the wait ends but too few samples follow it for the
  payload and the checksum.
- `Sht71` (sht71.dfy) is the reading `Sht71::read(Measurement&)` and the
  command set. The reading runs three exchanges in order (status register,
  temperature, relative humidity) and stops at the first checksum mismatch.
- `Gpio` (gpio.dfy) describes the two lines only through the operations the
  driver performs:
  - setting a direction;
  - writing a level;
  - reading the data line.

  `Replay` runs a trace against the state of the lines. It refuses a level
  written to an input line, and a read of the data line while the host
  drives it.
- `Framing` (framing.dfy) places each phase of an exchange at its offset in
  the trace.
- `Discipline` (discipline.dfy) proves that replaying an exchange from any
  line state keeps that rule and leaves the lines idle: both outputs, clock
  Low, data High.

A line operation becomes an event. `gpio = Output` and `gpio = Input` become
`Direct`. `gpio = High` and `gpio = Low` become `Drive`. `data_.isHigh()`
becomes `Sample`, whose level is taken from the input sequence.

## Model

| member | source | states |
|---|---|---|
| Crc8.Reverse | sht71sysfs/main.cpp:236-243 | the nibble, pair and bit swaps move bit `i` of the byte to bit `7 - i`, for every `i` |
| Crc8.ReverseInvolution | sht71sysfs/main.cpp:236-243 | reversing a byte twice gives it back, for all 256 bytes |
| Crc8.ReverseInjective | sht71sysfs/main.cpp:231-243 | two bytes reverse to the same value exactly when they are equal |
| Crc8.AddAllAppend | sht71sysfs/main.cpp:214-219 | accumulating `s + t` is accumulating `s` and then `t` from the state reached: `add` chains into a left fold |
| Crc8.Entry | sht71sysfs/main.cpp:246-279 | each of the 256 table entries is the remainder of dividing its index followed by eight zero bits (the index times x^8) by x^8 + x^5 + x^4 + 1, computed bit by bit without the table |
| Crc8.Fresh | sht71sysfs/main.cpp:212 | a default-constructed accumulator holds 0 |
| Crc8.Crc.Add | sht71sysfs/main.cpp:214-219 | injecting a byte leaves the remainder of dividing the state xor the byte, followed by eight zero bits, by the polynomial |
| Crc8.AddAllIsBitwise | sht71sysfs/main.cpp:214-219 | injecting bytes through the table gives the same value as the table-free bitwise CRC started from the accumulator's state |
| Crc8.ChecksumIsBitwise | sht71sysfs/main.cpp:212-219 | a fresh accumulator that has taken `bytes` holds the bitwise CRC of `bytes` started from 0 |
| Crc8.OrderMatters | sht71sysfs/main.cpp:214-219 | accumulating the bytes 0, 1 and the bytes 1, 0 from a fresh state gives different values, so the order of injection matters |
| Gpio.Step | sht71sysfs/main.cpp:139-198 | a direction change always applies; a level write applies exactly when the line is an output; a read applies exactly when data is an input, and changes nothing |
| Gpio.ReplayAppend | sht71sysfs/main.cpp:139-198 | replaying two traces in a row is replaying the first, then the second from where the first left the lines |
| Protocol.MaskSelectsBit | sht71sysfs/main.cpp:335-339 | the write made on pass `k` of the shift-out loop, whose mask is 0x80 shifted right `k` times, drives data High exactly when bit `7 - k` of the command is set |
| Protocol.ShiftOut | sht71sysfs/main.cpp:386-389 | the command goes out as 24 events: for each `k` below 8, data is driven to bit `7 - k` and then the clock goes High and Low |
| Protocol.BusyPolls | sht71sysfs/main.cpp:399 | the number of reads before the first Low: every one of them reports High, and the read after them reports Low |
| Protocol.Poll | sht71sysfs/main.cpp:399 | the wait loop reads the samples in order, `BusyPolls + 1` times; all reads but the last report High and the last reports Low |
| Protocol.Assemble | sht71sysfs/main.cpp:343-355 | shifting left and or-ing in each sample builds a byte that holds the samples first-bit-highest in its low bits and zeros above |
| Protocol.ClockIn | sht71sysfs/main.cpp:345-355 | each bit is three events: clock High, a read of the data line that reports that bit, clock Low |
| Protocol.ReadByte | sht71sysfs/main.cpp:341-365 | a received byte takes 29 events; it encodes the eight samples most significant bit first, each read between clock High and clock Low; the last five events are the acknowledgment (data Output, data Low, clock High, clock Low, data Input) |
| Protocol.ReceiveBytes | sht71sysfs/main.cpp:405-413 | `n` bytes take `29 n` events, and byte `j` encodes the `j`-th group of eight samples |
| Protocol.ReceivedBlocks | sht71sysfs/main.cpp:405-413 | the `j`-th block of 29 events of the received bytes is exactly the trace of reading the `j`-th group of samples |
| Protocol.StoreIgnoresPriorWord | sht71sysfs/main.cpp:405-413 | after `sizeof(T)` shifts by eight, the payload variable no longer depends on the value it held before |
| Protocol.StoreIsBigEndian | sht71sysfs/main.cpp:405-413 | after `sizeof(T)` bytes the payload variable holds their big-endian value, for one-byte and two-byte variables, whatever it held before |
| Protocol.ReceiveResponse | sht71sysfs/main.cpp:405-415 | the response is `sizeof(T)` payload bytes followed by one checksum byte, each encoding its group of eight samples, in `29 (sizeof(T) + 1)` events |
| Protocol.Verdict | sht71sysfs/main.cpp:401-420 | the result is Success exactly when the bit-reversed, table-free CRC (started from 0) of the command followed by the payload bytes equals the checksum byte; the checksum byte itself is never accumulated |
| Protocol.StartTransmission | sht71sysfs/main.cpp:367-421 | an exchange completes exactly when the data line eventually reads Low and enough samples follow for the payload and the checksum byte |
| Protocol.ExchangeDelivers | sht71sysfs/main.cpp:367-421 | a completed exchange delivers: one payload byte per group of eight samples after the wait; the checksum byte after them; the payload variable holding the payload's big-endian value whatever the result; Success exactly when the bit-reversed, table-free CRC of the command and the payload matches the checksum byte; and the remaining samples unread |
| Protocol.ExchangeIgnoresPriorWord | sht71sysfs/main.cpp:367-421 | the whole exchange is the same whatever the payload variable held before it started |
| Framing.BeginsWithStart | sht71sysfs/main.cpp:370-384 | a trace starts with exactly these events: clock and data set to outputs; clock Low, data High; then clock High, data Low, clock Low, clock High, data High, clock Low, data Low |
| Framing.ShiftsOutCommand | sht71sysfs/main.cpp:386-393 | events 11 to 34 send the command's bits most significant first, each a data write and a clock pulse; then data becomes an input and the clock pulses once |
| Framing.WaitsForSensor | sht71sysfs/main.cpp:397-399 | from event 38 the trace reads the data line `BusyPolls` times getting High, then once getting Low |
| Framing.ShiftsInResponse | sht71sysfs/main.cpp:405-418 | after the wait come blocks of 29 events, one per received byte, payload first and checksum last, each the trace of reading its eight samples; the last two events set data to Output and drive it High |
| Discipline.ClockCyclePulses | sht71sysfs/main.cpp:329-333 | on an output clock, a pulse is allowed and leaves the clock Low and the data line as it was |
| Discipline.WriteDataBitDrives | sht71sysfs/main.cpp:335-339 | while the host drives both lines with the clock Low, writing a bit leaves data driven High exactly for a nonzero bit, and the clock Low |
| Discipline.AcknowledgeHandsBack | sht71sysfs/main.cpp:357-362 | while the host listens with the clock Low, the acknowledgment is allowed and leaves data an input again, last driven Low, with the clock Low |
| Discipline.StartConditionTakesOver | sht71sysfs/main.cpp:370-384 | from any state of the lines the start condition is allowed and leaves both lines outputs driven Low |
| Discipline.ShiftOutFromKeepsDriving | sht71sysfs/main.cpp:386-389 | while the host drives both lines with the clock Low, every pass of the shift-out loop is allowed and keeps it so |
| Discipline.PollKeepsListening | sht71sysfs/main.cpp:399 | while data is an input, the wait loop's reads are all allowed and change nothing |
| Discipline.ReadByteKeepsListening | sht71sysfs/main.cpp:341-365 | while data is an input with the clock Low, reading a byte and acknowledging it is allowed and leaves data an input with the clock Low |
| Discipline.ExchangeLeavesBusIdle | sht71sysfs/main.cpp:367-421 | from any state of the lines, a completed exchange writes levels only to outputs and reads data only while it is an input; it ends with both lines outputs, clock Low and data High |
| Sht71.Opcode | sht71sysfs/main.cpp:309-315 | every command code fits in five bits, so the three address bits sent before it are zero |
| Sht71.OpcodeInjective | sht71sysfs/main.cpp:309-315 | distinct commands have distinct codes |
| Sht71.Read | sht71sysfs/main.cpp:451-491 | a reading begins with the status-register exchange (one byte, payload variable at zero) on the input samples and completes only if that exchange does; it makes one to three exchanges, and after a failure `m` is left as it was |
| Sht71.RunIssuesInOrder | sht71sysfs/main.cpp:457-475 | the `k`-th exchange of a run is the `k`-th planned command with its width, performed on the samples the previous exchange left unread |
| Sht71.ReadWith | sht71sysfs/main.cpp:451-491 | a reading makes one to three exchanges, and every exchange before the last succeeded; the result is the last exchange's result, so fewer than three exchanges means CrcError; on any failure `m` is left as it was; on success `m` holds the status (low byte), temperature and humidity payload variables |
| Sht71.ReadIssuesCommandsInOrder | sht71sysfs/main.cpp:451-475 | the exchanges are `startTransmission` for ReadStatusRegister with one byte, then MeasureTemperature with two, then MeasureRelativeHumidity with two; each starts where the previous one stopped reading |
| Sht71.ReadLeavesBusIdle | sht71sysfs/main.cpp:451-491 | from any state of the lines, a whole reading keeps the line discipline and leaves the lines idle |
| Sht71.ReadStoresPayloads | sht71sysfs/main.cpp:481-485 | after a successful reading, `status`, `so_t` and `so_rh` are the big-endian values of the one, two and two payload bytes received |

## Left out

- The sysfs layer (sht71sysfs/main.cpp:12-199) is not modelled. Its file I/O, errno strings and exceptions, and the GPIO export/unexport lifecycle with its hard-coded line numbers, are replaced by trace events and an input sequence of sampled levels.
- Gpio.Step: the rule that a level may be written only to an output and data read only while it is an input is the lines' interface contract. The sysfs code itself does not check it; the model checks the driver against it.
- `usleep(50000)` (line 395) is wall-clock timing with no logical content.
- The `counter` variable of the wait loop (lines 397-399) is incremented and never read.
- The unbounded wait loop (line 399) is not modelled as a loop that never ends. An exchange whose samples run out is `None`, and `Protocol.Answers` says exactly when an exchange completes. Only when `BusyPolls(samples) == |samples|`, that is, when every sample reads High, is the wait still running when the samples run out; in every other `None` case the wait ends and the samples after it are too few.
- The floating-point conversions are left out: temperature, `rh_linear` and `rh_true` (lines 301-307 and 479-488), and the two wrappers `readTemperature` and `readRelativeHumidity` (lines 423-449), which are one exchange plus such a conversion.
- `main`, its `printf` and the commented-out CRC snippet (lines 494-523) are left out.
- Sht71.ReadWith: the payload variables of `read` (lines 453-455) are uninitialised in the source, and the first `data <<= 8u` (line 409) reads them. In C++, reading an indeterminate value is undefined behaviour, which the model does not capture. The model starts the variables at zero. Protocol.ExchangeIgnoresPriorWord shows that any determinate starting value gives the same exchange; it says nothing about the undefined read itself.
- Sht71.ReadWith: the one-byte `status` variable is modelled as the low byte of a 16-bit payload variable whose upper byte the truncation keeps zero. Sht71.ReadStoresPayloads shows that no information is lost.
- The sensor's electrical behaviour is not modelled. The data line levels are arbitrary inputs, and nothing constrains what the sensor answers.
- Error kinds: the code has only `Success` and `CrcError`, and the model follows the code. The model has no I/O error and no timeout.
