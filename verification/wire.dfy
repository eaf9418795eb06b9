/** The wire format of the 4DPI-24-HAT bridge. The bridge has no data/command line, so
    every SPI transaction starts with a control byte whose bits carry the flags that the
    4-wire ILI9341 protocol would have carried on separate lines. This module defines the
    control flags, the three frame shapes the driver sends (command, data word, bulk), and
    a decoder that reads a frame back the way the bridge's bit layout describes it. */
module Wire {

  datatype Option<T> = None | Some(value: T)

  // Control-byte flag weights (bit 7 down to bit 2; bits 1-0 are unused).
  const LONG: int := 0x80
  const BLOCK: int := 0x40
  const RESET: int := 0x20
  const RS: int := 0x10
  const BL: int := 0x08
  const RD: int := 0x04

  // ILI9341 commands the driver issues itself.
  const COLUMN_SET: int := 0x2A
  const PAGE_SET: int := 0x2B
  const RAM_WRITE: int := 0x2C
  const VERTICAL_SCROLL: int := 0x37

  /** Largest number of pixels one long transfer may carry. */
  const MAX_DMA_PIXELS: int := 32767

  /** The control byte as a record of named flags. */
  datatype Control = Control(long: bool, block: bool, reset: bool, rs: bool, bl: bool, rd: bool)

  function Flag(on: bool, weight: int): int { if on then weight else 0 }

  /** The flags OR-ed into one byte; the weights are distinct powers of two, so OR is a sum. */
  function ControlByte(c: Control): (b: int)
    ensures 0 <= b < 256 && b % 4 == 0
    ensures DecodeControl(b) == c
  {
    Flag(c.long, LONG) + Flag(c.block, BLOCK) + Flag(c.reset, RESET)
    + Flag(c.rs, RS) + Flag(c.bl, BL) + Flag(c.rd, RD)
  }

  /** Reads the flags back out of a byte, peeling the bits off from the top. */
  function DecodeControl(b: int): Control
    requires 0 <= b < 256
  {
    var long := b >= LONG;
    var b6 := if long then b - LONG else b;
    var block := b6 >= BLOCK;
    var b5 := if block then b6 - BLOCK else b6;
    var reset := b5 >= RESET;
    var b4 := if reset then b5 - RESET else b5;
    var rs := b4 >= RS;
    var b3 := if rs then b4 - RS else b4;
    var bl := b3 >= BL;
    var b2 := if bl then b3 - BL else b3;
    Control(long, block, reset, rs, bl, b2 >= RD)
  }

  /** Every byte whose two unused low bits are clear is the encoding of exactly one flag record. */
  lemma ControlByteOnto(b: int)
    requires 0 <= b < 256 && b % 4 == 0
    ensures ControlByte(DecodeControl(b)) == b
  {
  }

  // The flag sets the driver uses: a command (RS clear), a data word (RS set), a bulk
  // transfer (RS and LONG set), and the two levels of the power-on reset pulse.
  const COMMAND_FLAGS: Control := Control(false, false, true, false, true, true)
  const DATA_FLAGS: Control := Control(false, false, true, true, true, true)
  const BULK_FLAGS: Control := Control(true, false, true, true, true, true)
  const PULSE_HIGH_FLAGS: Control := Control(false, false, true, false, false, true)
  const PULSE_LOW_FLAGS: Control := Control(false, false, false, false, false, true)

  // Their bytes.
  const COMMAND_CONTROL: int := 0x2C
  const DATA_CONTROL: int := 0x3C
  const BULK_CONTROL: int := 0xBC
  const PULSE_HIGH: int := 0x24
  const PULSE_LOW: int := 0x04

  lemma ControlConstants()
    ensures ControlByte(COMMAND_FLAGS) == COMMAND_CONTROL
    ensures ControlByte(DATA_FLAGS) == DATA_CONTROL
    ensures ControlByte(BULK_FLAGS) == BULK_CONTROL
    ensures ControlByte(PULSE_HIGH_FLAGS) == PULSE_HIGH
    ensures ControlByte(PULSE_LOW_FLAGS) == PULSE_LOW
  {
  }

  predicate IsByte(x: int) { 0 <= x < 256 }

  predicate IsBytes(s: seq<int>) { forall i :: 0 <= i < |s| ==> IsByte(s[i]) }

  /** A frame the decoder can read: a control byte and at least two more bytes. */
  predicate WellFormed(f: seq<int>) { |f| >= 3 && IsByte(f[0]) }

  predicate AllWellFormed(fs: seq<seq<int>>) { forall i :: 0 <= i < |fs| ==> WellFormed(fs[i]) }

  /** What one frame asks of the panel. A frame that does not assert RESET, RD and BL
      together only drives the bridge's control lines. */
  datatype Op = Command(code: int) | Data(word: int) | Bulk(payload: seq<int>) | ControlOnly(control: Control)

  function DecodeFrame(f: seq<int>): Op
    requires WellFormed(f)
  {
    var c := DecodeControl(f[0]);
    if !(c.reset && c.rd && c.bl) then ControlOnly(c)
    else if c.long then Bulk(f[3..])
    else if c.rs then Data(f[1] * 256 + f[2])
    else Command(f[2])
  }

  function DecodeLog(fs: seq<seq<int>>): (ops: seq<Op>)
    requires AllWellFormed(fs)
    ensures |ops| == |fs|
  {
    seq(|fs|, i requires 0 <= i < |fs| => DecodeFrame(fs[i]))
  }

  /** A frame of normal operation: bytes only, RESET, RD and BL asserted, BLOCK clear;
      a short frame is exactly three bytes, and a long one carries the data flag. */
  predicate Normal(f: seq<int>)
  {
    |f| >= 3 && IsBytes(f) &&
    var c := DecodeControl(f[0]);
    c.reset && c.rd && c.bl && !c.block && (c.long ==> c.rs) && (!c.long ==> |f| == 3)
  }

  predicate AllNormal(fs: seq<seq<int>>) { forall i :: 0 <= i < |fs| ==> Normal(fs[i]) }

  /** The two bytes of a word as the frame carries them, masked as `(v >> 8) & 0xff`
      and `v & 0xff`; together they give back the word's low 16 bits. */
  lemma {:induction false} SplitWord(v: int)
    ensures IsByte(v / 256 % 256) && IsByte(v % 256)
    ensures (v / 256 % 256) * 256 + v % 256 == v % 65536
  {
    var q := v / 256;
    assert v == 256 * q + v % 256;
    assert q == 256 * (q / 256) + q % 256;
    var lo := (q % 256) * 256 + v % 256;
    assert v == 65536 * (q / 256) + lo;
    assert 0 <= lo < 65536;
  }

  /** `xilinx_write_cmd`: the command code's low byte behind a command control byte. */
  function CommandFrame(v: int): seq<int>
  {
    [COMMAND_CONTROL, 0x00, v % 256]
  }

  /** One element of `xilinx_write_data`: the word's high and low byte behind a data control byte. */
  function DataFrame(v: int): seq<int>
  {
    [DATA_CONTROL, v / 256 % 256, v % 256]
  }

  /** One chunk of `xilinx_write_lots_of_data`: a long-transfer header and the raw bytes. */
  function BulkFrame(chunk: seq<int>): seq<int>
  {
    [BULK_CONTROL, 0x00, 0x00] + chunk
  }

  /** A command frame is a normal short frame that asks for the code's low byte. */
  lemma CommandFrameDecodes(v: int)
    ensures Normal(CommandFrame(v)) && WellFormed(CommandFrame(v))
    ensures DecodeFrame(CommandFrame(v)) == Command(v % 256)
  {
  }

  /** A data frame is a normal short frame that carries the word's low 16 bits. */
  lemma DataFrameDecodes(v: int)
    ensures Normal(DataFrame(v)) && WellFormed(DataFrame(v))
    ensures DecodeFrame(DataFrame(v)) == Data(v % 65536)
  {
    SplitWord(v);
  }

  /** A long frame gives back its chunk unchanged, and is normal when the chunk holds bytes. */
  lemma BulkFrameDecodes(chunk: seq<int>)
    ensures WellFormed(BulkFrame(chunk)) && DecodeFrame(BulkFrame(chunk)) == Bulk(chunk)
    ensures IsBytes(chunk) ==> Normal(BulkFrame(chunk))
  {
    var f := BulkFrame(chunk);
    assert f[3..] == chunk;
    if IsBytes(chunk) {
      assert forall i :: 3 <= i < |f| ==> f[i] == chunk[i - 3];
    }
  }

  /** One data frame per element, in input order. */
  function DataFrames(values: seq<int>): (fs: seq<seq<int>>)
    ensures |fs| == |values|
    ensures AllNormal(fs) && AllWellFormed(fs)
    ensures DecodeLog(fs) == DataOps(values)
  {
    var fs := seq(|values|, i requires 0 <= i < |values| => DataFrame(values[i]));
    forall i | 0 <= i < |values|
      ensures Normal(fs[i]) && WellFormed(fs[i]) && DecodeFrame(fs[i]) == Data(values[i] % 65536)
    {
      DataFrameDecodes(values[i]);
    }
    fs
  }

  /** What a sequence of words means to the panel once each is truncated to 16 bits. */
  function DataOps(values: seq<int>): seq<Op>
  {
    seq(|values|, i requires 0 <= i < |values| => Data(values[i] % 65536))
  }

  /** The power-on reset pulse: not-in-reset, in reset, not-in-reset, with RD set throughout. */
  function ResetPulse(): (fs: seq<seq<int>>)
    ensures |fs| == 3 && AllWellFormed(fs)
    ensures DecodeLog(fs) == [ControlOnly(PULSE_HIGH_FLAGS), ControlOnly(PULSE_LOW_FLAGS),
                              ControlOnly(PULSE_HIGH_FLAGS)]
  {
    [[PULSE_HIGH, 0x00, 0x00], [PULSE_LOW, 0x00, 0x00], [PULSE_HIGH, 0x00, 0x00]]
  }

  /** All bulk payloads of a decoded log, in order. */
  function BulkPayloads(ops: seq<Op>): seq<seq<int>>
  {
    if ops == [] then []
    else (if ops[0].Bulk? then [ops[0].payload] else []) + BulkPayloads(ops[1..])
  }

  function Concat(chunks: seq<seq<int>>): seq<int>
  {
    if chunks == [] then [] else chunks[0] + Concat(chunks[1..])
  }

  lemma {:induction false} BulkPayloadsAppend(a: seq<Op>, b: seq<Op>)
    ensures BulkPayloads(a + b) == BulkPayloads(a) + BulkPayloads(b)
  {
    if a != [] {
      assert (a + b)[1..] == a[1..] + b;
      BulkPayloadsAppend(a[1..], b);
    } else {
      assert a + b == b;
    }
  }

  lemma {:induction false} NoBulkPayloads(ops: seq<Op>)
    requires forall i :: 0 <= i < |ops| ==> !ops[i].Bulk?
    ensures BulkPayloads(ops) == []
  {
    if ops != [] {
      NoBulkPayloads(ops[1..]);
    }
  }

  lemma {:induction false} ConcatAppend(a: seq<seq<int>>, b: seq<seq<int>>)
    ensures Concat(a + b) == Concat(a) + Concat(b)
  {
    if a != [] {
      assert (a + b)[1..] == a[1..] + b;
      ConcatAppend(a[1..], b);
    } else {
      assert a + b == b;
    }
  }

  lemma DecodeLogAppend(a: seq<seq<int>>, b: seq<seq<int>>)
    requires AllWellFormed(a) && AllWellFormed(b)
    ensures AllWellFormed(a + b)
    ensures DecodeLog(a + b) == DecodeLog(a) + DecodeLog(b)
  {
    AllWellFormedAppend(a, b);
  }

  lemma AllWellFormedAppend(a: seq<seq<int>>, b: seq<seq<int>>)
    requires AllWellFormed(a) && AllWellFormed(b)
    ensures AllWellFormed(a + b)
  {
    forall i | 0 <= i < |a + b| ensures WellFormed((a + b)[i]) {
      if i >= |a| { assert (a + b)[i] == b[i - |a|]; }
    }
  }

  lemma AllNormalAppend(a: seq<seq<int>>, b: seq<seq<int>>)
    requires AllNormal(a) && AllNormal(b)
    ensures AllNormal(a + b)
  {
    forall i | 0 <= i < |a + b| ensures Normal((a + b)[i]) {
      if i >= |a| { assert (a + b)[i] == b[i - |a|]; }
    }
  }
}
