/** The `ILI9341_4DPI` driver object. The SPI transport is modelled as the sequence of
    frames handed to `spi_write`, held in the field `log`; every method is proved to append
    exactly the frame sequence that the functions of the Transfer module describe, and to
    keep the object's invariant: the log opens with the reset pulse, every later frame is a
    frame of normal operation, and the scroll offset lies in the range Python's `%` gives. */
module Driver {
  import opened Wire
  import opened Transfer

  /** The controller set-up table handed to the display base class: command code and
      parameter bytes, or no parameters. */
  const INIT: seq<(int, Option<seq<int>>)> := [
    (0xEF, Some([0x03, 0x80, 0x02])),
    (0xCF, Some([0x00, 0xC1, 0x30])),
    (0xED, Some([0x64, 0x03, 0x12, 0x81])),
    (0xE8, Some([0x85, 0x00, 0x78])),
    (0xCB, Some([0x39, 0x2C, 0x00, 0x34, 0x02])),
    (0xF7, Some([0x20])),
    (0xEA, Some([0x00, 0x00])),
    (0xC0, Some([0x23])),
    (0xC1, Some([0x10])),
    (0xC5, Some([0x3E, 0x28])),
    (0xC7, Some([0x86])),
    (0x36, Some([0x68])),
    (0x3A, Some([0x55])),
    (0xB1, Some([0x00, 0x18])),
    (0xB6, Some([0x0A, 0xA2])),
    (0xF2, Some([0x00])),
    (0x26, Some([0x01])),
    (0xE0, Some([0x0F, 0x31, 0x2B, 0x0C, 0x0E, 0x08, 0x4E, 0xF1, 0x37, 0x07, 0x10, 0x03, 0x0E, 0x09, 0x00])),
    (0xE1, Some([0x00, 0x0E, 0x14, 0x03, 0x11, 0x07, 0x31, 0xC1, 0x48, 0x08, 0x0F, 0x0C, 0x31, 0x36, 0x0F])),
    (0x11, None),
    (0x29, None)
  ]

  /** Every set-up entry is a byte-sized command with byte parameters, and none of them is
      the memory-write command, so `write` sends each one on the short path: the command
      frame followed by one data frame per parameter byte. */
  lemma InitIsShortWrites()
    ensures |INIT| == 21
    ensures forall i :: 0 <= i < |INIT| ==>
      IsByte(INIT[i].0) && INIT[i].0 != RAM_WRITE &&
      (INIT[i].1.Some? ==> IsBytes(INIT[i].1.value)) &&
      !RoutesToBulk(Some(INIT[i].0), INIT[i].1)
  {
  }

  /** The SPI mode word `((polarity & 1) << 1) | (phase & 1)`. */
  function SpiMode(polarity: int, phase: int): (mode: int)
    ensures 0 <= mode <= 3
    ensures mode / 2 == polarity % 2 && mode % 2 == phase % 2
  {
    2 * (polarity % 2) + phase % 2
  }

  /** Python's `a % n`: the remainder takes the sign of the divisor and differs from `a`
      by a multiple of `n`. */
  function FloorMod(a: int, n: int): (r: int)
    requires n != 0
    ensures n > 0 ==> 0 <= r < n
    ensures n < 0 ==> n < r <= 0
    ensures (a - r) % n == 0
  {
    var e := a % n;
    var q := a / n;
    assert a == n * q + e;
    if n < 0 && e != 0 then
      assert a - (e + n) == n * (q - 1);
      ModOfMultiple(n, q - 1);
      e + n
    else
      ModOfMultiple(n, q);
      e
  }

  function Abs(x: int): int { if x < 0 then -x else x }

  /** A non-zero multiple of `n` is at least `|n|` away from zero. */
  lemma MultipleAtLeast(n: int, d: int)
    requires n != 0 && d != 0
    ensures Abs(n * d) >= Abs(n)
  {
    MulAtLeast(Abs(n), Abs(d));
    assert Abs(n * d) == Abs(n) * Abs(d);
  }

  lemma ModOfMultiple(n: int, k: int)
    requires n != 0
    ensures (n * k) % n == 0
  {
    var x := n * k;
    var q := x / n;
    assert x == n * q + x % n;
    assert n * (k - q) == x % n;
    if k - q != 0 {
      MultipleAtLeast(n, k - q);
    }
  }

  /** For a positive divisor, the one remainder in range that differs from `a` by a
      multiple of `n` is `a % n`. */
  lemma ModUnique(a: int, n: int, r: int)
    requires n > 0 && 0 <= r < n && (a - r) % n == 0
    ensures FloorMod(a, n) == r
  {
    var t := (a - r) / n;
    assert a - r == n * t + (a - r) % n;
    DivUnique(a, n, t);
    assert a == n * (a / n) + a % n;
  }

  /** Moving by whole multiples of a positive height does not change the offset. */
  lemma {:induction false} FloorModShift(a: int, n: int, k: int)
    requires n > 0
    ensures FloorMod(a + n * k, n) == FloorMod(a, n)
  {
    var r := FloorMod(a, n);
    var t := (a - r) / n;
    assert a - r == n * t + (a - r) % n;
    assert a + n * k - r == n * (t + k);
    ModOfMultiple(n, t + k);
    ModUnique(a + n * k, n, r);
  }

  /** The offsets Python's `%` can produce for a divisor `h`; with no divisor yet the
      offset is still the initial 0. */
  predicate ScrollInRange(s: int, h: int)
  {
    if h > 0 then 0 <= s < h else if h < 0 then h < s <= 0 else s == 0
  }

  /** `struct.pack(">H", s)`: two bytes, high byte first. */
  function PackU16(s: int): (b: seq<int>)
    requires 0 <= s <= 0xFFFF
    ensures |b| == 2 && IsBytes(b)
    ensures b[0] * 256 + b[1] == s
  {
    [s / 256, s % 256]
  }

  /** The frames `scroll` sends for the new offset `s`. */
  function ScrollFrames(s: int): seq<seq<int>>
    requires 0 <= s <= 0xFFFF
  {
    ShortWriteFrames(Some(VERTICAL_SCROLL), Some(PackU16(s)))
  }

  /** The vertical-scroll command goes out with the packed offset as two data frames, one
      byte each, high byte first; together the two bytes give back the offset. */
  lemma ScrollFramesDecode(s: int)
    requires 0 <= s <= 0xFFFF
    ensures ScrollFrames(s) == [CommandFrame(VERTICAL_SCROLL), DataFrame(s / 256), DataFrame(s % 256)]
    ensures ScrollFrames(s) == [[COMMAND_CONTROL, 0, VERTICAL_SCROLL], [DATA_CONTROL, 0, s / 256], [DATA_CONTROL, 0, s % 256]]
    ensures AllNormal(ScrollFrames(s)) && AllWellFormed(ScrollFrames(s))
    ensures DecodeLog(ScrollFrames(s)) == [Command(VERTICAL_SCROLL), Data(s / 256), Data(s % 256)]
    ensures (s / 256) * 256 + s % 256 == s
  {
    ShortWriteDecodes(Some(VERTICAL_SCROLL), Some(PackU16(s)));
    assert DataOps(PackU16(s)) == [Data(s / 256), Data(s % 256)];
  }

  /** The offset after `scroll(dy)` for the deltas 0, h, -h, h + 5 and -(h + 3): the first
      three leave it where it was, the others move it as 5 and -3 do; from offset 0 on a
      panel of more than 5 lines they give 5 and h - 3. */
  lemma ScrollExamples(s: int, h: int)
    requires 0 <= s < h
    ensures FloorMod(s + 0, h) == s && FloorMod(s + h, h) == s && FloorMod(s + -h, h) == s
    ensures FloorMod(s + (h + 5), h) == FloorMod(s + 5, h)
    ensures FloorMod(s + -(h + 3), h) == FloorMod(s - 3, h)
    ensures s == 0 && h > 5 ==> FloorMod(s + (h + 5), h) == 5 && FloorMod(s + -(h + 3), h) == h - 3
  {
    ModUnique(s, h, s);
    FloorModShift(s, h, 1);
    FloorModShift(s, h, -1);
    FloorModShift(s + 5, h, 1);
    FloorModShift(s - 3, h, -1);
    if s == 0 && h > 5 {
      ModUnique(5, h, 5);
      FloorModShift(h - 3, h, -1);
      ModUnique(h - 3, h, h - 3);
    }
  }

  /** Why `scroll` gave up, when it did. */
  datatype Error = ZeroDivisionError | StructError

  /** What a Python call ends with: a return value (None modelled as `None`) or an exception. */
  datatype Outcome = Returned(value: Option<int>) | Raised(error: Error)

  lemma AllNormalSnoc(log: seq<seq<int>>, f: seq<int>)
    requires |log| >= 3 && AllNormal(log[3..]) && Normal(f)
    ensures AllNormal((log + [f])[3..])
  {
    assert (log + [f])[3..] == log[3..] + [f];
    AllNormalAppend(log[3..], [f]);
  }

  class Ili9341FourDpi {
    /** Every frame handed to `spi_write`, oldest first. */
    var log: seq<seq<int>>
    const channel: int
    const baudrate: int
    const spiMode: int
    const width: int
    const height: int
    const rotation: int
    const xStart: int
    const yStart: int
    var scroll: int

    /** The object invariant: the log opens with the reset pulse, every later frame is one
        of normal operation, and the offset is one Python's `%` by the height can give. */
    ghost predicate Valid()
      reads this
    {
      |log| >= 3 && log[..3] == ResetPulse() && AllNormal(log[3..]) && ScrollInRange(scroll, height)
    }

    /** `__init__`: opens the channel in the SPI mode the polarity and phase give, then pulses
        the bridge's reset line; the offset starts at 0. */
    constructor (spiChannel: int, baud: int, w: int, h: int, rot: int, xOffset: int, yOffset: int,
                 polarity: int, phase: int)
      ensures Valid()
      ensures log == ResetPulse() && scroll == 0
      ensures channel == spiChannel && baudrate == baud && spiMode == SpiMode(polarity, phase)
      ensures width == w && height == h && rotation == rot && xStart == xOffset && yStart == yOffset
    {
      channel := spiChannel;
      baudrate := baud;
      spiMode := 2 * (polarity % 2) + phase % 2;
      width := w;
      height := h;
      rotation := rot;
      xStart := xOffset;
      yStart := yOffset;
      scroll := 0;
      log := [];
      new;
      SpiWrite([RESET + RD, 0x00, 0x00]);
      SpiWrite([RD, 0x00, 0x00]);
      SpiWrite([RESET + RD, 0x00, 0x00]);
    }

    /** `spi_write`: the transport, as one more entry in the log. */
    method SpiWrite(frame: seq<int>)
      modifies this`log
      ensures log == old(log) + [frame]
    {
      log := log + [frame];
    }

    /** `reset`: does nothing. */
    method Reset()
      ensures log == old(log) && scroll == old(scroll)
    {
    }

    /** `read`: does nothing and returns None. */
    method Read(command: Option<int>, count: int) returns (r: Option<int>)
      ensures r == None
      ensures log == old(log) && scroll == old(scroll)
    {
      r := None;
    }

    /** `xilinx_write_cmd`: one command frame. */
    method WriteCmd(value: int)
      requires Valid()
      modifies this`log
      ensures Valid()
      ensures log == old(log) + [CommandFrame(value)]
    {
      var cmd := RESET + RD + BL;
      SpiWrite([cmd, 0x00, value % 256]);
      CommandFrameDecodes(value);
      AllNormalSnoc(old(log), CommandFrame(value));
    }

    /** `xilinx_write_data`: one data frame per element, in order. */
    method WriteData(values: seq<int>)
      requires Valid()
      modifies this`log
      ensures Valid()
      ensures log == old(log) + DataFrames(values)
    {
      var cmd := RESET + RD + BL + RS;
      var i := 0;
      while i < |values|
        invariant 0 <= i <= |values|
        invariant Valid()
        invariant log == old(log) + DataFrames(values[..i])
      {
        var value := values[i];
        ghost var before := log;
        SpiWrite([cmd, value / 256 % 256, value % 256]);
        DataFrameDecodes(value);
        AllNormalSnoc(before, DataFrame(value));
        DataFramesSnoc(values, i);
        i := i + 1;
      }
      assert values[..i] == values;
    }

    /** `xilinx_write_lots_of_data`: a memory-write command, then the buffer in chunks of
        whole scan lines, each followed by the address window for the rows that follow it and
        a new memory-write command. */
    method WriteLotsOfData(values: seq<int>)
      requires Valid() && IsBytes(values) && Feasible(|values|, width)
      modifies this`log
      decreases 3
      ensures Valid()
      ensures log == old(log) + [CommandFrame(RAM_WRITE)] + BulkTransfer(values, width, height)
    {
      Write(Some(RAM_WRITE), None);
      assert ShortWriteFrames(Some(RAM_WRITE), None) == [CommandFrame(RAM_WRITE)] + [];
      ghost var start := log;
      assert start == old(log) + [CommandFrame(RAM_WRITE)];
      ghost var goal := start + BulkTransfer(values, width, height);
      var sent := 0;
      assert BulkRemaining(values, sent, width, height) == BulkTransfer(values, width, height);
      while sent < |values|
        invariant Valid()
        invariant log + BulkRemaining(values, sent, width, height) == goal
        decreases |values| - sent
      {
        ghost var was := sent;
        ghost var before := log;
        sent := SendChunk(values, sent);
        ChunkStep(values, was, width, height, goal, before, log);
      }
    }

    /** One pass of the loop in `xilinx_write_lots_of_data`: the next whole lines go out in
        one long frame, `sent` moves on by a chunk (possibly past the end of the buffer),
        and the window is set for the rows from the new `sent` on. */
    method SendChunk(values: seq<int>, sent: nat) returns (next: nat)
      requires Valid() && IsBytes(values) && sent < |values| && 0 < width <= MAX_DMA_PIXELS
      modifies this`log
      decreases 2
      ensures Valid()
      ensures next == sent + ChunkBytes(width)
      ensures log == old(log) + [BulkFrame(values[sent .. Min(next, |values|)])]
                     + WindowFrames(width, height, FloorDiv(next, 2 * width))
    {
      var cmd := RESET + RD + BL + RS + LONG;
      var toSend := ChunkBytes(width);
      var data := [cmd, 0x00, 0x00] + values[sent .. Min(sent + toSend, |values|)];
      next := sent + toSend;
      assert data == BulkFrame(values[sent .. Min(next, |values|)]);
      var yPos := FloorDiv(next, 2 * width);
      SpiWrite(data);
      ChunkSent(old(log), values, sent, width);
      WriteWindow(yPos);
    }

    /** The three writes after each chunk in `xilinx_write_lots_of_data`: the column
        window, the page window from row `yPos` down, and a new memory-write command. */
    method WriteWindow(yPos: int)
      requires Valid()
      modifies this`log
      decreases 1
      ensures Valid()
      ensures log == old(log) + WindowFrames(width, height, yPos)
    {
      ghost var l0 := log;
      Write(Some(COLUMN_SET), Some([0x00, 0x00, (width - 1) / 256, width % 256]));
      ghost var l1 := log;
      Write(Some(PAGE_SET), Some([yPos / 256, yPos % 256, (height - 1) / 256, (height - 1) % 256]));
      ghost var l2 := log;
      Write(Some(RAM_WRITE), None);
      WindowSent(l0, l1, l2, log, width, height, yPos);
    }

    /** `write`: data with no command, or with the memory-write command, goes out as a bulk
        transfer; otherwise the command, if any, and then the data, if any. */
    method Write(command: Option<int>, data: Option<seq<int>>)
      requires Valid() && WriteAllowed(command, data, width)
      modifies this`log
      decreases if RoutesToBulk(command, data) then 4 else 0
      ensures Valid()
      ensures RoutesToBulk(command, data) ==>
        log == old(log) + [CommandFrame(RAM_WRITE)] + BulkTransfer(data.value, width, height)
      ensures !RoutesToBulk(command, data) ==> log == old(log) + ShortWriteFrames(command, data)
    {
      if data.Some? && (command.None? || command.value == RAM_WRITE) {
        WriteLotsOfData(data.value);
      } else {
        ghost var head := if command.Some? then [CommandFrame(command.value)] else [];
        ghost var tail := if data.Some? then DataFrames(data.value) else [];
        if command.Some? {
          WriteCmd(command.value);
        }
        assert log == old(log) + head;
        if data.Some? {
          WriteData(data.value);
        }
        assert log == old(log) + head + tail;
        assert ShortWriteFrames(command, data) == head + tail;
        assert old(log) + head + tail == old(log) + (head + tail);
      }
    }

    /** `scroll`: with no delta, the current offset; with one, the offset moves by it modulo
        the height and the new offset goes out with the vertical-scroll command. A zero
        height raises before anything changes; an offset `struct.pack` cannot hold (only
        possible with a negative or very large height) raises after the offset was stored
        and before anything is sent. */
    method Scroll(dy: Option<int>) returns (r: Outcome)
      requires Valid()
      modifies this`log, this`scroll
      ensures Valid()
      ensures dy.None? ==> r == Returned(Some(old(scroll))) && log == old(log) && scroll == old(scroll)
      ensures dy.Some? && height == 0 ==>
        r == Raised(ZeroDivisionError) && log == old(log) && scroll == old(scroll)
      ensures dy.Some? && height != 0 ==> scroll == FloorMod(old(scroll) + dy.value, height)
      ensures dy.Some? && height != 0 && 0 <= scroll <= 0xFFFF ==>
        r == Returned(None) && log == old(log) + ScrollFrames(scroll)
      ensures dy.Some? && height != 0 && !(0 <= scroll <= 0xFFFF) ==>
        r == Raised(StructError) && log == old(log)
    {
      if dy.None? {
        return Returned(Some(scroll));
      }
      if height == 0 {
        return Raised(ZeroDivisionError);
      }
      scroll := FloorMod(scroll + dy.value, height);
      if !(0 <= scroll <= 0xFFFF) {
        return Raised(StructError);
      }
      Write(Some(VERTICAL_SCROLL), Some(PackU16(scroll)));
      r := Returned(None);
    }
  }

  lemma DataFramesSnoc(values: seq<int>, i: int)
    requires 0 <= i < |values|
    ensures DataFrames(values[..i + 1]) == DataFrames(values[..i]) + [DataFrame(values[i])]
  {
    assert values[..i + 1][..i] == values[..i];
  }

  /** One chunk handed to `spi_write` keeps the log normal. */
  lemma ChunkSent(before: seq<seq<int>>, values: seq<int>, was: nat, width: int)
    requires |before| >= 3 && before[..3] == ResetPulse() && AllNormal(before[3..])
    requires IsBytes(values) && was < |values| && 0 < width <= MAX_DMA_PIXELS
    ensures var after := before + [BulkFrame(values[was .. Min(was + ChunkBytes(width), |values|)])];
      |after| >= 3 && after[..3] == ResetPulse() && AllNormal(after[3..])
  {
    var part := values[was .. Min(was + ChunkBytes(width), |values|)];
    BulkFrameDecodes(part);
    assert IsBytes(part);
    AllNormalSnoc(before, BulkFrame(part));
    assert (before + [BulkFrame(part)])[..3] == before[..3];
  }

  /** The three short writes after a chunk are the address window. */
  lemma WindowSent(l0: seq<seq<int>>, l1: seq<seq<int>>, l2: seq<seq<int>>, l3: seq<seq<int>>,
                   width: int, height: int, y: int)
    requires l1 == l0 + ShortWriteFrames(Some(COLUMN_SET), Some([0, 0, (width - 1) / 256, width % 256]))
    requires l2 == l1 + ShortWriteFrames(Some(PAGE_SET), Some([y / 256, y % 256, (height - 1) / 256, (height - 1) % 256]))
    requires l3 == l2 + ShortWriteFrames(Some(RAM_WRITE), None)
    ensures l3 == l0 + WindowFrames(width, height, y)
  {
    WindowIsThreeWrites(width, height, y);
  }

  /** One pass of the chunk loop keeps the log equation of `WriteLotsOfData`: the chunk's
      frame and the window for the rows after it are the next group of the transfer. */
  lemma ChunkStep(values: seq<int>, was: nat, width: int, height: int,
                  goal: seq<seq<int>>, before: seq<seq<int>>, after: seq<seq<int>>)
    requires was < |values| && 0 < width <= MAX_DMA_PIXELS
    requires before + BulkRemaining(values, was, width, height) == goal
    requires after == before + [BulkFrame(values[was .. Min(was + ChunkBytes(width), |values|)])]
                   + WindowFrames(width, height, FloorDiv(was + ChunkBytes(width), 2 * width))
    ensures after + BulkRemaining(values, was + ChunkBytes(width), width, height) == goal
  {
    var chunk := BulkFrame(values[was .. Min(was + ChunkBytes(width), |values|)]);
    var window := WindowFrames(width, height, FloorDiv(was + ChunkBytes(width), 2 * width));
    var rest := BulkRemaining(values, was + ChunkBytes(width), width, height);
    RemainingUnfold(values, was, width, height);
    assert after + rest == before + ([chunk] + window + rest);
  }

  /** What is left to send is the next chunk, its window, and what is left after it. */
  lemma RemainingUnfold(values: seq<int>, was: nat, width: int, height: int)
    requires was < |values| && 0 < width <= MAX_DMA_PIXELS
    ensures BulkRemaining(values, was, width, height)
         == [BulkFrame(values[was .. Min(was + ChunkBytes(width), |values|)])]
          + WindowFrames(width, height, FloorDiv(was + ChunkBytes(width), 2 * width))
          + BulkRemaining(values, was + ChunkBytes(width), width, height)
  {
    BulkFramesUnfold(values, was, ChunkBytes(width), width, height);
  }
}
