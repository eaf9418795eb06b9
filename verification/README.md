# ILI9341 over the 4DPI-24-HAT bridge, in Dafny

This project models the frame encoder of the `ILI9341_4DPI` display driver.
It also models the driver's chunked bulk transfer.

The 4DPI-24-HAT bridge has no data/command pin. The driver therefore turns the ILI9341's
4-wire SPI protocol into frames, each opening with a control byte. That byte's bits carry
LONG, BLOCK, RESET, RS, BL and RD. There are three kinds of frame:

- A command is sent as `[0x2C, 0, code & 0xff]`.
- Each data word is sent as `[0x3C, hi, lo]`.
- A pixel buffer is cut into chunks of whole scan lines. Each chunk goes out as
  `[0xBC, 0, 0] ++ chunk`. After every chunk the driver re-programs the column window and
  the page window, then sends a new memory-write command.

The SPI transport is modelled as a log. Each `spi_write` call appends one frame to the
field `log` of the class `Ili9341FourDpi`.

- **Wire** (`wire.dfy`) holds:
  - the control flags and their byte encoding;
  - the three frame shapes;
  - a decoder that reads a frame back as a command, a data word, a bulk payload or a
    control-line-only frame.
- **Transfer** (`transfer.dfy`) describes as functions what the driver sends:
  - the short command/data path;
  - the chunk size and the chunk sequence, with its address windows.

  Its lemmas say what these sequences mean:
  - the payloads concatenate back to the buffer;
  - the number of chunks is a ceiling, and every chunk but the last is full;
  - each chunk is followed by the window that points at the next rows;
  - the 320×240 example.
- **Driver** (`driver.dfy`) holds:
  - the class, with the constructor's reset pulse and SPI mode;
  - one method per driver method. Each method is proved to append exactly the frames the
    Transfer functions describe, and to keep the object invariant: the log starts with the
    reset pulse, every later frame is a frame of normal operation, and the scroll offset
    lies in the range Python's `%` gives.

The body of the chunk loop is modelled by the method `SendChunk`. The three window writes
after each chunk are modelled by `WriteWindow`. Both keep the statements and their order.

The model keeps the code's own behaviour in four places where a reader might expect
something cleaner:

- **Column end.** The column window ends with the high byte of `width - 1` followed by
  the low byte of `width`, not of `width - 1`.
- **Page start.** The page window's first row is computed from `sent` after it has been
  advanced. It is therefore the row of the next chunk, and after the last chunk it can lie
  past the end of the buffer and of the panel.
- **Window after the last chunk.** The window and memory-write triple is also sent after
  the last chunk.
- **Scroll offset.** `scroll` sends the packed offset as two data frames, one per byte:
  `[0x3C, 0, hi]` and `[0x3C, 0, lo]`. It does not send one 16-bit data frame.

## Model

| member | source | states |
|---|---|---|
| Wire.ControlByte | ili9341_4dpi.py:18-23 | The flags OR-ed together give a byte in 0..255 whose two unused low bits are clear, and decoding that byte gives back the same flags. |
| Wire.ControlByteOnto | ili9341_4dpi.py:18-23 | Every byte with the two low bits clear encodes exactly one flag record. |
| Wire.ControlConstants | ili9341_4dpi.py:104-117 | The command, data and bulk flag sets encode to 0x2C, 0x3C and 0xBC. The two reset-pulse levels encode to 0x24 and 0x04. |
| Wire.SplitWord | ili9341_4dpi.py:113 | `(v >> 8) & 0xff` and `v & 0xff` are bytes, and together they give back the low 16 bits of `v`, negative `v` included. |
| Wire.CommandFrame | ili9341_4dpi.py:104-107 | Definition, no ensures: the frame `[0x2C, 0, v & 0xff]` that `xilinx_write_cmd` hands to `spi_write`. Its meaning is stated by `CommandFrameDecodes`. |
| Wire.DataFrame | ili9341_4dpi.py:113 | Definition, no ensures: the frame `[0x3C, (v >> 8) & 0xff, v & 0xff]` for one data word. Its meaning is stated by `DataFrameDecodes` and `SplitWord`. |
| Wire.BulkFrame | ili9341_4dpi.py:124 | Definition, no ensures: the long frame `[0xBC, 0, 0] ++ chunk`. Its meaning is stated by `BulkFrameDecodes`. |
| Wire.CommandFrameDecodes | ili9341_4dpi.py:104-107 | A command frame is a normal three-byte frame that the bridge reads as the command `v mod 256`. |
| Wire.DataFrameDecodes | ili9341_4dpi.py:113 | A data frame is a normal three-byte frame that the bridge reads as the data word `v mod 65536`. |
| Wire.BulkFrameDecodes | ili9341_4dpi.py:124 | A long frame gives back its chunk unchanged. It is a normal frame when the chunk holds bytes. |
| Wire.DataFrames | ili9341_4dpi.py:109-114 | There is one frame per element and every frame is normal. In input order, they read as the elements cut to 16 bits. |
| Wire.ResetPulse | ili9341_4dpi.py:87-91 | The pulse is three frames. They read as control-line-only frames: RESET+RD, then RD, then RESET+RD. |
| Transfer.NumChunks | ili9341_4dpi.py:122-125 | Definition, no ensures: how many times the loop runs for `n` bytes, counted as the loop counts, by subtracting a chunk at a time. Its value is stated by `NumChunksIsCeil` and `NumChunksBounds`. |
| Transfer.WindowFrames | ili9341_4dpi.py:129-131 | Definition, no ensures: the eleven frames of the column window, the page window from row `y`, and the memory-write command. They are tied to the three `write` calls by `WindowIsThreeWrites`, and their meaning is stated by `WindowOps`. |
| Transfer.BulkFrames | ili9341_4dpi.py:121-131 | Definition, no ensures: the frames the loop sends from offset `sent` on. Each chunk contributes its long frame, then the window at row `(sent + chunk) // (2 * width)`. Its shape is stated by `BulkFramesLength`, `BulkLayout` and `BulkPayloadsRoundTrip`. |
| Transfer.BulkTransfer | ili9341_4dpi.py:116-131 | Definition, no ensures: what `xilinx_write_lots_of_data` sends after its opening memory-write command. That is nothing for an empty buffer, and otherwise the chunk sequence from offset 0 with the driver's chunk size. Its meaning is stated by `BulkTransferLength` and `BulkWriteDecodes`. |
| Transfer.ShortWriteFrames | ili9341_4dpi.py:138-142 | Definition, no ensures: the command frame, if any, followed by the data frames, if any. Its meaning is stated by `ShortWriteDecodes`. |
| Transfer.RoutesToBulk | ili9341_4dpi.py:136 | Definition, no ensures: data is present, and the command is absent or is the memory-write command. `Write`'s ensures are split on it. |
| Transfer.ChunkBytes | ili9341_4dpi.py:123 | The chunk size is positive and at most `2 * 32767` bytes once `0 < width <= 32767`. |
| Transfer.ChunkBytesIs | ili9341_4dpi.py:123 | The chunk size is `2 * width * (32767 // width)`. |
| Transfer.ChunkIsWholeLines | ili9341_4dpi.py:123 | A chunk is a whole number of scan lines, at most 32767 pixels, and one more line would not fit. |
| Transfer.FloorDivIsDiv | ili9341_4dpi.py:126 | The repeated-subtraction quotient used for `//` is the floor quotient. |
| Transfer.NumChunksIsCeil | ili9341_4dpi.py:121-125 | The loop runs `ceil(n / chunk)` times for an `n`-byte buffer. |
| Transfer.NumChunksBounds | ili9341_4dpi.py:121-125 | Every non-empty buffer needs at least one chunk. All chunks but the last are full, and the last is not empty. |
| Transfer.WindowIsThreeWrites | ili9341_4dpi.py:129-131 | The window frames are exactly what the three `write` calls after a chunk send, in order. |
| Transfer.WindowNormal | ili9341_4dpi.py:129-131 | Every window frame is a decodable frame of normal operation. |
| Transfer.WindowOps | ili9341_4dpi.py:129-131 | The window reads as follows, in order: <br>• the column-set command with 0, 0, `(width-1) >> 8` and `width & 0xff`; <br>• the page-set command with the bytes of `y` and of `height - 1`; <br>• the memory-write command. |
| Transfer.WindowDecodes | ili9341_4dpi.py:129-131 | The window carries no pixel bytes. |
| Transfer.BulkFramesLength | ili9341_4dpi.py:121-131 | Each chunk makes twelve frames: the long frame, then the eleven frames of the window. |
| Transfer.BulkFramesWellFormed | ili9341_4dpi.py:121-131 | Every frame of the chunk sequence is decodable, and is normal when the buffer holds bytes. |
| Transfer.BulkPayloadsRoundTrip | ili9341_4dpi.py:121-128 | The long-frame payloads concatenate to the unsent part of the buffer. No byte is lost, repeated or reordered. |
| Transfer.ChunkLength | ili9341_4dpi.py:121-125 | The k-th chunk holds a full chunk of bytes, except the last chunk, which holds what remains. |
| Transfer.BulkLayout | ili9341_4dpi.py:121-131 | At frame `12k` sits the long frame for bytes `k*chunk` up to `(k+1)*chunk` (cut at the end of the buffer). Its length is a full chunk except for the last chunk. The next eleven frames are the window at row `((k+1)*chunk) // (2*width)`. |
| Transfer.PageStartAligned | ili9341_4dpi.py:123-126 | The window after the k-th chunk starts exactly at the first byte of the next chunk. |
| Transfer.Example320 | ili9341_4dpi.py:121-131 | With width 320 the chunk is 65280 bytes. After the opening memory-write command, a 153600-byte frame goes out as 36 frames, 37 in all. Its chunks hold 65280, 65280 and 23040 bytes, and their windows start at rows 102, 204 and 306. |
| Transfer.ShortWriteDecodes | ili9341_4dpi.py:138-142 | The short path sends normal frames that read as the command, if any, then the data words in order. With neither it sends nothing. |
| Transfer.BulkTransferLength | ili9341_4dpi.py:116-131 | An empty buffer sends nothing after the opening memory-write command. A non-empty one sends twelve frames per chunk. |
| Transfer.BulkWriteDecodes | ili9341_4dpi.py:116-131 | The bulk path opens with one memory-write command and every frame is normal. The payloads give back the buffer. |
| Driver.InitIsShortWrites | ili9341_4dpi.py:35-63 | The 21 set-up entries have byte-sized codes and byte parameters. None of them is the memory-write command, so `write` sends each on the short path. |
| Driver.SpiMode | ili9341_4dpi.py:78 | The mode is in 0..3: bit 1 is the polarity's low bit and bit 0 is the phase's low bit. |
| Driver.FloorMod | ili9341_4dpi.py:152 | Python's `%` takes the sign of the divisor, stays strictly inside it, and differs from the dividend by a multiple of it. |
| Driver.ModUnique | ili9341_4dpi.py:152 | For a positive height, the one in-range value that differs from the sum by a multiple of the height is the new offset. |
| Driver.FloorModShift | ili9341_4dpi.py:152 | Scrolling by whole multiples of the height leaves the offset unchanged. |
| Driver.ScrollExamples | ili9341_4dpi.py:152 | The deltas 0, h and -h leave the offset unchanged. The deltas h+5 and -(h+3) act as 5 and -3. From offset 0, on a panel of more than 5 lines, they give 5 and h-3. |
| Driver.ScrollFrames | ili9341_4dpi.py:153 | Definition, no ensures: the frames `write(0x37, struct.pack(">H", s))` sends. Its meaning is stated by `ScrollFramesDecode`. |
| Driver.Ili9341FourDpi.Valid | ili9341_4dpi.py:84-91 | The object invariant, no ensures. The log opens with the reset pulse the constructor sends, and every later frame is one of normal operation. The offset is 0 or a value Python's `%` by the height can give. Every method keeps it. |
| Driver.PackU16 | ili9341_4dpi.py:153 | `struct.pack(">H", s)` gives two bytes, high byte first, that give back `s`. |
| Driver.ScrollFramesDecode | ili9341_4dpi.py:153 | The scroll frames are `[0x2C,0,0x37]`, `[0x3C,0,s>>8]` and `[0x3C,0,s&0xff]`. They read as the vertical-scroll command and two one-byte data words that give back the offset. |
| Driver.Ili9341FourDpi.constructor | ili9341_4dpi.py:65-94 | The log is exactly the reset pulse and the offset is 0. The SPI mode is `SpiMode(polarity, phase)`, the other settings are as given, and the invariant holds. |
| Driver.Ili9341FourDpi.SpiWrite | ili9341_4dpi.py:107 | The transport appends the frame to the log. |
| Driver.Ili9341FourDpi.Reset | ili9341_4dpi.py:99-101 | Nothing changes. |
| Driver.Ili9341FourDpi.Read | ili9341_4dpi.py:144-146 | It returns None, and nothing changes. |
| Driver.Ili9341FourDpi.WriteCmd | ili9341_4dpi.py:104-107 | It appends exactly one command frame, `[0x2C, 0, v & 0xff]`, and keeps the invariant. |
| Driver.Ili9341FourDpi.WriteData | ili9341_4dpi.py:109-114 | It appends exactly the data frames of the elements in order, nothing for an empty input, and keeps the invariant. Loop invariant: the log holds the frames of the elements seen so far. |
| Driver.Ili9341FourDpi.WriteLotsOfData | ili9341_4dpi.py:116-131 | It appends one memory-write command, then the whole chunk sequence, and keeps the invariant. Loop invariant: the log followed by the frames still to send equals the final log. The loop stops because `sent` grows by a positive chunk. |
| Driver.Ili9341FourDpi.SendChunk | ili9341_4dpi.py:123-131 | One pass of the loop appends the chunk's long frame, advances `sent` by one chunk, and appends the window for the row the advanced `sent` points to. |
| Driver.Ili9341FourDpi.WriteWindow | ili9341_4dpi.py:129-131 | The three writes append exactly the window frames. |
| Driver.Ili9341FourDpi.Write | ili9341_4dpi.py:134-142 | Data with no command, or with the memory-write command, appends the bulk transfer; the caller's memory-write command is not sent twice. Otherwise it appends the command frame, if any, then the data frames, if any. |
| Driver.Ili9341FourDpi.Scroll | ili9341_4dpi.py:148-154 | With no delta it returns the offset and changes nothing. With a delta the offset becomes `(old + dy) % height`, and the vertical-scroll frames for it are appended. A zero height raises before anything changes. An offset `struct.pack` cannot hold raises after it is stored and before anything is sent. |
| Driver.ChunkSent | ili9341_4dpi.py:128 | Appending a chunk's long frame keeps the log a reset pulse followed by normal frames. |
| Driver.WindowSent | ili9341_4dpi.py:129-131 | The three short writes after a chunk together append the window. |
| Driver.RemainingUnfold | ili9341_4dpi.py:121-131 | What is left to send is the next chunk's frame, its window, and what is left after that chunk. |
| Driver.ChunkStep | ili9341_4dpi.py:121-131 | One pass of the loop keeps its log equation. |

## Left out

- **The pigpio transport.** `pigpio.pi()`, `spi_open` and `spi_close` in `__del__` are
  hardware I/O. `spi_write` is modelled as an append to the log. Transport failures are not
  modelled, since the driver does not handle them itself.
- **`time.sleep` in the constructor.** The delays only affect timing.
- **The display base class.** `adafruit_rgb_display.rgb.Display` and `super().__init__`
  are not part of this model: replaying `_INIT`, rotation, and `pixel`/`fill`/`image`. The
  constructor stores width, height and rotation as fields. `_INIT` is kept as constant data
  together with a lemma about its entries. The order in which the base class replays it is
  not modelled.
- **Module plumbing.** The `struct`/`ustruct` import fallback is not modelled;
  `struct.pack(">H", s)` is modelled directly.
- **Constructor defaults.** `__init__` has defaults for every parameter: channel 0, baud
  rate 24000000, 320×240, rotation 0, offsets 0, polarity and phase 0. The model's
  constructor takes all nine arguments explicitly.
- **`_RAM_READ`.** The constant 0x2E is declared but never used, since `read` does nothing.
  It is not modelled.
- **`example.py`.** It is not part of this model.
- Driver.Ili9341FourDpi.WriteLotsOfData: requires a buffer of byte values and, when it is
  non-empty, `0 < width <= 32767`.
  - Python raises `TypeError` for a list buffer, which the model cannot tell apart from
    `bytes`.
  - It raises `ZeroDivisionError` for width 0.
  - A wider panel makes the chunk empty, and the loop never ends.
  - Negative widths, which Python would accept, are not modelled.
- Driver.Ili9341FourDpi.Write: on the bulk path it requires what `WriteLotsOfData`
  requires, for the same reasons.
- Driver.Ili9341FourDpi.Read: the `command` and `count` arguments are accepted and
  ignored.
- **Integer width and flags.** Python integers are unbounded and so are Dafny's `int`.
  The control byte's OR of distinct single-bit flags is written as a sum.
