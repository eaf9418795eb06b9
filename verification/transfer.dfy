/** What the driver sends, as sequences of frames: the short command/data path, the chunked
    bulk transfer with its address-window reprogramming between chunks, and the dispatch
    between the two. The driver's methods are proved to append exactly these sequences; the
    lemmas here say what the sequences mean to the panel. */
module Transfer {
  import opened Wire

  function Min(a: int, b: int): int { if a <= b then a else b }

  lemma MulAtLeast(c: int, d: int)
    requires c > 0 && d >= 1
    ensures c * d >= c
  {
    assert c * d == c * (d - 1) + c;
    assert c * (d - 1) >= 0;
  }

  /** `x / c` is determined by the bracket `c * q <= x < c * q + c`. */
  lemma DivUnique(x: int, c: int, q: int)
    requires c > 0 && c * q <= x < c * q + c
    ensures x / c == q
  {
    var p := x / c;
    assert x == c * p + x % c;
    if p > q {
      assert c * p == c * q + c * (p - q);
      MulAtLeast(c, p - q);
    } else if p < q {
      assert c * q == c * p + c * (q - p);
      MulAtLeast(c, q - p);
    }
  }

  /** Python's `//` on a non-negative dividend, as repeated subtraction; FloorDivIsDiv shows
      it is `/`. Written this way so that the solver unfolds it only where a proof asks. */
  function FloorDiv(x: int, d: int): nat
    requires x >= 0 && d > 0
    decreases x
  {
    if x < d then 0 else 1 + FloorDiv(x - d, d)
  }

  lemma {:induction false} FloorDivIsDiv(x: int, d: int)
    requires x >= 0 && d > 0
    ensures FloorDiv(x, d) == x / d
    decreases x
  {
    if x < d {
      DivUnique(x, d, 0);
    } else {
      FloorDivIsDiv(x - d, d);
      var q := (x - d) / d;
      assert x - d == d * q + (x - d) % d;
      assert d * (q + 1) == d * q + d;
      DivUnique(x, d, q + 1);
    }
  }

  /** Bytes per long transfer, as `2 * width * (MAX_DMA_PIXELS // width)`. */
  function ChunkBytes(width: int): (c: int)
    requires 0 < width <= MAX_DMA_PIXELS
    ensures 0 < c <= 2 * MAX_DMA_PIXELS
  {
    var lines := FloorDiv(MAX_DMA_PIXELS, width);
    FloorDivIsDiv(MAX_DMA_PIXELS, width);
    assert MAX_DMA_PIXELS == width * lines + MAX_DMA_PIXELS % width;
    MulAtLeast(2 * width, lines);
    2 * width * lines
  }

  /** `2 * width * (MAX_DMA_PIXELS // width)` is the chunk size the loop computes. */
  lemma ChunkBytesIs(width: int)
    requires 0 < width <= MAX_DMA_PIXELS
    ensures 2 * width * (MAX_DMA_PIXELS / width) == ChunkBytes(width)
  {
    FloorDivIsDiv(MAX_DMA_PIXELS, width);
  }

  /** A chunk is as many whole scan lines (two bytes a pixel) as fit in MAX_DMA_PIXELS
      pixels: one more line would not fit. */
  lemma ChunkIsWholeLines(width: int)
    requires 0 < width <= MAX_DMA_PIXELS
    ensures var c := ChunkBytes(width);
      c % (2 * width) == 0 && c / 2 <= MAX_DMA_PIXELS < c / 2 + width
  {
    var lines := FloorDiv(MAX_DMA_PIXELS, width);
    FloorDivIsDiv(MAX_DMA_PIXELS, width);
    assert MAX_DMA_PIXELS == width * lines + MAX_DMA_PIXELS % width;
    var c := 2 * width * lines;
    assert c == (2 * width) * lines;
    DivUnique(c, 2 * width, lines);
    assert c / 2 == width * lines;
  }

  /** The buffer lengths for which the chunk loop terminates: an empty buffer never enters
      it, and otherwise the chunk must be at least one line long. */
  predicate Feasible(n: int, width: int) { n == 0 || 0 < width <= MAX_DMA_PIXELS }

  /** Number of chunks a buffer of `n` bytes needs, counted as the loop counts them. */
  function NumChunks(n: int, c: int): nat
    requires c > 0
    decreases n
  {
    if n <= 0 then 0 else 1 + NumChunks(n - c, c)
  }

  /** The loop sends `ceil(n / c)` chunks. */
  lemma {:induction false} NumChunksIsCeil(n: int, c: int)
    requires n >= 0 && c > 0
    ensures NumChunks(n, c) == (n + c - 1) / c
    decreases n
  {
    if n == 0 {
      DivUnique(c - 1, c, 0);
    } else if n - c <= 0 {
      DivUnique(n + c - 1, c, 1);
    } else {
      NumChunksIsCeil(n - c, c);
      var q := (n - 1) / c;
      assert n - 1 == c * q + (n - 1) % c;
      DivUnique(n + c - 1, c, q + 1);
    }
  }

  /** All chunks but the last are full, and the last one is not empty. */
  lemma {:induction false} NumChunksBounds(n: int, c: int)
    requires n > 0 && c > 0
    ensures NumChunks(n, c) >= 1
    ensures c * (NumChunks(n, c) - 1) < n <= c * NumChunks(n, c)
    decreases n
  {
    if n - c > 0 {
      NumChunksBounds(n - c, c);
      var k := NumChunks(n - c, c);
      assert c * (k + 1) == c * k + c;
    }
  }

  /** The address window re-issued after every chunk: columns 0 to the width, rows from `y`
      to the last line, then a new memory write. The column end goes out as the high byte
      of `width - 1` followed by the low byte of `width`, as the driver writes it. */
  function WindowFrames(width: int, height: int, y: int): seq<seq<int>>
  {
    [CommandFrame(COLUMN_SET),
     DataFrame(0), DataFrame(0), DataFrame((width - 1) / 256), DataFrame(width % 256),
     CommandFrame(PAGE_SET),
     DataFrame(y / 256), DataFrame(y % 256), DataFrame((height - 1) / 256), DataFrame((height - 1) % 256),
     CommandFrame(RAM_WRITE)]
  }

  /** The window is what the three `write` calls after a chunk send. */
  lemma WindowIsThreeWrites(width: int, height: int, y: int)
    ensures WindowFrames(width, height, y)
         == ShortWriteFrames(Some(COLUMN_SET), Some([0, 0, (width - 1) / 256, width % 256]))
          + ShortWriteFrames(Some(PAGE_SET), Some([y / 256, y % 256, (height - 1) / 256, (height - 1) % 256]))
          + ShortWriteFrames(Some(RAM_WRITE), None)
  {
  }

  /** The window's frames are frames of normal operation. */
  lemma WindowNormal(width: int, height: int, y: int)
    ensures AllWellFormed(WindowFrames(width, height, y)) && AllNormal(WindowFrames(width, height, y))
  {
    CommandFrameDecodes(COLUMN_SET);
    CommandFrameDecodes(PAGE_SET);
    CommandFrameDecodes(RAM_WRITE);
    DataFrameDecodes(0);
    DataFrameDecodes((width - 1) / 256);
    DataFrameDecodes(width % 256);
    DataFrameDecodes(y / 256);
    DataFrameDecodes(y % 256);
    DataFrameDecodes((height - 1) / 256);
    DataFrameDecodes((height - 1) % 256);
  }

  /** What the window asks of the panel: the column range, the page range, a memory write. */
  lemma WindowOps(width: int, height: int, y: int)
    ensures AllWellFormed(WindowFrames(width, height, y))
    ensures DecodeLog(WindowFrames(width, height, y)) ==
        [Command(COLUMN_SET)] + DataOps([0, 0, (width - 1) / 256, width % 256])
        + [Command(PAGE_SET)] + DataOps([y / 256, y % 256, (height - 1) / 256, (height - 1) % 256])
        + [Command(RAM_WRITE)]
  {
    CommandFrameDecodes(COLUMN_SET);
    CommandFrameDecodes(PAGE_SET);
    CommandFrameDecodes(RAM_WRITE);
    DataFrameDecodes(0);
    DataFrameDecodes((width - 1) / 256);
    DataFrameDecodes(width % 256);
    DataFrameDecodes(y / 256);
    DataFrameDecodes(y % 256);
    DataFrameDecodes((height - 1) / 256);
    DataFrameDecodes((height - 1) % 256);
  }

  /** The window is decodable, normal, and carries no pixel bytes. */
  lemma WindowDecodes(width: int, height: int, y: int)
    ensures AllWellFormed(WindowFrames(width, height, y)) && AllNormal(WindowFrames(width, height, y))
    ensures BulkPayloads(DecodeLog(WindowFrames(width, height, y))) == []
  {
    WindowNormal(width, height, y);
    WindowOps(width, height, y);
    var ops := DecodeLog(WindowFrames(width, height, y));
    assert forall i :: 0 <= i < |ops| ==> !ops[i].Bulk?;
    NoBulkPayloads(ops);
  }

  /** The frames the chunk loop sends, with chunks of `chunk` bytes, once `sent` bytes have
      gone out: the next chunk in a long frame, then the window starting at the line the
      advanced offset points to, then the rest. */
  function BulkFrames(values: seq<int>, sent: int, chunk: int, width: int, height: int): seq<seq<int>>
    requires 0 <= sent && chunk > 0 && width > 0
    decreases |values| - sent
  {
    if sent >= |values| then []
    else
      [BulkFrame(values[sent .. Min(sent + chunk, |values|)])]
      + WindowFrames(width, height, FloorDiv(sent + chunk, 2 * width))
      + BulkFrames(values, sent + chunk, chunk, width, height)
  }

  /** Everything `xilinx_write_lots_of_data` sends after its opening memory-write command. */
  function BulkTransfer(values: seq<int>, width: int, height: int): seq<seq<int>>
    requires Feasible(|values|, width)
  {
    if values == [] then [] else BulkFrames(values, 0, ChunkBytes(width), width, height)
  }

  /** What the chunk loop still has to send once `sent` bytes of the buffer have gone. */
  function BulkRemaining(values: seq<int>, sent: nat, width: int, height: int): seq<seq<int>>
    requires Feasible(|values|, width)
  {
    if sent >= |values| then [] else BulkFrames(values, sent, ChunkBytes(width), width, height)
  }

  /** Twelve frames (chunk, column window, page window, memory write) per chunk. */
  lemma {:induction false} BulkFramesLength(values: seq<int>, sent: int, chunk: int, width: int, height: int)
    requires 0 <= sent && chunk > 0 && width > 0
    ensures |BulkFrames(values, sent, chunk, width, height)| == 12 * NumChunks(|values| - sent, chunk)
    decreases |values| - sent
  {
    if sent < |values| {
      BulkFramesLength(values, sent + chunk, chunk, width, height);
    }
  }

  /** Every frame of a bulk sequence can be decoded, and is a frame of normal operation when
      the buffer holds bytes. */
  lemma {:induction false} BulkFramesWellFormed(values: seq<int>, sent: int, chunk: int, width: int, height: int)
    requires 0 <= sent && chunk > 0 && width > 0
    ensures AllWellFormed(BulkFrames(values, sent, chunk, width, height))
    ensures IsBytes(values) ==> AllNormal(BulkFrames(values, sent, chunk, width, height))
    decreases |values| - sent
  {
    if sent < |values| {
      var part := values[sent .. Min(sent + chunk, |values|)];
      var window := WindowFrames(width, height, FloorDiv(sent + chunk, 2 * width));
      var rest := BulkFrames(values, sent + chunk, chunk, width, height);
      assert BulkFrames(values, sent, chunk, width, height) == [BulkFrame(part)] + window + rest;
      BulkFramesWellFormed(values, sent + chunk, chunk, width, height);
      WindowDecodes(width, height, FloorDiv(sent + chunk, 2 * width));
      BulkFrameDecodes(part);
      AllWellFormedAppend([BulkFrame(part)], window);
      AllWellFormedAppend([BulkFrame(part)] + window, rest);
      if IsBytes(values) {
        assert IsBytes(part);
        AllNormalAppend([BulkFrame(part)], window);
        AllNormalAppend([BulkFrame(part)] + window, rest);
      }
    }
  }

  /** The frames sent for one chunk: the long frame, then the window. */
  function ChunkGroup(part: seq<int>, width: int, height: int, y: int): seq<seq<int>>
  {
    [BulkFrame(part)] + WindowFrames(width, height, y)
  }

  /** When the tail of `fs` from `i` on starts with `g`, the elements of `g` sit at `i` on. */
  lemma SliceOfSuffix<T>(fs: seq<T>, i: int, g: seq<T>, r: seq<T>)
    requires 0 <= i <= |fs| && fs[i..] == g + r && |g| >= 1
    ensures fs[i] == g[0] && fs[i + 1 .. i + |g|] == g[1..]
  {
    assert fs[i + 1 .. i + |g|] == (g + r)[1 .. |g|];
  }

  /** The bulk payloads of a decodable frame sequence. */
  function LogPayloads(fs: seq<seq<int>>): seq<seq<int>>
    requires AllWellFormed(fs)
  {
    BulkPayloads(DecodeLog(fs))
  }

  lemma LogPayloadsAppend(a: seq<seq<int>>, b: seq<seq<int>>)
    requires AllWellFormed(a) && AllWellFormed(b)
    ensures AllWellFormed(a + b)
    ensures LogPayloads(a + b) == LogPayloads(a) + LogPayloads(b)
  {
    DecodeLogAppend(a, b);
    BulkPayloadsAppend(DecodeLog(a), DecodeLog(b));
  }

  /** One chunk's frames carry exactly that chunk as payload. */
  lemma GroupPayloads(part: seq<int>, width: int, height: int, y: int)
    ensures AllWellFormed(ChunkGroup(part, width, height, y))
    ensures LogPayloads(ChunkGroup(part, width, height, y)) == [part]
  {
    var window := WindowFrames(width, height, y);
    WindowDecodes(width, height, y);
    BulkFrameDecodes(part);
    LogPayloadsAppend([BulkFrame(part)], window);
    assert DecodeLog([BulkFrame(part)]) == [Bulk(part)];
    assert BulkPayloads([Bulk(part)]) == [part];
  }

  lemma BulkFramesUnfold(values: seq<int>, sent: int, chunk: int, width: int, height: int)
    requires 0 <= sent < |values| && chunk > 0 && width > 0
    ensures BulkFrames(values, sent, chunk, width, height)
         == ChunkGroup(values[sent .. Min(sent + chunk, |values|)], width, height, FloorDiv(sent + chunk, 2 * width))
          + BulkFrames(values, sent + chunk, chunk, width, height)
  {
  }

  lemma ConcatCons(p: seq<int>, ps: seq<seq<int>>)
    ensures Concat([p] + ps) == p + Concat(ps)
  {
    assert ([p] + ps)[1..] == ps;
  }

  /** Putting one chunk's frames in front of a decodable sequence puts the chunk in front
      of its payloads. */
  lemma GroupInFront(part: seq<int>, width: int, height: int, y: int, rest: seq<seq<int>>, tail: seq<int>)
    requires AllWellFormed(rest) && Concat(LogPayloads(rest)) == tail
    ensures AllWellFormed(ChunkGroup(part, width, height, y) + rest)
    ensures Concat(LogPayloads(ChunkGroup(part, width, height, y) + rest)) == part + tail
  {
    var group := ChunkGroup(part, width, height, y);
    GroupPayloads(part, width, height, y);
    LogPayloadsAppend(group, rest);
    ConcatCons(part, LogPayloads(rest));
  }

  /** One step of the chunk loop keeps the payloads equal to the unsent bytes. */
  lemma RoundTripStep(values: seq<int>, sent: int, chunk: int, width: int, height: int)
    requires 0 <= sent && chunk > 0 && width > 0 && sent + chunk < |values|
    requires AllWellFormed(BulkFrames(values, sent + chunk, chunk, width, height))
    requires Concat(LogPayloads(BulkFrames(values, sent + chunk, chunk, width, height))) == values[sent + chunk ..]
    ensures AllWellFormed(BulkFrames(values, sent, chunk, width, height))
    ensures Concat(LogPayloads(BulkFrames(values, sent, chunk, width, height))) == values[sent..]
  {
    var part := values[sent .. sent + chunk];
    GroupInFront(part, width, height, FloorDiv(sent + chunk, 2 * width),
                 BulkFrames(values, sent + chunk, chunk, width, height), values[sent + chunk ..]);
    assert values[sent..] == part + values[sent + chunk ..];
    BulkFramesUnfold(values, sent, chunk, width, height);
  }

  /** The last chunk carries all that is left. */
  lemma RoundTripLast(values: seq<int>, sent: int, chunk: int, width: int, height: int)
    requires 0 <= sent < |values| <= sent + chunk && chunk > 0 && width > 0
    ensures AllWellFormed(BulkFrames(values, sent, chunk, width, height))
    ensures Concat(LogPayloads(BulkFrames(values, sent, chunk, width, height))) == values[sent..]
  {
    var rest := BulkFrames(values, sent + chunk, chunk, width, height);
    assert rest == [];
    assert LogPayloads(rest) == [];
    GroupInFront(values[sent..], width, height, FloorDiv(sent + chunk, 2 * width), rest, []);
    assert values[sent..] + [] == values[sent..];
    assert values[sent .. Min(sent + chunk, |values|)] == values[sent..];
    BulkFramesUnfold(values, sent, chunk, width, height);
  }

  /** The long-frame payloads of the bulk sequence concatenate back to the unsent part of
      the buffer: no byte is dropped, repeated or reordered. */
  lemma {:induction false} BulkPayloadsRoundTrip(values: seq<int>, sent: int, chunk: int, width: int, height: int)
    requires 0 <= sent <= |values| && chunk > 0 && width > 0
    ensures AllWellFormed(BulkFrames(values, sent, chunk, width, height))
    ensures Concat(LogPayloads(BulkFrames(values, sent, chunk, width, height))) == values[sent..]
    decreases |values| - sent
  {
    if sent + chunk < |values| {
      BulkPayloadsRoundTrip(values, sent + chunk, chunk, width, height);
      RoundTripStep(values, sent, chunk, width, height);
    } else if sent < |values| {
      RoundTripLast(values, sent, chunk, width, height);
    } else {
      assert BulkFrames(values, sent, chunk, width, height) == [];
      assert LogPayloads([]) == [];
    }
  }

  /** `k * c` as repeated addition, so that the offsets in the proofs below stay linear. */
  function Times(k: nat, c: nat): nat
  {
    if k == 0 then 0 else Times(k - 1, c) + c
  }

  lemma {:induction false} TimesIsProduct(k: nat, c: nat)
    ensures Times(k, c) == k * c
  {
    if k > 0 {
      TimesIsProduct(k - 1, c);
      assert k * c == (k - 1) * c + c;
    }
  }

  /** Skipping the first `k` groups of twelve frames leaves what the loop sends from
      offset `sent + k * chunk` on. */
  lemma {:induction false} BulkFramesSkip(values: seq<int>, sent: int, chunk: int, width: int, height: int, k: nat)
    requires 0 <= sent && chunk > 0 && width > 0
    requires k < NumChunks(|values| - sent, chunk)
    ensures sent + Times(k, chunk) < |values|
    ensures 12 * k < |BulkFrames(values, sent, chunk, width, height)|
    ensures BulkFrames(values, sent, chunk, width, height)[12 * k ..]
         == BulkFrames(values, sent + Times(k, chunk), chunk, width, height)
    decreases k
  {
    var fs := BulkFrames(values, sent, chunk, width, height);
    assert sent < |values|;
    if k > 0 {
      var rest := BulkFrames(values, sent + chunk, chunk, width, height);
      BulkFramesSkip(values, sent + chunk, chunk, width, height, k - 1);
      assert fs[12..] == rest;
      assert fs[12 * k ..] == rest[12 * (k - 1) ..];
    }
  }

  /** How many bytes the k-th chunk (counting from 0) holds: every chunk but the last is
      full, and the last holds what remains. */
  lemma {:induction false} ChunkLength(n: int, chunk: int, k: nat)
    requires chunk > 0 && k < NumChunks(n, chunk)
    ensures Times(k, chunk) < n
    ensures var len := Min(Times(k, chunk) + chunk, n) - Times(k, chunk);
      0 < len <= chunk &&
      len == (if k < NumChunks(n, chunk) - 1 then chunk else n - Times(NumChunks(n, chunk) - 1, chunk))
    decreases k
  {
    if k > 0 {
      ChunkLength(n - chunk, chunk, k - 1);
      assert Times(k, chunk) == Times(k - 1, chunk) + chunk;
      if k == NumChunks(n, chunk) - 1 {
        assert Times(NumChunks(n, chunk) - 1, chunk) == Times(NumChunks(n - chunk, chunk) - 1, chunk) + chunk;
      }
    } else if NumChunks(n, chunk) > 1 {
      assert n - chunk > 0;
    }
  }

  /** Where the k-th chunk and the window after it sit, with the offset written as a
      repeated addition. */
  lemma ChunkAt(values: seq<int>, chunk: int, width: int, height: int, k: nat)
    requires chunk > 0 && width > 0
    requires k < NumChunks(|values|, chunk)
    ensures Times(k, chunk) < |values|
    ensures 12 * k + 12 <= |BulkFrames(values, 0, chunk, width, height)|
    ensures var off := Times(k, chunk);
      BulkFrames(values, 0, chunk, width, height)[12 * k] == BulkFrame(values[off .. Min(off + chunk, |values|)]) &&
      BulkFrames(values, 0, chunk, width, height)[12 * k + 1 .. 12 * k + 12]
        == WindowFrames(width, height, FloorDiv(off + chunk, 2 * width))
  {
    BulkFramesSkip(values, 0, chunk, width, height, k);
    var off := Times(k, chunk);
    var fs := BulkFrames(values, 0, chunk, width, height);
    var part := values[off .. Min(off + chunk, |values|)];
    var group := ChunkGroup(part, width, height, FloorDiv(off + chunk, 2 * width));
    BulkFramesUnfold(values, off, chunk, width, height);
    assert |group| == 12 && group[0] == BulkFrame(part) && group[1..] == WindowFrames(width, height, FloorDiv(off + chunk, 2 * width));
    SliceOfSuffix(fs, 12 * k, group, BulkFrames(values, off + chunk, chunk, width, height));
  }

  /** Where the k-th chunk (counting from 0) and the window after it sit in the bulk
      sequence, and how long that chunk is: every chunk but the last is full. The window's
      first row comes from the advanced offset, also after the last chunk, where that offset
      runs past the end of the buffer. */
  lemma BulkLayout(values: seq<int>, chunk: int, width: int, height: int, k: nat)
    requires chunk > 0 && width > 0
    requires k < NumChunks(|values|, chunk)
    ensures |BulkFrames(values, 0, chunk, width, height)| == 12 * NumChunks(|values|, chunk)
    ensures k * chunk < |values|
    ensures var part := values[k * chunk .. Min((k + 1) * chunk, |values|)];
      var n := NumChunks(|values|, chunk);
      BulkFrames(values, 0, chunk, width, height)[12 * k] == BulkFrame(part) &&
      0 < |part| <= chunk &&
      |part| == (if k < n - 1 then chunk else |values| - (n - 1) * chunk)
    ensures BulkFrames(values, 0, chunk, width, height)[12 * k + 1 .. 12 * k + 12]
         == WindowFrames(width, height, FloorDiv((k + 1) * chunk, 2 * width))
  {
    BulkFramesLength(values, 0, chunk, width, height);
    ChunkAt(values, chunk, width, height, k);
    ChunkLength(|values|, chunk, k);
    TimesIsProduct(k, chunk);
    TimesIsProduct(NumChunks(|values|, chunk) - 1, chunk);
    assert (k + 1) * chunk == Times(k, chunk) + chunk;
  }

  /** Dividing an exact multiple gives the factor back. */
  lemma FloorDivExact(x: int, d: int, m: int)
    requires d > 0 && m >= 0 && x == d * m
    ensures FloorDiv(x, d) == m && FloorDiv(x, d) * d == x
  {
    FloorDivIsDiv(x, d);
    DivUnique(x, d, m);
  }

  /** With the driver's chunk size, the window after the k-th chunk starts exactly on the
      row where the next chunk's bytes begin: chunks are whole scan lines. */
  lemma PageStartAligned(width: int, k: nat)
    requires 0 < width <= MAX_DMA_PIXELS
    ensures var c := ChunkBytes(width);
      FloorDiv((k + 1) * c, 2 * width) * (2 * width) == (k + 1) * c
  {
    var lines := FloorDiv(MAX_DMA_PIXELS, width);
    assert ChunkBytes(width) == (2 * width) * lines;
    assert (k + 1) * ((2 * width) * lines) == (2 * width) * ((k + 1) * lines);
    FloorDivExact((k + 1) * ChunkBytes(width), 2 * width, (k + 1) * lines);
  }

  /** The 320 x 240 panel: a full frame of 153600 bytes goes out as three chunks of 65280,
      65280 and 23040 bytes (102 lines each, the last one 36), and the windows after them
      start at rows 102, 204 and 306, the last one past the panel's 240 rows. */
  lemma Example320(values: seq<int>, k: nat)
    requires |values| == 153600 && k < 3
    ensures ChunkBytes(320) == 65280
    ensures |BulkTransfer(values, 320, 240)| == 36
    ensures var fs := BulkTransfer(values, 320, 240);
      var part := values[65280 * k .. Min(65280 * (k + 1), 153600)];
      fs[12 * k] == BulkFrame(part) &&
      fs[12 * k + 1 .. 12 * k + 12] == WindowFrames(320, 240, 102 * (k + 1)) &&
      |part| == (if k < 2 then 65280 else 23040)
  {
    FloorDivIsDiv(MAX_DMA_PIXELS, 320);
    assert ChunkBytes(320) == 65280;
    assert NumChunks(153600, 65280) == 3;
    BulkLayout(values, 65280, 320, 240, k);
    FloorDivExact(65280 * (k + 1), 640, 102 * (k + 1));
  }

  /** What a frame sequence means to the panel when `command` is present. */
  function CommandOps(command: Option<int>): seq<Op>
  {
    if command.Some? then [Command(command.value % 256)] else []
  }

  /** The short path of `write`: the command frame, if any, then one frame per data word. */
  function ShortWriteFrames(command: Option<int>, data: Option<seq<int>>): seq<seq<int>>
  {
    (if command.Some? then [CommandFrame(command.value)] else [])
    + (if data.Some? then DataFrames(data.value) else [])
  }

  /** The short path sends normal frames that ask for the command, then the data words in
      order, each cut to 16 bits; with neither it sends nothing. */
  lemma ShortWriteDecodes(command: Option<int>, data: Option<seq<int>>)
    ensures AllNormal(ShortWriteFrames(command, data)) && AllWellFormed(ShortWriteFrames(command, data))
    ensures DecodeLog(ShortWriteFrames(command, data))
         == CommandOps(command) + (if data.Some? then DataOps(data.value) else [])
    ensures command.None? && data.None? ==> ShortWriteFrames(command, data) == []
  {
    var head := if command.Some? then [CommandFrame(command.value)] else [];
    var tail := if data.Some? then DataFrames(data.value) else [];
    if command.Some? {
      CommandFrameDecodes(command.value);
    }
    DecodeLogAppend(head, tail);
    AllNormalAppend(head, tail);
  }

  /** `write` sends data given with no command, or with the memory-write command, as a
      bulk transfer. */
  predicate RoutesToBulk(command: Option<int>, data: Option<seq<int>>)
  {
    data.Some? && (command.None? || command.value == RAM_WRITE)
  }

  /** What the bulk path needs: a byte buffer, and a width for which its loop terminates. */
  predicate WriteAllowed(command: Option<int>, data: Option<seq<int>>, width: int)
  {
    RoutesToBulk(command, data) ==> IsBytes(data.value) && Feasible(|data.value|, width)
  }

  /** Twelve frames per chunk. */
  lemma BulkTransferLength(values: seq<int>, width: int, height: int)
    requires Feasible(|values|, width)
    ensures values == [] ==> BulkTransfer(values, width, height) == []
    ensures values != [] ==>
      |BulkTransfer(values, width, height)| == 12 * NumChunks(|values|, ChunkBytes(width))
  {
    if values != [] {
      BulkFramesLength(values, 0, ChunkBytes(width), width, height);
    }
  }

  /** The bulk path of `write`: a single memory-write command opens the transfer, every
      frame is normal, and the payloads give back the buffer. */
  lemma BulkWriteDecodes(values: seq<int>, width: int, height: int)
    requires IsBytes(values) && Feasible(|values|, width)
    ensures AllWellFormed([CommandFrame(RAM_WRITE)] + BulkTransfer(values, width, height))
    ensures AllNormal([CommandFrame(RAM_WRITE)] + BulkTransfer(values, width, height))
    ensures DecodeFrame(CommandFrame(RAM_WRITE)) == Command(RAM_WRITE)
    ensures Concat(LogPayloads([CommandFrame(RAM_WRITE)] + BulkTransfer(values, width, height))) == values
  {
    var head := [CommandFrame(RAM_WRITE)];
    var bulk := BulkTransfer(values, width, height);
    CommandFrameDecodes(RAM_WRITE);
    if values != [] {
      BulkFramesWellFormed(values, 0, ChunkBytes(width), width, height);
      BulkPayloadsRoundTrip(values, 0, ChunkBytes(width), width, height);
      assert values[0..] == values;
    } else {
      assert LogPayloads(bulk) == [];
    }
    assert DecodeLog(head) == [Command(RAM_WRITE)];
    assert BulkPayloads([Command(RAM_WRITE)]) == [] + BulkPayloads([]);
    LogPayloadsAppend(head, bulk);
    assert LogPayloads(head + bulk) == LogPayloads(bulk);
    AllNormalAppend(head, bulk);
  }
}
