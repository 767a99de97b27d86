/** Driver for SSD1681 e-paper panels (200x200 by default).

    The driver keeps a one-bit-per-pixel framebuffer in memory, `ceil(width,
    8)` bytes per row with bit 7 of each byte the leftmost pixel, and copies
    it to the panel's black/white RAM one row per command.  All of its
    arithmetic is `int16`.  Every command is one chip-select frame: the
    opcode with data/command select low, then the data bytes with it high.
    The opcode values are defined outside this driver, so the model keeps
    them as a record of parameters fixed when the device is made. */
module Ssd1681 {
  import opened Numeric
  import opened Wire
  import opened Framebuffer
  import opened Optional

  datatype OpcodeSet = OpcodeSet(
    swReset: bv8, driverControl: bv8, dataMode: bv8, setRamXPos: bv8,
    setRamYPos: bv8, writeBorder: bv8, tempControl: bv8, setRamXCount: bv8,
    setRamYCount: bv8, writeBwRam: bv8, dispCtrl2: bv8, masterActivate: bv8,
    deepSleep: bv8)

  /** The commands Display sends around the rows are not WRITE_BWRAM. */
  predicate RamWriteDistinct(ops: OpcodeSet) {
    ops.setRamXCount != ops.writeBwRam && ops.setRamYCount != ops.writeBwRam
    && ops.dispCtrl2 != ops.writeBwRam && ops.masterActivate != ops.writeBwRam
  }

  datatype Config = Config(width: int, height: int)

  const DefaultSize: int := 200

  const ErrDrawingOutOfBounds: string := "rectangle coordinates outside display area"

  /** Go's `/`: the quotient truncated toward zero, so the remainder takes
      the sign of the dividend and the quotient never has the opposite sign. */
  function Quot(a: int, b: int): (q: int)
    requires b > 0
    ensures 0 <= a ==> 0 <= q && 0 <= a - q * b < b
    ensures a <= 0 ==> q <= 0 && -b < a - q * b <= 0
  {
    if a >= 0 then a / b else -((-a) / b)
  }

  /** `ceil(n, d)` on `int16`: `(n + d - 1) / d`, the sum wrapping.  The
      result times d stays within `int16`. */
  function Ceil(n: int, d: int): (k: int)
    requires 0 < d
    ensures MIN16 <= k * d <= MAX16
  {
    Quot(Wrap16(n + d - 1), d)
  }

  /** Without wrap-around, Ceil is the least k with k * d >= n. */
  lemma CeilIsLeast(n: int, d: int)
    requires 0 <= n && 0 < d && n + d - 1 <= MAX16
    ensures Ceil(n, d) >= 0
    ensures Ceil(n, d) * d >= n
    ensures (Ceil(n, d) - 1) * d < n
  {
    var k, r := (n + d - 1) / d, (n + d - 1) % d;
    assert n + d - 1 == k * d + r;
    assert Ceil(n, d) == k;
    assert (k - 1) * d == k * d - d;
  }

  /** The `int16` sum wraps for widths near the top of the range: a width of
      32767 gives a negative row stride. */
  lemma CeilWraps()
    ensures Ceil(MAX16, 8) == -4095
  {
    assert Wrap16(MAX16 + 7) == -32762;
  }

  /** The bytes per framebuffer row. */
  function Stride(width: int): int {
    Ceil(width, 8)
  }

  /** A panel geometry whose buffer size does not overflow `int16`. */
  predicate Fits(width: int, height: int) {
    1 <= width <= MAX16 - 7 && 1 <= height <= MAX16
    && (CeilIsLeast(width, 8); Times(height, Stride(width)) <= MAX16)
  }

  /** The size Configure settings select: a zero dimension means 200. */
  function Configured(cfg: Config): (int, int) {
    (if cfg.width == 0 then DefaultSize else cfg.width,
     if cfg.height == 0 then DefaultSize else cfg.height)
  }

  /** `((width + 7) / 8) * height`, the buffer size Configure computes in
      `int16`, is the stride times the row count when it fits. */
  lemma BufferSize(width: int, height: int)
    requires Fits(width, height)
    ensures Wrap16(Quot(Wrap16(width + 7), 8) * height) == Times(height, Stride(width))
  {
    CeilIsLeast(width, 8);
    TimesIsProduct(height, Stride(width));
  }

  /** One command: the opcode with data/command select low, then each data
      byte with it high, all in one chip-select frame. */
  function CommandFrame(c: bv8, data: seq<bv8>): Event {
    Frame([Cmd(c)] + Dats(data))
  }

  /** The commands and waits Configure sends after the reset pulse. */
  function InitTrace(ops: OpcodeSet, width: int, height: int): seq<Event> {
    ResetTrace(ops)
    + WindowTrace(ops, LowByte(width - 1), HighByte(width - 1), LowByte(Ceil(width, 8)),
                  LowByte(height - 1), HighByte(height - 1))
    + SettingsTrace(ops)
  }

  /** Software reset, between two waits for the busy pin. */
  function ResetTrace(ops: OpcodeSet): seq<Event> {
    [Wait, CommandFrame(ops.swReset, []), Wait]
  }

  /** Gate count (`gates` split low byte first), data entry mode and the
      RAM window of the panel, `xEnd` bytes across and `yEnd` rows down. */
  function WindowTrace(ops: OpcodeSet, gatesLo: bv8, gatesHi: bv8, xEnd: bv8, yEndLo: bv8, yEndHi: bv8): seq<Event> {
    [CommandFrame(ops.driverControl, [gatesLo, gatesHi, 0]),
     CommandFrame(ops.dataMode, [0x03]),
     CommandFrame(ops.setRamXPos, [0, xEnd]),
     CommandFrame(ops.setRamYPos, [0, 0, yEndLo, yEndHi])]
  }

  /** Border waveform and temperature sensor, then a final wait. */
  function SettingsTrace(ops: OpcodeSet): seq<Event> {
    [CommandFrame(ops.writeBorder, [0x05]), CommandFrame(ops.tempControl, [0x80]), Wait]
  }

  /** The configuration commands go out in this order, with these data
      bytes: gate count width-1, data entry mode 3, RAM X window 0 to
      ceil(width, 8), RAM Y window 0 to height-1, border 5, internal
      temperature sensor. */
  lemma InitContent(ops: OpcodeSet, width: int, height: int)
    ensures Opcodes(Bytes(InitTrace(ops, width, height)))
         == [ops.swReset, ops.driverControl, ops.dataMode, ops.setRamXPos,
             ops.setRamYPos, ops.writeBorder, ops.tempControl]
    ensures DataBytes(Bytes(InitTrace(ops, width, height)))
         == [LowByte(width - 1), HighByte(width - 1), 0, 0x03, 0, LowByte(Ceil(width, 8)),
             0, 0, LowByte(height - 1), HighByte(height - 1), 0x05, 0x80]
  {
    var gatesLo, gatesHi, xEnd := LowByte(width - 1), HighByte(width - 1), LowByte(Ceil(width, 8));
    var yEndLo, yEndHi := LowByte(height - 1), HighByte(height - 1);
    var r, w, t := ResetTrace(ops), WindowTrace(ops, gatesLo, gatesHi, xEnd, yEndLo, yEndHi), SettingsTrace(ops);
    ResetContent(ops);
    WindowContent(ops, gatesLo, gatesHi, xEnd, yEndLo, yEndHi);
    SettingsContent(ops);
    TraceContentAppend(r, w);
    TraceContentAppend(r + w, t);
    InitListing(ops, gatesLo, gatesHi, xEnd, yEndLo, yEndHi);
  }

  /** The per-part opcodes and data of InitContent, run together. */
  lemma InitListing(ops: OpcodeSet, gatesLo: bv8, gatesHi: bv8, xEnd: bv8, yEndLo: bv8, yEndHi: bv8)
    ensures [ops.swReset] + [ops.driverControl, ops.dataMode, ops.setRamXPos, ops.setRamYPos]
            + [ops.writeBorder, ops.tempControl]
         == [ops.swReset, ops.driverControl, ops.dataMode, ops.setRamXPos,
             ops.setRamYPos, ops.writeBorder, ops.tempControl]
    ensures [] + [gatesLo, gatesHi, 0, 0x03, 0, xEnd, 0, 0, yEndLo, yEndHi] + [0x05, 0x80]
         == [gatesLo, gatesHi, 0, 0x03, 0, xEnd, 0, 0, yEndLo, yEndHi, 0x05, 0x80]
  {
  }

  lemma ResetContent(ops: OpcodeSet)
    ensures Opcodes(Bytes(ResetTrace(ops))) == [ops.swReset]
    ensures DataBytes(Bytes(ResetTrace(ops))) == []
  {
    var t := ResetTrace(ops);
    FrameContent(ops.swReset, []);
    assert Bytes([Wait]) == [];
    assert t == [Wait] + [t[1]] + [Wait];
    TraceContentAppend([Wait], [t[1]]);
    TraceContentAppend([Wait] + [t[1]], [Wait]);
  }

  lemma WindowContent(ops: OpcodeSet, gatesLo: bv8, gatesHi: bv8, xEnd: bv8, yEndLo: bv8, yEndHi: bv8)
    ensures Opcodes(Bytes(WindowTrace(ops, gatesLo, gatesHi, xEnd, yEndLo, yEndHi)))
         == [ops.driverControl, ops.dataMode, ops.setRamXPos, ops.setRamYPos]
    ensures DataBytes(Bytes(WindowTrace(ops, gatesLo, gatesHi, xEnd, yEndLo, yEndHi)))
         == [gatesLo, gatesHi, 0, 0x03, 0, xEnd, 0, 0, yEndLo, yEndHi]
  {
    var t := WindowTrace(ops, gatesLo, gatesHi, xEnd, yEndLo, yEndHi);
    assert t == [t[0], t[1]] + [t[2], t[3]];
    FramesContent(ops.driverControl, [gatesLo, gatesHi, 0], ops.dataMode, [0x03]);
    FramesContent(ops.setRamXPos, [0, xEnd], ops.setRamYPos, [0, 0, yEndLo, yEndHi]);
    TraceContentAppend([t[0], t[1]], [t[2], t[3]]);
    WindowData(gatesLo, gatesHi, xEnd, yEndLo, yEndHi);
  }

  /** The data of WindowContent's two halves, run together. */
  lemma WindowData(gatesLo: bv8, gatesHi: bv8, xEnd: bv8, yEndLo: bv8, yEndHi: bv8)
    ensures [gatesLo, gatesHi, 0] + [0x03] + ([0, xEnd] + [0, 0, yEndLo, yEndHi])
         == [gatesLo, gatesHi, 0, 0x03, 0, xEnd, 0, 0, yEndLo, yEndHi]
  {
  }

  lemma SettingsContent(ops: OpcodeSet)
    ensures Opcodes(Bytes(SettingsTrace(ops))) == [ops.writeBorder, ops.tempControl]
    ensures DataBytes(Bytes(SettingsTrace(ops))) == [0x05, 0x80]
  {
    var t := SettingsTrace(ops);
    FramesContent(ops.writeBorder, [0x05], ops.tempControl, [0x80]);
    assert Bytes([Wait]) == [];
    assert t == [t[0], t[1]] + [Wait];
    TraceContentAppend([t[0], t[1]], [Wait]);
  }

  lemma FrameContent(c: bv8, data: seq<bv8>)
    ensures Bytes([CommandFrame(c, data)]) == [Cmd(c)] + Dats(data)
    ensures Opcodes(Bytes([CommandFrame(c, data)])) == [c]
    ensures DataBytes(Bytes([CommandFrame(c, data)])) == data
  {
    assert Bytes([CommandFrame(c, data)]) == [Cmd(c)] + Dats(data) + Bytes([]);
    CommandWithData(c, data);
  }

  /** Two consecutive command frames. */
  lemma FramesContent(c: bv8, d: seq<bv8>, c2: bv8, d2: seq<bv8>)
    ensures Opcodes(Bytes([CommandFrame(c, d), CommandFrame(c2, d2)])) == [c, c2]
    ensures DataBytes(Bytes([CommandFrame(c, d), CommandFrame(c2, d2)])) == d + d2
  {
    FrameContent(c, d);
    FrameContent(c2, d2);
    assert [CommandFrame(c, d), CommandFrame(c2, d2)] == [CommandFrame(c, d)] + [CommandFrame(c2, d2)];
    TraceContentAppend([CommandFrame(c, d)], [CommandFrame(c2, d2)]);
  }

  /** The rectangle check of FillRectangle, with `x + w` and `y + h` wrapped
      to `int16` as the driver computes them. */
  predicate OutOfBounds(x: int, y: int, w: int, h: int, width: int, height: int) {
    x < 0 || y < 0 || w <= 0 || h <= 0 || x >= width || Wrap16(x + w) > width
    || y >= height || Wrap16(y + h) > height
  }

  /** An accepted rectangle whose `x + w` wraps: the check lets it through
      and FillRectangle then fills nothing, reporting success. */
  lemma WrappedRectangleAccepted(buf: seq<bv8>, on: bool)
    requires |buf| == Times(200, Stride(200))
    ensures !OutOfBounds(100, 0, MAX16, 1, 200, 200)
    ensures Wrap16(100 + MAX16) < 100
    ensures FillRows(buf, Stride(200), 200, 100, Wrap16(100 + MAX16), 0, Wrap16(0 + 1), on) == buf
  {
    var x1 := Wrap16(100 + MAX16);
    assert FillRows(buf, Stride(200), 200, 100, x1, 0, 0, on) == buf;
    assert FillRow(buf, Stride(200), 200, 100, x1, 0, on) == buf;
  }

  /** Row `row` of the framebuffer as Display sends it. */
  function RowFrame(ops: OpcodeSet, buf: seq<bv8>, stride: nat, row: nat): Event
    requires Times(row + 1, stride) <= |buf|
  {
    CommandFrame(ops.writeBwRam, buf[Times(row, stride)..Times(row + 1, stride)])
  }

  /** The first `n` rows, in order. */
  function RowFrames(ops: OpcodeSet, buf: seq<bv8>, stride: nat, n: nat): (r: seq<Event>)
    requires Times(n, stride) <= |buf|
    ensures |r| == n
  {
    if n == 0 then []
    else
      TimesMonotone(n - 1, n, stride);
      RowFrames(ops, buf, stride, n - 1) + [RowFrame(ops, buf, stride, n - 1)]
  }

  /** What Display sends for a framebuffer of `rows` rows of `stride` bytes. */
  function DisplayTrace(ops: OpcodeSet, stride: nat, rows: nat, buf: seq<bv8>): seq<Event>
    requires |buf| == Times(rows, stride)
  {
    [CommandFrame(ops.setRamXCount, [0]), CommandFrame(ops.setRamYCount, [0, 0])]
    + RowFrames(ops, buf, stride, rows)
    + [CommandFrame(ops.dispCtrl2, [0xF7]), CommandFrame(ops.masterActivate, []), Wait]
  }

  /** Display sends the counter reset, then row j of the buffer as command
      2 + j, rows in order, then the refresh. */
  lemma DisplayRowsInOrder(ops: OpcodeSet, stride: nat, rows: nat, buf: seq<bv8>, j: nat)
    requires |buf| == Times(rows, stride) && j < rows
    ensures |DisplayTrace(ops, stride, rows, buf)| == rows + 5
    ensures (TimesMonotone(j + 1, rows, stride);
             DisplayTrace(ops, stride, rows, buf)[2 + j]
             == CommandFrame(ops.writeBwRam, buf[Times(j, stride)..Times(j + 1, stride)]))
  {
    TimesMonotone(j + 1, rows, stride);
    RowFramesAt(ops, buf, stride, rows, j);
  }

  lemma {:induction false} RowFramesAt(ops: OpcodeSet, buf: seq<bv8>, stride: nat, n: nat, j: nat)
    requires Times(n, stride) <= |buf| && j < n && Times(j + 1, stride) <= |buf|
    ensures RowFrames(ops, buf, stride, n)[j] == RowFrame(ops, buf, stride, j)
  {
    TimesMonotone(n - 1, n, stride);
    SnocAt(RowFrames(ops, buf, stride, n - 1), RowFrame(ops, buf, stride, n - 1), j);
    if j < n - 1 {
      RowFramesAt(ops, buf, stride, n - 1, j);
    }
  }

  lemma SnocAt(prev: seq<Event>, last: Event, j: nat)
    requires j <= |prev|
    ensures (prev + [last])[j] == if j < |prev| then prev[j] else last
  {
  }

  /** The panel's black/white RAM receives exactly the framebuffer, in
      order: the bytes sent while WRITE_BWRAM is the current command are the
      whole buffer. */
  lemma DisplayStreamsBuffer(ops: OpcodeSet, stride: nat, rows: nat, buf: seq<bv8>)
    requires |buf| == Times(rows, stride) && RamWriteDistinct(ops)
    ensures Payload(Bytes(DisplayTrace(ops, stride, rows, buf)), ops.writeBwRam, false) == buf
  {
    var op := ops.writeBwRam;
    var head := [CommandFrame(ops.setRamXCount, [0]), CommandFrame(ops.setRamYCount, [0, 0])];
    var tail := [CommandFrame(ops.dispCtrl2, [0xF7]), CommandFrame(ops.masterActivate, []), Wait];
    FramePayload(ops.setRamXCount, [0], op, false);
    FramePayload(ops.setRamYCount, [0, 0], op, false);
    TracePayloadAppend([head[0]], [head[1]], op, false);
    assert [head[0]] + [head[1]] == head;
    RowsPayload(ops, buf, stride, rows);
    if rows == 0 {
      assert buf == [];
      assert head + RowFrames(ops, buf, stride, rows) + tail == head + tail;
      TailPayload(ops, tail, false);
      TracePayloadAppend(head, tail, op, false);
    } else {
      TailPayload(ops, tail, true);
      PayloadBetween(head, RowFrames(ops, buf, stride, rows), tail, op, false, buf);
    }
  }

  /** What a single command frame delivers to `op`. */
  lemma FramePayload(c: bv8, data: seq<bv8>, op: bv8, active: bool)
    ensures Payload(Bytes([CommandFrame(c, data)]), op, active) == (if c == op then data else [])
    ensures ActiveAfter(Bytes([CommandFrame(c, data)]), op, active) == (c == op)
  {
    FrameContent(c, data);
    PayloadOfCommand(c, data, op, active);
  }

  /** The refresh commands after the rows deliver nothing to the RAM. */
  lemma TailPayload(ops: OpcodeSet, tail: seq<Event>, active: bool)
    requires RamWriteDistinct(ops)
    requires tail == [CommandFrame(ops.dispCtrl2, [0xF7]), CommandFrame(ops.masterActivate, []), Wait]
    ensures Payload(Bytes(tail), ops.writeBwRam, active) == []
  {
    var op := ops.writeBwRam;
    FramePayload(ops.dispCtrl2, [0xF7], op, active);
    FramePayload(ops.masterActivate, [], op, false);
    assert tail == [tail[0]] + [tail[1]] + [Wait];
    TracePayloadAppend([tail[0]], [tail[1]], op, active);
    TracePayloadAppend([tail[0]] + [tail[1]], [Wait], op, active);
    assert Bytes([Wait]) == [];
  }

  /** The first n rows deliver the first n * stride bytes of the buffer, and
      leave WRITE_BWRAM current when there is at least one. */
  lemma {:induction false} RowsPayload(ops: OpcodeSet, buf: seq<bv8>, stride: nat, n: nat)
    requires Times(n, stride) <= |buf|
    ensures Payload(Bytes(RowFrames(ops, buf, stride, n)), ops.writeBwRam, false) == buf[..Times(n, stride)]
    ensures n > 0 ==> ActiveAfter(Bytes(RowFrames(ops, buf, stride, n)), ops.writeBwRam, false)
  {
    if n > 0 {
      TimesMonotone(n - 1, n, stride);
      var lo, hi := Times(n - 1, stride), Times(n, stride);
      var prev := RowFrames(ops, buf, stride, n - 1);
      RowsPayload(ops, buf, stride, n - 1);
      FramePayload(ops.writeBwRam, buf[lo..hi], ops.writeBwRam, n - 1 > 0);
      StreamSnoc(prev, [RowFrame(ops, buf, stride, n - 1)], ops.writeBwRam, buf, lo, hi, false, n - 1 > 0);
    }
  }

  class Device {
    const ops: OpcodeSet
    var width: int
    var height: int
    var buffer: array<bv8>
    /** Everything sent to the panel so far. */
    var sent: seq<Event>

    ghost predicate Valid()
      reads this`width, this`height, this`buffer
    {
      Fits(width, height) && buffer.Length == Times(height, Stride(width))
    }

    /** New: bus and pins bound, nothing configured yet. */
    constructor(ops: OpcodeSet)
      ensures this.ops == ops && sent == []
      ensures width == 0 && height == 0 && buffer.Length == 0
    {
      this.ops := ops;
      width, height := 0, 0;
      sent := [];
      buffer := new bv8[0];
    }

    /** Applies the settings (200 for a zero dimension), allocates a zeroed
        framebuffer of ceil(width, 8) * height bytes and sends the panel
        configuration. */
    method Configure(cfg: Config)
      requires 0 <= cfg.width && 0 <= cfg.height
      requires Fits(Configured(cfg).0, Configured(cfg).1)
      modifies this
      ensures (width, height) == Configured(cfg)
      ensures Valid() && fresh(buffer)
      ensures forall k :: 0 <= k < buffer.Length ==> buffer[k] == 0
      ensures sent == old(sent) + InitTrace(ops, width, height)
    {
      var w := if cfg.width == 0 then DefaultSize else cfg.width;
      var h := if cfg.height == 0 then DefaultSize else cfg.height;
      width, height := w, h;
      BufferSize(w, h);
      buffer := ZeroBuffer(Wrap16(Quot(Wrap16(w + 7), 8) * h));
      SendInit(w, h);
    }

    /** `make([]byte, n)`. */
    static method ZeroBuffer(n: nat) returns (a: array<bv8>)
      ensures fresh(a) && a.Length == n
      ensures forall k :: 0 <= k < n ==> a[k] == 0
    {
      a := new bv8[n](_ => 0);
    }

    /** Configure's command sequence, for a panel `w` pixels wide and `h`
        high. */
    method SendInit(w: int, h: int)
      modifies this`sent
      ensures sent == old(sent) + InitTrace(ops, w, h)
    {
      SendReset();
      var gatesLo, gatesHi, xEnd := LowByte(w - 1), HighByte(w - 1), LowByte(Ceil(w, 8));
      var yEndLo, yEndHi := LowByte(h - 1), HighByte(h - 1);
      SendWindow(gatesLo, gatesHi, xEnd, yEndLo, yEndHi);
      SendSettings();
      ghost var window := WindowTrace(ops, gatesLo, gatesHi, xEnd, yEndLo, yEndHi);
      AppendAssoc(old(sent), ResetTrace(ops), window);
      AppendAssoc(old(sent), ResetTrace(ops) + window, SettingsTrace(ops));
    }

    method SendReset()
      modifies this`sent
      ensures sent == old(sent) + ResetTrace(ops)
    {
      Wait();
      Command(ops.swReset, []);
      Wait();
    }

    method SendWindow(gatesLo: bv8, gatesHi: bv8, xEnd: bv8, yEndLo: bv8, yEndHi: bv8)
      modifies this`sent
      ensures sent == old(sent) + WindowTrace(ops, gatesLo, gatesHi, xEnd, yEndLo, yEndHi)
    {
      Command(ops.driverControl, [gatesLo, gatesHi, 0]);
      Command(ops.dataMode, [0x03]);
      Command(ops.setRamXPos, [0, xEnd]);
      Command(ops.setRamYPos, [0, 0, yEndLo, yEndHi]);
    }

    method SendSettings()
      modifies this`sent
      ensures sent == old(sent) + SettingsTrace(ops)
    {
      Command(ops.writeBorder, [0x05]);
      Command(ops.tempControl, [0x80]);
      Wait();
    }

    /** Writes one pixel through a 1x1 FillRectangle; a point outside the
        panel is ignored.  `lum` is the colour's luminance. */
    method SetPixel(x: int, y: int, lum: bv8)
      requires Valid() && IsInt16(x) && IsInt16(y)
      modifies buffer
      ensures !(0 <= x < width && 0 <= y < height) ==> buffer[..] == old(buffer[..])
      ensures 0 <= x < width && 0 <= y < height ==>
                InCanvas(Stride(width), height, x, y)
                && buffer[..] == WritePixel(old(buffer[..]), Stride(width), height, x, y, lum >= 128)
    {
      if x < 0 || y < 0 || x >= width || y >= height {
        return;
      }
      CeilIsLeast(width, 8);
      FillUnit(buffer[..], Stride(width), height, x, y, lum >= 128);
      var _ := FillRectangle(x, y, 1, 1, lum);
    }

    /** Sets every pixel of [x, x + w) x [y, y + h) to the colour bit:
        white (bit set) when the luminance `lum` is at least 128, black
        otherwise.  A rectangle that is not inside the panel is refused and
        the buffer left as it was. */
    method FillRectangle(x: int, y: int, w: int, h: int, lum: bv8) returns (err: Option<string>)
      requires Valid() && IsInt16(x) && IsInt16(y) && IsInt16(w) && IsInt16(h)
      modifies buffer
      ensures OutOfBounds(x, y, w, h, width, height) ==>
                err == Some(ErrDrawingOutOfBounds) && buffer[..] == old(buffer[..])
      ensures !OutOfBounds(x, y, w, h, width, height) ==>
                err == None
                && (CeilIsLeast(width, 8);
                    buffer[..] == FillRows(old(buffer[..]), Stride(width), height,
                                           x, Wrap16(x + w), y, Wrap16(y + h), lum >= 128))
    {
      if x < 0 || y < 0 || w <= 0 || h <= 0 || x >= width || Wrap16(x + w) > width
         || y >= height || Wrap16(y + h) > height {
        return Some(ErrDrawingOutOfBounds);
      }
      var colBit: bv8 := 255;
      if lum < 128 {
        colBit := 0;
      }
      CeilIsLeast(width, 8);
      var stride := Ceil(width, 8);
      var x1, y1 := Wrap16(x + w), Wrap16(y + h);
      ghost var start := buffer[..];
      var ypos := y;
      while ypos < y1
        invariant y <= ypos && (ypos <= y1 || ypos == y)
        invariant buffer[..] == FillRows(start, stride, height, x, x1, y, ypos, lum >= 128)
      {
        FillSpan(buffer, stride, height, x, x1, ypos, colBit);
        ypos := ypos + 1;
      }
      err := None;
    }

    /** The inner loop of FillRectangle: pixels [x0, x1) of row `ypos`. */
    static method FillSpan(buffer: array<bv8>, stride: nat, rows: nat, x0: int, x1: int, ypos: int, colBit: bv8)
      requires buffer.Length == Times(rows, stride)
      requires ColumnsFit(stride, x0, x1) && 0 <= ypos < rows
      requires colBit == 0 || colBit == 255
      modifies buffer
      ensures buffer[..] == FillRow(old(buffer[..]), stride, rows, x0, x1, ypos, colBit == 255)
    {
      ghost var start := buffer[..];
      var xpos := x0;
      while xpos < x1
        invariant x0 <= xpos && (xpos <= x1 || xpos == x0)
        invariant buffer[..] == FillRow(start, stride, rows, x0, xpos, ypos, colBit == 255)
      {
        PaintPixel(buffer, stride, rows, xpos, ypos, colBit, start, x0);
        xpos := xpos + 1;
      }
    }

    /** The body of FillRectangle's inner loop: pixel (xpos, ypos). */
    static method PaintPixel(buffer: array<bv8>, stride: nat, rows: nat, xpos: int, ypos: int, colBit: bv8, ghost start: seq<bv8>, ghost x0: int)
      requires buffer.Length == Times(rows, stride) && |start| == Times(rows, stride)
      requires 0 <= ypos < rows && 0 <= x0 <= xpos < 8 * stride
      requires colBit == 0 || colBit == 255
      requires buffer[..] == FillRow(start, stride, rows, x0, xpos, ypos, colBit == 255)
      modifies buffer
      ensures buffer[..] == FillRow(start, stride, rows, x0, xpos + 1, ypos, colBit == 255)
    {
      var bufPos := ypos * stride + xpos / 8;
      var mask: bv8 := 1 << (7 - xpos % 8);
      SpanStep(start, buffer[..], stride, rows, x0, xpos, ypos, bufPos, mask, colBit);
      buffer[bufPos] := (buffer[bufPos] & !mask) | (colBit & mask);
    }

    /** Sends the framebuffer to the panel RAM, one WRITE_BWRAM command per
        row, and triggers a full refresh.  The buffer is not changed. */
    method Display() returns (err: Option<string>)
      requires Valid()
      modifies this`sent
      ensures err == None
      ensures (CeilIsLeast(width, 8);
               sent == old(sent) + DisplayTrace(ops, Stride(width), height, buffer[..]))
    {
      CeilIsLeast(width, 8);
      Refresh(Stride(width), height, buffer[..]);
      err := None;
    }

    /** Display's body, on the row stride and row count it is given. */
    method Refresh(stride: nat, rows: nat, ghost buf: seq<bv8>)
      requires buf == buffer[..] && |buf| == Times(rows, stride)
      modifies this`sent
      ensures sent == old(sent) + DisplayTrace(ops, stride, rows, buf)
    {
      Command(ops.setRamXCount, [0]);
      Command(ops.setRamYCount, [0, 0]);
      ghost var s1 := sent;
      SendRows(stride, rows, buf);
      ghost var s2 := sent;
      Command(ops.dispCtrl2, [0xF7]);
      Command(ops.masterActivate, []);
      Wait();
      RefreshAssembled(old(sent), s1, s2, sent, stride, rows, buf);
    }

    /** Display's row loop: one WRITE_BWRAM command per row, top to bottom. */
    method SendRows(stride: nat, rows: nat, ghost buf: seq<bv8>)
      requires buf == buffer[..] && |buf| == Times(rows, stride)
      modifies this`sent
      ensures sent == old(sent) + RowFrames(ops, buf, stride, rows)
    {
      var row := 0;
      while row < rows
        invariant 0 <= row <= rows && buf == buffer[..] && Times(row, stride) <= |buf|
        invariant sent == old(sent) + RowFrames(ops, buf, stride, row)
      {
        TimesMonotone(row + 1, rows, stride);
        SendRow(stride, rows, row, buf);
        row := row + 1;
      }
    }

    /** One iteration of Display's row loop. */
    method SendRow(stride: nat, rows: nat, row: nat, ghost buf: seq<bv8>)
      requires buf == buffer[..] && |buf| == Times(rows, stride) && row < rows
      modifies this`sent
      ensures (TimesMonotone(row + 1, rows, stride);
               sent == old(sent) + [RowFrame(ops, buf, stride, row)])
    {
      TimesMonotone(row + 1, rows, stride);
      TimesIsProduct(row, stride);
      TimesIsProduct(row + 1, stride);
      assert (row + 1) * stride == row * stride + stride;
      Command(ops.writeBwRam, buffer[row * stride..(row + 1) * stride]);
    }

    lemma RefreshAssembled(s0: seq<Event>, s1: seq<Event>, s2: seq<Event>, s3: seq<Event>,
                           stride: nat, rows: nat, buf: seq<bv8>)
      requires |buf| == Times(rows, stride)
      requires s1 == s0 + [CommandFrame(ops.setRamXCount, [0]), CommandFrame(ops.setRamYCount, [0, 0])]
      requires s2 == s1 + RowFrames(ops, buf, stride, rows)
      requires s3 == s2 + [CommandFrame(ops.dispCtrl2, [0xF7]), CommandFrame(ops.masterActivate, []), Event.Wait]
      ensures s3 == s0 + DisplayTrace(ops, stride, rows, buf)
    {
    }

    method Size() returns (w: int, h: int)
      ensures w == width && h == height
    {
      w, h := width, height;
    }

    /** Puts the panel into deep sleep mode 1. */
    method DeepSleep()
      modifies this`sent
      ensures sent == old(sent) + [CommandFrame(ops.deepSleep, [0x01])]
    {
      Command(ops.deepSleep, [0x01]);
    }

    /** Sends `command` and then `data` in one chip-select frame. */
    method Command(command: bv8, data: seq<bv8>)
      modifies this`sent
      ensures sent == old(sent) + [CommandFrame(command, data)]
    {
      sent := sent + [Frame([Cmd(command)] + Dats(data))];
    }

    /** The busy-pin wait, recorded as a Wait event. */
    method Wait()
      modifies this`sent
      ensures sent == old(sent) + [Event.Wait]
    {
      sent := sent + [Event.Wait];
    }
  }

  /** One iteration of FillRectangle's inner loop extends the filled span by
      the pixel at `xpos`. */
  lemma SpanStep(start: seq<bv8>, cur: seq<bv8>, stride: nat, rows: nat, x0: int, xpos: int, y: int,
                 bufPos: int, mask: bv8, colBit: bv8)
    requires |start| == Times(rows, stride) && 0 <= y < rows && 0 <= x0 <= xpos < 8 * stride
    requires cur == FillRow(start, stride, rows, x0, xpos, y, colBit == 255)
    requires bufPos == y * stride + xpos / 8 && mask == 1 << (7 - xpos % 8)
    requires colBit == 0 || colBit == 255
    ensures 0 <= bufPos < |cur|
    ensures FillRow(start, stride, rows, x0, xpos + 1, y, colBit == 255)
         == cur[bufPos := (cur[bufPos] & !mask) | (colBit & mask)]
  {
    ByteIndexInBounds(stride, rows, xpos, y);
    ShiftedMask(xpos % 8);
    MaskedWrite(cur[bufPos], xpos % 8, mask, colBit);
  }

  /** `(b &^ mask) | (colBit & mask)` with the mask `1 << (7 - i)` writes
      pixel column `i`: set for an all-ones colour byte, cleared for zero. */
  lemma MaskedWrite(b: bv8, i: nat, mask: bv8, colBit: bv8)
    requires i < 8 && mask == Mask(i)
    requires colBit == 0 || colBit == 255
    ensures (b & !mask) | (colBit & mask) == WithBit(b, i, colBit == 255)
  {
    MaskedBits(b, mask, colBit);
  }

  lemma MaskedBits(b: bv8, mask: bv8, colBit: bv8)
    requires colBit == 0 || colBit == 255
    ensures (b & !mask) | (colBit & mask) == if colBit == 255 then b | mask else b & !mask
  {
  }

  /** `1 << (7 - i)` is the mask of pixel column `i`. */
  lemma ShiftedMask(i: nat)
    requires i < 8
    ensures (1 as bv8) << (7 - i) == Mask(i)
  {
    if i < 4 {
      if i < 2 {
        if i == 0 { assert (1 as bv8) << 7 == 0x80; } else { assert (1 as bv8) << 6 == 0x40; }
      } else {
        if i == 2 { assert (1 as bv8) << 5 == 0x20; } else { assert (1 as bv8) << 4 == 0x10; }
      }
    } else {
      if i < 6 {
        if i == 4 { assert (1 as bv8) << 3 == 0x08; } else { assert (1 as bv8) << 2 == 0x04; }
      } else {
        if i == 6 { assert (1 as bv8) << 1 == 0x02; } else { assert (1 as bv8) << 0 == 0x01; }
      }
    }
  }
}
