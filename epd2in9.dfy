/** Driver for the Waveshare 2.9" V2 black and white e-paper panel.

    The device keeps a framebuffer of `logicalWidth * height / 8` bytes (the
    logical width is the panel width padded to a multiple of 8), maps the
    caller's coordinates through the selected clockwise rotation before it
    sets a pixel, and talks to the panel one byte per chip-select frame.  The
    bus traffic is the device's trace `sent`. */
module Epd2in9 {
  import opened Numeric
  import opened Wire
  import opened Framebuffer
  import opened Optional

  // Command opcodes of the panel controller.
  const DriverOutputControl: bv8 := 0x01
  const GateDrivingVoltageControl: bv8 := 0x03
  const SourceDrivingVoltageControl: bv8 := 0x04
  const DeepSleepMode: bv8 := 0x10
  const DataEntryModeSetting: bv8 := 0x11
  const SwReset: bv8 := 0x12
  const MasterActivation: bv8 := 0x20
  const DisplayUpdateControl1: bv8 := 0x21
  const DisplayUpdateControl2: bv8 := 0x22
  const WriteRam: bv8 := 0x24
  const WriteVcomRegister: bv8 := 0x2C
  const WriteLutRegister: bv8 := 0x32
  const SetRamXAddressStartEndPosition: bv8 := 0x44
  const SetRamYAddressStartEndPosition: bv8 := 0x45
  const SetRamXAddressCounter: bv8 := 0x4E
  const SetRamYAddressCounter: bv8 := 0x4F
  /** The opcode SetLUT sends before the 154th table entry (not named by the driver). */
  const LutEndOption: bv8 := 0x3F

  /** Clockwise rotation; any value other than the four below leaves
      coordinates as they are. */
  type Rotation = bv8
  const NoRotation: Rotation := 0
  const Rotation90: Rotation := 1
  const Rotation180: Rotation := 2
  const Rotation270: Rotation := 3

  /** A field left 0 takes the driver's default. */
  datatype Config = Config(width: int, height: int, logicalWidth: int, rotation: Rotation)

  datatype RGBA = RGBA(r: bv8, g: bv8, b: bv8, a: bv8)

  /** SetPixel sets the pixel's bit for a colour whose red, green and blue
      are all zero and clears it for any other colour; alpha is ignored. */
  predicate SetsBit(c: RGBA) {
    c.r == 0 && c.g == 0 && c.b == 0
  }

  /** A waveform table: 153 waveform bytes, then the end option, the gate
      voltage, three source voltages and VCOM. */
  type Lut = s: seq<bv8> | |s| == 159 witness seq(159, _ => 0)

  /** Waveform table for full refreshes. */
  const LutFullUpdate: seq<bv8> := [
    0x80, 0x66, 0x00, 0x00, 0x00, 0x00, 0x00, 0x00, 0x40, 0x00, 0x00, 0x00,
    0x10, 0x66, 0x00, 0x00, 0x00, 0x00, 0x00, 0x00, 0x20, 0x00, 0x00, 0x00,
    0x80, 0x66, 0x00, 0x00, 0x00, 0x00, 0x00, 0x00, 0x40, 0x00, 0x00, 0x00,
    0x10, 0x66, 0x00, 0x00, 0x00, 0x00, 0x00, 0x00, 0x20, 0x00, 0x00, 0x00,
    0x00, 0x00, 0x00, 0x00, 0x00, 0x00, 0x00, 0x00, 0x00, 0x00, 0x00, 0x00,
    0x14, 0x08, 0x00, 0x00, 0x00, 0x00, 0x01, 0x0A, 0x0A, 0x00, 0x0A, 0x0A,
    0x00, 0x01, 0x00, 0x00, 0x00, 0x00, 0x00, 0x00, 0x00, 0x00, 0x00, 0x00,
    0x00, 0x00, 0x00, 0x00, 0x00, 0x00, 0x00, 0x00, 0x00, 0x00, 0x00, 0x00,
    0x00, 0x00, 0x00, 0x00, 0x00, 0x00, 0x00, 0x00, 0x00, 0x00, 0x00, 0x00,
    0x00, 0x00, 0x00, 0x00, 0x00, 0x00, 0x00, 0x00, 0x14, 0x08, 0x00, 0x01,
    0x00, 0x00, 0x01, 0x00, 0x00, 0x00, 0x00, 0x00, 0x00, 0x01, 0x00, 0x00,
    0x00, 0x00, 0x00, 0x00, 0x00, 0x00, 0x00, 0x00, 0x00, 0x00, 0x00, 0x00,
    0x44, 0x44, 0x44, 0x44, 0x44, 0x44, 0x00, 0x00, 0x00, 0x22, 0x17, 0x41,
    0x00, 0x32, 0x36
  ]

  /** Waveform table for partial refreshes: faster, with some ghosting. */
  const LutPartialUpdate: seq<bv8> := [
    0x00, 0x40, 0x00, 0x00, 0x00, 0x00, 0x00, 0x00, 0x00, 0x00, 0x00, 0x00,
    0x80, 0x80, 0x00, 0x00, 0x00, 0x00, 0x00, 0x00, 0x00, 0x00, 0x00, 0x00,
    0x40, 0x40, 0x00, 0x00, 0x00, 0x00, 0x00, 0x00, 0x00, 0x00, 0x00, 0x00,
    0x00, 0x80, 0x00, 0x00, 0x00, 0x00, 0x00, 0x00, 0x00, 0x00, 0x00, 0x00,
    0x00, 0x00, 0x00, 0x00, 0x00, 0x00, 0x00, 0x00, 0x00, 0x00, 0x00, 0x00,
    0x0A, 0x00, 0x00, 0x00, 0x00, 0x00, 0x02, 0x01, 0x00, 0x00, 0x00, 0x00,
    0x00, 0x00, 0x01, 0x00, 0x00, 0x00, 0x00, 0x00, 0x00, 0x00, 0x00, 0x00,
    0x00, 0x00, 0x00, 0x00, 0x00, 0x00, 0x00, 0x00, 0x00, 0x00, 0x00, 0x00,
    0x00, 0x00, 0x00, 0x00, 0x00, 0x00, 0x00, 0x00, 0x00, 0x00, 0x00, 0x00,
    0x00, 0x00, 0x00, 0x00, 0x00, 0x00, 0x00, 0x00, 0x00, 0x00, 0x00, 0x00,
    0x00, 0x00, 0x00, 0x00, 0x00, 0x00, 0x00, 0x00, 0x00, 0x00, 0x00, 0x00,
    0x00, 0x00, 0x00, 0x00, 0x00, 0x00, 0x00, 0x00, 0x00, 0x00, 0x00, 0x00,
    0x22, 0x22, 0x22, 0x22, 0x22, 0x22, 0x00, 0x00, 0x00, 0x22, 0x17, 0x41,
    0xB0, 0x32, 0x36
  ]

  /** Both tables have the length a `Lut` demands. */
  lemma LutLengths()
    ensures |LutFullUpdate| == 159 && |LutPartialUpdate| == 159
  {
  }

  /** The dimensions a configured device can have: the logical width a
      positive multiple of 8, both within `int16`. */
  predicate ValidGeometry(logicalWidth: int, height: int) {
    8 <= logicalWidth <= MAX16 && logicalWidth % 8 == 0 && 1 <= height <= MAX16
  }

  // ---------------------------------------------------------------------
  // Rotation and size

  /** The panel coordinates of the caller's point (x, y), in `int16`
      arithmetic: rotations 90 and 180 measure from the panel `width`,
      rotations 180 and 270 from its `height`. */
  function Xy(rotation: Rotation, width: int, height: int, x: int, y: int): (r: (int, int))
    ensures IsInt16(x) && IsInt16(y) ==> IsInt16(r.0) && IsInt16(r.1)
  {
    if rotation == NoRotation then (x, y)
    else if rotation == Rotation90 then (Wrap16(width - y - 1), x)
    else if rotation == Rotation180 then (Wrap16(width - x - 1), Wrap16(height - y - 1))
    else if rotation == Rotation270 then (y, Wrap16(height - x - 1))
    else (x, y)
  }

  /** The size the caller draws on: logical width and height, swapped for
      rotations 90 and 270.  It reports the logical width, not the panel
      width. */
  function DrawingSize(rotation: Rotation, logicalWidth: int, height: int): (r: (int, int))
    ensures r.0 * r.1 == logicalWidth * height
    ensures multiset{r.0, r.1} == multiset{logicalWidth, height}
  {
    if rotation == Rotation90 || rotation == Rotation270 then (height, logicalWidth)
    else (logicalWidth, height)
  }

  /** When the panel width equals the logical width, every point of the
      reported size lands on the canvas, whatever the rotation. */
  lemma XyLandsInCanvas(rotation: Rotation, logicalWidth: int, height: int, x: int, y: int)
    requires ValidGeometry(logicalWidth, height)
    requires 0 <= x < DrawingSize(rotation, logicalWidth, height).0 && 0 <= y < DrawingSize(rotation, logicalWidth, height).1
    ensures var (nx, ny) := Xy(rotation, logicalWidth, height, x, y);
            0 <= nx < logicalWidth && 0 <= ny < height
  {
  }

  /** ... and distinct points land on distinct pixels. */
  lemma XyInjective(rotation: Rotation, logicalWidth: int, height: int, x: int, y: int, x': int, y': int)
    requires ValidGeometry(logicalWidth, height)
    requires 0 <= x < DrawingSize(rotation, logicalWidth, height).0 && 0 <= y < DrawingSize(rotation, logicalWidth, height).1
    requires 0 <= x' < DrawingSize(rotation, logicalWidth, height).0 && 0 <= y' < DrawingSize(rotation, logicalWidth, height).1
    requires Xy(rotation, logicalWidth, height, x, y) == Xy(rotation, logicalWidth, height, x', y')
    ensures x == x' && y == y'
  {
  }

  /** With a panel narrower than its logical width, a rotation by 90 degrees
      sends the last rows of the reported size off the canvas, because the
      transform measures from `width` while the size reports `logicalWidth`. */
  lemma XyNarrowPanelLosesRows(logicalWidth: int, width: int, height: int)
    requires ValidGeometry(logicalWidth, height) && 0 <= width < logicalWidth
    ensures var (w, h) := DrawingSize(Rotation90, logicalWidth, height);
            0 < w && logicalWidth - 1 < h &&
            Xy(Rotation90, width, height, 0, logicalWidth - 1).0 < 0
  {
  }

  // ---------------------------------------------------------------------
  // Framebuffer

  /** The driver's byte index `(x + y * logicalWidth) / 8` is the row-major
      index of pixel (x, y) with `logicalWidth / 8` bytes per row. */
  lemma RowMajorIndex(logicalWidth: int, height: int, x: int, y: int)
    requires ValidGeometry(logicalWidth, height) && InCanvas(logicalWidth / 8, height, x, y)
    ensures (x + y * logicalWidth) / 8 == ByteIndex(logicalWidth / 8, x, y) < Times(height, logicalWidth / 8)
  {
    var stride := logicalWidth / 8;
    assert y * logicalWidth == 8 * (y * stride);
    DivAddMultiple(x, y * stride);
    ByteIndexInBounds(stride, height, x, y);
  }

  lemma DivAddMultiple(x: nat, m: nat)
    ensures (x + 8 * m) / 8 == x / 8 + m
  {
  }

  /** The buffer after SetPixel(x, y, c) with `on` = SetsBit(c). */
  function Plot(buf: seq<bv8>, logicalWidth: int, width: int, height: int, rotation: Rotation, x: int, y: int, on: bool): (r: seq<bv8>)
    requires ValidGeometry(logicalWidth, height) && |buf| == Times(height, logicalWidth / 8)
    ensures |r| == |buf|
  {
    var (nx, ny) := Xy(rotation, width, height, x, y);
    if nx < 0 || nx >= logicalWidth || ny < 0 || ny >= height then buf
    else
      TimesIsProduct(height, logicalWidth / 8);
      RowMajorIndex(logicalWidth, height, nx, ny);
      var k := (nx + ny * logicalWidth) / 8;
      buf[k := WithBit(buf[k], nx % 8, on)]
  }

  /** Plot on the canvas: one byte, at the driver's index, gets the bit. */
  lemma PlotAt(buf: seq<bv8>, logicalWidth: int, width: int, height: int, rotation: Rotation, x: int, y: int, on: bool,
               nx: int, ny: int, k: int)
    requires ValidGeometry(logicalWidth, height) && |buf| == Times(height, logicalWidth / 8)
    requires (nx, ny) == Xy(rotation, width, height, x, y)
    requires 0 <= nx < logicalWidth && 0 <= ny < height && k == (nx + ny * logicalWidth) / 8
    ensures 0 <= k < |buf|
    ensures Plot(buf, logicalWidth, width, height, rotation, x, y, on) == buf[k := WithBit(buf[k], nx % 8, on)]
  {
    TimesIsProduct(height, logicalWidth / 8);
    RowMajorIndex(logicalWidth, height, nx, ny);
  }

  /** SetPixel changes at most one pixel: the one its rotated coordinates
      name, which becomes `on`; a point rotated off the canvas changes
      nothing. */
  lemma PlotEffect(buf: seq<bv8>, logicalWidth: int, width: int, height: int, rotation: Rotation, x: int, y: int, on: bool, px: int, py: int)
    requires ValidGeometry(logicalWidth, height) && |buf| == Times(height, logicalWidth / 8)
    requires InCanvas(logicalWidth / 8, height, px, py)
    ensures Pixel(Plot(buf, logicalWidth, width, height, rotation, x, y, on), logicalWidth / 8, height, px, py)
         == if Xy(rotation, width, height, x, y) == (px, py) then on else Pixel(buf, logicalWidth / 8, height, px, py)
  {
    TimesIsProduct(height, logicalWidth / 8);
    var (nx, ny) := Xy(rotation, width, height, x, y);
    if 0 <= nx < logicalWidth && 0 <= ny < height {
      RowMajorIndex(logicalWidth, height, nx, ny);
      assert Plot(buf, logicalWidth, width, height, rotation, x, y, on)
          == WritePixel(buf, logicalWidth / 8, height, nx, ny, on);
      WritePixelEffect(buf, logicalWidth / 8, height, nx, ny, on, px, py);
    }
  }

  /** A point rotated off the canvas is a silent no-op. */
  lemma PlotOffCanvas(buf: seq<bv8>, logicalWidth: int, width: int, height: int, rotation: Rotation, x: int, y: int, on: bool)
    requires ValidGeometry(logicalWidth, height) && |buf| == Times(height, logicalWidth / 8)
    requires var (nx, ny) := Xy(rotation, width, height, x, y);
             !(0 <= nx < logicalWidth && 0 <= ny < height)
    ensures Plot(buf, logicalWidth, width, height, rotation, x, y, on) == buf
  {
  }

  /** With a width that is a whole number of bytes, `width * height / 8`
      bytes are `height` rows of `width / 8` bytes. */
  lemma BufferSize(logicalWidth: int, height: int)
    requires 0 <= logicalWidth && logicalWidth % 8 == 0 && 0 <= height
    ensures (logicalWidth * height) / 8 == Times(height, logicalWidth / 8)
  {
    var stride := logicalWidth / 8;
    TimesIsProduct(height, stride);
    assert logicalWidth == 8 * stride;
    assert logicalWidth * height == 8 * (stride * height);
  }

  // ---------------------------------------------------------------------
  // Bus traffic

  function CommandEvent(c: bv8): Event {
    Frame([Cmd(c)])
  }

  function DataEvent(b: bv8): Event {
    Frame([Dat(b)])
  }

  /** The bytes `s` sent as data, each in a chip-select frame of its own. */
  function DataEvents(s: seq<bv8>): (r: seq<Event>)
    ensures |r| == |s|
  {
    seq(|s|, k requires 0 <= k < |s| => DataEvent(s[k]))
  }

  lemma DataEventsAppend(s: seq<bv8>, t: seq<bv8>)
    ensures DataEvents(s + t) == DataEvents(s) + DataEvents(t)
  {
  }

  lemma {:induction false} BytesOfDataEvents(s: seq<bv8>)
    ensures Bytes(DataEvents(s)) == Dats(s)
  {
    if s != [] {
      BytesOfDataEvents(s[1..]);
      assert DataEvents(s) == [DataEvent(s[0])] + DataEvents(s[1..]);
      BytesAppend([DataEvent(s[0])], DataEvents(s[1..]));
    }
  }

  /** A command byte and its data bytes, each byte in its own frame. */
  function Transaction(c: bv8, data: seq<bv8>): seq<Event> {
    [CommandEvent(c)] + DataEvents(data)
  }

  /** One more data byte extends a transaction. */
  lemma TransactionSnoc(c: bv8, data: seq<bv8>, b: bv8)
    ensures Transaction(c, data) + [DataEvent(b)] == Transaction(c, data + [b])
    ensures Transaction(c, []) == [CommandEvent(c)]
  {
    DataEventsAppend(data, [b]);
  }

  lemma TransactionBytes(c: bv8, data: seq<bv8>)
    ensures Bytes(Transaction(c, data)) == [Cmd(c)] + Dats(data)
  {
    BytesAppend([CommandEvent(c)], DataEvents(data));
    BytesOfDataEvents(data);
  }

  /** What a transaction delivers to opcode `op`: its data when its command is `op`. */
  lemma TransactionPayload(c: bv8, data: seq<bv8>, op: bv8, active: bool)
    ensures Payload(Bytes(Transaction(c, data)), op, active) == (if c == op then data else [])
    ensures ActiveAfter(Bytes(Transaction(c, data)), op, active) == (c == op)
  {
    TransactionBytes(c, data);
    PayloadOfCommand(c, data, op, active);
  }

  /** setMemoryArea(x0, y0, x1, y1): the RAM window, X in bytes, Y as low and
      high byte. */
  function AreaTrace(x0: int, y0: int, x1: int, y1: int): seq<Event> {
    Transaction(SetRamXAddressStartEndPosition, [LowByte(x0 / 8), LowByte(x1 / 8)])
      + Transaction(SetRamYAddressStartEndPosition, [LowByte(y0), HighByte(y0), LowByte(y1), HighByte(y1)])
  }

  /** setMemoryPointer(x, y): the RAM address counter, then a wait. */
  function PointerTrace(x: int, y: int): seq<Event> {
    Transaction(SetRamXAddressCounter, [LowByte(x / 8)])
      + Transaction(SetRamYAddressCounter, [LowByte(y), HighByte(y)])
      + [Wait]
  }

  /** Row `j` of Display: the address counter set to the row start, then
      WRITE_RAM and that row's bytes. */
  function RowTrace(buf: seq<bv8>, stride: nat, j: nat): seq<Event>
    requires Times(j, stride) + stride <= |buf|
  {
    PointerTrace(0, j) + Transaction(WriteRam, buf[Times(j, stride)..Times(j, stride) + stride])
  }

  /** Rows 0, ..., n-1 in order. */
  function RowsTrace(buf: seq<bv8>, stride: nat, n: nat): seq<Event>
    requires Times(n, stride) <= |buf|
  {
    if n == 0 then []
    else
      RowsTrace(buf, stride, n - 1) + RowTrace(buf, stride, n - 1)
  }

  /** The refresh that follows the RAM transfer. */
  function ActivationTrace(): seq<Event> {
    Transaction(DisplayUpdateControl2, [0xC7]) + Transaction(MasterActivation, []) + [Wait]
  }

  /** Everything Display sends. */
  function DisplayTrace(logicalWidth: int, height: int, buf: seq<bv8>): seq<Event>
    requires ValidGeometry(logicalWidth, height) && |buf| == Times(height, logicalWidth / 8)
  {
    AreaTrace(0, 0, logicalWidth - 1, height - 1) + RowsTrace(buf, logicalWidth / 8, height) + ActivationTrace()
  }

  /** `n` copies of `b`. */
  function Repeat(b: bv8, n: nat): (r: seq<bv8>)
    ensures |r| == n && forall k :: 0 <= k < n ==> r[k] == b
  {
    if n == 0 then [] else Repeat(b, n - 1) + [b]
  }

  /** Everything ClearDisplay sends: a white RAM image of `bufferLength`
      bytes, then a Display of the (unchanged) framebuffer. */
  function ClearTrace(logicalWidth: int, height: int, bufferLength: nat, buf: seq<bv8>): seq<Event>
    requires ValidGeometry(logicalWidth, height) && |buf| == Times(height, logicalWidth / 8)
  {
    ClearSetup(logicalWidth - 1, height - 1, bufferLength) + DisplayTrace(logicalWidth, height, buf)
  }

  /** Everything SetLUT sends for the table `lut`. */
  function LutTrace(lut: Lut): seq<Event>
  {
    Transaction(WriteLutRegister, lut[..153]) + [Wait]
      + Transaction(LutEndOption, [lut[153]])
      + Transaction(GateDrivingVoltageControl, [lut[154]])
      + Transaction(SourceDrivingVoltageControl, lut[155..158])
      + Transaction(WriteVcomRegister, [lut[158]])
  }

  /** The controller initialisation Configure sends after the pin reset:
      software reset, gate count, data entry mode, update control, then the
      full-update table. */
  function InitTrace(height: int, lut: Lut): seq<Event> {
    InitCommands(height) + LutTrace(lut)
  }

  function InitCommands(height: int): seq<Event> {
    Transaction(SwReset, []) + [Wait]
      + Transaction(DriverOutputControl, [LowByte(height - 1), HighByte(height - 1), 0x00])
      + Transaction(DataEntryModeSetting, [0x03])
      + Transaction(DisplayUpdateControl1, [0x00, 0x80])
      + [Wait]
  }

  // ---------------------------------------------------------------------
  // What the traces deliver

  lemma PointerPayload(x: int, y: int, active: bool)
    ensures Payload(Bytes(PointerTrace(x, y)), WriteRam, active) == []
    ensures !ActiveAfter(Bytes(PointerTrace(x, y)), WriteRam, active)
  {
    var t1 := Transaction(SetRamXAddressCounter, [LowByte(x / 8)]);
    var t2 := Transaction(SetRamYAddressCounter, [LowByte(y), HighByte(y)]);
    TransactionPayload(SetRamXAddressCounter, [LowByte(x / 8)], WriteRam, active);
    TransactionPayload(SetRamYAddressCounter, [LowByte(y), HighByte(y)], WriteRam, false);
    TracePayloadAppend(t1, t2, WriteRam, active);
    TracePayloadAppend(t1 + t2, [Wait], WriteRam, active);
    assert Bytes([Wait]) == [];
  }

  lemma RowPayload(buf: seq<bv8>, stride: nat, j: nat, active: bool)
    requires Times(j, stride) + stride <= |buf|
    ensures Payload(Bytes(RowTrace(buf, stride, j)), WriteRam, active) == buf[Times(j, stride)..Times(j, stride) + stride]
    ensures ActiveAfter(Bytes(RowTrace(buf, stride, j)), WriteRam, active)
  {
    var row := buf[Times(j, stride)..Times(j, stride) + stride];
    PointerPayload(0, j, active);
    TransactionPayload(WriteRam, row, WriteRam, false);
    TracePayloadAppend(PointerTrace(0, j), Transaction(WriteRam, row), WriteRam, active);
  }

  /** The RAM rows, in order, are exactly the framebuffer's bytes. */
  lemma {:induction false} RowsPayload(buf: seq<bv8>, stride: nat, n: nat, active: bool)
    requires Times(n, stride) <= |buf|
    ensures Payload(Bytes(RowsTrace(buf, stride, n)), WriteRam, active) == buf[..Times(n, stride)]
    ensures ActiveAfter(Bytes(RowsTrace(buf, stride, n)), WriteRam, active) == (n > 0 || active)
  {
    if n > 0 {
      var prev, row := RowsTrace(buf, stride, n - 1), RowTrace(buf, stride, n - 1);
      assert RowsTrace(buf, stride, n) == prev + row;
      RowsPayload(buf, stride, n - 1, active);
      RowPayload(buf, stride, n - 1, n - 1 > 0 || active);
      StreamSnoc(prev, row, WriteRam, buf, Times(n - 1, stride), Times(n, stride), active, n - 1 > 0 || active);
    }
  }

  /** Display streams the framebuffer, and nothing else, into the panel's
      RAM: the bytes received under WRITE_RAM are the buffer, in order. */
  lemma DisplayStreamsBuffer(logicalWidth: int, height: int, buf: seq<bv8>)
    requires ValidGeometry(logicalWidth, height) && |buf| == Times(height, logicalWidth / 8)
    ensures Payload(Bytes(DisplayTrace(logicalWidth, height, buf)), WriteRam, false) == buf
  {
    DisplayStreamsBufferFrom(logicalWidth, height, buf, false);
  }

  lemma AreaPayload(x0: int, y0: int, x1: int, y1: int, active: bool)
    ensures Payload(Bytes(AreaTrace(x0, y0, x1, y1)), WriteRam, active) == []
    ensures !ActiveAfter(Bytes(AreaTrace(x0, y0, x1, y1)), WriteRam, active)
  {
    var t1 := Transaction(SetRamXAddressStartEndPosition, [LowByte(x0 / 8), LowByte(x1 / 8)]);
    var t2 := Transaction(SetRamYAddressStartEndPosition, [LowByte(y0), HighByte(y0), LowByte(y1), HighByte(y1)]);
    TransactionPayload(SetRamXAddressStartEndPosition, [LowByte(x0 / 8), LowByte(x1 / 8)], WriteRam, active);
    TransactionPayload(SetRamYAddressStartEndPosition, [LowByte(y0), HighByte(y0), LowByte(y1), HighByte(y1)], WriteRam, false);
    TracePayloadAppend(t1, t2, WriteRam, active);
  }

  lemma ActivationPayload(active: bool)
    ensures Payload(Bytes(ActivationTrace()), WriteRam, active) == []
  {
    var t1 := Transaction(DisplayUpdateControl2, [0xC7]);
    var t2 := Transaction(MasterActivation, []);
    TransactionPayload(DisplayUpdateControl2, [0xC7], WriteRam, active);
    TransactionPayload(MasterActivation, [], WriteRam, false);
    TracePayloadAppend(t1, t2, WriteRam, active);
    TracePayloadAppend(t1 + t2, [Wait], WriteRam, active);
    assert Bytes([Wait]) == [];
  }

  lemma TransactionContent(c: bv8, data: seq<bv8>)
    ensures Opcodes(Bytes(Transaction(c, data))) == [c]
    ensures DataBytes(Bytes(Transaction(c, data))) == data
  {
    TransactionBytes(c, data);
    CommandWithData(c, data);
  }

  /** SetLUT sends the five opcodes in this order, and as data every entry of
      the table exactly once, in table order. */
  lemma LutSentInOrder(lut: Lut)
    ensures Opcodes(Bytes(LutTrace(lut)))
         == [WriteLutRegister, LutEndOption, GateDrivingVoltageControl, SourceDrivingVoltageControl, WriteVcomRegister]
    ensures DataBytes(Bytes(LutTrace(lut))) == lut
  {
    LutContentParts(lut);
    assert lut[..153] + [lut[153]] + [lut[154]] + lut[155..158] + [lut[158]] == lut;
  }

  /** LutSentInOrder, with the data still in the five pieces SetLUT sends. */
  lemma LutContentParts(lut: Lut)
    ensures Opcodes(Bytes(LutTrace(lut)))
         == [WriteLutRegister, LutEndOption, GateDrivingVoltageControl, SourceDrivingVoltageControl, WriteVcomRegister]
    ensures DataBytes(Bytes(LutTrace(lut))) == lut[..153] + [lut[153]] + [lut[154]] + lut[155..158] + [lut[158]]
  {
    var t1 := Transaction(WriteLutRegister, lut[..153]);
    var t2 := Transaction(LutEndOption, [lut[153]]);
    var t3 := Transaction(GateDrivingVoltageControl, [lut[154]]);
    var t4 := Transaction(SourceDrivingVoltageControl, lut[155..158]);
    var t5 := Transaction(WriteVcomRegister, [lut[158]]);
    TransactionContent(WriteLutRegister, lut[..153]);
    assert Bytes([Wait]) == [];
    TraceContentAppend(t1, [Wait]);
    ContentSnoc(t1 + [Wait], [WriteLutRegister], lut[..153], LutEndOption, [lut[153]]);
    ContentSnoc(t1 + [Wait] + t2, [WriteLutRegister, LutEndOption],
                lut[..153] + [lut[153]], GateDrivingVoltageControl, [lut[154]]);
    ContentSnoc(t1 + [Wait] + t2 + t3, [WriteLutRegister, LutEndOption, GateDrivingVoltageControl],
                lut[..153] + [lut[153]] + [lut[154]], SourceDrivingVoltageControl, lut[155..158]);
    ContentSnoc(t1 + [Wait] + t2 + t3 + t4,
                [WriteLutRegister, LutEndOption, GateDrivingVoltageControl, SourceDrivingVoltageControl],
                lut[..153] + [lut[153]] + [lut[154]] + lut[155..158], WriteVcomRegister, [lut[158]]);
  }

  /** A transaction appended to a trace of known content. */
  lemma ContentSnoc(t: seq<Event>, ops: seq<bv8>, data: seq<bv8>, c: bv8, d: seq<bv8>)
    requires Opcodes(Bytes(t)) == ops && DataBytes(Bytes(t)) == data
    ensures Opcodes(Bytes(t + Transaction(c, d))) == ops + [c]
    ensures DataBytes(Bytes(t + Transaction(c, d))) == data + d
  {
    TransactionContent(c, d);
    TraceContentAppend(t, Transaction(c, d));
  }

  /** The two tables differ, so the data SetLUT sends tells which one was
      chosen. */
  lemma LutTablesDiffer()
    ensures LutFullUpdate != LutPartialUpdate
  {
    assert LutFullUpdate[156] != LutPartialUpdate[156];
  }

  /** ClearDisplay first fills the panel RAM with `bufferLength` bytes of
      0xFF and then streams the framebuffer, which it leaves as it was. */
  lemma ClearDisplayPayload(logicalWidth: int, height: int, bufferLength: nat, buf: seq<bv8>)
    requires ValidGeometry(logicalWidth, height) && |buf| == Times(height, logicalWidth / 8)
    ensures Payload(Bytes(ClearTrace(logicalWidth, height, bufferLength, buf)), WriteRam, false)
         == Repeat(0xFF, bufferLength) + buf
  {
    var setup := ClearSetup(logicalWidth - 1, height - 1, bufferLength);
    ClearSetupPayload(logicalWidth - 1, height - 1, bufferLength);
    DisplayStreamsBufferFrom(logicalWidth, height, buf, true);
    TracePayloadAppend(setup, DisplayTrace(logicalWidth, height, buf), WriteRam, false);
  }

  /** What ClearDisplay sends before its Display. */
  function ClearSetup(x1: int, y1: int, bufferLength: nat): seq<Event> {
    AreaTrace(0, 0, x1, y1) + PointerTrace(0, 0) + Transaction(WriteRam, Repeat(0xFF, bufferLength))
  }

  lemma ClearSetupPayload(x1: int, y1: int, bufferLength: nat)
    ensures Payload(Bytes(ClearSetup(x1, y1, bufferLength)), WriteRam, false) == Repeat(0xFF, bufferLength)
    ensures ActiveAfter(Bytes(ClearSetup(x1, y1, bufferLength)), WriteRam, false)
  {
    var area, ptr := AreaTrace(0, 0, x1, y1), PointerTrace(0, 0);
    AreaPayload(0, 0, x1, y1, false);
    PointerPayload(0, 0, false);
    TransactionPayload(WriteRam, Repeat(0xFF, bufferLength), WriteRam, false);
    TracePayloadAppend(area, ptr, WriteRam, false);
    TracePayloadAppend(area + ptr, Transaction(WriteRam, Repeat(0xFF, bufferLength)), WriteRam, false);
  }

  /** DisplayStreamsBuffer, from any starting state: Display begins with a
      command, so what came before does not matter. */
  lemma DisplayStreamsBufferFrom(logicalWidth: int, height: int, buf: seq<bv8>, active: bool)
    requires ValidGeometry(logicalWidth, height) && |buf| == Times(height, logicalWidth / 8)
    ensures Payload(Bytes(DisplayTrace(logicalWidth, height, buf)), WriteRam, active) == buf
  {
    StreamAfterArea(DisplayTrace(logicalWidth, height, buf), logicalWidth - 1, height - 1, buf, logicalWidth / 8, height, active);
  }

  lemma StreamAfterArea(t: seq<Event>, x1: int, y1: int, buf: seq<bv8>, stride: nat, height: nat, active: bool)
    requires 0 < height && |buf| == Times(height, stride)
    requires t == AreaTrace(0, 0, x1, y1) + RowsTrace(buf, stride, height) + ActivationTrace()
    ensures Payload(Bytes(t), WriteRam, active) == buf
  {
    AreaPayload(0, 0, x1, y1, active);
    FullRowsPayload(buf, stride, height);
    ActivationPayload(true);
    PayloadBetween(AreaTrace(0, 0, x1, y1), RowsTrace(buf, stride, height), ActivationTrace(), WriteRam, active, buf);
  }

  lemma FullRowsPayload(buf: seq<bv8>, stride: nat, height: nat)
    requires 0 < height && |buf| == Times(height, stride)
    ensures Payload(Bytes(RowsTrace(buf, stride, height)), WriteRam, false) == buf
    ensures ActiveAfter(Bytes(RowsTrace(buf, stride, height)), WriteRam, false)
  {
    RowsPayload(buf, stride, height, false);
    assert buf[..Times(height, stride)] == buf;
  }

  /** Transactions with a few data bytes, written out event by event.
      These are proof helpers for the method proofs below; they add no
      behaviour of the driver. */
  lemma Transaction0(c: bv8)
    ensures Transaction(c, []) == [CommandEvent(c)]
  {
  }

  lemma Transaction1(c: bv8, d1: bv8)
    ensures Transaction(c, [d1]) == [CommandEvent(c), DataEvent(d1)]
  {
  }

  lemma Transaction2(c: bv8, d1: bv8, d2: bv8)
    ensures Transaction(c, [d1, d2]) == [CommandEvent(c), DataEvent(d1), DataEvent(d2)]
  {
  }

  lemma Transaction3(c: bv8, d1: bv8, d2: bv8, d3: bv8)
    ensures Transaction(c, [d1, d2, d3]) == [CommandEvent(c), DataEvent(d1), DataEvent(d2), DataEvent(d3)]
  {
  }

  lemma Transaction4(c: bv8, d1: bv8, d2: bv8, d3: bv8, d4: bv8)
    ensures Transaction(c, [d1, d2, d3, d4])
         == [CommandEvent(c), DataEvent(d1), DataEvent(d2), DataEvent(d3), DataEvent(d4)]
  {
  }

  /** The byte-by-byte sends of SetLUT after its loop, regrouped into
      transactions. */
  lemma LutTail(p: seq<Event>, lut: Lut)
    ensures p + Transaction(WriteLutRegister, lut[..153]) + [Wait]
            + [CommandEvent(LutEndOption)] + [DataEvent(lut[153])]
            + [CommandEvent(GateDrivingVoltageControl)] + [DataEvent(lut[154])]
            + [CommandEvent(SourceDrivingVoltageControl)]
            + [DataEvent(lut[155])] + [DataEvent(lut[156])] + [DataEvent(lut[157])]
            + [CommandEvent(WriteVcomRegister)] + [DataEvent(lut[158])]
         == p + LutTrace(lut)
  {
    var t0 := Transaction(WriteLutRegister, lut[..153]);
    var g1 := [CommandEvent(LutEndOption), DataEvent(lut[153])];
    var g2 := [CommandEvent(GateDrivingVoltageControl), DataEvent(lut[154])];
    var g3 := [CommandEvent(SourceDrivingVoltageControl), DataEvent(lut[155]), DataEvent(lut[156]), DataEvent(lut[157])];
    var g4 := [CommandEvent(WriteVcomRegister), DataEvent(lut[158])];
    var q := p + t0 + [Wait];
    Snoc2(q, CommandEvent(LutEndOption), DataEvent(lut[153]));
    Snoc2(q + g1, CommandEvent(GateDrivingVoltageControl), DataEvent(lut[154]));
    Snoc4(q + g1 + g2, CommandEvent(SourceDrivingVoltageControl), DataEvent(lut[155]), DataEvent(lut[156]), DataEvent(lut[157]));
    Snoc2(q + g1 + g2 + g3, CommandEvent(WriteVcomRegister), DataEvent(lut[158]));
    AppendAssoc(p, t0, [Wait]);
    AppendAssoc(p, t0 + [Wait], g1);
    AppendAssoc(p, t0 + [Wait] + g1, g2);
    AppendAssoc(p, t0 + [Wait] + g1 + g2, g3);
    AppendAssoc(p, t0 + [Wait] + g1 + g2 + g3, g4);
    Transaction1(LutEndOption, lut[153]);
    Transaction1(GateDrivingVoltageControl, lut[154]);
    assert lut[155..158] == [lut[155], lut[156], lut[157]];
    Transaction3(SourceDrivingVoltageControl, lut[155], lut[156], lut[157]);
    Transaction1(WriteVcomRegister, lut[158]);
  }

  /** The single-byte sends of setMemoryArea, regrouped into transactions. */
  lemma AreaSends(p: seq<Event>, x0: int, y0: int, x1: int, y1: int)
    ensures p + [CommandEvent(SetRamXAddressStartEndPosition)]
            + [DataEvent(LowByte(x0 / 8))] + [DataEvent(LowByte(x1 / 8))]
            + [CommandEvent(SetRamYAddressStartEndPosition)]
            + [DataEvent(LowByte(y0))] + [DataEvent(HighByte(y0))]
            + [DataEvent(LowByte(y1))] + [DataEvent(HighByte(y1))]
         == p + AreaTrace(x0, y0, x1, y1)
  {
    var cx, cy := CommandEvent(SetRamXAddressStartEndPosition), CommandEvent(SetRamYAddressStartEndPosition);
    var a, b := DataEvent(LowByte(x0 / 8)), DataEvent(LowByte(x1 / 8));
    var c, d, e, f := DataEvent(LowByte(y0)), DataEvent(HighByte(y0)), DataEvent(LowByte(y1)), DataEvent(HighByte(y1));
    Snoc3(p, cx, a, b);
    Snoc5(p + [cx, a, b], cy, c, d, e, f);
    AppendAssoc(p, [cx, a, b], [cy, c, d, e, f]);
    Transaction2(SetRamXAddressStartEndPosition, LowByte(x0 / 8), LowByte(x1 / 8));
    Transaction4(SetRamYAddressStartEndPosition, LowByte(y0), HighByte(y0), LowByte(y1), HighByte(y1));
  }

  /** The single-byte sends of setMemoryPointer, regrouped into transactions. */
  lemma PointerSends(p: seq<Event>, x: int, y: int)
    ensures p + [CommandEvent(SetRamXAddressCounter)] + [DataEvent(LowByte(x / 8))]
            + [CommandEvent(SetRamYAddressCounter)] + [DataEvent(LowByte(y))] + [DataEvent(HighByte(y))]
            + [Wait]
         == p + PointerTrace(x, y)
  {
    var cx, cy := CommandEvent(SetRamXAddressCounter), CommandEvent(SetRamYAddressCounter);
    var a, b, c := DataEvent(LowByte(x / 8)), DataEvent(LowByte(y)), DataEvent(HighByte(y));
    Snoc2(p, cx, a);
    Snoc3(p + [cx, a], cy, b, c);
    AppendAssoc(p, [cx, a], [cy, b, c]);
    AppendAssoc(p, [cx, a] + [cy, b, c], [Wait]);
    Transaction1(SetRamXAddressCounter, LowByte(x / 8));
    Transaction2(SetRamYAddressCounter, LowByte(y), HighByte(y));
  }

  /** The single-byte sends of Configure before SetLUT, regrouped. */
  lemma InitSends(p: seq<Event>, height: int)
    ensures p + [CommandEvent(SwReset)] + [Wait]
            + [CommandEvent(DriverOutputControl)]
            + [DataEvent(LowByte(height - 1))] + [DataEvent(HighByte(height - 1))] + [DataEvent(0x00)]
            + [CommandEvent(DataEntryModeSetting)] + [DataEvent(0x03)]
            + [CommandEvent(DisplayUpdateControl1)] + [DataEvent(0x00)] + [DataEvent(0x80)]
            + [Wait]
         == p + InitCommands(height)
  {
    var lo, hi := DataEvent(LowByte(height - 1)), DataEvent(HighByte(height - 1));
    var g1 := [CommandEvent(SwReset)];
    var g3 := [CommandEvent(DriverOutputControl), lo, hi, DataEvent(0x00)];
    var g4 := [CommandEvent(DataEntryModeSetting), DataEvent(0x03)];
    var g5 := [CommandEvent(DisplayUpdateControl1), DataEvent(0x00), DataEvent(0x80)];
    var q := p + g1 + [Wait];
    Snoc4(q, CommandEvent(DriverOutputControl), lo, hi, DataEvent(0x00));
    Snoc2(q + g3, CommandEvent(DataEntryModeSetting), DataEvent(0x03));
    Snoc3(q + g3 + g4, CommandEvent(DisplayUpdateControl1), DataEvent(0x00), DataEvent(0x80));
    AppendAssoc(p, g1, [Wait]);
    AppendAssoc(p, g1 + [Wait], g3);
    AppendAssoc(p, g1 + [Wait] + g3, g4);
    AppendAssoc(p, g1 + [Wait] + g3 + g4, g5);
    AppendAssoc(p, g1 + [Wait] + g3 + g4 + g5, [Wait]);
    Transaction0(SwReset);
    Transaction3(DriverOutputControl, LowByte(height - 1), HighByte(height - 1), 0x00);
    Transaction1(DataEntryModeSetting, 0x03);
    Transaction2(DisplayUpdateControl1, 0x00, 0x80);
  }

  /** One more byte of a run of buffer bytes sent as data. */
  lemma DataEventsSnoc(buf: seq<bv8>, lo: nat, i: nat)
    requires lo + i < |buf|
    ensures DataEvents(buf[lo..lo + i]) + [DataEvent(buf[lo + i])] == DataEvents(buf[lo..lo + i + 1])
  {
    assert buf[lo..lo + i + 1] == buf[lo..lo + i] + [buf[lo + i]];
    DataEventsAppend(buf[lo..lo + i], [buf[lo + i]]);
  }

  /** Display's row `j`, sent byte by byte, extends the rows before it. */
  lemma RowStep(p: seq<Event>, buf: seq<bv8>, stride: nat, j: nat)
    requires Times(j, stride) + stride <= |buf|
    ensures Times(j + 1, stride) <= |buf|
    ensures p + RowsTrace(buf, stride, j) + PointerTrace(0, j) + [CommandEvent(WriteRam)]
            + DataEvents(buf[Times(j, stride)..Times(j, stride) + stride])
         == p + RowsTrace(buf, stride, j + 1)
  {
    var r, a, b := RowsTrace(buf, stride, j), PointerTrace(0, j), [CommandEvent(WriteRam)];
    var c := DataEvents(buf[Times(j, stride)..Times(j, stride) + stride]);
    AppendAssoc(p + r + a, b, c);
    AppendAssoc(p + r, a, b + c);
    AppendAssoc(p, r, a + (b + c));
  }

  /** The sends of Display's refresh, regrouped. */
  lemma ActivationSends(p: seq<Event>)
    ensures p + [CommandEvent(DisplayUpdateControl2)] + [DataEvent(0xC7)]
            + [CommandEvent(MasterActivation)] + [Wait]
         == p + ActivationTrace()
  {
    var g := [CommandEvent(DisplayUpdateControl2), DataEvent(0xC7)];
    Snoc2(p, CommandEvent(DisplayUpdateControl2), DataEvent(0xC7));
    AppendAssoc(p, g, [CommandEvent(MasterActivation)]);
    AppendAssoc(p, g + [CommandEvent(MasterActivation)], [Wait]);
    Transaction1(DisplayUpdateControl2, 0xC7);
    Transaction0(MasterActivation);
  }

  /** The sends of Display, regrouped. */
  lemma DisplaySends(p: seq<Event>, logicalWidth: int, height: int, buf: seq<bv8>)
    requires ValidGeometry(logicalWidth, height) && |buf| == Times(height, logicalWidth / 8)
    ensures p + AreaTrace(0, 0, logicalWidth - 1, height - 1) + RowsTrace(buf, logicalWidth / 8, height)
            + [CommandEvent(DisplayUpdateControl2)] + [DataEvent(0xC7)]
            + [CommandEvent(MasterActivation)] + [Wait]
         == p + DisplayTrace(logicalWidth, height, buf)
  {
    var a, r := AreaTrace(0, 0, logicalWidth - 1, height - 1), RowsTrace(buf, logicalWidth / 8, height);
    ActivationSends(p + a + r);
    AppendAssoc(p, a, r);
    AppendAssoc(p, a + r, ActivationTrace());
  }

  /** Display's sends, taken from snapshots of the trace. */
  lemma DisplayAssembled(s0: seq<Event>, s1: seq<Event>, s2: seq<Event>, s3: seq<Event>,
                          logicalWidth: int, height: int, buf: seq<bv8>)
    requires ValidGeometry(logicalWidth, height) && |buf| == Times(height, logicalWidth / 8)
    requires s1 == s0 + AreaTrace(0, 0, logicalWidth - 1, height - 1)
    requires s2 == s1 + RowsTrace(buf, logicalWidth / 8, height)
    requires s3 == s2 + [CommandEvent(DisplayUpdateControl2)] + [DataEvent(0xC7)]
                      + [CommandEvent(MasterActivation)] + [Wait]
    ensures s3 == s0 + DisplayTrace(logicalWidth, height, buf)
  {
    DisplaySends(s0, logicalWidth, height, buf);
  }

  /** ClearDisplay's sends, taken from snapshots of the trace. */
  lemma ClearAssembled(s0: seq<Event>, s1: seq<Event>, s2: seq<Event>, s3: seq<Event>, s4: seq<Event>,
                       logicalWidth: int, height: int, bufferLength: nat, buf: seq<bv8>)
    requires ValidGeometry(logicalWidth, height) && |buf| == Times(height, logicalWidth / 8)
    requires s1 == s0 + AreaTrace(0, 0, logicalWidth - 1, height - 1)
    requires s2 == s1 + PointerTrace(0, 0)
    requires s3 == s2 + Transaction(WriteRam, Repeat(0xFF, bufferLength))
    requires s4 == s3 + DisplayTrace(logicalWidth, height, buf)
    ensures s4 == s0 + ClearTrace(logicalWidth, height, bufferLength, buf)
  {
    var a, p := AreaTrace(0, 0, logicalWidth - 1, height - 1), PointerTrace(0, 0);
    var w, d := Transaction(WriteRam, Repeat(0xFF, bufferLength)), DisplayTrace(logicalWidth, height, buf);
    assert ClearTrace(logicalWidth, height, bufferLength, buf) == a + p + w + d;
    AppendAssoc(s0, a + p + w, d);
    AppendAssoc(s0, a + p, w);
    AppendAssoc(s0, a, p);
  }

  // ---------------------------------------------------------------------
  // The device

  class Device {
    var logicalWidth: int
    var width: int
    var height: int
    var buffer: array<bv8>
    var bufferLength: int
    var rotation: Rotation
    /** Every event this device has put on the bus, oldest first. */
    var sent: seq<Event>
    /** The package's two waveform tables, which the driver never changes. */
    const lutFull: Lut
    const lutPartial: Lut

    /** A configured device. */
    ghost predicate Valid()
      reads this`width, this`logicalWidth, this`height, this`bufferLength, this`buffer
    {
      IsInt16(width) && ValidGeometry(logicalWidth, height)
      && bufferLength == Times(height, logicalWidth / 8) && buffer.Length == bufferLength
    }

    /** New: bus and pins bound, nothing configured yet. */
    constructor ()
      ensures logicalWidth == 0 && width == 0 && height == 0 && rotation == NoRotation
      ensures bufferLength == 0 && buffer.Length == 0 && sent == []
      ensures lutFull == LutFullUpdate && lutPartial == LutPartialUpdate
    {
      LutLengths();
      lutFull, lutPartial := LutFullUpdate, LutPartialUpdate;
      logicalWidth, width, height := 0, 0, 0;
      buffer := new bv8[0];
      bufferLength := 0;
      rotation := NoRotation;
      sent := [];
    }

    /** Applies the defaults, allocates a framebuffer of all 0xFF and
        initialises the controller. */
    method Configure(cfg: Config)
      requires IsInt16(cfg.width) && 0 <= cfg.height <= MAX16
      requires 0 <= cfg.logicalWidth <= MAX16 && cfg.logicalWidth % 8 == 0
      modifies this
      ensures Valid() && fresh(buffer)
      ensures logicalWidth == (if cfg.logicalWidth != 0 then cfg.logicalWidth else 128)
      ensures width == (if cfg.width != 0 then cfg.width else 128)
      ensures height == (if cfg.height != 0 then cfg.height else 296)
      ensures rotation == cfg.rotation
      ensures forall k :: 0 <= k < buffer.Length ==> buffer[k] == 0xFF
      ensures sent == old(sent) + InitTrace(height, lutFull)
    {
      ApplyConfig(cfg);
      InitController();
    }

    /** The part of Configure before the pin reset: the defaults and a
        framebuffer of `logicalWidth * height / 8` bytes of 0xFF. */
    method ApplyConfig(cfg: Config)
      requires IsInt16(cfg.width) && 0 <= cfg.height <= MAX16
      requires 0 <= cfg.logicalWidth <= MAX16 && cfg.logicalWidth % 8 == 0
      modifies this`logicalWidth, this`width, this`height, this`rotation, this`bufferLength, this`buffer
      ensures Valid() && fresh(buffer)
      ensures logicalWidth == (if cfg.logicalWidth != 0 then cfg.logicalWidth else 128)
      ensures width == (if cfg.width != 0 then cfg.width else 128)
      ensures height == (if cfg.height != 0 then cfg.height else 296)
      ensures rotation == cfg.rotation
      ensures bufferLength == logicalWidth * height / 8
      ensures forall k :: 0 <= k < buffer.Length ==> buffer[k] == 0xFF
    {
      var lw := if cfg.logicalWidth != 0 then cfg.logicalWidth else 128;
      var h := if cfg.height != 0 then cfg.height else 296;
      logicalWidth, height := lw, h;
      width := if cfg.width != 0 then cfg.width else 128;
      rotation := cfg.rotation;
      var n := (lw * h) / 8;
      BufferSize(lw, h);
      bufferLength := n;
      buffer := WhiteBuffer(n);
    }

    /** `make([]uint8, n)` followed by the 0xFF fill loop of Configure. */
    static method WhiteBuffer(n: nat) returns (a: array<bv8>)
      ensures fresh(a) && a.Length == n
      ensures forall k :: 0 <= k < n ==> a[k] == 0xFF
    {
      a := new bv8[n];
      var i := 0;
      while i < n
        invariant 0 <= i <= n
        invariant forall k :: 0 <= k < i ==> a[k] == 0xFF
      {
        a[i] := 0xFF;
        i := i + 1;
      }
    }

    /** The part of Configure after the pin reset: the controller command
        sequence, ending with the full-update table. */
    method InitController()
      modifies this`sent
      ensures sent == old(sent) + InitTrace(height, lutFull)
    {
      SendInitCommands(height);
      SetLUT(true);
      AppendAssoc(old(sent), InitCommands(height), LutTrace(lutFull));
    }

    /** Software reset, gate count (`h - 1`, low byte first), data
        entry mode and update control, with the two busy waits. */
    method SendInitCommands(h: int)
      modifies this`sent
      ensures sent == old(sent) + InitCommands(h)
    {
      SendCommand(SwReset);
      WaitUntilIdle();
      SendCommand(DriverOutputControl);
      SendData(LowByte(h - 1));
      SendData(HighByte(h - 1));
      SendData(0x00);
      SendCommand(DataEntryModeSetting);
      SendData(0x03);
      SendCommand(DisplayUpdateControl1);
      SendData(0x00);
      SendData(0x80);
      WaitUntilIdle();
      InitSends(old(sent), h);
    }

    /** One byte in one chip-select frame, data/command select low for a
        command and high for data. */
    method SendDataCommand(isCommand: bool, data: bv8)
      modifies this`sent
      ensures sent == old(sent) + [Frame([if isCommand then Cmd(data) else Dat(data)])]
    {
      sent := sent + [Frame([if isCommand then Cmd(data) else Dat(data)])];
    }

    method SendCommand(command: bv8)
      modifies this`sent
      ensures sent == old(sent) + [CommandEvent(command)]
    {
      SendDataCommand(true, command);
    }

    method SendData(data: bv8)
      modifies this`sent
      ensures sent == old(sent) + [DataEvent(data)]
    {
      SendDataCommand(false, data);
    }

    /** The busy-pin wait, recorded as one event. */
    method WaitUntilIdle()
      modifies this`sent
      ensures sent == old(sent) + [Wait]
    {
      sent := sent + [Wait];
    }

    /** Programs the full-update table when `fullUpdate`, the partial-update
        table otherwise: 153 waveform bytes under WRITE_LUT_REGISTER, a busy
        wait, then the end option, gate voltage, three source voltages and
        VCOM from the table's tail. */
    method SetLUT(fullUpdate: bool)
      modifies this`sent
      ensures sent == old(sent) + LutTrace(if fullUpdate then lutFull else lutPartial)
    {
      var lut := lutFull;
      if !fullUpdate {
        lut := lutPartial;
      }
      SendCommand(WriteLutRegister);
      var i := 0;
      while i < 153
        invariant 0 <= i <= 153
        invariant sent == old(sent) + Transaction(WriteLutRegister, lut[..i])
      {
        SendData(lut[i]);
        TransactionSnoc(WriteLutRegister, lut[..i], lut[i]);
        assert lut[..i + 1] == lut[..i] + [lut[i]];
        i := i + 1;
      }
      WaitUntilIdle();
      SendCommand(LutEndOption);
      SendData(lut[153]);
      SendCommand(GateDrivingVoltageControl);
      SendData(lut[154]);
      SendCommand(SourceDrivingVoltageControl);
      SendData(lut[155]);
      SendData(lut[156]);
      SendData(lut[157]);
      SendCommand(WriteVcomRegister);
      SendData(lut[158]);
      LutTail(old(sent), lut);
    }

    /** Sets (colour with zero red, green and blue) or clears the bit of the
        pixel the rotated coordinates name; a no-op off the canvas. */
    method SetPixel(x: int, y: int, c: RGBA)
      requires Valid() && IsInt16(x) && IsInt16(y)
      modifies buffer
      ensures buffer[..] == Plot(old(buffer[..]), logicalWidth, width, height, rotation, x, y, SetsBit(c))
    {
      var (nx, ny) := Xy(rotation, width, height, x, y);
      if nx < 0 || nx >= logicalWidth || ny < 0 || ny >= height {
        return;
      }
      var byteIndex := (nx + ny * logicalWidth) / 8;
      ghost var before := buffer[..];
      PlotAt(before, logicalWidth, width, height, rotation, x, y, SetsBit(c), nx, ny, byteIndex);
      // WithBit is `|= mask` for a set bit and `&^= mask` for a cleared one.
      buffer[byteIndex] := WithBit(buffer[byteIndex], nx % 8, SetsBit(c));
    }

    /** Streams the framebuffer row by row into the panel RAM and triggers a
        refresh.  The row index is `int16` arithmetic in the driver, so the
        buffer may hold at most 32768 bytes. */
    method Display() returns (err: Option<string>)
      requires Valid() && bufferLength <= 0x8000
      modifies this`sent
      ensures err == None
      ensures sent == old(sent) + DisplayTrace(logicalWidth, height, buffer[..])
    {
      Refresh(logicalWidth, height, buffer[..]);
      err := None;
    }

    /** Display's body, on the geometry and frame it is given. */
    method Refresh(lw: int, rows: int, ghost buf: seq<bv8>)
      requires ValidGeometry(lw, rows) && buf == buffer[..] && buffer.Length <= 0x8000
      requires |buf| == Times(rows, lw / 8)
      modifies this`sent
      ensures sent == old(sent) + DisplayTrace(lw, rows, buf)
    {
      ghost var s0 := sent;
      SetMemoryArea(0, 0, lw - 1, rows - 1);
      ghost var s1 := sent;
      StreamRows(lw / 8, rows, buf);
      ghost var s2 := sent;
      SendCommand(DisplayUpdateControl2);
      SendData(0xC7);
      SendCommand(MasterActivation);
      WaitUntilIdle();
      DisplayAssembled(s0, s1, s2, sent, lw, rows, buf);
    }

    /** The two loops of Display: for each row, the address counter set to
        the row start, WRITE_RAM, then the row's bytes. */
    method StreamRows(stride: int, rows: int, ghost buf: seq<bv8>)
      requires buf == buffer[..] && buffer.Length <= 0x8000
      requires 0 <= stride && 0 <= rows && |buf| == Times(rows, stride)
      modifies this`sent
      ensures sent == old(sent) + RowsTrace(buf, stride, rows)
    {
      var j := 0;
      while j < rows
        invariant 0 <= j <= rows
        invariant Times(j, stride) <= |buf| && buf == buffer[..]
        invariant sent == old(sent) + RowsTrace(buf, stride, j)
      {
        TimesMonotone(j + 1, rows, stride);
        StreamRow(j, stride, buf);
        RowStep(old(sent), buf, stride, j);
        j := j + 1;
      }
    }

    /** Row `j` of Display's outer loop; the byte index `i + j * stride`
        is the driver's. */
    method StreamRow(j: int, stride: int, ghost buf: seq<bv8>)
      requires buf == buffer[..] && buffer.Length <= 0x8000
      requires 0 <= j && 0 <= stride && Times(j, stride) + stride <= |buf|
      modifies this`sent
      ensures sent == old(sent) + PointerTrace(0, j) + [CommandEvent(WriteRam)]
                      + DataEvents(buf[Times(j, stride)..Times(j, stride) + stride])
    {
      ghost var lo := Times(j, stride);
      TimesIsProduct(j, stride);
      SetMemoryPointer(0, j);
      SendCommand(WriteRam);
      ghost var rowStart := sent;
      var i := 0;
      while i < stride
        invariant 0 <= i <= stride
        invariant sent == rowStart + DataEvents(buf[lo..lo + i])
      {
        SendData(buffer[i + j * stride]);
        DataEventsSnoc(buf, lo, i);
        i := i + 1;
      }
    }

    /** Writes `bufferLength` bytes of 0xFF to the panel RAM, then calls
        Display; the framebuffer itself is not cleared. */
    method ClearDisplay()
      requires Valid() && bufferLength <= 0x8000
      modifies this`sent
      ensures sent == old(sent) + ClearTrace(logicalWidth, height, bufferLength, buffer[..])
    {
      ClearThenRefresh(logicalWidth, height, bufferLength, buffer[..]);
    }

    /** ClearDisplay's body, on the geometry and frame it is given. */
    method ClearThenRefresh(lw: int, rows: int, n: nat, ghost buf: seq<bv8>)
      requires ValidGeometry(lw, rows) && buf == buffer[..] && buffer.Length <= 0x8000
      requires |buf| == Times(rows, lw / 8)
      modifies this`sent
      ensures sent == old(sent) + ClearTrace(lw, rows, n, buf)
    {
      ghost var s0 := sent;
      SetMemoryArea(0, 0, lw - 1, rows - 1);
      ghost var s1 := sent;
      SetMemoryPointer(0, 0);
      ghost var s2 := sent;
      WhiteRam(n);
      ghost var s3 := sent;
      Refresh(lw, rows, buf);
      ClearAssembled(s0, s1, s2, s3, sent, lw, rows, n, buf);
    }

    /** ClearDisplay's loop: WRITE_RAM, then `count` bytes of 0xFF. */
    method WhiteRam(count: nat)
      modifies this`sent
      ensures sent == old(sent) + Transaction(WriteRam, Repeat(0xFF, count))
    {
      SendCommand(WriteRam);
      ghost var before := sent;
      var i := 0;
      while i < count
        invariant 0 <= i <= count
        invariant sent == before + DataEvents(Repeat(0xFF, i))
      {
        SendData(0xFF);
        DataEventsAppend(Repeat(0xFF, i), [0xFF]);
        i := i + 1;
      }
      AppendAssoc(old(sent), [CommandEvent(WriteRam)], DataEvents(Repeat(0xFF, i)));
    }

    method SetMemoryArea(x0: int, y0: int, x1: int, y1: int)
      modifies this`sent
      ensures sent == old(sent) + AreaTrace(x0, y0, x1, y1)
    {
      SendCommand(SetRamXAddressStartEndPosition);
      SendData(LowByte(x0 / 8));
      SendData(LowByte(x1 / 8));
      SendCommand(SetRamYAddressStartEndPosition);
      SendData(LowByte(y0));
      SendData(HighByte(y0));
      SendData(LowByte(y1));
      SendData(HighByte(y1));
      AreaSends(old(sent), x0, y0, x1, y1);
    }

    method SetMemoryPointer(x: int, y: int)
      modifies this`sent
      ensures sent == old(sent) + PointerTrace(x, y)
    {
      SendCommand(SetRamXAddressCounter);
      SendData(LowByte(x / 8));
      SendCommand(SetRamYAddressCounter);
      SendData(LowByte(y));
      SendData(HighByte(y));
      WaitUntilIdle();
      PointerSends(old(sent), x, y);
    }

    /** Every framebuffer byte becomes 0xFF. */
    method ClearBuffer()
      requires Valid()
      modifies buffer
      ensures forall k :: 0 <= k < buffer.Length ==> buffer[k] == 0xFF
    {
      var i := 0;
      while i < bufferLength
        invariant 0 <= i <= bufferLength
        invariant forall k :: 0 <= k < i ==> buffer[k] == 0xFF
      {
        buffer[i] := 0xFF;
        i := i + 1;
      }
    }

    /** The size the caller draws on under the current rotation. */
    method Size() returns (w: int, h: int)
      ensures (w, h) == DrawingSize(rotation, logicalWidth, height)
    {
      if rotation == Rotation90 || rotation == Rotation270 {
        return height, logicalWidth;
      }
      return logicalWidth, height;
    }

    method SetRotation(r: Rotation)
      modifies this`rotation
      ensures rotation == r
    {
      rotation := r;
    }

    method DeepSleep()
      modifies this`sent
      ensures sent == old(sent) + Transaction(DeepSleepMode, []) + [Wait]
    {
      SendCommand(DeepSleepMode);
      WaitUntilIdle();
    }
  }
}
