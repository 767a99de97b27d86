# Verified model of the TinyGo e-paper drivers, I2C test mock and decimal formatter

This project is a Dafny model of four pieces of the TinyGo `drivers` repository.

- **The Waveshare 2.9" V2 e-paper driver** (`epd2in9v2`) is modelled in module `Epd2in9`.
  - The device is a class. It holds its geometry, its rotation and a one-bit-per-pixel framebuffer (`array<bv8>`, 0xFF = white).
  - It also holds `sent`, the trace of everything it has put on the SPI bus.
  - `SetPixel` maps the caller's point through the clockwise rotation, then sets or clears one bit.
  - `Display`, `ClearDisplay`, `SetLUT`, `setMemoryArea` and `setMemoryPointer` send one byte per chip-select frame.
  - Each of these is proved to append a fixed trace. Lemmas then show what that trace delivers to the panel RAM: exactly the framebuffer, in order.
- **The SSD1681 e-paper driver** is modelled in module `Ssd1681`.
  - `FillRectangle` is bounds-checked in `int16` arithmetic. It fills the rectangle's bits row by row, or refuses and changes nothing.
  - `SetPixel` is a 1x1 `FillRectangle`.
  - `Display` sends one `WRITE_BWRAM` command frame per framebuffer row.
  - `Configure` allocates a zeroed buffer of `ceil(width, 8) * height` bytes and sends the panel set-up commands.
- **The in-memory I2C mock** of the `tester` package is modelled in module `Tester`.
  - A contiguous-register device has 200 one-byte registers.
  - A classic device has a map from register number to a byte slice.
  - A bus routes register reads and writes to the device with the requested address.
  - The device methods are proved equal to pure functions of the device state, and the read/write round trips are proved about those functions.
- **`fmtD`/`itoc` of the weather-station example** are modelled in module `Weather`. They form a fixed-point decimal formatter that fills a byte string right to left.

Four supporting modules are shared:

- `Numeric`: Go `int16` wrap-around and the low/high byte of a value.
- `Wire`: the bus trace and what a controller receives under a given opcode.
- `Framebuffer`: the MSB-first, row-major bit layout, and pixel-level specifications of writing one pixel and filling a rectangle.
- `Optional`: an `Option` type for Go's `error` results.

The bus is a trace of events:

- A `Frame` is one chip-select period holding command (`Cmd`) and data (`Dat`) bytes.
- A `Wait` is a busy-pin wait.

`Payload(Bytes(trace), op, false)` is the data the controller receives while `op` is its current command. The Display lemmas are stated with it.

## Model

| member | source | states |
|---|---|---|
| Numeric.Wrap16 | ssd1681/ssd1681.go:124 | an `int16` sum is in range, congruent to the true sum modulo 2^16, and equal to it when the true sum fits |
| Wire.CommandWithData | ssd1681/ssd1681.go:178-185 | a command byte followed by its data carries one opcode and the data bytes in order |
| Wire.PayloadOfCommand | ssd1681/ssd1681.go:178-185 | a command with data delivers that data to `op` exactly when the command is `op`, and leaves `op` current exactly then |
| Wire.PayloadAppend | waveshare-epd/epd2in9v2/epd2in9.go:179-188 | what a byte stream delivers to `op` is what its first part delivers, then what the rest delivers from the state the first part left |
| Framebuffer.Mask | waveshare-epd/epd2in9v2/epd2in9.go:226 | the mask of pixel column `i` is `0x80 >> i` |
| Framebuffer.WithBit | waveshare-epd/epd2in9v2/epd2in9.go:225-229 | or-ing in the mask sets bit `i`, and-not-ing it clears the bit; the other seven bits keep their values |
| Framebuffer.BitsDetermineByte | ssd1681/ssd1681.go:142 | two bytes with the same eight pixel bits are equal |
| Framebuffer.ByteIndexInBounds | ssd1681/ssd1681.go:139 | every canvas pixel's byte `y * stride + x / 8` lies inside a buffer of `rows` rows of `stride` bytes |
| Framebuffer.PixelBitsDistinct | ssd1681/ssd1681.go:139-140 | two canvas pixels with the same byte index and the same bit are the same pixel |
| Framebuffer.WritePixelEffect | ssd1681/ssd1681.go:139-142 | writing a pixel gives it the new value and leaves every other pixel as it was |
| Framebuffer.SamePixelsSameBuffer | ssd1681/ssd1681.go:139-142 | two buffers of the same size whose pixels all agree are equal |
| Framebuffer.FillRowPixel | ssd1681/ssd1681.go:138-143 | after filling columns `[x0, x1)` of row `y`, the pixels of that span have the colour and every other pixel is unchanged |
| Framebuffer.FillRowsPixel | ssd1681/ssd1681.go:135-144 | after filling a rectangle, every pixel inside has the colour and every pixel outside is unchanged |
| Framebuffer.FillRowsIdempotent | ssd1681/ssd1681.go:142 | filling the same rectangle twice gives the same buffer as filling it once |
| Framebuffer.FillUnit | ssd1681/ssd1681.go:118 | a 1x1 rectangle fill is a single pixel write |
| Framebuffer.FillOverFill | ssd1681/ssd1681.go:135-144 | painting the canvas `bg` and then a rectangle `fg` leaves exactly the rectangle `fg` and the rest `bg` |
| Epd2in9.LutLengths | waveshare-epd/epd2in9v2/epd2in9.go:42-85 | both waveform tables have 159 entries |
| Epd2in9.LutTablesDiffer | waveshare-epd/epd2in9v2/epd2in9.go:42-85 | the full-update and partial-update tables differ, so the table SetLUT sends shows which one was chosen |
| Epd2in9.Xy | waveshare-epd/epd2in9v2/epd2in9.go:316-328 | the rotated coordinates of an `int16` point are `int16` values, the subtractions wrapping as in Go |
| Epd2in9.DrawingSize | waveshare-epd/epd2in9v2/epd2in9.go:303-308 | the reported width and height are the logical width and the height, in some order, so the drawing area is the canvas area |
| Epd2in9.XyLandsInCanvas | waveshare-epd/epd2in9v2/epd2in9.go:316-328 | with the panel width equal to the logical width, every point inside the reported size maps onto the canvas, for every rotation value |
| Epd2in9.XyInjective | waveshare-epd/epd2in9v2/epd2in9.go:316-328 | distinct points inside the reported size map to distinct canvas pixels |
| Epd2in9.XyNarrowPanelLosesRows | waveshare-epd/epd2in9v2/epd2in9.go:303-308 | with a panel narrower than its logical width, rotation 90 reports a height of `logicalWidth`, yet the point (0, logicalWidth - 1) maps to a negative column |
| Epd2in9.RowMajorIndex | waveshare-epd/epd2in9v2/epd2in9.go:224 | the driver's index `(x + y * logicalWidth) / 8` is the row-major byte of pixel (x, y) with `logicalWidth / 8` bytes per row, and lies inside the buffer |
| Epd2in9.BufferSize | waveshare-epd/epd2in9v2/epd2in9.go:120 | `logicalWidth * height / 8` bytes are `height` rows of `logicalWidth / 8` bytes |
| Epd2in9.PlotAt | waveshare-epd/epd2in9v2/epd2in9.go:219-229 | for a point that maps onto the canvas, SetPixel's result is the old buffer with only byte `(nx + ny * logicalWidth) / 8` rewritten by WithBit, and that index is in bounds |
| Epd2in9.PlotEffect | waveshare-epd/epd2in9v2/epd2in9.go:219-229 | SetPixel gives the pixel its rotated point names the colour bit (set for R = G = B = 0) and leaves every other pixel unchanged |
| Epd2in9.PlotOffCanvas | waveshare-epd/epd2in9v2/epd2in9.go:220-223 | a point that maps off the canvas leaves the buffer unchanged |
| Epd2in9.Repeat | waveshare-epd/epd2in9v2/epd2in9.go:255-256 | `n` bytes, each equal to `b` |
| Epd2in9.TransactionContent | waveshare-epd/epd2in9v2/epd2in9.go:169-188 | a command sent with SendCommand and its data sent with SendData put the opcode, then the data bytes in order, on the wire |
| Epd2in9.TransactionPayload | waveshare-epd/epd2in9v2/epd2in9.go:169-188 | such a transaction delivers its data to `op` exactly when its command is `op` |
| Epd2in9.AreaPayload | waveshare-epd/epd2in9v2/epd2in9.go:262-271 | setMemoryArea delivers nothing to WRITE_RAM and leaves another command current |
| Epd2in9.PointerPayload | waveshare-epd/epd2in9v2/epd2in9.go:274-281 | setMemoryPointer delivers nothing to WRITE_RAM and leaves another command current |
| Epd2in9.ActivationPayload | waveshare-epd/epd2in9v2/epd2in9.go:243-246 | the refresh commands after the rows deliver nothing to WRITE_RAM |
| Epd2in9.RowPayload | waveshare-epd/epd2in9v2/epd2in9.go:236-240 | row `j` of Display delivers exactly bytes `[j * stride, (j + 1) * stride)` of the buffer to WRITE_RAM |
| Epd2in9.RowsPayload | waveshare-epd/epd2in9v2/epd2in9.go:235-241 | the first `n` rows deliver the first `n * stride` buffer bytes, in order |
| Epd2in9.DisplayStreamsBuffer | waveshare-epd/epd2in9v2/epd2in9.go:233-248 | the bytes the panel receives under WRITE_RAM during Display are exactly the framebuffer, in order |
| Epd2in9.DisplayStreamsBufferFrom | waveshare-epd/epd2in9v2/epd2in9.go:233-248 | the same holds whatever command was current before Display |
| Epd2in9.LutSentInOrder | waveshare-epd/epd2in9v2/epd2in9.go:191-213 | SetLUT sends WRITE_LUT_REGISTER, 0x3F, 0x03, 0x04 and 0x2C in this order, and every one of the 159 table entries exactly once, in table order |
| Epd2in9.LutContentParts | waveshare-epd/epd2in9v2/epd2in9.go:197-212 | the data bytes of SetLUT are entries 0-152, 153, 154, 155-157 and 158, under those five commands |
| Epd2in9.ClearSetupPayload | waveshare-epd/epd2in9v2/epd2in9.go:252-257 | ClearDisplay's set-up delivers `bufferLength` bytes of 0xFF to WRITE_RAM and leaves it current |
| Epd2in9.ClearDisplayPayload | waveshare-epd/epd2in9v2/epd2in9.go:251-259 | ClearDisplay delivers `bufferLength` bytes of 0xFF and then the unchanged framebuffer to WRITE_RAM |
| Epd2in9.Device.constructor | waveshare-epd/epd2in9v2/epd2in9.go:88-100 | a new device has no geometry, rotation 0, an empty buffer, an empty trace and the two constant tables |
| Epd2in9.Device.Configure | waveshare-epd/epd2in9v2/epd2in9.go:103-150 | zero fields take the defaults 128/128/296; the rotation is stored; the buffer is fresh with every byte 0xFF; the trace grows by the init commands followed by the full-update table |
| Epd2in9.Device.ApplyConfig | waveshare-epd/epd2in9v2/epd2in9.go:104-124 | the defaults, `bufferLength = logicalWidth * height / 8`, and a fresh buffer of that length with every byte 0xFF |
| Epd2in9.Device.WhiteBuffer | waveshare-epd/epd2in9v2/epd2in9.go:121-124 | a fresh array of `n` bytes, every one 0xFF |
| Epd2in9.Device.InitController | waveshare-epd/epd2in9v2/epd2in9.go:133-149 | the trace grows by the init commands and then the full-update table |
| Epd2in9.Device.SendInitCommands | waveshare-epd/epd2in9v2/epd2in9.go:133-148 | the trace grows by: software reset, wait, gate count `height - 1` (low byte, high byte, 0), data entry mode 3, update control 0x00 0x80, wait |
| Epd2in9.Device.SendDataCommand | waveshare-epd/epd2in9v2/epd2in9.go:179-188 | one frame holding the one byte, as a command when `isCommand` and as data otherwise |
| Epd2in9.Device.SendCommand | waveshare-epd/epd2in9v2/epd2in9.go:169-171 | one frame holding the byte as a command |
| Epd2in9.Device.SendData | waveshare-epd/epd2in9v2/epd2in9.go:174-176 | one frame holding the byte as data |
| Epd2in9.Device.WaitUntilIdle | waveshare-epd/epd2in9v2/epd2in9.go:284-288 | one wait event, nothing else |
| Epd2in9.Device.SetLUT | waveshare-epd/epd2in9v2/epd2in9.go:191-213 | the trace grows by the table trace of the full-update table when `fullUpdate` and of the partial-update table otherwise |
| Epd2in9.Device.SetPixel | waveshare-epd/epd2in9v2/epd2in9.go:219-230 | the buffer becomes `Plot` of the old buffer, whose pixel-level effect PlotEffect and PlotOffCanvas state |
| Epd2in9.Device.Display | waveshare-epd/epd2in9v2/epd2in9.go:233-248 | returns nil, leaves the buffer unchanged, and grows the trace by memory area, rows in order and activation, which DisplayStreamsBuffer shows deliver the buffer |
| Epd2in9.Device.Refresh | waveshare-epd/epd2in9v2/epd2in9.go:234-247 | Display's sends, for the geometry and buffer given |
| Epd2in9.Device.StreamRows | waveshare-epd/epd2in9v2/epd2in9.go:235-241 | the trace grows by rows `0 .. rows - 1`, in order |
| Epd2in9.Device.StreamRow | waveshare-epd/epd2in9v2/epd2in9.go:236-240 | address counter at (0, j), WRITE_RAM, then exactly bytes `[j * stride, (j + 1) * stride)` of the buffer |
| Epd2in9.Device.ClearDisplay | waveshare-epd/epd2in9v2/epd2in9.go:251-259 | the trace grows by the white RAM fill and then Display's trace; the buffer is not changed |
| Epd2in9.Device.ClearThenRefresh | waveshare-epd/epd2in9v2/epd2in9.go:252-258 | ClearDisplay's sends, for the geometry and buffer given |
| Epd2in9.Device.WhiteRam | waveshare-epd/epd2in9v2/epd2in9.go:254-257 | WRITE_RAM followed by `count` data bytes of 0xFF |
| Epd2in9.Device.SetMemoryArea | waveshare-epd/epd2in9v2/epd2in9.go:262-271 | X window `x0 >> 3`, `x1 >> 3`, then Y window `y0` and `y1`, each low byte first |
| Epd2in9.Device.SetMemoryPointer | waveshare-epd/epd2in9v2/epd2in9.go:274-281 | X counter `x >> 3`, Y counter `y` low byte first, then a wait |
| Epd2in9.Device.ClearBuffer | waveshare-epd/epd2in9v2/epd2in9.go:296-300 | every byte of the buffer becomes 0xFF |
| Epd2in9.Device.Size | waveshare-epd/epd2in9v2/epd2in9.go:303-308 | the size under the current rotation, as `DrawingSize` states it |
| Epd2in9.Device.SetRotation | waveshare-epd/epd2in9v2/epd2in9.go:311-313 | the rotation becomes `r`; nothing else changes |
| Epd2in9.Device.DeepSleep | waveshare-epd/epd2in9v2/epd2in9.go:163-166 | DEEP_SLEEP_MODE, then a wait |
| Ssd1681.Quot | ssd1681/ssd1681.go:195 | Go's `/` truncates toward zero: the quotient never has the dividend's opposite sign, and the remainder has the dividend's sign and is smaller than the divisor |
| Ssd1681.Ceil | ssd1681/ssd1681.go:194-196 | `ceil(n, d)` computed in `int16`: the result times `d` stays within `int16` |
| Ssd1681.CeilIsLeast | ssd1681/ssd1681.go:194-196 | when `n + d - 1` fits in `int16`, `ceil(n, d)` is the least `k` with `k * d >= n` |
| Ssd1681.CeilWraps | ssd1681/ssd1681.go:194-196 | for the width 32767, `ceil(width, 8)` wraps to -4095 |
| Ssd1681.BufferSize | ssd1681/ssd1681.go:68 | Configure's `int16` size `((width + 7) / 8) * height` is `height` rows of `ceil(width, 8)` bytes when it fits |
| Ssd1681.FrameContent | ssd1681/ssd1681.go:178-185 | one command frame puts the opcode and then the data bytes on the wire: one opcode, the data in order |
| Ssd1681.ResetContent | ssd1681/ssd1681.go:86-88 | the reset step sends SW_RESET with no data |
| Ssd1681.WindowContent | ssd1681/ssd1681.go:93-102 | DRIVER_CONTROL, DATA_MODE, SET_RAMXPOS and SET_RAMYPOS in order, with their data bytes in order |
| Ssd1681.SettingsContent | ssd1681/ssd1681.go:105-110 | WRITE_BORDER 0x05, then TEMP_CONTROL 0x80 |
| Ssd1681.InitContent | ssd1681/ssd1681.go:86-110 | Configure sends the seven set-up opcodes in order, with data `width - 1` (low, high, 0), 3, 0 and `ceil(width, 8)`, 0 0 and `height - 1` (low, high), 5, 0x80 |
| Ssd1681.WrappedRectangleAccepted | ssd1681/ssd1681.go:122-147 | a rectangle whose `x + width` wraps past `int16` passes the bounds check, and the fill then leaves the buffer unchanged while FillRectangle reports success |
| Ssd1681.FramePayload | ssd1681/ssd1681.go:178-185 | a command frame delivers its data to `op` exactly when its opcode is `op` |
| Ssd1681.DisplayRowsInOrder | ssd1681/ssd1681.go:151-164 | Display sends `rows + 5` events, and event `2 + j` is WRITE_BWRAM carrying exactly row `j` of the buffer |
| Ssd1681.RowFramesAt | ssd1681/ssd1681.go:155-157 | the `j`-th frame of the row loop is the frame of row `j` |
| Ssd1681.TailPayload | ssd1681/ssd1681.go:159-161 | the refresh commands after the rows deliver nothing to WRITE_BWRAM |
| Ssd1681.RowsPayload | ssd1681/ssd1681.go:155-157 | the first `n` rows deliver the first `n * stride` buffer bytes to WRITE_BWRAM, in order |
| Ssd1681.DisplayStreamsBuffer | ssd1681/ssd1681.go:151-164 | the bytes the panel receives under WRITE_BWRAM during Display are exactly the framebuffer, in order |
| Ssd1681.SpanStep | ssd1681/ssd1681.go:139-142 | one pass of the inner loop extends the filled span by pixel `xpos`, and its byte index is in bounds |
| Ssd1681.MaskedWrite | ssd1681/ssd1681.go:140-142 | clearing the mask bit and or-ing in the colour byte's mask bit, with an all-ones or all-zeros colour byte, sets or clears exactly pixel column `i` |
| Ssd1681.ShiftedMask | ssd1681/ssd1681.go:140 | `1 << (7 - i)` is the mask of pixel column `i` |
| Ssd1681.Device.constructor | ssd1681/ssd1681.go:44-53 | a new device with the given opcodes, zero width and height, an empty buffer and an empty trace |
| Ssd1681.Device.Configure | ssd1681/ssd1681.go:56-111 | zero dimensions become 200; the buffer is fresh, zeroed and `ceil(width, 8) * height` bytes long; the trace grows by the set-up commands |
| Ssd1681.Device.ZeroBuffer | ssd1681/ssd1681.go:68 | a fresh array of `n` zero bytes |
| Ssd1681.Device.SendInit | ssd1681/ssd1681.go:86-110 | the trace grows by reset, window and settings, in order |
| Ssd1681.Device.SendReset | ssd1681/ssd1681.go:86-88 | wait, SW_RESET, wait |
| Ssd1681.Device.SendWindow | ssd1681/ssd1681.go:93-102 | the four window commands with their data |
| Ssd1681.Device.SendSettings | ssd1681/ssd1681.go:105-110 | border, temperature sensor, wait |
| Ssd1681.Device.SetPixel | ssd1681/ssd1681.go:114-119 | off the panel the buffer is unchanged; on it, exactly that pixel is written (white when the luminance is at least 128) |
| Ssd1681.Device.FillRectangle | ssd1681/ssd1681.go:122-147 | a rectangle failing any of the eight bound checks returns the out-of-bounds error and leaves the buffer; otherwise it returns nil and the buffer is the row-by-row fill, whose pixel-level effect FillRowsPixel states |
| Ssd1681.Device.FillSpan | ssd1681/ssd1681.go:138-143 | the inner loop fills columns `[x0, x1)` of row `ypos` |
| Ssd1681.Device.PaintPixel | ssd1681/ssd1681.go:139-142 | one pass of the inner loop writes pixel (xpos, ypos) |
| Ssd1681.Device.Display | ssd1681/ssd1681.go:151-164 | returns nil, leaves the buffer unchanged, and grows the trace by the counter reset, one WRITE_BWRAM per row and the refresh |
| Ssd1681.Device.Refresh | ssd1681/ssd1681.go:152-161 | Display's sends, for the stride and row count given |
| Ssd1681.Device.SendRows | ssd1681/ssd1681.go:155-157 | one WRITE_BWRAM frame per row, rows in order |
| Ssd1681.Device.SendRow | ssd1681/ssd1681.go:156 | the frame of row `row` |
| Ssd1681.Device.Size | ssd1681/ssd1681.go:167-169 | the configured width and height |
| Ssd1681.Device.DeepSleep | ssd1681/ssd1681.go:173-175 | DEEP_SLEEP with data 0x01 |
| Ssd1681.Device.Command | ssd1681/ssd1681.go:178-185 | one frame: the command byte, then every data byte in order |
| Ssd1681.Device.Wait | ssd1681/ssd1681.go:188-192 | one wait event, nothing else |
| Weather.Itoc | examples/weather-station/main.go:99-101 | for a value below 10, the ASCII digit of that value |
| Weather.DecimalAt | examples/weather-station/main.go:86-89 | digit `j` of a run of `k` digits is the digit of weight `10^(k - 1 - j)` |
| Weather.DecimalDigits | examples/weather-station/main.go:87 | a run of digits holds only ASCII digits |
| Weather.DecimalRoundTrip | examples/weather-station/main.go:86-89 | read back as a number, a run of `k` digits of `v` is `v mod 10^k` |
| Weather.DecimalSplit | examples/weather-station/main.go:86-94 | `i` digits of `v / 10^f` followed by `f` digits of `v` are the `i + f` digits of `v` |
| Weather.Formatted | examples/weather-station/main.go:84 | the result has length `i + f + 1` |
| Weather.FormattedAt | examples/weather-station/main.go:86-94 | position by position: '.' at `i` when there is one, and elsewhere the digit of `val` whose weight is 10 to the number of digits on its right |
| Weather.DotExactlyAt | examples/weather-station/main.go:90-93 | a position holds '.' exactly when `f >= 1`, `i >= 0` and the position is `i` |
| Weather.DigitsElsewhere | examples/weather-station/main.go:87 | every other position holds an ASCII digit |
| Weather.FormattedDigits | examples/weather-station/main.go:86-89 | without its '.', the result is the zero-padded low digits of `val`, and it reads back as `val mod 10^(digit count)`: higher digits are dropped |
| Weather.TemperatureExample | examples/weather-station/main.go:83-97 | 2345 with two integer and two fraction digits is "23.45"; with one integer digit it is "3.45" |
| Weather.FmtD | examples/weather-station/main.go:83-97 | a negative length `i + f + 1` is `make`'s panic (None); otherwise the descending fill loop returns a string of length `i + f + 1` equal to `Formatted(val, i, f)` |
| Tester.RangeCheck | tester/contiguousregdevice.go:57-64 | the access passes exactly when `r < 200` and `r + len(buf) <= 200`, and otherwise aborts the test |
| Tester.ContiguousErrorNoEffect | tester/contiguousregdevice.go:36-53 | with `Err` set, a read and a write both return it and change neither `buf` nor the registers |
| Tester.ContiguousReadResult | tester/contiguousregdevice.go:36-43 | a read succeeds exactly when there is no error and the range fits; it then fills `buf` with registers `r ..`, and otherwise leaves `buf` alone |
| Tester.ContiguousWriteResult | tester/contiguousregdevice.go:46-53 | a write succeeds under the same condition; it then sets registers `[r, r + len(buf))` to `buf` and keeps every other register, and otherwise changes nothing |
| Tester.ContiguousRoundTrip | tester/contiguousregdevice.go:36-53 | reading back a successful write at the same register and length returns the written bytes |
| Tester.ClassicCheck | tester/classicdevice.go:52-62 | the access passes exactly when the register exists, is not nil and has the buffer's length, and otherwise aborts the test |
| Tester.ClassicErrorNoEffect | tester/classicdevice.go:31-48 | with `Err` set, a read and a write both return it and change nothing |
| Tester.ClassicReadResult | tester/classicdevice.go:31-38 | a read succeeds exactly when there is no error and the register holds a slice of the buffer's length; it then copies the register into `buf`, and otherwise leaves `buf` alone |
| Tester.ClassicWriteResult | tester/classicdevice.go:41-48 | a write keeps the set of registers and every other register; on success register `r` holds `buf` with its length unchanged; on failure nothing changes |
| Tester.ClassicRoundTrip | tester/classicdevice.go:31-48 | reading back a successful write returns the written bytes |
| Tester.ContiguousDevice.constructor | tester/contiguousregdevice.go:23-33 | the device keeps the given address (which Addr returns), has no error and 200 zero registers |
| Tester.ContiguousDevice.ReadRegister | tester/contiguousregdevice.go:36-43 | status and `buf` are ContiguousRead of the device state; the registers are not changed |
| Tester.ContiguousDevice.WriteRegister | tester/contiguousregdevice.go:46-53 | status and registers are ContiguousWrite of the old registers |
| Tester.ClassicDevice.constructor | tester/classicdevice.go:18-28 | the device keeps the given address (which Addr returns), has no error and no registers |
| Tester.ClassicDevice.ReadRegister | tester/classicdevice.go:31-38 | status and `buf` are ClassicRead of the device state; the registers are not changed |
| Tester.ClassicDevice.WriteRegister | tester/classicdevice.go:41-48 | status and registers are ClassicWrite of the old registers |
| Tester.Find | tester/i2c.go:56-64 | a device found is on the bus and has the requested address |
| Tester.FindFinds | tester/i2c.go:56-64 | a device is found exactly when some device on the bus has the address |
| Tester.FindUnique | tester/i2c.go:56-64 | with distinct addresses, looking up a device's address finds that device |
| Tester.AddKeepsDistinct | tester/i2c.go:22-29 | appending a device at a new address keeps the addresses distinct, and the new device is then found at its address |
| Tester.Bus.constructor | tester/i2c.go:14-18 | a new bus has no devices |
| Tester.Bus.AddDevice | tester/i2c.go:22-29 | aborts exactly when a device already has the address and then changes nothing; otherwise appends the device; distinct addresses are preserved |
| Tester.Bus.NewContiguousRegisterDevice | tester/i2c.go:33-37 | a fresh device at `addr` is appended, and FindDevice then returns it, unless the address is taken |
| Tester.Bus.FindDevice | tester/i2c.go:56-64 | the linear scan returns the first device with the address, or none where the source aborts the test |
| Tester.Bus.ReadRegister | tester/i2c.go:40-42 | the read of the device found at `addr`, or an abort when none is |
| Tester.Bus.WriteRegister | tester/i2c.go:45-47 | the write of the device found at `addr`, or an abort when none is; a classic device keeps its `Err`, and nothing outside the found device's registers may change |
| Tester.Bus.Tx | tester/i2c.go:50-53 | returns nil and changes nothing |

## Left out

- Pin configuration, the reset pulse and the `time.Sleep` delays of both drivers (`New`, `Reset`, the start of `Configure`) are not modelled: they are GPIO and timing with no state the model keeps.
- The busy-pin loops `WaitUntilIdle` and `Wait` read an external pin and may never end. Each call is one `Wait` event in the trace.
- `IsBusy` is a pin read and is not modelled.
- SPI `Transfer` and `Tx` are the trace events they cause; the SPI implementation is not part of this model.
- The meaning of the waveform table bytes is not modelled. The tables are two constant 159-entry sequences, and only their transmission is specified.
- The SSD1681 opcode values are defined outside the driver file. The model takes them as a record of parameters fixed when the device is made.
- Ssd1681.DisplayStreamsBuffer: requires WRITE_BWRAM to differ from the other opcodes Display sends, since their values are not part of this model.
- Colour conversion is not modelled. Ssd1681.Device.FillRectangle and Ssd1681.Device.SetPixel take the luminance `color.GrayModel` computes, as a parameter.
- Epd2in9.Device.SetPixel: the colour keeps only its red, green and blue components; alpha is ignored by the driver.
- Epd2in9.Device.Configure: zero or positive settings only, the logical width a multiple of 8 as the Config documents; the `uint32` conversion of a negative setting is not modelled.
- Ssd1681.Device.Configure: requires a positive width and height whose buffer size fits in `int16`. A negative width or height is not modelled, even when the driver's size `((width + 7) / 8) * height` is zero or positive and `make` succeeds (width -1 and height 10 give a 0-byte buffer). Nor is the wrapped or negative size the driver would pass to `make`.
- Epd2in9.Device.Display: requires a buffer of at most 32768 bytes, because the driver's `int16` index would wrap beyond that.
- Epd2in9.Device.ClearDisplay: requires the same bound, since it calls Display.
- Use of a device before `Configure` is not modelled: the drawing and display methods below require a configured device (`Valid()`), although the Go code copes with the zero geometry that `New` leaves.
- Epd2in9.Device.SetPixel: requires a configured device; on an unconfigured one the driver's bounds check makes the call a no-op, which is not modelled.
- Epd2in9.Device.ClearBuffer: requires a configured device; on an unconfigured one the driver's loop runs zero times, which is not modelled.
- Epd2in9.Device.Display: requires a configured device; on an unconfigured one the driver sends the memory area (0, 0, -1, -1), no rows and the refresh, which is not modelled.
- Epd2in9.Device.ClearDisplay: requires a configured device; on an unconfigured one the driver sends no 0xFF bytes and then an empty Display, which is not modelled.
- Ssd1681.Device.SetPixel: requires a configured device; on an unconfigured one the driver's bounds check makes the call a no-op, which is not modelled.
- Ssd1681.Device.FillRectangle: requires a configured device; on an unconfigured one the driver returns the out-of-bounds error, which is not modelled.
- Ssd1681.Device.Display: requires a configured device; on an unconfigured one the driver sends the counter reset, no rows and the refresh, which is not modelled.
- Tester.ContiguousDevice.ReadRegister: requires `buf` not to be the register array itself; Go's overlapping `copy` is not modelled.
- Tester.ContiguousDevice.WriteRegister: requires `buf` not to be the register array itself; Go's overlapping `copy` is not modelled.
- Tester.Bus.ReadRegister: requires `buf` not to be the register array of any device on the bus; Go's overlapping `copy` is not modelled.
- Tester.Bus.WriteRegister: requires `buf` not to be the register array of any device on the bus; Go's overlapping `copy` is not modelled.
- Tester.ClassicDevice.WriteRegister: the register becomes a new value. A test that holds on to the old slice, and so sees Go's in-place `copy`, is not modelled.
- The `Failer` passed to the tester types is not modelled. `Fatalf` and `panic` become the result `Aborted`, with the reason, and change nothing; the device or bus state after a real `Fatalf` is not observable by a test anyway.
- The `I2CDevice` interface of tester/device.go is the datatype `AnyDevice` over the two device classes.
- The `error` values of the drivers are `Option<string>`. The tester's `Err` is an `Option<Error>` with a message.
- `main` of the weather-station example is sensor and screen I/O and is not modelled. `fmtD` returns bytes; the conversion to a Go `string` is not modelled.
- The other examples and the tests of other drivers are not part of this model.
