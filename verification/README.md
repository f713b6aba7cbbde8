# Waveshare 2.9-inch e-paper driver, modelled in Dafny

This project models the panel driver of the Waveshare 2.9-inch (128 x 296)
e-paper display, class `EPD_2in9`. It covers two parts of the driver.

**The framebuffer packer (`Getbuffer`).** It turns a rendered image into the
panel's packed RAM layout: 4736 bytes, one bit per pixel, most significant bit
first, a set bit meaning white. An image of 128 x 296 is packed as it stands,
in landscape layout. An image of 296 x 128 is rotated into the panel's frame,
in portrait layout. Any other size leaves the buffer all white.

**The command sequencer.** This covers:
- the reset pulse, SendCommand/SendData and the busy-wait;
- the refresh (TurnOnDisplay) and RAM addressing (SetWindow, SetCursor);
- `init` with a waveform table, and `Init`, which loads the full-update table;
- the two `Display` overloads, `Clear`, and the panel side of `Dispose`.

Every operation is a pure function that returns the steps it performs, in
order. These traces are modelled in layers:

| layer | module | what it is |
|---|---|---|
| `Step` | `Protocol` | one controller transaction `Txn(cmd, data)`, or one action off the bus: a reset-line write, a delay, or a busy-wait |
| `Op` | `Protocol.Expand` | one SendCommand per command byte and one SendData per data byte |
| `Signal` | `Transport.Lower` | pin writes, SPI bytes, busy-line samples and sleeps, with the busy line given as a finite sequence of readings |

The controller's side has two parts:
- `Transport.Deframe` recovers the actions from the pin events.
- `Protocol.Transactions` groups the actions into transactions: a command byte
  together with the data bytes that follow it.

The module layout:

| module | contents |
|---|---|
| `Wrappers` | the `Option` type |
| `Geometry` | the panel's constants |
| `Bits`, `Bytes` | bit masks and the byte encoders that SetWindow and SetCursor use |
| `Transport` | the pin and SPI events of SendCommand, SendData and ReadBusy, lowering actions to events and decoding events back to actions |
| `Protocol` | driver steps, the actions they expand to, and the command transactions the controller regroups them into |
| `Loops` | the counted `for` loops of Display and Clear, stated once for any loop body |
| `Packer` | `Getbuffer` |
| `Panel` | the command sequencer |

## Source map

Each driver method is modelled by one function. The rows of the next section
name the members whose contracts state what the method does.

| driver method | lines | model | its contract is stated by |
|---|---|---|---|
| `SendCommand`, `SendData` | 46-60 | `Transport.Frame`, `Transport.Signals` | `Transport.Frame`, `Transport.DeframeSignals`, `Transport.LowerFramed` |
| `ReadBusy` | 62-66 | `Transport.ReadBusy`, `Transport.BusyPolls` | their own contracts, `Transport.LowerWait`, `Transport.LowerBlocks` |
| the driver's effect on the pins | 36-66 | `Transport.Lower` | `Transport.DeframeLower`, `Transport.LowerNoWait`, `Transport.LowerAppend`, `Transport.LowerWait` |
| `Reset` | 36-44 | `Panel.Reset` | `Panel.Reset`, `Panel.ResetSignals` |
| `TurnOnDisplay` | 68-75 | `Panel.TurnOnDisplay` | `Panel.TurnOnDisplayOps` |
| `SetWindow` | 77-88 | `Panel.SetWindow` | `Panel.WindowDecodes`, `Panel.FullWindow` |
| `SetCursor` | 90-99 | `Panel.SetCursor` | `Panel.CursorDecodes` |
| `init`, `Init` | 101-139 | `Panel.InitWith`, `Panel.Init` | `Panel.InitWithSequence`, `Panel.InitLoads`, `Panel.InitLoadsFullUpdate`, `Panel.InitNeverBlocks` |
| `Getbuffer` | 141-187 | `Packer.GetBuffer`, with the pixel loops as `Packer.Fold` | `Packer.GetBuffer`, `Packer.FoldBits`, the `Unpack` round trips |
| `Display(Image)` | 189-192 | `Panel.DisplayImage` | `Panel.DisplayImageSends` |
| `Display(byte[])` | 194-207 | `Panel.Display`, with `Panel.FullWrite` and `Panel.ShortWrite` | `Panel.DisplaySends`, `Panel.FullSends`, `Panel.ShortSends`, `Panel.DisplayEnds`, `Panel.DisplayRow`, `Panel.ShortEnds`, `Panel.ShortRow` |
| `Clear` | 209-220 | `Panel.Clear` | `Panel.ClearIsDisplay`, `Panel.ClearFills` |
| `Dispose` | 222-227 | `Panel.Dispose` | `Panel.DisposeSignals` |

## Model

All source paths are in `WaveShare.EPD/EPD_2in9.cs`.

| member | source | states |
|---|---|---|
| Transport.ReadBusy | WaveShare.EPD/EPD_2in9.cs:62-66 | The busy-wait returns exactly when some reading is idle. The count it returns is the index of the first idle reading, and every earlier reading was busy. |
| Transport.BusyPolls | WaveShare.EPD/EPD_2in9.cs:62-66 | A wait that saw n busy readings is n pairs of (busy sample, 200 ms sleep), followed by one idle sample. |
| Transport.DeframeSignals | WaveShare.EPD/EPD_2in9.cs:46-60 | A byte framed with DC low decodes back to a SendCommand of that byte, and with DC high to a SendData of it. Reset-line writes and sleeps decode back to themselves. |
| Transport.DeframeLower | WaveShare.EPD/EPD_2in9.cs:46-66 | Round trip: from the pin events of any action sequence that completes, the panel recovers exactly that action sequence. |
| Transport.LowerFramed | WaveShare.EPD/EPD_2in9.cs:46-60 | Every SPI byte the driver ever sends is preceded by a DC write, and moves while chip-select is low, with chip-select released right after it. |
| Transport.LowerNoWait | WaveShare.EPD/EPD_2in9.cs:62-66 | Actions with no busy-wait always complete, and their events do not depend on the busy line. |
| Transport.LowerBlocks | WaveShare.EPD/EPD_2in9.cs:62-66 | If the busy line never reads idle, any action sequence that contains a busy-wait never returns. |
| Transport.LowerWait | WaveShare.EPD/EPD_2in9.cs:62-66 | A busy-wait whose first idle reading is at index n emits exactly n pairs of (busy sample, 200 ms sleep) and then the idle sample. The actions after it see only the readings after that idle one, and the wait completes exactly when they do. |
| Transport.LowerAppend | WaveShare.EPD/EPD_2in9.cs:46-60 | Actions that do not read the busy line, in front of any others, emit the same events whatever the line reads. They leave every reading to the actions after them, so the whole completes exactly when the rest does. |
| Transport.Frame | WaveShare.EPD/EPD_2in9.cs:46-60 | SendCommand and SendData drive DC, pulse chip-select around one SPI byte, and the panel decodes the four events as exactly that one command or data byte. |
| Protocol.DataOpsRun | WaveShare.EPD/EPD_2in9.cs:136-137 | The SendData bytes of a run, such as the waveform loop, reach the controller as exactly those bytes, in order, appended to the transaction that is open. They open no transaction of their own. |
| Protocol.TransactionsExpand | WaveShare.EPD/EPD_2in9.cs:46-60 | From the command and data bytes, the controller reassembles exactly the transactions the steps meant to send, with no stray data before the first command. |
| Protocol.TxnsSends | WaveShare.EPD/EPD_2in9.cs:111-137 | Sending a list of transactions one after another sends exactly that list and never waits. |
| Protocol.WaitsExpand | WaveShare.EPD/EPD_2in9.cs:62-66 | A step sequence performs a busy-wait action exactly when it counts at least one wait. |
| Geometry.GeometryConsistent | WaveShare.EPD/EPD_2in9.cs:143 | The framebuffer is Width / 8 bytes per row times Height rows (4736 bytes), with one bit for each of the 128 x 296 pixels. |
| Bits.ClearBit | WaveShare.EPD/EPD_2in9.cs:161-163 | `b & ~(0x80 >> k)` clears bit k and keeps each of the other seven bits. |
| Bytes.WordLoHi | WaveShare.EPD/EPD_2in9.cs:84-87 | For any 16-bit row number, the low and high bytes sent read back as that row number. |
| Bytes.ColumnHolds | WaveShare.EPD/EPD_2in9.cs:81-82 | For any pixel column, the byte column `(x >> 3) & 0xFF` that is sent names the 8-pixel group containing the column. |
| Packer.Target | WaveShare.EPD/EPD_2in9.cs:154-184 | Both branches write only inside the 4736-byte buffer, to a bit numbered 0 to 7. |
| Packer.TargetSource | WaveShare.EPD/EPD_2in9.cs:154-184 | Every bit of the buffer is the target of one pixel, and that pixel's coordinates are named. |
| Packer.SourceTarget | WaveShare.EPD/EPD_2in9.cs:154-184 | The pixel-to-bit map of either branch is injective, so no two pixels write the same bit. |
| Packer.FoldBits | WaveShare.EPD/EPD_2in9.cs:152-185 | After the first n pixel visits, a bit is clear exactly when its source pixel has been visited and passed the branch's test. |
| Packer.GetBuffer | WaveShare.EPD/EPD_2in9.cs:141-187 | Getbuffer returns 4736 bytes. An unsupported size gives all 0xFF. In landscape, bit k of byte i is clear exactly when the pixel at column 8 * (i % 16) + k, row i / 16 is zero. In portrait, it is clear exactly when the pixel that rotates onto that position is non-zero. |
| Packer.LandscapePixel | WaveShare.EPD/EPD_2in9.cs:156-164 | A landscape pixel (x, y) controls bit `x % 8` of byte `(x + y * 128) / 8`, and that bit is clear exactly when the pixel is zero. |
| Packer.PortraitPixel | WaveShare.EPD/EPD_2in9.cs:172-182 | A portrait pixel (x, y) controls bit `y % 8` of byte `(y + (295 - x) * 128) / 8`, and that bit is clear exactly when the pixel is non-zero. |
| Packer.LandscapeIndex | WaveShare.EPD/EPD_2in9.cs:163 | The landscape byte index `(x + y * Width) / 8` is in row y of the buffer, at byte column x / 8. |
| Packer.PortraitIndex | WaveShare.EPD/EPD_2in9.cs:181 | The portrait byte index `(newx + newy * Width) / 8` is in buffer row 295 - x, at byte column y / 8. |
| Packer.UnpackGetBuffer | WaveShare.EPD/EPD_2in9.cs:152-167 | Landscape packing loses nothing: unpacking the buffer gives back the image. |
| Packer.GetBufferUnpack | WaveShare.EPD/EPD_2in9.cs:152-167 | Every 4736-byte buffer is the landscape packing of some image, so packing is onto. |
| Packer.UnpackPortraitGetBuffer | WaveShare.EPD/EPD_2in9.cs:168-185 | Portrait packing loses nothing: unpacking the rotated buffer gives back the image. |
| Packer.GetBufferUnpackPortrait | WaveShare.EPD/EPD_2in9.cs:168-185 | Every 4736-byte buffer is the portrait packing of some image. |
| Packer.LandscapeBlank | WaveShare.EPD/EPD_2in9.cs:143-167 | A landscape image with no zero pixel packs to all 0xFF, which is all white. |
| Packer.PortraitBlank | WaveShare.EPD/EPD_2in9.cs:168-185 | A portrait image whose every pixel is zero packs to all 0xFF. |
| Packer.LandscapeSinglePixel | WaveShare.EPD/EPD_2in9.cs:158-164 | A landscape image with a single zero pixel (x, y) packs to all 0xFF except that byte `(x + y * 128) / 8` loses exactly bit `0x80 >> (x % 8)`. |
| Packer.PortraitSinglePixel | WaveShare.EPD/EPD_2in9.cs:174-182 | A portrait image with a single non-zero pixel (x, y) packs to all 0xFF except that its rotated byte loses exactly bit `0x80 >> (y % 8)`. |
| Loops.LoopPayload | WaveShare.EPD/EPD_2in9.cs:199-205 | If each iteration j sends block j as RAM data, the whole loop sends the blocks in iteration order. |
| Loops.LoopCounts | WaveShare.EPD/EPD_2in9.cs:199-205 | If every iteration takes n steps, w waits and c transactions, a loop of k iterations takes n*k, w*k and c*k of them. |
| Loops.LoopSplit | WaveShare.EPD/EPD_2in9.cs:199-205 | A loop is the iterations before j followed by the iterations from j on. |
| Loops.LoopFramed | WaveShare.EPD/EPD_2in9.cs:198-206 | Between the steps before and after a loop, iteration j sits at offsets \|before\| + n*j up to \|before\| + n*j + n. |
| Loops.LoopSame | WaveShare.EPD/EPD_2in9.cs:212-218 | Two loops whose bodies agree on every iteration perform the same steps. |
| Panel.ResetSignals | WaveShare.EPD/EPD_2in9.cs:36-44 | Reset drives RST high for 200 ms, low for 5 ms, then high for 200 ms, whatever the busy line reads. |
| Panel.Reset | WaveShare.EPD/EPD_2in9.cs:36-44 | The reset pulse sends nothing to the controller and never polls the busy line. |
| Panel.TurnOnDisplayOps | WaveShare.EPD/EPD_2in9.cs:68-75 | The refresh performs exactly: command 0x22, data 0xC4, command 0x20, command 0xFF, then one busy-wait. The controller sees these as update control 2 with 0xC4, then master activation, then terminate frame. |
| Panel.WindowDecodes | WaveShare.EPD/EPD_2in9.cs:77-88 | SetWindow is exactly two transactions, X range then Y range, and nothing else. Their 2 and 4 data bytes hold the byte columns of x_start/x_end and the 16-bit rows y_start/y_end. It does not wait. |
| Panel.FullWindow | WaveShare.EPD/EPD_2in9.cs:198 | The full-panel window sends X bytes 00 0F and Y bytes 00 00 27 01. |
| Panel.CursorDecodes | WaveShare.EPD/EPD_2in9.cs:90-99 | SetCursor is exactly three steps: the X counter holding the byte column of x, the Y counter holding the 16-bit row y, then one busy-wait. |
| Panel.InitWithSequence | WaveShare.EPD/EPD_2in9.cs:106-139 | init(lut) is exactly 13 steps. It starts with the reset pulse. The controller then receives driver output control 27 01 00, booster D7 D6 9D, VCOM A8, dummy line 1A, gate time 08, data entry 03, and the LUT command with exactly lut as data. There are no busy-waits. |
| Panel.InitLoads | WaveShare.EPD/EPD_2in9.cs:134-137 | The waveform bytes the controller receives are exactly the table given to init. |
| Panel.InitLoadsFullUpdate | WaveShare.EPD/EPD_2in9.cs:101-104 | Init loads the 30-byte full-update waveform. |
| Panel.InitNeverBlocks | WaveShare.EPD/EPD_2in9.cs:101-139 | Init never busy-waits, so it completes whatever the busy line reads. |
| Panel.DisposeSignals | WaveShare.EPD/EPD_2in9.cs:222-227 | Dispose sends deep-sleep command 0x10 with data 0x01, correctly framed, and then sleeps 2000 ms without polling the busy line. |
| Panel.RowTxns | WaveShare.EPD/EPD_2in9.cs:201-204 | One row write is four steps in this order: SetCursor(0, j), which ends in its busy-wait, then WriteRam carrying the row's bytes. It has three transactions and one wait. |
| Panel.JoinedRows | WaveShare.EPD/EPD_2in9.cs:203-204 | The bytes that rows lo up to hi read at `i + j * Width / 8` are the buffer's contiguous bytes 16*lo up to 16*hi, cut at the buffer's end. |
| Panel.FrameLoop | WaveShare.EPD/EPD_2in9.cs:199-205 | Rows 0 to k-1 send the buffer's first 16*k bytes as RAM data, in four steps, three transactions and one wait per row. |
| Panel.ShortSends | WaveShare.EPD/EPD_2in9.cs:199-205 | For a buffer shorter than a frame, every byte of the buffer reaches RAM before the out-of-range read. The write has one busy-wait per row started and 2 + 3 transactions per row, so the refresh never runs. |
| Panel.FullSends | WaveShare.EPD/EPD_2in9.cs:198-206 | A full buffer sends its first 4736 bytes as RAM data, with 3*296 + 5 transactions and 296 + 1 busy-waits. |
| Panel.DisplaySends | WaveShare.EPD/EPD_2in9.cs:194-207 | Display(byte[]) does nothing for a null buffer, and throws exactly when the buffer is shorter than a frame. Otherwise RAM receives the buffer's bytes in order, up to a full frame. A completed write busy-waits once per row plus once for the refresh. |
| Panel.DisplayEnds | WaveShare.EPD/EPD_2in9.cs:194-207 | A completed frame write has 4*296 + 6 steps, opens with the full window and ends with the refresh. |
| Panel.ShortEnds | WaveShare.EPD/EPD_2in9.cs:194-205 | A buffer shorter than a frame makes Display throw. The steps before the throw open with the full window, followed by four steps for each row started. |
| Panel.ShortRow | WaveShare.EPD/EPD_2in9.cs:199-205 | Before a short buffer's throw, steps 4j+2 to 4j+5 are exactly row j: cursor (0, j), a busy-wait, and the buffer's bytes from 16j up to 16 more or to its end. |
| Panel.DisplayRow | WaveShare.EPD/EPD_2in9.cs:199-205 | In a completed frame write, steps 4j+2 to 4j+5 are exactly row j: cursor (0, j), a busy-wait, and buffer bytes 16j up to 16j+16. |
| Panel.DisplayBlocksWhileBusy | WaveShare.EPD/EPD_2in9.cs:194-207 | A frame write never finishes while the panel stays busy. |
| Panel.DisplayImageSends | WaveShare.EPD/EPD_2in9.cs:189-192 | Display(Image) completes, and the RAM data is exactly the packed image. |
| Panel.ClearIsDisplay | WaveShare.EPD/EPD_2in9.cs:209-220 | Clear(color) performs the same steps as a completed Display of a 4736-byte buffer filled with color. |
| Panel.ClearFills | WaveShare.EPD/EPD_2in9.cs:209-220 | Clear writes color to all 4736 RAM bytes, and busy-waits once per row plus once for the refresh. |

## Left out

- **Hardware I/O.** `digital_write`, `digital_read` and `spi_writebyte` are
  modelled as events in a returned trace, not performed.
  - They throw an `IOException` when the GPIO or SPI handle is null
    (`WaveShare.EPD/EPD_Base.cs` lines 45-46, 52-53 and 59-60). This is not
    modelled.
  - The handles are null after `Dispose` (lines 78-93 of the same file). So
    every operation called after `Dispose` throws at its first pin or bus
    access. The model does not express this.
- **Handle release.** Opening and releasing the pins and the SPI handle
  (`EPD_Base` constructor and `Dispose`) are not modelled. Only the panel-side
  deep-sleep part of `EPD_2in9.Dispose` is.
- **Time.** `Thread.Sleep` is a `Sleep(ms)` event; no time passes in the model.
- **The busy line.** It is a finite sequence of readings. A busy-wait that
  runs out of readings while busy yields `None`, which stands for the driver's
  unbounded spin.
- **Null image.** `Display(Image)` with a null image throws at
  `image.Mutate` (`EPD_2in9.cs` line 146), before any bus event.
  `Panel.DisplayImage` takes an image and has no null case.
- **Image colours.** `image.Mutate(x => x.BlackWhite())` and the ImageSharp
  pixel format are outside the model.
  - An image is given by its size and, per pixel, whether its packed RGBA value
    is 0. That is the only property of a pixel that `Getbuffer` tests.
  - The landscape branch clears a bit for a zero pixel and the portrait branch
    for a non-zero one. The model keeps both polarities as written.
- **Unsupported sizes.** An image of any other size yields an all-white buffer
  and no error, as the code does. A stricter reading would reject such input
  as an error; the model follows the code.
- **Short buffers.** `Display(byte[])` with a buffer shorter than 4736 bytes
  throws an index-out-of-range exception part-way through.
  - This is modelled as `Thrown(steps)`: the steps performed before the read
    that throws.
  - The refresh never runs in this case: `Panel.ShortSends` counts one
    busy-wait per row started and none for the refresh.
- **Long buffers.** A buffer longer than a frame has its first 4736 bytes
  written.
- **Waveform tables.** `lut_full_update` is a public, mutable field, and
  `Init` loads its current contents (lines 13 and 103).
  - `Panel.Init` fixes the table to the field's initial 30 bytes.
  - `Panel.InitWith` and `Panel.InitLoads` hold for any table, so they cover a
    caller who stores different bytes in the field before calling `Init`.
  - `lut_partial_update` is defined but never loaded by the driver. It is kept
    only as the constant `LutPartialUpdate`.
- **Lifecycle.** There is no lifecycle state machine (uninitialised, ready,
  sleeping), because the driver keeps no such state.
  - Nothing stops `Display` or `Clear` before `Init`.
  - After `Dispose`, the only guard is the null-handle `IOException`
    described under Hardware I/O.
- **Integer width.** C# `int` arithmetic is unbounded in the model. Every value
  the driver computes is far below 2^31, and the byte casts `(byte)(v & 0xFF)`
  are written out explicitly.
- **Trace levels.** The end-to-end claims about Display, Clear and
  Display(Image) are stated on the transactions the steps send (`Txns`).
  `Protocol.TransactionsExpand` proves that the controller reassembles exactly
  these transactions from the command and data bytes.
- **Concurrency.** Concurrent use of the driver is not modelled; the driver
  provides no locking.
