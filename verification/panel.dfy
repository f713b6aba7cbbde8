/**
  The command sequencer of the 2.9-inch driver (class EPD_2in9): every public
  operation is a pure function returning the steps it performs, in order.
 */
module Panel {
  import opened Geometry
  import opened Wrappers
  import opened Transport
  import opened Protocol
  import opened Bytes
  import opened Loops
  import Packer

  // Controller command bytes.
  const DriverOutputControl: bv8 := 0x01
  const BoosterSoftStart: bv8 := 0x0C
  const DeepSleepMode: bv8 := 0x10
  const DataEntryMode: bv8 := 0x11
  const MasterActivation: bv8 := 0x20
  const DisplayUpdateControl2: bv8 := 0x22
  const WriteRam: bv8 := 0x24
  const WriteVcom: bv8 := 0x2C
  const WriteLut: bv8 := 0x32
  const DummyLinePeriod: bv8 := 0x3A
  const GateTime: bv8 := 0x3B
  const RamXRange: bv8 := 0x44
  const RamYRange: bv8 := 0x45
  const RamXCounter: bv8 := 0x4E
  const RamYCounter: bv8 := 0x4F
  const TerminateFrame: bv8 := 0xFF

  /** Waveform table loaded by Init. */
  const LutFullUpdate: seq<bv8> := [
    0x50, 0xAA, 0x55, 0xAA, 0x11, 0x00,
    0x00, 0x00, 0x00, 0x00, 0x00, 0x00,
    0x00, 0x00, 0x00, 0x00, 0x00, 0x00,
    0x00, 0x00, 0xFF, 0xFF, 0x1F, 0x00,
    0x00, 0x00, 0x00, 0x00, 0x00, 0x00
  ]

  /** Waveform table for partial refresh; defined but never loaded. */
  const LutPartialUpdate: seq<bv8> := [
    0x10, 0x18, 0x18, 0x08, 0x18, 0x18,
    0x08, 0x00, 0x00, 0x00, 0x00, 0x00,
    0x00, 0x00, 0x00, 0x00, 0x00, 0x00,
    0x00, 0x00, 0x13, 0x14, 0x44, 0x12,
    0x00, 0x00, 0x00, 0x00, 0x00, 0x00
  ]

  /** Result of an operation that can throw part-way: the steps performed
      before it returned or threw. */
  datatype Outcome = Done(steps: seq<Step>) | Thrown(steps: seq<Step>)

  /** Reset: the hardware reset pulse on the RST line. */
  function Reset(): (r: seq<Step>)
    ensures Txns(r) == [] && Waits(r) == 0
  {
    [Then(SetRst(true)), Then(Delay(200)), Then(SetRst(false)), Then(Delay(5)), Then(SetRst(true)), Then(Delay(200))]
  }

  /** TurnOnDisplay: run a full refresh from RAM and wait for it to finish. */
  function TurnOnDisplay(): seq<Step> {
    [Send(Txn(DisplayUpdateControl2, [0xC4])), Send(Txn(MasterActivation, [])), Send(Txn(TerminateFrame, [])),
     Then(WaitIdle)]
  }

  /** SetWindow: the RAM window, x in byte columns, y as two 16-bit rows. */
  function SetWindow(xStart: int, yStart: int, xEnd: int, yEnd: int): seq<Step> {
    [Send(Txn(RamXRange, [Column(xStart), Column(xEnd)])),
     Send(Txn(RamYRange, [Lo(yStart), Hi(yStart), Lo(yEnd), Hi(yEnd)]))]
  }

  /** SetCursor: the RAM address counter, then a busy-wait. */
  function SetCursor(x: int, y: int): seq<Step> {
    [Send(Txn(RamXCounter, [Column(x)])), Send(Txn(RamYCounter, [Lo(y), Hi(y)])), Then(WaitIdle)]
  }

  /** The register writes of init(lut), after the reset pulse. */
  function InitTable(lut: seq<bv8>): seq<Txn> {
    [
      Txn(DriverOutputControl, [Lo(Height - 1), Hi(Height - 1), 0x00]),
      Txn(BoosterSoftStart, [0xD7, 0xD6, 0x9D]),
      Txn(WriteVcom, [0xA8]),
      Txn(DummyLinePeriod, [0x1A]),
      Txn(GateTime, [0x08]),
      Txn(DataEntryMode, [0x03]),
      Txn(WriteLut, lut)
    ]
  }

  /** init(lut): reset, configure, and load a waveform table. */
  function InitWith(lut: seq<bv8>): seq<Step> {
    Reset() + Sends(InitTable(lut))
  }

  /** Init: init with the full-update waveform. */
  function Init(): seq<Step> {
    InitWith(LutFullUpdate)
  }

  /** One row of a frame write: address row j, then write its bytes to RAM. */
  function Row(j: int, data: seq<bv8>): seq<Step> {
    SetCursor(0, j) + [Send(Txn(WriteRam, data))]
  }

  /** Buffer row j: its 16 bytes (BytesPerRow, written out so that offsets
      stay linear), cut short where the buffer ends. */
  function RowData(buf: seq<bv8>, j: nat): seq<bv8> {
    buf[Min(|buf|, 16 * j)..Min(|buf|, 16 * j + 16)]
  }

  /** Iteration j of Display's row loop. */
  function FrameRow(buf: seq<bv8>): nat -> seq<Step> {
    (j: nat) => Row(j, RowData(buf, j))
  }

  /** The buffer bytes iteration j of Display's row loop reads. */
  function FrameBytes(buf: seq<bv8>): nat -> seq<bv8> {
    (j: nat) => RowData(buf, j)
  }

  /** Display(byte[]): write a packed framebuffer into RAM row by row and
      refresh; a null buffer does nothing. A buffer shorter than a frame makes
      the loop read past its end: the rows before row |buf| / 16 go out whole,
      and that row sends the bytes that remain before the read throws, so the
      loop stops after it. */
  function Display(image: Option<seq<bv8>>): (r: Outcome)
    ensures image.None? ==> r == Done([])
  {
    match image
    case None => Done([])
    case Some(buf) =>
      if |buf| < BufferSize then Thrown(ShortWrite(buf)) else Done(FullWrite(buf))
  }

  /** The steps of a frame write from a buffer holding a whole frame. */
  function FullWrite(buf: seq<bv8>): seq<Step>
    requires BufferSize <= |buf|
  {
    SetWindow(0, 0, Width - 1, Height - 1) + Loop(FrameRow(buf), 0, Height) + TurnOnDisplay()
  }

  /** The steps of a frame write from a short buffer, up to the read that
      throws in row |buf| / 16. */
  function ShortWrite(buf: seq<bv8>): seq<Step>
    requires |buf| < BufferSize
  {
    SetWindow(0, 0, Width - 1, Height - 1) + Loop(FrameRow(buf), 0, |buf| / 16 + 1)
  }

  /** Display(Image): pack the image, then display the buffer. */
  function DisplayImage(img: Packer.Image): Outcome
    requires img.Valid()
  {
    Display(Some(Packer.GetBuffer(img)))
  }

  /** One RAM row of a single byte. */
  function Solid(color: bv8): seq<bv8> {
    seq(BytesPerRow, _ => color)
  }

  /** Iteration j of Clear's row loop. */
  function SolidRow(color: bv8): nat -> seq<Step> {
    (j: nat) => Row(j, Solid(color))
  }

  /** Clear: fill RAM with one byte and refresh. */
  function Clear(color: bv8): seq<Step> {
    SetWindow(0, 0, Width - 1, Height - 1) + Loop(SolidRow(color), 0, Height) + TurnOnDisplay()
  }

  /** The panel-side part of Dispose: enter deep sleep and let it settle. */
  function Dispose(): seq<Step> {
    [Send(Txn(DeepSleepMode, [0x01])), Then(Delay(2000))]
  }

  /** The bytes a frame write takes from a buffer: all of a short buffer,
      the first 4736 of a longer one. */
  function Taken(buf: seq<bv8>): seq<bv8> {
    if |buf| < BufferSize then buf else buf[..BufferSize]
  }

  function Min(a: int, b: int): int {
    if a <= b then a else b
  }

  /** The fill buffer Clear is equivalent to. */
  function Fill(color: bv8): seq<bv8> {
    seq(BufferSize, _ => color)
  }

  // ---------------------------------------------------------------------------
  // Byte encoders and the small operations.

  /** SetWindow sends the X range as two byte columns and the Y range as two
      16-bit words, low byte first; the controller reads back the row numbers. */
  lemma WindowDecodes(xStart: int, yStart: int, xEnd: int, yEnd: int)
    requires 0 <= xStart < 2048 && 0 <= xEnd < 2048 && 0 <= yStart < 65536 && 0 <= yEnd < 65536
    ensures var ts := Txns(SetWindow(xStart, yStart, xEnd, yEnd));
      |ts| == 2 && ts[0].cmd == RamXRange && ts[1].cmd == RamYRange
      && |ts[0].data| == 2 && |ts[1].data| == 4
      && 8 * ts[0].data[0] as int <= xStart < 8 * ts[0].data[0] as int + 8
      && 8 * ts[0].data[1] as int <= xEnd < 8 * ts[0].data[1] as int + 8
      && Word(ts[1].data[0], ts[1].data[1]) == yStart
      && Word(ts[1].data[2], ts[1].data[3]) == yEnd
    ensures Waits(SetWindow(xStart, yStart, xEnd, yEnd)) == 0
    ensures |SetWindow(xStart, yStart, xEnd, yEnd)| == 2
  {
    var w := SetWindow(xStart, yStart, xEnd, yEnd);
    assert w[1..][1..] == [];
    assert Txns(w[1..]) == [w[1].txn] && Waits(w[1..]) == 0;
    assert Txns(w) == [w[0].txn, w[1].txn];
    ColumnHolds(xStart);
    ColumnHolds(xEnd);
    WordLoHi(yStart);
    WordLoHi(yEnd);
  }

  /** The window Display and Clear set: byte columns 0..15, rows 0..295. */
  lemma FullWindow()
    ensures SetWindow(0, 0, Width - 1, Height - 1)
      == [Send(Txn(RamXRange, [0x00, 0x0F])), Send(Txn(RamYRange, [0x00, 0x00, 0x27, 0x01]))]
  {
    assert (Width - 1) / 8 % 256 == 0x0F;
    assert (Height - 1) % 256 == 0x27 && (Height - 1) / 256 % 256 == 0x01;
  }

  /** SetCursor addresses the byte column holding x and row y, then busy-waits. */
  lemma CursorDecodes(x: int, y: int)
    requires 0 <= x < 2048 && 0 <= y < 65536
    ensures var ts := Txns(SetCursor(x, y));
      |ts| == 2 && ts[0].cmd == RamXCounter && ts[1].cmd == RamYCounter
      && |ts[0].data| == 1 && |ts[1].data| == 2
      && 8 * ts[0].data[0] as int <= x < 8 * ts[0].data[0] as int + 8
      && Word(ts[1].data[0], ts[1].data[1]) == y
    ensures Waits(SetCursor(x, y)) == 1 && SetCursor(x, y)[|SetCursor(x, y)| - 1] == Then(WaitIdle)
    ensures |SetCursor(x, y)| == 3
  {
    CursorTxns(x, y);
    ColumnHolds(x);
    WordLoHi(y);
  }

  lemma CursorTxns(x: int, y: int)
    ensures Txns(SetCursor(x, y)) == [Txn(RamXCounter, [Column(x)]), Txn(RamYCounter, [Lo(y), Hi(y)])]
    ensures Waits(SetCursor(x, y)) == 1
  {
    var w := SetCursor(x, y);
    assert w[1..][1..][1..] == [];
    assert Txns(w[1..][1..]) == [] && Waits(w[1..][1..]) == 1;
    assert Txns(w[1..]) == [w[1].txn] && Waits(w[1..]) == 1;
  }

  /** The reset pulse: RST high 200 ms, low 5 ms, high 200 ms, whatever the
      busy line does. */
  lemma ResetSignals(readings: seq<bool>)
    ensures Lower(Expand(Reset()), readings) == Some([Write(Rst, true), Sleep(200), Write(Rst, false), Sleep(5),
      Write(Rst, true), Sleep(200)])
  {
    ResetActions();
    PulsesLower(true, 200, false, 5, true, 200, readings);
  }

  lemma ResetActions()
    ensures Expand(Reset()) == [Do(SetRst(true)), Do(Delay(200)), Do(SetRst(false)), Do(Delay(5)), Do(SetRst(true)), Do(Delay(200))]
  {
  }

  /** Three settings of the reset line, each followed by a pause, lower to
      those pin writes and sleeps whatever the busy line reads. */
  lemma PulsesLower(a: bool, m: nat, b: bool, n: nat, c: bool, p: nat, readings: seq<bool>)
    ensures Lower([Do(SetRst(a)), Do(Delay(m)), Do(SetRst(b)), Do(Delay(n)), Do(SetRst(c)), Do(Delay(p))], readings)
      == Some([Write(Rst, a), Sleep(m), Write(Rst, b), Sleep(n), Write(Rst, c), Sleep(p)])
  {
    var ops3, w3 := [Do(SetRst(c)), Do(Delay(p))], [Write(Rst, c), Sleep(p)];
    assert Lower([], readings) == Some([]);
    PulseLower(c, p, [], readings, []);
    assert ops3 + [] == ops3 && w3 + [] == w3;
    PulseLower(b, n, ops3, readings, w3);
    var ops2, w2 := [Do(SetRst(b)), Do(Delay(n))] + ops3, [Write(Rst, b), Sleep(n)] + w3;
    PulseLower(a, m, ops2, readings, w2);
    assert [Do(SetRst(a)), Do(Delay(m))] + ops2
      == [Do(SetRst(a)), Do(Delay(m)), Do(SetRst(b)), Do(Delay(n)), Do(SetRst(c)), Do(Delay(p))];
    assert [Write(Rst, a), Sleep(m)] + w2 == [Write(Rst, a), Sleep(m), Write(Rst, b), Sleep(n), Write(Rst, c), Sleep(p)];
  }

  /** One setting of the reset line and a pause, in front of other actions. */
  lemma PulseLower(a: bool, m: nat, rest: seq<Op>, readings: seq<bool>, w: seq<Signal>)
    requires Lower(rest, readings) == Some(w)
    ensures Lower([Do(SetRst(a)), Do(Delay(m))] + rest, readings) == Some([Write(Rst, a), Sleep(m)] + w)
  {
    LowerCons(Do(Delay(m)), rest, readings, w);
    LowerCons(Do(SetRst(a)), [Do(Delay(m))] + rest, readings, [Sleep(m)] + w);
    assert [Do(SetRst(a))] + ([Do(Delay(m))] + rest) == [Do(SetRst(a)), Do(Delay(m))] + rest;
    assert [Write(Rst, a)] + ([Sleep(m)] + w) == [Write(Rst, a), Sleep(m)] + w;
  }

  /** TurnOnDisplay: update control 2 with 0xC4, master activation, terminate
      frame, then wait until the refresh is done. */
  lemma TurnOnDisplayOps()
    ensures Transactions(Expand(TurnOnDisplay()))
      == [Txn(DisplayUpdateControl2, [0xC4]), Txn(MasterActivation, []), Txn(TerminateFrame, [])]
    ensures Expand(TurnOnDisplay())
      == [Cmd(DisplayUpdateControl2), Data(0xC4), Cmd(MasterActivation), Cmd(TerminateFrame), Do(WaitIdle)]
    ensures Waits(TurnOnDisplay()) == 1
  {
    TurnOnTxns();
    TransactionsExpand(TurnOnDisplay());
  }

  lemma TurnOnTxns()
    ensures Txns(TurnOnDisplay()) == [Txn(DisplayUpdateControl2, [0xC4]), Txn(MasterActivation, []), Txn(TerminateFrame, [])]
    ensures Waits(TurnOnDisplay()) == 1
  {
    var w := TurnOnDisplay();
    assert w[1..][1..][1..][1..] == [];
    assert Txns(w[1..][1..][1..]) == [] && Waits(w[1..][1..][1..]) == 1;
    assert Txns(w[1..][1..]) == [w[2].txn];
    assert Txns(w[1..]) == [w[1].txn, w[2].txn];
  }

  /** Dispose puts the panel to sleep: command 0x10 with data 0x01 framed on the
      bus, then a 2-second pause, and it never polls the busy line. */
  lemma DisposeSignals(readings: seq<bool>)
    ensures Lower(Expand(Dispose()), readings) == Some(Frame(false, DeepSleepMode) + Frame(true, 0x01) + [Sleep(2000)])
  {
    var ops := [Cmd(DeepSleepMode), Data(0x01), Do(Delay(2000))];
    var w := Frame(false, DeepSleepMode) + Frame(true, 0x01) + [Sleep(2000)];
    assert Expand(Dispose()) == ops;
    assert ops[3..] == [] && |w| == 9 && w[9..] == [];
    assert Lower(ops[3..], readings) == Some(w[9..]);
    LowerCons(ops[2], ops[3..], readings, w[9..]);
    assert [ops[2]] + ops[3..] == ops[2..] && Signals(ops[2]) + w[9..] == w[8..];
    LowerCons(ops[1], ops[2..], readings, w[8..]);
    assert [ops[1]] + ops[2..] == ops[1..] && Signals(ops[1]) + w[8..] == w[4..];
    LowerCons(ops[0], ops[1..], readings, w[4..]);
    assert [ops[0]] + ops[1..] == ops && Signals(ops[0]) + w[4..] == w;
  }

  // ---------------------------------------------------------------------------
  // init

  /** init(lut): the reset pulse, then the register table ending with the
      waveform table given. */
  lemma InitWithSequence(lut: seq<bv8>)
    ensures |InitWith(lut)| == 13
    ensures 6 <= |Expand(InitWith(lut))|
    ensures Expand(InitWith(lut))[..6] == Expand(Reset())
    ensures Transactions(Expand(InitWith(lut))) == [
      Txn(DriverOutputControl, [0x27, 0x01, 0x00]),
      Txn(BoosterSoftStart, [0xD7, 0xD6, 0x9D]),
      Txn(WriteVcom, [0xA8]),
      Txn(DummyLinePeriod, [0x1A]),
      Txn(GateTime, [0x08]),
      Txn(DataEntryMode, [0x03]),
      Txn(WriteLut, lut)]
    ensures Txns(InitWith(lut)) == InitTable(lut)
    ensures Waits(InitWith(lut)) == 0
  {
    InitTxns(lut);
    HeightBytes();
    assert Expand(InitWith(lut))[..6] == Expand(Reset()) by {
      assert |Expand(Reset())| == 6;
      ExpandAppend(Reset(), Sends(InitTable(lut)));
    }
    TransactionsExpand(InitWith(lut));
  }

  lemma InitTxns(lut: seq<bv8>)
    ensures Txns(InitWith(lut)) == InitTable(lut)
    ensures Waits(InitWith(lut)) == 0
  {
    TxnsAppend(Reset(), Sends(InitTable(lut)));
    TxnsSends(InitTable(lut));
  }

  /** The last row number, 295, as the low and high bytes init sends. */
  lemma HeightBytes()
    ensures Lo(Height - 1) == 0x27 && Hi(Height - 1) == 0x01
  {
    assert (Height - 1) % 256 == 0x27 && (Height - 1) / 256 % 256 == 0x01;
  }

  /** init(lut) loads exactly the waveform table it is given. */
  lemma InitLoads(lut: seq<bv8>)
    ensures Payload(Transactions(Expand(InitWith(lut))), WriteLut) == lut
  {
    InitWithSequence(lut);
    TablePayload(lut);
  }

  lemma TablePayload(lut: seq<bv8>)
    ensures Payload(InitTable(lut), WriteLut) == lut
  {
    var ts := InitTable(lut);
    assert ts[6..][1..] == [];
    assert Payload(ts[6..], WriteLut) == lut;
    assert Payload(ts[5..], WriteLut) == lut;
    assert Payload(ts[4..], WriteLut) == lut;
    assert Payload(ts[3..], WriteLut) == lut;
    assert Payload(ts[2..], WriteLut) == lut;
    assert Payload(ts[1..], WriteLut) == lut;
  }

  /** Init loads the 30-byte full-update waveform. */
  lemma InitLoadsFullUpdate()
    ensures Payload(Transactions(Expand(Init())), WriteLut) == LutFullUpdate
    ensures |LutFullUpdate| == 30
  {
    InitLoads(LutFullUpdate);
  }

  /** Init never busy-waits, so it completes whatever the busy line reads. */
  lemma InitNeverBlocks(readings: seq<bool>)
    ensures Waits(Init()) == 0
    ensures Lower(Expand(Init()), readings).Some?
  {
    InitWithSequence(LutFullUpdate);
    WaitsExpand(Init());
    LowerNoWait(Expand(Init()), readings);
  }

  // ---------------------------------------------------------------------------
  // Display and Clear

  /** One row of a frame write: the counter at column 0 and row j, then the
      row's bytes under WriteRam, with one busy-wait between. */
  lemma RowTxns(j: int, data: seq<bv8>)
    ensures Txns(Row(j, data)) == [Txn(RamXCounter, [0x00]), Txn(RamYCounter, [Lo(j), Hi(j)]), Txn(WriteRam, data)]
    ensures Payload(Txns(Row(j, data)), WriteRam) == data
    ensures Waits(Row(j, data)) == 1 && |Row(j, data)| == 4
    ensures Row(j, data)[..3] == SetCursor(0, j) && Row(j, data)[3] == Send(Txn(WriteRam, data))
  {
    CursorTxns(0, j);
    StepTxns(Send(Txn(WriteRam, data)));
    TxnsAppend(SetCursor(0, j), [Send(Txn(WriteRam, data))]);
    RowPayload(j, data);
  }

  lemma RowPayload(j: int, data: seq<bv8>)
    ensures Payload([Txn(RamXCounter, [0x00]), Txn(RamYCounter, [Lo(j), Hi(j)]), Txn(WriteRam, data)], WriteRam) == data
  {
    var ts := [Txn(RamXCounter, [0x00]), Txn(RamYCounter, [Lo(j), Hi(j)]), Txn(WriteRam, data)];
    assert ts[2..][1..] == [];
    assert Payload(ts[2..], WriteRam) == data;
    assert Payload(ts[1..], WriteRam) == data;
  }

  /** The full window sends no RAM data and does not wait. */
  lemma WindowQuiet()
    ensures Txns(SetWindow(0, 0, Width - 1, Height - 1)) == [Txn(RamXRange, [0x00, 0x0F]), Txn(RamYRange, [0x00, 0x00, 0x27, 0x01])]
    ensures Payload(Txns(SetWindow(0, 0, Width - 1, Height - 1)), WriteRam) == []
    ensures Waits(SetWindow(0, 0, Width - 1, Height - 1)) == 0
  {
    WindowDecodes(0, 0, Width - 1, Height - 1);
    FullWindow();
    var ts := Txns(SetWindow(0, 0, Width - 1, Height - 1));
    assert ts[1..][1..] == [];
    assert Payload(ts[1..], WriteRam) == [];
  }

  /** The refresh sends no RAM data. */
  lemma TurnOnQuiet()
    ensures Payload(Txns(TurnOnDisplay()), WriteRam) == []
    ensures |Txns(TurnOnDisplay())| == 3
    ensures Waits(TurnOnDisplay()) == 1
  {
    TurnOnTxns();
    var ts := Txns(TurnOnDisplay());
    assert ts[1..][1..][1..] == [];
  }

  /** Every iteration of a row loop is one row: four steps, three
      transactions, one busy-wait, and its data under WriteRam. */
  lemma FrameRows(buf: seq<bv8>)
    ensures Shaped(FrameRow(buf), 4, 1, 3)
    ensures Carries(FrameRow(buf), FrameBytes(buf), WriteRam)
  {
    forall j: nat
      ensures |FrameRow(buf)(j)| == 4 && Waits(FrameRow(buf)(j)) == 1 && |Txns(FrameRow(buf)(j))| == 3
      ensures Payload(Txns(FrameRow(buf)(j)), WriteRam) == FrameBytes(buf)(j)
    {
      RowTxns(j, RowData(buf, j));
    }
  }

  /** The bytes of rows lo..hi - 1, read in loop order, are the buffer's bytes
      from row lo to row hi, or to its end when the last row is cut short. */
  lemma {:induction false} JoinedRows(buf: seq<bv8>, lo: nat, hi: nat)
    requires lo <= hi && 16 * hi <= |buf| + 16
    ensures Joined(FrameBytes(buf), lo, hi) == buf[Min(|buf|, 16 * lo)..Min(|buf|, 16 * hi)]
    decreases hi - lo
  {
    if lo < hi {
      JoinedRows(buf, lo + 1, hi);
      assert FrameBytes(buf)(lo) == buf[Min(|buf|, 16 * lo)..Min(|buf|, 16 * lo + 16)];
      assert buf[Min(|buf|, 16 * lo)..Min(|buf|, 16 * hi)]
          == buf[Min(|buf|, 16 * lo)..Min(|buf|, 16 * lo + 16)] + buf[Min(|buf|, 16 * (lo + 1))..Min(|buf|, 16 * hi)];
    }
  }

  /** The full window in front of any steps sends no RAM data. */
  lemma WindowBefore(a: seq<Step>)
    ensures Payload(Txns(SetWindow(0, 0, Width - 1, Height - 1) + a), WriteRam) == Payload(Txns(a), WriteRam)
  {
    WindowQuiet();
    TxnsAppend(SetWindow(0, 0, Width - 1, Height - 1), a);
    PayloadAppend(Txns(SetWindow(0, 0, Width - 1, Height - 1)), Txns(a), WriteRam);
  }

  /** The full window in front of any steps adds two transactions and no RAM
      data. */
  lemma WindowAround(a: seq<Step>, b: seq<Step>)
    ensures Payload(Txns(SetWindow(0, 0, Width - 1, Height - 1) + a + b), WriteRam)
      == Payload(Txns(a), WriteRam) + Payload(Txns(b), WriteRam)
    ensures Waits(SetWindow(0, 0, Width - 1, Height - 1) + a + b) == Waits(a) + Waits(b)
    ensures |Txns(SetWindow(0, 0, Width - 1, Height - 1) + a + b)| == 2 + |Txns(a)| + |Txns(b)|
  {
    WindowQuiet();
    Pieces(SetWindow(0, 0, Width - 1, Height - 1), a, b, WriteRam);
  }

  /** Rows 0..k - 1 of a frame write send the first 16 * k bytes of the
      buffer, or all of it when row k - 1 is its last, partial row; every
      row takes four steps, three transactions and one busy-wait. */
  lemma FrameLoop(buf: seq<bv8>, k: nat)
    requires 16 * k <= |buf| + 16
    ensures Payload(Txns(Loop(FrameRow(buf), 0, k)), WriteRam) == buf[..Min(|buf|, 16 * k)]
    ensures |Loop(FrameRow(buf), 0, k)| == 4 * k
    ensures Waits(Loop(FrameRow(buf), 0, k)) == k
    ensures |Txns(Loop(FrameRow(buf), 0, k))| == 3 * k
  {
    FrameRows(buf);
    LoopPayload(FrameRow(buf), FrameBytes(buf), WriteRam, 0, k);
    LoopCounts(FrameRow(buf), 0, k, 4, 1, 3);
    JoinedRows(buf, 0, k);
  }

  /** With a short buffer, the frame write sends every byte of the buffer
      before it throws, and never reaches the refresh: it busy-waits once per
      row it started and sends nothing after that row's data. */
  lemma ShortSends(buf: seq<bv8>)
    requires |buf| < BufferSize
    ensures Payload(Txns(ShortWrite(buf)), WriteRam) == buf
    ensures Waits(ShortWrite(buf)) == |buf| / 16 + 1
    ensures |Txns(ShortWrite(buf))| == 2 + 3 * (|buf| / 16 + 1)
  {
    var k := |buf| / 16 + 1;
    FrameLoop(buf, k);
    WindowBefore(Loop(FrameRow(buf), 0, k));
    WindowQuiet();
    CountsAppend(SetWindow(0, 0, Width - 1, Height - 1), Loop(FrameRow(buf), 0, k));
    Whole(buf, |buf|);
  }

  /** A frame write from a short buffer throws after the full window and the
      rows it started, four steps each, the last of them cut short. */
  lemma ShortEnds(buf: seq<bv8>)
    requires |buf| < BufferSize
    ensures Display(Some(buf)) == Thrown(ShortWrite(buf))
    ensures |ShortWrite(buf)| == 4 * (|buf| / 16 + 1) + 2
    ensures ShortWrite(buf)[..2] == SetWindow(0, 0, Width - 1, Height - 1)
  {
    ShortFrame(buf);
    FrameRows(buf);
    LoopEnds(SetWindow(0, 0, Width - 1, Height - 1), FrameRow(buf), [], |buf| / 16 + 1, 4, 1, 3);
  }

  /** In a frame write from a short buffer, row j is cursor (0, j), a
      busy-wait and the buffer's bytes from 16 * j up to 16 more or its end, at
      steps 4 * j + 2 to 4 * j + 5. */
  lemma ShortRow(buf: seq<bv8>, j: nat)
    requires |buf| < BufferSize && j <= |buf| / 16
    ensures 4 * j + 6 <= |ShortWrite(buf)|
    ensures Row(j, buf[16 * j..Min(|buf|, 16 * j + 16)]) == ShortWrite(buf)[4 * j + 2..4 * j + 6]
  {
    ShortFrame(buf);
    FrameRows(buf);
    assert FrameRow(buf)(j) == Row(j, buf[16 * j..Min(|buf|, 16 * j + 16)]);
    LoopFramed(SetWindow(0, 0, Width - 1, Height - 1), FrameRow(buf), [], j, |buf| / 16 + 1, 4, 1, 3, 4 * j + 2, 4 * j + 6);
  }

  lemma ShortFrame(buf: seq<bv8>)
    requires |buf| < BufferSize
    ensures ShortWrite(buf) + [] == SetWindow(0, 0, Width - 1, Height - 1) + Loop(FrameRow(buf), 0, |buf| / 16 + 1) + []
    ensures ShortWrite(buf) + [] == ShortWrite(buf)
  {
  }

  /** With a full buffer, the frame write completes, sends the first 4736
      bytes, and busy-waits once per row and once for the refresh. */
  lemma FullSends(buf: seq<bv8>)
    requires BufferSize <= |buf|
    ensures Payload(Txns(FullWrite(buf)), WriteRam) == buf[..BufferSize]
    ensures Waits(FullWrite(buf)) == Height + 1
    ensures |Txns(FullWrite(buf))| == 3 * Height + 5
  {
    FrameLoop(buf, Height);
    WindowAround(Loop(FrameRow(buf), 0, Height), TurnOnDisplay());
    TurnOnQuiet();
  }

  /** Display(byte[]) does nothing for a null buffer, and throws exactly when
      the buffer is shorter than a frame;
      the controller receives the buffer's bytes as RAM data, in order, up to
      a full frame; a completed write busy-waits once per row and once for
      the refresh. */
  lemma DisplaySends(image: Option<seq<bv8>>)
    ensures image.None? ==> Display(image) == Done([])
    ensures Display(image).Thrown? <==> image.Some? && |image.value| < BufferSize
    ensures image.Some? ==> Payload(Txns(Display(image).steps), WriteRam) == Taken(image.value)
    ensures image.Some? && Display(image).Done? ==> Waits(Display(image).steps) == Height + 1
    ensures image.Some? && Display(image).Done? ==> |Txns(Display(image).steps)| == 3 * Height + 5
  {
    match image
    case None =>
    case Some(buf) =>
      if |buf| < BufferSize {
        ShortSends(buf);
      } else {
        FullSends(buf);
      }
  }

  /** A completed frame write opens with the full window and ends with the
      refresh, around four steps per row. */
  lemma DisplayEnds(buf: seq<bv8>)
    requires BufferSize <= |buf|
    ensures Display(Some(buf)).Done?
    ensures |Display(Some(buf)).steps| == 4 * Height + 6
    ensures Display(Some(buf)).steps[..2] == SetWindow(0, 0, Width - 1, Height - 1)
    ensures Display(Some(buf)).steps[4 * Height + 2..] == TurnOnDisplay()
  {
    FullFrame(buf);
    FrameRows(buf);
    LoopEnds(SetWindow(0, 0, Width - 1, Height - 1), FrameRow(buf), TurnOnDisplay(), Height, 4, 1, 3);
  }

  /** In a completed frame write, row j is cursor (0, j), a busy-wait and the
      16 bytes of buffer row j, at steps 4 * j + 2 to 4 * j + 5. */
  lemma DisplayRow(buf: seq<bv8>, j: nat)
    requires BufferSize <= |buf| && j < Height
    ensures Display(Some(buf)).Done?
    ensures 4 * j + 6 <= |Display(Some(buf)).steps|
    ensures Row(j, buf[16 * j..16 * j + 16]) == Display(Some(buf)).steps[4 * j + 2..4 * j + 6]
  {
    FullFrame(buf);
    FrameRows(buf);
    RowOf(buf, j);
    LoopFramed(SetWindow(0, 0, Width - 1, Height - 1), FrameRow(buf), TurnOnDisplay(), j, Height, 4, 1, 3, 4 * j + 2, 4 * j + 6);
  }

  /** Row j of a buffer that holds it writes the row's 16 bytes. */
  lemma RowOf(buf: seq<bv8>, j: nat)
    requires 16 * j + 16 <= |buf|
    ensures FrameRow(buf)(j) == Row(j, buf[16 * j..16 * j + 16])
  {
    assert RowData(buf, j) == buf[16 * j..16 * j + 16];
  }

  /** A frame write cannot finish while the panel stays busy: it waits forever. */
  lemma DisplayBlocksWhileBusy(buf: seq<bv8>, readings: seq<bool>)
    requires BufferSize <= |buf| && false !in readings
    ensures Lower(Expand(Display(Some(buf)).steps), readings).None?
  {
    DisplaySends(Some(buf));
    WaitsExpand(Display(Some(buf)).steps);
    LowerBlocks(Expand(Display(Some(buf)).steps), readings);
  }

  /** Clear(color) does what Display does with a frame of that byte. */
  lemma ClearIsDisplay(color: bv8)
    ensures Display(Some(Fill(color))) == Done(Clear(color))
  {
    var fill := Fill(color);
    forall j: nat | j < Height
      ensures FrameRow(fill)(j) == SolidRow(color)(j)
    {
      assert RowData(fill, j) == Solid(color);
    }
    LoopSame(FrameRow(fill), SolidRow(color), 0, Height);
    FullFrame(fill);
  }

  /** A completed frame write, unfolded. */
  lemma FullFrame(buf: seq<bv8>)
    requires BufferSize <= |buf|
    ensures Display(Some(buf)) == Done(SetWindow(0, 0, Width - 1, Height - 1) + Loop(FrameRow(buf), 0, Height) + TurnOnDisplay())
  {
  }

  /** Clear writes the fill byte to all 4736 RAM bytes and waits once per row
      and once for the refresh. */
  lemma ClearFills(color: bv8)
    ensures Payload(Txns(Clear(color)), WriteRam) == Fill(color)
    ensures Waits(Clear(color)) == Height + 1
  {
    ClearIsDisplay(color);
    WholeFrame(Fill(color));
  }

  /** Display(Image) completes and writes exactly the packed image to RAM. */
  lemma DisplayImageSends(img: Packer.Image)
    requires img.Valid()
    ensures DisplayImage(img).Done?
    ensures Payload(Txns(DisplayImage(img).steps), WriteRam) == Packer.GetBuffer(img)
  {
    WholeFrame(Packer.GetBuffer(img));
  }

  /** A buffer of exactly one frame is written whole. */
  lemma WholeFrame(buf: seq<bv8>)
    requires |buf| == BufferSize
    ensures Display(Some(buf)).Done?
    ensures Payload(Txns(Display(Some(buf)).steps), WriteRam) == buf
    ensures Waits(Display(Some(buf)).steps) == Height + 1
  {
    FullSends(buf);
    Whole(buf, BufferSize);
  }
}
