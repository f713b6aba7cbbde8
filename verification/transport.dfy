/**
  The command/data transport and busy-wait of the 2.9-inch driver.

  Driver actions (`Op`) are lowered to the hardware events (`Signal`) the GPIO
  and SPI primitives perform. The busy line is modelled as a finite sequence of
  readings that each busy-wait consumes; running out of readings while the
  panel still reports busy stands for the source's unbounded spin.
 */
module Transport {
  import opened Wrappers

  /** The four GPIO lines the driver owns. */
  datatype Pin = Rst | Dc | Cs | Busy

  /** One hardware event: a pin write, an SPI byte, a pin read with the level
      it returned, or a sleep. */
  datatype Signal =
    | Write(pin: Pin, high: bool)
    | Transfer(value: bv8)
    | Sample(pin: Pin, high: bool)
    | Sleep(ms: nat)

  /** A driver action that does not use the SPI bus: a write of the reset
      line, a delay, or a wait until the panel is idle. */
  datatype Action = SetRst(high: bool) | Delay(ms: nat) | WaitIdle

  /** One driver action: SendCommand, SendData, or an action off the bus. */
  datatype Op = Cmd(code: bv8) | Data(value: bv8) | Do(action: Action)

  /** Milliseconds slept between two polls of the busy line. */
  const PollInterval: nat := 200

  /** SendCommand / SendData: select command (DC low) or data (DC high),
      assert chip-select, shift the byte out, release chip-select. */
  function Frame(data: bool, b: bv8): (w: seq<Signal>)
    ensures Deframe(w) == Some([if data then Data(b) else Cmd(b)])
  {
    var w := [Write(Dc, data), Write(Cs, false), Transfer(b), Write(Cs, true)];
    var op := if data then Data(b) else Cmd(b);
    assert w[4..] == [] && [op] + [] == [op];
    w
  }

  /** ReadBusy over the busy-line readings (true = busy): the number of busy
      readings before the first idle one, or None when no reading is idle. */
  function ReadBusy(readings: seq<bool>): (r: Option<nat>)
    ensures r.Some? <==> false in readings
    ensures r.Some? ==> r.value < |readings| && !readings[r.value]
    ensures r.Some? ==> forall i :: 0 <= i < r.value ==> readings[i]
    decreases |readings|
  {
    if readings == [] then None
    else if !readings[0] then Some(0)
    else
      match ReadBusy(readings[1..])
      case None => None
      case Some(n) => Some(n + 1)
  }

  /** The events of a busy-wait that saw n busy readings: each busy reading is
      followed by one 200 ms sleep, and the final reading is idle. */
  function BusyPolls(n: nat): (w: seq<Signal>)
    ensures |w| == 2 * n + 1 && w[2 * n] == Sample(Busy, false)
    ensures forall i :: 0 <= i < 2 * n ==> w[i] == if i % 2 == 0 then Sample(Busy, true) else Sleep(PollInterval)
  {
    if n == 0 then [Sample(Busy, false)]
    else [Sample(Busy, true), Sleep(PollInterval)] + BusyPolls(n - 1)
  }

  /** Hardware events of one action other than a busy-wait. */
  function Signals(op: Op): seq<Signal>
    requires op != Do(WaitIdle)
  {
    match op
    case Cmd(b) => Frame(false, b)
    case Data(b) => Frame(true, b)
    case Do(SetRst(high)) => [Write(Rst, high)]
    case Do(Delay(ms)) => [Sleep(ms)]
  }

  /** Hardware events of a sequence of actions, consuming one busy-line reading
      per poll; None when a busy-wait would not return within the readings. */
  function Lower(ops: seq<Op>, readings: seq<bool>): Option<seq<Signal>>
    decreases |ops|
  {
    if ops == [] then Some([])
    else if ops[0] == Do(WaitIdle) then
      match ReadBusy(readings)
      case None => None
      case Some(n) =>
        match Lower(ops[1..], readings[n + 1..])
        case None => None
        case Some(w) => Some(BusyPolls(n) + w)
    else
      match Lower(ops[1..], readings)
      case None => None
      case Some(w) => Some(Signals(ops[0]) + w)
  }

  /** What the panel recovers from the hardware events: a byte framed with DC
      low is a command, with DC high a data byte; a busy poll run ending in an
      idle reading is one busy-wait. None for a malformed event stream. */
  function Deframe(w: seq<Signal>): Option<seq<Op>>
    decreases |w|
  {
    if w == [] then Some([])
    else
      match w[0]
      case Write(Rst, high) => Prepend(Do(SetRst(high)), Deframe(w[1..]))
      case Write(Dc, high) =>
        if |w| >= 4 && w[1] == Write(Cs, false) && w[2].Transfer? && w[3] == Write(Cs, true)
        then Prepend(if high then Data(w[2].value) else Cmd(w[2].value), Deframe(w[4..]))
        else None
      case Sleep(ms) => Prepend(Do(Delay(ms)), Deframe(w[1..]))
      case Sample(Busy, false) => Prepend(Do(WaitIdle), Deframe(w[1..]))
      case Sample(Busy, true) =>
        if |w| >= 2 && w[1] == Sleep(PollInterval) then
          match Deframe(w[2..])
          case Some(ops) => if |ops| > 0 && ops[0] == Do(WaitIdle) then Some(ops) else None
          case None => None
        else None
      case _ => None
  }

  function Prepend(op: Op, rest: Option<seq<Op>>): Option<seq<Op>> {
    match rest
    case None => None
    case Some(ops) => Some([op] + ops)
  }

  lemma {:induction false} DeframeSignals(op: Op, rest: seq<Signal>)
    requires op != Do(WaitIdle)
    ensures Deframe(Signals(op) + rest) == Prepend(op, Deframe(rest))
  {
    var w := Signals(op) + rest;
    match op
    case Cmd(b) => assert w[4..] == rest;
    case Data(b) => assert w[4..] == rest;
    case Do(_) => assert w[1..] == rest;
  }

  lemma {:induction false} DeframeBusyPolls(n: nat, rest: seq<Signal>)
    ensures Deframe(BusyPolls(n) + rest) == Prepend(Do(WaitIdle), Deframe(rest))
    decreases n
  {
    var w := BusyPolls(n) + rest;
    if n == 0 {
      assert w[1..] == rest;
    } else {
      assert w[2..] == BusyPolls(n - 1) + rest;
      DeframeBusyPolls(n - 1, rest);
    }
  }

  /** The panel recovers exactly the driver's actions from the events they
      are lowered to. */
  lemma {:induction false} DeframeLower(ops: seq<Op>, readings: seq<bool>)
    requires Lower(ops, readings).Some?
    ensures Deframe(Lower(ops, readings).value) == Some(ops)
    decreases |ops|
  {
    if ops != [] {
      if ops[0] == Do(WaitIdle) {
        var n := ReadBusy(readings).value;
        DeframeLower(ops[1..], readings[n + 1..]);
        DeframeBusyPolls(n, Lower(ops[1..], readings[n + 1..]).value);
      } else {
        DeframeLower(ops[1..], readings);
        DeframeSignals(ops[0], Lower(ops[1..], readings).value);
      }
      assert [ops[0]] + ops[1..] == ops;
    }
  }

  /** Every SPI byte in w moves inside its own chip-select window: DC is
      selected, chip-select is driven low just before it and high just after. */
  predicate Framed(w: seq<Signal>) {
    forall i :: 0 <= i < |w| && w[i].Transfer? ==>
      2 <= i < |w| - 1 && w[i - 2].Write? && w[i - 2].pin == Dc
      && w[i - 1] == Write(Cs, false) && w[i + 1] == Write(Cs, true)
  }

  lemma FramedAppend(a: seq<Signal>, b: seq<Signal>)
    requires Framed(a) && Framed(b)
    ensures Framed(a + b)
  {
    forall i | 0 <= i < |a + b| && (a + b)[i].Transfer?
      ensures 2 <= i < |a + b| - 1 && (a + b)[i - 2].Write? && (a + b)[i - 2].pin == Dc
      ensures (a + b)[i - 1] == Write(Cs, false) && (a + b)[i + 1] == Write(Cs, true)
    {
      if i >= |a| {
        assert b[i - |a|].Transfer?;
      } else {
        assert a[i].Transfer?;
      }
    }
  }

  /** Whatever the driver does, the bus never carries a byte outside a
      chip-select window. */
  lemma {:induction false} LowerFramed(ops: seq<Op>, readings: seq<bool>)
    requires Lower(ops, readings).Some?
    ensures Framed(Lower(ops, readings).value)
    decreases |ops|
  {
    if ops != [] {
      if ops[0] == Do(WaitIdle) {
        var n := ReadBusy(readings).value;
        var rest := Lower(ops[1..], readings[n + 1..]).value;
        assert Lower(ops, readings).value == BusyPolls(n) + rest;
        LowerFramed(ops[1..], readings[n + 1..]);
        FramedPolls(n);
        FramedAppend(BusyPolls(n), rest);
      } else {
        var rest := Lower(ops[1..], readings).value;
        assert Lower(ops, readings).value == Signals(ops[0]) + rest;
        LowerFramed(ops[1..], readings);
        FramedSignals(ops[0]);
        FramedAppend(Signals(ops[0]), rest);
      }
    }
  }

  lemma FramedSignals(op: Op)
    requires op != Do(WaitIdle)
    ensures Framed(Signals(op))
  {
    match op
    case Cmd(b) =>
      assert Signals(op) == Frame(false, b);
    case Data(b) =>
      assert Signals(op) == Frame(true, b);
    case Do(a) =>
      assert |Signals(op)| == 1 && !Signals(op)[0].Transfer?;
  }

  lemma FramedPolls(n: nat)
    ensures Framed(BusyPolls(n))
  {
    var polls := BusyPolls(n);
    assert forall i :: 0 <= i < |polls| ==> !polls[i].Transfer?;
  }

  /** Actions without a busy-wait never block: they lower to the same events
      whatever the busy line reads. */
  lemma {:induction false} LowerNoWait(ops: seq<Op>, readings: seq<bool>)
    requires Do(WaitIdle) !in ops
    ensures Lower(ops, readings).Some?
    ensures Lower(ops, readings) == Lower(ops, [])
    decreases |ops|
  {
    if ops != [] {
      assert ops[0] != Do(WaitIdle);
      assert Do(WaitIdle) !in ops[1..] by {
        assert forall i :: 0 <= i < |ops[1..]| ==> ops[1..][i] == ops[i + 1];
      }
      LowerNoWait(ops[1..], readings);
    }
  }

  /** Lowering an action that does not wait puts its events before the rest. */
  lemma LowerCons(op: Op, rest: seq<Op>, readings: seq<bool>, w: seq<Signal>)
    requires op != Do(WaitIdle) && Lower(rest, readings) == Some(w)
    ensures Lower([op] + rest, readings) == Some(Signals(op) + w)
  {
    assert ([op] + rest)[1..] == rest;
  }

  /** A busy-wait whose first idle reading is at index n polls n busy readings,
      each followed by a 200 ms sleep, then the idle one; the actions after it
      see only the readings after that one, and it completes exactly when they
      do. */
  lemma LowerWait(n: nat, rest: seq<Op>, readings: seq<bool>)
    requires n < |readings| && !readings[n]
    requires forall i :: 0 <= i < n ==> readings[i]
    ensures Lower([Do(WaitIdle)] + rest, readings).Some? <==> Lower(rest, readings[n + 1..]).Some?
    ensures Lower(rest, readings[n + 1..]).Some? ==>
      Lower([Do(WaitIdle)] + rest, readings) == Some(BusyPolls(n) + Lower(rest, readings[n + 1..]).value)
  {
    ReadBusyAt(n, readings);
    assert ([Do(WaitIdle)] + rest)[1..] == rest;
  }

  /** ReadBusy counts exactly the busy readings before the first idle one. */
  lemma {:induction false} ReadBusyAt(n: nat, readings: seq<bool>)
    requires n < |readings| && !readings[n]
    requires forall i :: 0 <= i < n ==> readings[i]
    ensures ReadBusy(readings) == Some(n)
    decreases n
  {
    if n > 0 {
      assert readings[0];
      ReadBusyAt(n - 1, readings[1..]);
    }
  }

  /** Actions that do not wait lower to the same events whatever the busy line
      reads, so in front of other actions they add exactly those events and
      leave every reading to the actions after them. */
  lemma {:induction false} LowerAppend(a: seq<Op>, b: seq<Op>, readings: seq<bool>)
    requires Do(WaitIdle) !in a
    ensures Lower(a, []).Some?
    ensures Lower(a + b, readings).Some? <==> Lower(b, readings).Some?
    ensures Lower(b, readings).Some? ==> Lower(a + b, readings) == Some(Lower(a, []).value + Lower(b, readings).value)
    decreases |a|
  {
    if a == [] {
      assert a + b == b;
      assert Lower(b, readings).Some? ==> [] + Lower(b, readings).value == Lower(b, readings).value;
    } else {
      assert (a + b)[0] == a[0] && (a + b)[1..] == a[1..] + b;
      assert Do(WaitIdle) !in a[1..] by {
        assert forall i :: 0 <= i < |a[1..]| ==> a[1..][i] == a[i + 1];
      }
      LowerAppend(a[1..], b, readings);
      match Lower(b, readings)
      case None =>
      case Some(w) =>
        assert Signals(a[0]) + (Lower(a[1..], []).value + w) == (Signals(a[0]) + Lower(a[1..], []).value) + w;
    }
  }

  /** While the busy line never reads idle, any busy-wait blocks for good. */
  lemma {:induction false} LowerBlocks(ops: seq<Op>, readings: seq<bool>)
    requires Do(WaitIdle) in ops && false !in readings
    ensures Lower(ops, readings).None?
    decreases |ops|
  {
    if ops[0] != Do(WaitIdle) {
      assert Do(WaitIdle) in ops[1..] by {
        var i :| 0 <= i < |ops| && ops[i] == Do(WaitIdle);
        assert ops[1..][i - 1] == ops[i];
      }
      LowerBlocks(ops[1..], readings);
    }
  }
}
