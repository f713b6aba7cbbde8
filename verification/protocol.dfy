/**
  The controller's view of an action stream. Each command byte opens a
  transaction that collects the data bytes sent after it, up to the next
  command; actions off the bus are transparent to it. The driver's operations
  are written as steps, each either a whole transaction (one SendCommand and
  its SendData calls) or one action off the bus.
 */
module Protocol {
  import opened Transport

  /** One controller transaction: a command byte and its data bytes. */
  datatype Txn = Txn(cmd: bv8, data: seq<bv8>)

  /** One step of a driver operation. */
  datatype Step = Send(txn: Txn) | Then(action: Action)

  /** One SendData action per byte, in order. */
  function DataOps(bytes: seq<bv8>): (ops: seq<Op>)
    ensures |ops| == |bytes|
    ensures forall i :: 0 <= i < |bytes| ==> ops[i] == Data(bytes[i])
  {
    seq(|bytes|, i requires 0 <= i < |bytes| => Data(bytes[i]))
  }

  /** The actions a step performs: SendCommand then one SendData per byte. */
  function StepOps(s: Step): seq<Op> {
    match s
    case Send(t) => [Cmd(t.cmd)] + DataOps(t.data)
    case Then(a) => [Do(a)]
  }

  /** The actions of a sequence of steps. */
  function Expand(steps: seq<Step>): seq<Op>
    decreases |steps|
  {
    if steps == [] then [] else StepOps(steps[0]) + Expand(steps[1..])
  }

  /** The transactions a sequence of steps sends, in order. */
  function Txns(steps: seq<Step>): seq<Txn>
    decreases |steps|
  {
    if steps == [] then []
    else (if steps[0].Send? then [steps[0].txn] else []) + Txns(steps[1..])
  }

  /** Data bytes sent before the first command of ops. */
  function DataRun(ops: seq<Op>): seq<bv8>
    decreases |ops|
  {
    if ops == [] then []
    else
      match ops[0]
      case Cmd(_) => []
      case Data(b) => [b] + DataRun(ops[1..])
      case Do(_) => DataRun(ops[1..])
  }

  /** The transactions the controller sees; data bytes sent before any
      command belong to no transaction. */
  function Transactions(ops: seq<Op>): seq<Txn>
    decreases |ops|
  {
    if ops == [] then []
    else
      match ops[0]
      case Cmd(c) => [Txn(c, DataRun(ops[1..]))] + Transactions(ops[1..])
      case _ => Transactions(ops[1..])
  }

  /** The data bytes of all transactions with command `code`, concatenated. */
  function Payload(ts: seq<Txn>, code: bv8): seq<bv8>
    decreases |ts|
  {
    if ts == [] then []
    else (if ts[0].cmd == code then ts[0].data else []) + Payload(ts[1..], code)
  }

  /** How many busy-waits a sequence of steps performs. */
  function Waits(steps: seq<Step>): nat
    decreases |steps|
  {
    if steps == [] then 0 else (if steps[0] == Then(WaitIdle) then 1 else 0) + Waits(steps[1..])
  }

  lemma {:induction false} DataOpsRun(bytes: seq<bv8>, rest: seq<Op>)
    ensures DataRun(DataOps(bytes) + rest) == bytes + DataRun(rest)
    ensures Transactions(DataOps(bytes) + rest) == Transactions(rest)
    decreases |bytes|
  {
    if bytes != [] {
      assert (DataOps(bytes) + rest)[1..] == DataOps(bytes[1..]) + rest;
      DataOpsRun(bytes[1..], rest);
      assert [bytes[0]] + bytes[1..] == bytes;
    } else {
      assert DataOps(bytes) + rest == rest;
    }
  }

  lemma SendSeen(t: Txn, rest: seq<Op>)
    requires DataRun(rest) == []
    ensures DataRun(StepOps(Send(t)) + rest) == []
    ensures Transactions(StepOps(Send(t)) + rest) == [t] + Transactions(rest)
  {
    var w := StepOps(Send(t)) + rest;
    assert w[0] == Cmd(t.cmd);
    assert w[1..] == DataOps(t.data) + rest;
    assert DataRun(w[1..]) == t.data by {
      DataOpsRun(t.data, rest);
      assert t.data + [] == t.data;
    }
    assert Transactions(w[1..]) == Transactions(rest) by {
      DataOpsRun(t.data, rest);
    }
  }

  lemma ThenSeen(a: Action, rest: seq<Op>)
    ensures DataRun(StepOps(Then(a)) + rest) == DataRun(rest)
    ensures Transactions(StepOps(Then(a)) + rest) == Transactions(rest)
  {
    assert (StepOps(Then(a)) + rest)[1..] == rest;
  }

  /** The controller sees exactly the transactions the steps send, and no
      data byte is ever left outside a transaction. */
  lemma {:induction false} TransactionsExpand(steps: seq<Step>)
    ensures Transactions(Expand(steps)) == Txns(steps)
    ensures DataRun(Expand(steps)) == []
    decreases |steps|
  {
    if steps != [] {
      TransactionsExpand(steps[1..]);
      if steps[0].Send? {
        SendSeen(steps[0].txn, Expand(steps[1..]));
      } else {
        ThenSeen(steps[0].action, Expand(steps[1..]));
      }
    }
  }

  lemma {:induction false} ExpandAppend(a: seq<Step>, b: seq<Step>)
    ensures Expand(a + b) == Expand(a) + Expand(b)
    decreases |a|
  {
    if a == [] {
      assert a + b == b;
    } else {
      assert (a + b)[1..] == a[1..] + b;
      ExpandAppend(a[1..], b);
    }
  }

  lemma TxnsAppend(a: seq<Step>, b: seq<Step>)
    ensures Txns(a + b) == Txns(a) + Txns(b)
    ensures Waits(a + b) == Waits(a) + Waits(b)
  {
    TxnsConcat(a, b);
    WaitsConcat(a, b);
  }

  lemma {:induction false} TxnsConcat(a: seq<Step>, b: seq<Step>)
    ensures Txns(a + b) == Txns(a) + Txns(b)
    decreases |a|
  {
    if a == [] {
      assert a + b == b;
    } else {
      assert (a + b)[1..] == a[1..] + b;
      TxnsConcat(a[1..], b);
    }
  }

  lemma {:induction false} WaitsConcat(a: seq<Step>, b: seq<Step>)
    ensures Waits(a + b) == Waits(a) + Waits(b)
    decreases |a|
  {
    if a == [] {
      assert a + b == b;
    } else {
      assert (a + b)[1..] == a[1..] + b;
      WaitsConcat(a[1..], b);
    }
  }

  lemma {:induction false} PayloadAppend(a: seq<Txn>, b: seq<Txn>, code: bv8)
    ensures Payload(a + b, code) == Payload(a, code) + Payload(b, code)
    decreases |a|
  {
    if a != [] {
      assert (a + b)[1..] == a[1..] + b;
      PayloadAppend(a[1..], b, code);
    } else {
      assert a + b == b;
    }
  }

  /** What three consecutive pieces of an operation send, piece by piece. */
  lemma Pieces(a: seq<Step>, b: seq<Step>, c: seq<Step>, code: bv8)
    ensures Txns(a + b + c) == Txns(a) + Txns(b) + Txns(c)
    ensures Waits(a + b + c) == Waits(a) + Waits(b) + Waits(c)
    ensures Payload(Txns(a + b + c), code) == Payload(Txns(a), code) + Payload(Txns(b), code) + Payload(Txns(c), code)
  {
    TxnsAppend(a, b);
    TxnsAppend(a + b, c);
    PayloadAppend(Txns(a), Txns(b), code);
    PayloadAppend(Txns(a) + Txns(b), Txns(c), code);
  }

  /** One step per transaction, sending each in turn. */
  function Sends(ts: seq<Txn>): seq<Step> {
    seq(|ts|, i requires 0 <= i < |ts| => Send(ts[i]))
  }

  /** Sending a list of transactions sends exactly that list, without waiting. */
  lemma {:induction false} TxnsSends(ts: seq<Txn>)
    ensures Txns(Sends(ts)) == ts
    ensures Waits(Sends(ts)) == 0
    decreases |ts|
  {
    if ts != [] {
      assert Sends(ts)[1..] == Sends(ts[1..]);
      TxnsSends(ts[1..]);
      assert [ts[0]] + ts[1..] == ts;
    }
  }

  /** A sequence of steps busy-waits at some point exactly when its actions do. */
  lemma {:induction false} WaitsExpand(steps: seq<Step>)
    ensures Do(WaitIdle) in Expand(steps) <==> Waits(steps) > 0
    decreases |steps|
  {
    if steps != [] {
      WaitsExpand(steps[1..]);
      var head := StepOps(steps[0]);
      assert Do(WaitIdle) in head <==> steps[0] == Then(WaitIdle);
      assert Expand(steps) == head + Expand(steps[1..]);
      assert Do(WaitIdle) in Expand(steps) <==> Do(WaitIdle) in head || Do(WaitIdle) in Expand(steps[1..]);
    }
  }

  /** Where the pieces of a + m + e sit, and a slice of the middle one. */
  lemma Middle<T>(a: seq<T>, m: seq<T>, e: seq<T>, lo: nat, hi: nat)
    requires lo <= hi <= |m|
    ensures |a + m + e| == |a| + |m| + |e|
    ensures (a + m + e)[..|a|] == a
    ensures (a + m + e)[|a| + lo..|a| + hi] == m[lo..hi]
    ensures (a + m + e)[|a| + |m|..] == e
  {
  }

  /** A prefix as long as the sequence is the sequence. */
  lemma Whole<T>(s: seq<T>, n: nat)
    requires n == |s|
    ensures s[..n] == s
  {
  }

  /** The transactions and waits of a single step. */
  lemma StepTxns(s: Step)
    ensures Txns([s]) == (if s.Send? then [s.txn] else [])
    ensures Waits([s]) == (if s == Then(WaitIdle) then 1 else 0)
  {
    assert [s][1..] == [];
  }
}
