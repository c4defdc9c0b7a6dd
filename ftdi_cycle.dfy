/**
  The worker of flip_tdi/helpers/ftdi_usb.c (ftdi_thread_worker), stated as
  values: one wake cycle maps the flag set it woke with, the result of the
  bulk-OUT read and the state it works on to the calls it makes on the
  virtual UART, the frames it writes to the bulk-IN endpoint and the state
  it leaves. Between two cycles the worker blocks in the flag wait while
  the virtual UART goes on working: bytes arrive for the host and the
  modem status moves. A run alternates such a wait with a cycle and stops
  at the first cycle that carries the exit bit.
*/
module FtdiCycle {
  import opened FtdiWire

  /** The state one wake cycle reads and writes. */
  datatype WorkerView = WorkerView(
    txStatus: bv16,       // tx_data.status, the status the next keepalive carries
    payload: seq<bv8>,    // tx_data.data
    modemStatus: bv16,    // the virtual UART's current modem status
    tx: seq<bv8>)         // bytes pending in the virtual UART's tx buffer

  predicate ViewOk(w: WorkerView) {
    |w.payload| == TxMaxSize
  }

  /** One return from the flag wait: the flags, and what the bulk-OUT read
      of that cycle yields (its raw result and the bytes it stored). */
  datatype Wakeup = Wakeup(flags: bv32, read: int, packet: seq<bv8>)

  predicate WakeupOk(k: Wakeup) {
    k.read <= RxMaxSize && |k.packet| == Receive(k.read)
  }

  datatype CycleResult = CycleResult(
    calls: seq<UartCall>,
    frames: seq<seq<bv8>>,
    view: WorkerView,
    exit: bool)

  /** The Rx step: the received bytes are handed over and UART transmission
      started, both only when the read produced data. */
  function RxCalls(k: Wakeup): (r: seq<UartCall>)
    ensures r != [] <==> Has(k.flags, EventRx) && k.read > 0
    ensures r != [] ==> r == [SetRxBuf(k.packet), StartUartTx]
  {
    if Has(k.flags, EventRx) && Receive(k.read) > 0 then [SetRxBuf(k.packet), StartUartTx] else []
  }

  /** The Tx step: refresh the status, drain up to one frame's worth of
      pending bytes and send them behind the status. */
  function TxStep(w: WorkerView): (r: (seq<bv8>, WorkerView))
    requires ViewOk(w)
    ensures ViewOk(r.1)
  {
    var n := Min(|w.tx|, TxMaxSize);
    (Frame(w.modemStatus, w.tx[..n]),
     w.(txStatus := w.modemStatus, payload := w.tx[..n] + w.payload[n..], tx := w.tx[n..]))
  }

  /** The branch decisions one iteration takes, from the flag set it woke
      with: the Rx bit is checked and cleared first, the rest is looked at
      only if some bit is left, and TxComplete is folded into Tx. */
  datatype Plan = Plan(rx: bool, busy: bool, reset: bool, tx: bool, exit: bool)

  function PlanOf(flags: bv32): (p: Plan)
    ensures p.reset || p.tx || p.exit ==> p.busy
    ensures p.busy <==> flags & !EventRx != 0
    ensures p.rx <==> Has(flags, EventRx)
  {
    var f1 := if Has(flags, EventRx) then flags & !EventRx else flags;
    var f2 := if Has(f1, EventTxComplete) then f1 | EventTx else f1;
    Plan(Has(flags, EventRx), f1 != 0,
         f1 != 0 && Has(f1, EventResetSio),
         f1 != 0 && Has(f2, EventTx),
         f1 != 0 && Has(f2, EventExit))
  }

  /** One iteration of the worker loop, lines 80-136. */
  function WakeSpec(k: Wakeup, w: WorkerView): (r: CycleResult)
    requires ViewOk(w)
    ensures ViewOk(r.view) && r.view.modemStatus == w.modemStatus
  {
    var p := PlanOf(k.flags);
    var rx := RxCalls(k);
    if !p.busy then CycleResult(rx, [], w, false)
    else
      var calls := rx + (if p.reset then [ResetSio] else []);
      var keepalive := if p.reset then [StatusBytes(w.txStatus)] else [];
      if p.tx then
        var (frame, w') := TxStep(w);
        CycleResult(calls, keepalive + [frame], w', p.exit)
      else
        CycleResult(calls, keepalive, w, p.exit)
  }

  /** Does this cycle send a data (or status-only) frame? */
  predicate WantsTx(flags: bv32) {
    Has(flags, EventTx) || Has(flags, EventTxComplete)
  }

  // ---------------------------------------------------------------------
  // Properties of one cycle
  // ---------------------------------------------------------------------

  /** Clearing the Rx bit leaves every other bit the cycle tests as it was,
      so each decision is a plain test of the flags it woke with. */
  lemma PlanOfBits(flags: bv32)
    ensures var p := PlanOf(flags);
            && p.rx == Has(flags, EventRx)
            && p.reset == Has(flags, EventResetSio)
            && p.tx == WantsTx(flags)
            && p.exit == Has(flags, EventExit)
  {
  }

  /** The calls of a cycle: the Rx hand-over first (only when data was
      read), then the line reset. */
  lemma WakeCalls(k: Wakeup, w: WorkerView)
    requires ViewOk(w)
    ensures WakeSpec(k, w).calls ==
            RxCalls(k) + (if Has(k.flags, EventResetSio) then [ResetSio] else [])
  {
    PlanOfBits(k.flags);
  }

  /** The frames of a cycle: a keepalive carrying the status as last
      captured when a line reset was asked for, then exactly one frame when
      Tx or TxComplete is set, holding the current status and the first
      min(n, 62) pending bytes; those bytes leave the tx buffer. */
  lemma WakeFrames(k: Wakeup, w: WorkerView)
    requires ViewOk(w)
    ensures var r := WakeSpec(k, w);
            var n := Min(|w.tx|, TxMaxSize);
            && |r.frames| == (if Has(k.flags, EventResetSio) then 1 else 0) + (if WantsTx(k.flags) then 1 else 0)
            && (Has(k.flags, EventResetSio) ==> r.frames[0] == StatusBytes(w.txStatus))
            && (WantsTx(k.flags) ==>
                  && r.frames[|r.frames| - 1] == Frame(w.modemStatus, w.tx[..n])
                  && |r.frames[|r.frames| - 1]| == ModemStatusSize + n
                  && r.view.tx == w.tx[n..]
                  && r.view.txStatus == w.modemStatus)
            && (!WantsTx(k.flags) ==> r.view == w)
  {
    PlanOfBits(k.flags);
  }

  /** A cycle in terms of the bits it woke with: the Rx hand-over, the line
      reset and its keepalive, the Tx frame and the exit, each decided by
      its own bit. */
  lemma WakeShape(k: Wakeup, w: WorkerView)
    requires ViewOk(w)
    ensures var r := WakeSpec(k, w);
            && r.calls == RxCalls(k) + (if Has(k.flags, EventResetSio) then [ResetSio] else [])
            && r.frames == (if Has(k.flags, EventResetSio) then [StatusBytes(w.txStatus)] else [])
                           + (if WantsTx(k.flags) then [TxStep(w).0] else [])
            && r.view == (if WantsTx(k.flags) then TxStep(w).1 else w)
            && r.exit == Has(k.flags, EventExit)
  {
    PlanOfBits(k.flags);
  }

  /** A status-only frame goes out exactly when nothing is pending. */
  lemma TxFrameStatusOnly(w: WorkerView)
    requires ViewOk(w)
    ensures |TxStep(w).0| == ModemStatusSize <==> w.tx == []
    ensures w.tx == [] ==> TxStep(w).0 == StatusBytes(w.modemStatus)
  {
    if w.tx == [] {
      assert w.tx[..0] == [];
    }
  }

  /** The cycle ends the loop exactly when the exit bit is set, and the exit
      bit takes nothing away from the work of the same cycle. */
  lemma WakeExitIsLast(k: Wakeup, w: WorkerView)
    requires ViewOk(w)
    ensures WakeSpec(k, w).exit == Has(k.flags, EventExit)
    ensures var r := WakeSpec(k, w);
            WakeSpec(k.(flags := k.flags & !EventExit), w) == r.(exit := false)
  {
    PlanOfBits(k.flags);
    PlanOfBits(k.flags & !EventExit);
    var g := k.flags & !EventExit;
    assert Has(g, EventRx) == Has(k.flags, EventRx);
    assert Has(g, EventResetSio) == Has(k.flags, EventResetSio);
    assert WantsTx(g) == WantsTx(k.flags);
    assert !Has(g, EventExit);
  }

  /** Bits outside Rx, ResetSio, TxComplete, Tx and Exit are reserved: a
      cycle that sees only those does nothing. */
  lemma WakeIgnoresReservedBits(k: Wakeup, w: WorkerView)
    requires ViewOk(w) && k.flags & WorkerBits == 0
    ensures WakeSpec(k, w) == CycleResult([], [], w, false)
  {
    assert !Has(k.flags, EventRx) && !Has(k.flags, EventResetSio) && !WantsTx(k.flags);
    assert !Has(k.flags, EventExit);
  }

  /** A status-only frame has no payload. */
  lemma KeepalivePayload(status: bv16)
    ensures Payloads([StatusBytes(status)]) == []
  {
    var one := [StatusBytes(status)];
    assert one[1..] == [];
    assert one[0][ModemStatusSize..] == [];
  }

  /** The Tx step sends the front of the tx buffer and keeps the rest. */
  lemma TxStepConservesTx(w: WorkerView)
    requires ViewOk(w)
    ensures Payloads([TxStep(w).0]) + TxStep(w).1.tx == w.tx
  {
    var n := Min(|w.tx|, TxMaxSize);
    var one := [TxStep(w).0];
    assert one[1..] == [];
    assert one[0][ModemStatusSize..] == w.tx[..n];
    assert w.tx[..n] + w.tx[n..] == w.tx;
  }

  /** Frames without payload in front of frames that send the front of the
      pending bytes send just that front. */
  lemma FramesConserve(keepalives: seq<seq<bv8>>, sent: seq<seq<bv8>>, left: seq<bv8>, pending: seq<bv8>)
    requires Payloads(keepalives) == [] && Payloads(sent) + left == pending
    ensures Payloads(keepalives + sent) + left == pending
  {
    PayloadsAppend(keepalives, sent);
  }

  /** What one cycle sends as payload, followed by what it leaves pending,
      is what was pending: bytes leave in order and none is lost. */
  lemma WakeConservesTx(k: Wakeup, w: WorkerView)
    requires ViewOk(w)
    ensures var r := WakeSpec(k, w); Payloads(r.frames) + r.view.tx == w.tx
  {
    WakeShape(k, w);
    var keepalives: seq<seq<bv8>> := if Has(k.flags, EventResetSio) then [StatusBytes(w.txStatus)] else [];
    var sent: seq<seq<bv8>> := if WantsTx(k.flags) then [TxStep(w).0] else [];
    var after := if WantsTx(k.flags) then TxStep(w).1 else w;
    if Has(k.flags, EventResetSio) {
      KeepalivePayload(w.txStatus);
    }
    if WantsTx(k.flags) {
      TxStepConservesTx(w);
    }
    FramesConserve(keepalives, sent, after.tx, w.tx);
  }

  /** The keepalive of a line reset carries the status the worker captured
      last, not the current one: the two differ whenever the modem status
      moved since the last Tx. */
  lemma ResetKeepaliveIsStale(w: WorkerView)
    requires ViewOk(w) && w.txStatus != w.modemStatus
    ensures var r := WakeSpec(Wakeup(EventResetSio, 0, []), w);
            r.frames == [StatusBytes(w.txStatus)] && r.frames[0] != StatusBytes(w.modemStatus)
  {
    var none: seq<bv8> := [];
    ParseFrameRoundTrip(w.txStatus, none);
    ParseFrameRoundTrip(w.modemStatus, none);
    assert Frame(w.txStatus, none) == StatusBytes(w.txStatus);
    assert Frame(w.modemStatus, none) == StatusBytes(w.modemStatus);
  }

  // ---------------------------------------------------------------------
  // Runs of the loop
  // ---------------------------------------------------------------------

  /** One blocking wait of line 80: what the virtual UART did meanwhile (the
      bytes it queued for the host and the modem status it ended with), and
      the wake-up that ends the wait. */
  datatype Wait = Wait(arrived: seq<bv8>, status: bv16, wake: Wakeup)

  /** The state the cycle finds when the wait returns. */
  function Arrive(t: Wait, w: WorkerView): (r: WorkerView)
    ensures ViewOk(r) == ViewOk(w) && r.txStatus == w.txStatus && r.payload == w.payload
    ensures r.tx == w.tx + t.arrived && r.modemStatus == t.status
  {
    w.(tx := w.tx + t.arrived, modemStatus := t.status)
  }

  /** A wait followed by the cycle it wakes. */
  function CycleOf(t: Wait, w: WorkerView): (r: CycleResult)
    requires ViewOk(w)
    ensures ViewOk(r.view) && r.view.modemStatus == t.status
  {
    WakeSpec(t.wake, Arrive(t, w))
  }

  /** The bytes queued during the given waits, in order. */
  function Arrivals(ts: seq<Wait>): seq<bv8> {
    if ts == [] then [] else ts[0].arrived + Arrivals(ts[1..])
  }

  datatype RunResult = RunResult(
    calls: seq<UartCall>,
    frames: seq<seq<bv8>>,
    view: WorkerView,
    cycles: nat,
    exited: bool)

  /** The loop over the given waits, leaving at the first exit. */
  function RunSpec(ks: seq<Wait>, w: WorkerView): (r: RunResult)
    requires ViewOk(w)
    ensures ViewOk(r.view) && r.cycles <= |ks|
    decreases |ks|
  {
    if ks == [] then RunResult([], [], w, 0, false)
    else
      var c := CycleOf(ks[0], w);
      if c.exit then RunResult(c.calls, c.frames, c.view, 1, true)
      else
        var rest := RunSpec(ks[1..], c.view);
        RunResult(c.calls + rest.calls, c.frames + rest.frames, rest.view, rest.cycles + 1, rest.exited)
  }

  /** A run is its first cycle followed, unless that cycle exits, by the
      run over the remaining wake-ups. */
  lemma RunUnfold(ks: seq<Wait>, w: WorkerView)
    requires ViewOk(w) && ks != []
    ensures var c := CycleOf(ks[0], w);
            var r := RunSpec(ks, w);
            var rest := RunSpec(ks[1..], c.view);
            if c.exit then r == RunResult(c.calls, c.frames, c.view, 1, true)
            else r == RunResult(c.calls + rest.calls, c.frames + rest.frames, rest.view, rest.cycles + 1, rest.exited)
  {
  }

  /** RunUnfold for the suffix of `ks` from position `i`. */
  lemma RunFrom(ks: seq<Wait>, i: nat, w: WorkerView)
    requires ViewOk(w) && i < |ks|
    ensures var c := CycleOf(ks[i], w);
            var r := RunSpec(ks[i..], w);
            var rest := RunSpec(ks[i + 1..], c.view);
            if c.exit then r == RunResult(c.calls, c.frames, c.view, 1, true)
            else r == RunResult(c.calls + rest.calls, c.frames + rest.frames, rest.view, rest.cycles + 1, rest.exited)
  {
    assert ks[i..][0] == ks[i] && ks[i..][1..] == ks[i + 1..];
    RunUnfold(ks[i..], w);
  }

  /** Bookkeeping of a run in progress: after `i` cycles of a run over `ks`
      that started from the calls `calls0` and frames `frames0` and is to
      end as `total`, with `calls` and `frames` made so far and the worker
      in state `w`, what is left is the run over the rest of `ks`. */
  predicate Accounts(ks: seq<Wait>, i: nat, w: WorkerView, total: RunResult,
                     calls0: seq<UartCall>, frames0: seq<seq<bv8>>,
                     calls: seq<UartCall>, frames: seq<seq<bv8>>)
    requires ViewOk(w) && i <= |ks|
  {
    var rest := RunSpec(ks[i..], w);
    && calls0 + total.calls == calls + rest.calls
    && frames0 + total.frames == frames + rest.frames
    && rest.view == total.view
    && i + rest.cycles == total.cycles
  }

  /** One more cycle keeps the books, and the cycle that exits closes them. */
  lemma AccountsStep(ks: seq<Wait>, i: nat, w: WorkerView, total: RunResult,
                     calls0: seq<UartCall>, frames0: seq<seq<bv8>>,
                     calls: seq<UartCall>, frames: seq<seq<bv8>>)
    requires ViewOk(w) && i < |ks|
    requires Accounts(ks, i, w, total, calls0, frames0, calls, frames)
    ensures var c := CycleOf(ks[i], w);
            && (c.exit ==> && calls + c.calls == calls0 + total.calls
                           && frames + c.frames == frames0 + total.frames
                           && c.view == total.view
                           && i + 1 == total.cycles)
            && (!c.exit ==> Accounts(ks, i + 1, c.view, total, calls0, frames0,
                                     calls + c.calls, frames + c.frames))
  {
    var c := CycleOf(ks[i], w);
    var rest := RunSpec(ks[i + 1..], c.view);
    RunFrom(ks, i, w);
    if !c.exit {
      assert calls + (c.calls + rest.calls) == (calls + c.calls) + rest.calls;
      assert frames + (c.frames + rest.frames) == (frames + c.frames) + rest.frames;
    }
  }

  /** The books open with nothing done and close with nothing left. */
  lemma AccountsEnds(ks: seq<Wait>, w: WorkerView, calls: seq<UartCall>, frames: seq<seq<bv8>>)
    requires ViewOk(w)
    ensures Accounts(ks, 0, w, RunSpec(ks, w), calls, frames, calls, frames)
    ensures forall total, calls0, frames0 ::
              Accounts(ks, |ks|, w, total, calls0, frames0, calls, frames) ==>
                calls == calls0 + total.calls && frames == frames0 + total.frames
                && w == total.view && |ks| == total.cycles
  {
    assert ks[0..] == ks;
    assert ks[|ks|..] == [];
  }

  /** Index of the first wait whose wake-up carries the exit bit, or |ks|. */
  function FirstExit(ks: seq<Wait>): (i: nat)
    ensures i <= |ks|
    ensures forall j :: 0 <= j < i ==> !Has(ks[j].wake.flags, EventExit)
    ensures i < |ks| ==> Has(ks[i].wake.flags, EventExit)
  {
    if ks == [] then 0
    else if Has(ks[0].wake.flags, EventExit) then 0
    else 1 + FirstExit(ks[1..])
  }

  /** The loop runs up to and including the first exit, and no further. */
  lemma {:induction false} RunStopsAtFirstExit(ks: seq<Wait>, w: WorkerView)
    requires ViewOk(w)
    ensures var r := RunSpec(ks, w);
            && r.exited == (FirstExit(ks) < |ks|)
            && r.cycles == (if FirstExit(ks) < |ks| then FirstExit(ks) + 1 else |ks|)
    decreases |ks|
  {
    if ks != [] {
      var c := CycleOf(ks[0], w);
      WakeExitIsLast(ks[0].wake, Arrive(ks[0], w));
      if !c.exit {
        RunStopsAtFirstExit(ks[1..], c.view);
      }
    }
  }

  /** Arrivals over a prefix, split after its first wait. */
  lemma ArrivalsPrefix(ks: seq<Wait>, n: nat)
    requires n < |ks|
    ensures Arrivals(ks[..n + 1]) == ks[0].arrived + Arrivals(ks[1..][..n])
  {
    var done := ks[..n + 1];
    assert done[0] == ks[0] && done[1..] == ks[1..][..n];
  }

  /** Two stretches that each send their pending bytes in order join into
      one that does. */
  lemma ConservesJoin(first: seq<seq<bv8>>, second: seq<seq<bv8>>,
                      start: seq<bv8>, mid: seq<bv8>, end: seq<bv8>,
                      arrived: seq<bv8>, later: seq<bv8>)
    requires Payloads(first) + mid == start + arrived
    requires Payloads(second) + end == mid + later
    ensures Payloads(first + second) + end == start + (arrived + later)
  {
    PayloadsAppend(first, second);
    calc {
      Payloads(first + second) + end;
      (Payloads(first) + Payloads(second)) + end;
      Payloads(first) + (Payloads(second) + end);
      Payloads(first) + (mid + later);
      (Payloads(first) + mid) + later;
      (start + arrived) + later;
    }
  }

  /** Over a whole run, the payloads sent, in order, followed by what is
      still pending, are the bytes that were pending at the start followed
      by those that arrived during the waits the run went through. */
  lemma {:induction false} RunConservesTx(ks: seq<Wait>, w: WorkerView)
    requires ViewOk(w)
    ensures var r := RunSpec(ks, w); Payloads(r.frames) + r.view.tx == w.tx + Arrivals(ks[..r.cycles])
    decreases |ks|
  {
    if ks != [] {
      var c := CycleOf(ks[0], w);
      WakeConservesTx(ks[0].wake, Arrive(ks[0], w));
      RunUnfold(ks, w);
      if c.exit {
        ArrivalsPrefix(ks, 0);
        assert ks[1..][..0] == [];
      } else {
        var rest := RunSpec(ks[1..], c.view);
        RunConservesTx(ks[1..], c.view);
        ArrivalsPrefix(ks, rest.cycles);
        ConservesJoin(c.frames, rest.frames, w.tx, c.view.tx, rest.view.tx,
                      ks[0].arrived, Arrivals(ks[1..][..rest.cycles]));
      }
    } else {
      assert ks[..0] == [];
    }
  }

  /** Every frame of a run fits the 64-byte bulk-IN endpoint and carries the
      2-byte status. */
  lemma {:induction false} RunFramesFit(ks: seq<Wait>, w: WorkerView)
    requires ViewOk(w)
    ensures forall f :: f in RunSpec(ks, w).frames ==> ModemStatusSize <= |f| <= EpInSize
    decreases |ks|
  {
    if ks != [] {
      var c := CycleOf(ks[0], w);
      WakeFrames(ks[0].wake, Arrive(ks[0], w));
      assert forall f :: f in c.frames ==> ModemStatusSize <= |f| <= EpInSize;
      if !c.exit {
        RunFramesFit(ks[1..], c.view);
      }
    }
  }

  /** The stale keepalive within a run: from a worker whose captured status
      is current, as the prologue leaves it, a wait during which the modem
      status moves, ended by a line reset alone, sends the status captured
      before the wait and not the one the UART now reports. */
  lemma RunResetKeepaliveIsStale(w: WorkerView, arrived: seq<bv8>, status: bv16)
    requires ViewOk(w) && w.txStatus == w.modemStatus && status != w.modemStatus
    ensures var r := RunSpec([Wait(arrived, status, Wakeup(EventResetSio, 0, []))], w);
            && r.frames == [StatusBytes(w.txStatus)]
            && r.view.modemStatus == status
            && StatusBytes(w.txStatus) != StatusBytes(status)
  {
    var t := Wait(arrived, status, Wakeup(EventResetSio, 0, []));
    ResetKeepaliveIsStale(Arrive(t, w));
    RunUnfold([t], w);
    assert [t][1..] == [];
  }
}
