/**
  The stateful side of flip_tdi/helpers/ftdi_usb.c: the host controller the
  driver writes to, the virtual UART it drives (recorded, since its code is
  not part of this model), the device instance, the file-static reference to
  the active instance with the callbacks that consult it, and the worker
  thread's loop. Each method is proved against the value-level functions of
  FtdiWire and FtdiCycle.
*/
module FtdiUsb {
  import opened FtdiWire
  import opened FtdiCycle

  /** The host controller (`usbd_device`) as far as this driver touches it. */
  class UsbDevice {
    var configCallback: bool      // ftdi_usb_ep_config is registered
    var controlCallback: bool     // ftdi_usb_control is registered
    var connected: bool
    var inFrames: seq<seq<bv8>>   // every write to the bulk-IN endpoint, in order
    var dataPtr: array?<bv8>      // status.data_ptr: data phase of the pending control response
    var dataCount: bv16           // status.data_count

    constructor ()
      ensures !configCallback && !controlCallback && !connected
      ensures inFrames == [] && dataPtr == null && dataCount == 0
    {
      configCallback, controlCallback, connected := false, false, false;
      inFrames, dataPtr, dataCount := [], null, 0;
    }

    /** ftdi_usb_send: the bytes go to the bulk-IN endpoint verbatim; the
        caller has already put the status header in front. */
    method Send(bytes: seq<bv8>)
      modifies this`inFrames
      ensures inFrames == old(inFrames) + [bytes]
    {
      inFrames := inFrames + [bytes];
    }
  }

  /** The virtual UART of ftdi.h. Calls whose effect lies inside it are
      recorded in `calls`; what the driver reads back from it is held in
      fields of their own. */
  class Uart {
    var calls: seq<UartCall>
    var tx: seq<bv8>              // bytes waiting to go to the host
    var modemStatus: bv16
    var latencyTimer: bv8
    var pins: bv8                 // bit-bang pin state

    constructor (modemStatus: bv16, latencyTimer: bv8, pins: bv8, tx: seq<bv8>)
      ensures calls == [] && this.tx == tx
      ensures this.modemStatus == modemStatus && this.latencyTimer == latencyTimer && this.pins == pins
    {
      this.calls := [];
      this.tx := tx;
      this.modemStatus := modemStatus;
      this.latencyTimer := latencyTimer;
      this.pins := pins;
    }

    /** A call whose effect is internal to the virtual UART. */
    method Call(c: UartCall)
      modifies this`calls
      ensures calls == old(calls) + [c]
    {
      calls := calls + [c];
    }

    /** ftdi_reset_purge_tx: recorded, and the pending tx bytes are dropped. */
    method PurgeTxBuf()
      modifies this`calls, this`tx
      ensures calls == old(calls) + [PurgeTx] && tx == []
    {
      calls := calls + [PurgeTx];
      tx := [];
    }

    /** What the virtual UART does on its own while the worker waits: the
        serial bytes it receives are queued for the host, and the modem
        status follows the line. */
    method Progress(arrived: seq<bv8>, status: bv16)
      modifies this`tx, this`modemStatus
      ensures tx == old(tx) + arrived && modemStatus == status
    {
      tx := tx + arrived;
      modemStatus := status;
    }

    /** ftdi_available_tx_buf */
    method AvailableTx() returns (n: nat)
      ensures n == |tx|
    {
      n := |tx|;
    }

    /** ftdi_get_tx_buf: moves up to `len` pending bytes, oldest first, into
        the front of `dst` and reports how many it moved. */
    method GetTxBuf(dst: array<bv8>, len: nat) returns (n: nat)
      requires len <= dst.Length
      modifies this`tx, dst
      ensures n == Min(len, |old(tx)|)
      ensures dst[..] == old(tx)[..n] + old(dst[..])[n..]
      ensures tx == old(tx)[n..]
    {
      n := Min(len, |tx|);
      forall i | 0 <= i < n {
        dst[i] := tx[i];
      }
      tx := tx[n..];
    }
  }

  /** One emulated FT232H (`struct FtdiUsb`). */
  class FtdiUsb {
    var dev: UsbDevice?
    var ftdi: Uart?
    var threadFlags: bv32         // flags set on the worker thread
    var threadRunning: bool
    const dataRecvest: array<bv8> // scratch buffer for device-to-host responses
    var dataRecvestLen: bv16

    constructor ()
      ensures fresh(dataRecvest) && dataRecvest.Length == ScratchSize
      ensures dev == null && ftdi == null && threadFlags == 0 && !threadRunning
      ensures dataRecvestLen == 0
    {
      dataRecvest := new bv8[ScratchSize](_ => 0);
      dev, ftdi := null, null;
      threadFlags, threadRunning := 0, false;
      dataRecvestLen := 0;
    }

    /** furi_thread_flags_set on the worker thread. */
    method RaiseFlags(bits: bv32)
      modifies this`threadFlags
      ensures threadFlags == old(threadFlags) | bits
    {
      threadFlags := threadFlags | bits;
    }

    /** The switch bodies of ftdi_usb_control for a request it acknowledges. */
    method Apply(dev: UsbDevice, a: ControlAction)
      requires ftdi != null && dataRecvest.Length == ScratchSize && a != Stall
      modifies this`threadFlags, this`dataRecvestLen, dataRecvest, ftdi`calls, ftdi`tx,
               dev`dataPtr, dev`dataCount
      ensures AppliedTo(this, dev, a)
    {
      if Stages(a) {
        Stage(dev, Response(a, ftdi.latencyTimer, ftdi.modemStatus, ftdi.pins), StagedLength(a));
      } else {
        Act(a);
      }
    }

    /** A request that only acts on the instance and its virtual UART. */
    method Act(a: ControlAction)
      requires ftdi != null && a != Stall && !Stages(a)
      modifies this`threadFlags, ftdi`calls, ftdi`tx
      ensures threadFlags == old(threadFlags) | FlagsOf(a)
      ensures ftdi.calls == old(ftdi.calls) + CallsOf(a)
      ensures ftdi.tx == (if a.ResetAction? && a.purgeTx then [] else old(ftdi.tx))
    {
      var uart := ftdi;
      match a {
        case ResetAction(sio, purgeRx, purgeTx) =>
          if sio {
            RaiseFlags(EventResetSio);
          }
          if purgeRx {
            uart.Call(PurgeRx);
          }
          if purgeTx {
            uart.PurgeTxBuf();
          }
        case Forward(c) =>
          uart.Call(c);
        case AcceptOnly =>
      }
    }

    /** A device-to-host request: its bytes go to the front of the scratch
        buffer, which becomes the controller's pending data phase. */
    method Stage(dev: UsbDevice, bytes: seq<bv8>, length: bv16)
      requires 0 < |bytes| <= ModemStatusSize && dataRecvest.Length == ScratchSize
      modifies this`dataRecvestLen, dataRecvest, dev`dataPtr, dev`dataCount
      ensures dataRecvest[..] == bytes + old(dataRecvest[..])[|bytes|..]
      ensures dataRecvestLen == length && dev.dataPtr == dataRecvest && dev.dataCount == length
    {
      dataRecvest[0] := bytes[0];
      if |bytes| == 2 {
        dataRecvest[1] := bytes[1];
      }
      dataRecvestLen := length;
      dev.dataPtr := dataRecvest;
      dev.dataCount := dataRecvestLen;
    }
  }

  /** The effect of an acknowledged control request, the switch bodies of
      ftdi_usb_control, on the instance, its virtual UART and the
      controller's pending response. */
  twostate predicate AppliedTo(u: FtdiUsb, dev: UsbDevice, a: ControlAction)
    reads u, u.dataRecvest, u.ftdi, dev
    requires u.ftdi != null && old(u.ftdi) == u.ftdi && u.dataRecvest.Length == ScratchSize
  {
    && u.threadFlags == old(u.threadFlags) | FlagsOf(a)
    && u.ftdi.calls == old(u.ftdi.calls) + CallsOf(a)
    && u.ftdi.tx == (if a.ResetAction? && a.purgeTx then [] else old(u.ftdi.tx))
    && (var b := Response(a, u.ftdi.latencyTimer, u.ftdi.modemStatus, u.ftdi.pins);
        u.dataRecvest[..] == b + old(u.dataRecvest[..])[|b|..])
    && (Stages(a) ==>
          && u.dataRecvestLen == StagedLength(a)
          && dev.dataPtr == u.dataRecvest
          && dev.dataCount == StagedLength(a))
    && (!Stages(a) ==>
          && u.dataRecvestLen == old(u.dataRecvestLen)
          && dev.dataPtr == old(dev.dataPtr)
          && dev.dataCount == old(dev.dataCount))
  }

  /** The virtual-UART calls an acknowledged control action makes. */
  function CallsOf(a: ControlAction): seq<UartCall> {
    match a
    case ResetAction(_, purgeRx, purgeTx) =>
      (if purgeRx then [PurgeRx] else []) + (if purgeTx then [PurgeTx] else [])
    case Forward(c) => [c]
    case _ => []
  }

  /** The worker flags an acknowledged control action raises. */
  function FlagsOf(a: ControlAction): bv32 {
    if a.ResetAction? && a.raiseResetSio then EventResetSio else 0
  }

  /** The bytes a control action writes to the front of the scratch buffer
      as the data phase of its response. */
  function Response(a: ControlAction, latency: bv8, status: bv16, pins: bv8): (b: seq<bv8>)
    ensures |b| <= ModemStatusSize
  {
    match a
    case StageLatencyTimer => [latency]
    case StageModemStatus(_) => StatusBytes(status)
    case StagePins => [pins]
    case _ => []
  }

  /** The response length a control action stages. */
  function StagedLength(a: ControlAction): bv16
    requires a.StageLatencyTimer? || a.StageModemStatus? || a.StagePins?
  {
    if a.StageModemStatus? then a.length else 1
  }

  predicate Stages(a: ControlAction) {
    a.StageLatencyTimer? || a.StageModemStatus? || a.StagePins?
  }

  /** The driver's file-static state: `ftdi_cur`, the active instance, and
      the callbacks the USB stack invokes with only a controller handle. */
  class Driver {
    const header: FtdiHeader
    var cur: FtdiUsb?

    constructor (header: FtdiHeader)
      ensures this.header == header && cur == null
    {
      this.header := header;
      cur := null;
    }

    ghost predicate Valid()
      reads this, cur
    {
      cur != null ==> cur.dev != null && cur.ftdi != null && cur.dataRecvest.Length == ScratchSize
    }

    /** The guard of the deinit, suspend and control callbacks. */
    predicate IsActive(dev: UsbDevice)
      reads this, cur
    {
      cur != null && cur.dev == dev
    }

    /** The active instance, as a set (empty when there is none). */
    function Active(): set<FtdiUsb>
      reads this
    {
      if cur == null then {} else {cur}
    }

    ghost function Footprint(): set<object>
      reads this, cur
    {
      if cur == null then {}
      else {cur, cur.dataRecvest} + (if cur.ftdi != null then {cur.ftdi} else {})
    }

    /** ftdi_usb_init: the instance becomes the active one, the callbacks are
        registered, the device connects and the worker starts. */
    method Init(dev: UsbDevice, u: FtdiUsb, uart: Uart)
      requires u.dataRecvest.Length == ScratchSize
      modifies this, dev`configCallback, dev`controlCallback, dev`connected,
               u`dev, u`ftdi, u`threadRunning
      ensures Valid() && cur == u
      ensures u.dev == dev && u.ftdi == uart && u.threadRunning
      ensures dev.configCallback && dev.controlCallback && dev.connected
    {
      cur := u;
      u.dev := dev;
      dev.configCallback := true;
      dev.controlCallback := true;
      dev.connected := true;
      u.ftdi := uart;
      u.threadRunning := true;
    }

    /** ftdi_usb_deinit: the callbacks are unregistered in every case; only
        for the active instance's own controller is the worker told to exit
        and joined, and the instance stops being the active one. */
    method Deinit(dev: UsbDevice)
      requires Valid()
      modifies this, dev`configCallback, dev`controlCallback, Active()`threadFlags, Active()`threadRunning
      ensures Valid()
      ensures !dev.configCallback && !dev.controlCallback
      ensures old(IsActive(dev)) ==>
                && cur == null
                && old(cur).threadFlags == old(cur.threadFlags) | EventExit
                && !old(cur).threadRunning
      ensures !old(IsActive(dev)) ==> cur == old(cur) && unchanged(old(Footprint()))
      ensures old(IsActive(dev)) ==>
                && old(cur).dev == old(cur.dev) && old(cur).ftdi == old(cur.ftdi)
                && old(cur).dataRecvestLen == old(cur.dataRecvestLen)
                && unchanged(old(cur.ftdi), old(cur).dataRecvest)
    {
      dev.configCallback := false;
      dev.controlCallback := false;
      var u := cur;
      if u == null || u.dev != dev {
        return;
      }
      cur := null;
      u.RaiseFlags(EventExit);
      u.threadRunning := false;
    }

    /** ftdi_usb_suspend: nothing beyond the guard; `proceeds` says whether
        the guard let the call through to its (empty) body. */
    method Suspend(dev: UsbDevice) returns (proceeds: bool)
      ensures proceeds == IsActive(dev)
    {
      var u := cur;
      if u == null || u.dev != dev {
        return false;
      }
      return true;
    }

    /** ftdi_usb_rx_ep_callback: raises Rx on the active instance's worker
        without checking which controller called, or that there is an
        active instance at all. */
    method RxEndpointCallback(dev: UsbDevice)
      requires cur != null
      modifies cur`threadFlags
      ensures cur.threadFlags == old(cur.threadFlags) | EventRx
    {
      cur.RaiseFlags(EventRx);
    }

    /** ftdi_usb_tx_ep_callback: raises TxComplete, unguarded in the same way. */
    method TxEndpointCallback(dev: UsbDevice)
      requires cur != null
      modifies cur`threadFlags
      ensures cur.threadFlags == old(cur.threadFlags) | EventTxComplete
    {
      cur.RaiseFlags(EventTxComplete);
    }

    /** ftdi_usb_control: admission, the active-instance guard, then the
        dispatch of the request with its effect on the active instance. */
    method Control(dev: UsbDevice, req: ControlRequest) returns (r: Respond)
      requires Valid()
      modifies Footprint(), dev`dataPtr, dev`dataCount
      ensures Valid() && cur == old(cur)
      ensures r == ControlVerdict(header, req, old(IsActive(dev)))
      ensures r == Fail ==> unchanged(old(Footprint())) && unchanged(dev)
      ensures r == Ack ==> && cur.dev == old(cur.dev) && cur.ftdi == old(cur.ftdi)
                           && cur.threadRunning == old(cur.threadRunning)
                           && cur.ftdi.modemStatus == old(cur.ftdi.modemStatus)
                           && cur.ftdi.latencyTimer == old(cur.ftdi.latencyTimer)
                           && cur.ftdi.pins == old(cur.ftdi.pins)
      ensures r == Ack ==> AppliedTo(cur, dev, Dispatch(header, req))
    {
      if !Admitted(header, req.bmRequestType) {
        return Fail;
      }
      var u := cur;
      if u == null || u.dev != dev {
        return Fail;
      }
      var a := Dispatch(header, req);
      if a == Stall {
        return Fail;
      }
      u.Apply(dev, a);
      r := Ack;
    }
  }

  /** The worker thread of one instance (ftdi_thread_worker), with the
      locals that live across iterations: `tx_data` and the captured
      controller and virtual UART. */
  class Worker {
    const dev: UsbDevice
    const uart: Uart
    var txStatus: bv16            // tx_data.status
    const txData: array<bv8>      // tx_data.data

    ghost predicate Valid() {
      txData.Length == TxMaxSize
    }

    ghost function View(): WorkerView
      reads this, txData, uart
    {
      WorkerView(txStatus, txData[..], uart.modemStatus, uart.tx)
    }

    /** The prologue, lines 66-77: capture the modem status and send it as
        a status-only frame before the first wait. */
    constructor (usb: FtdiUsb)
      requires usb.dev != null && usb.ftdi != null
      modifies usb.dev`inFrames
      ensures Valid() && fresh(txData)
      ensures dev == usb.dev && uart == usb.ftdi
      ensures txStatus == uart.modemStatus && txData[..] == seq(TxMaxSize, _ => 0)
      ensures dev.inFrames == old(usb.dev.inFrames) + [StatusBytes(uart.modemStatus)]
    {
      dev := usb.dev;
      uart := usb.ftdi;
      txStatus := usb.ftdi.modemStatus;
      txData := new bv8[TxMaxSize](_ => 0);
      new;
      dev.Send(StatusBytes(txStatus));
    }

    /** The Tx branch, lines 109-121: refresh the status, drain at most 62
        pending bytes into the payload and send status and payload. */
    method SendTx()
      requires Valid()
      modifies this`txStatus, txData, uart`tx, dev`inFrames
      ensures var (frame, w') := TxStep(old(View()));
              dev.inFrames == old(dev.inFrames) + [frame] && View() == w'
    {
      ghost var w := View();
      txStatus := uart.modemStatus;
      var avail := uart.AvailableTx();
      if avail > 0 {
        if avail > TxMaxSize {
          avail := TxMaxSize;
        }
        var n := uart.GetTxBuf(txData, avail);
        dev.Send(StatusBytes(txStatus) + txData[..n]);
      } else {
        assert w.tx[..0] == [] && w.tx[0..] == w.tx && [] + w.payload[0..] == w.payload;
        dev.Send(StatusBytes(txStatus));
        assert StatusBytes(txStatus) == Frame(w.modemStatus, w.tx[..0]);
      }
    }

    /** The Rx branch, lines 84-98, once the bulk-OUT read has returned:
        hand the bytes to the virtual UART and start its transmission, but
        only when the read produced data. */
    method HandOver(read: int, packet: seq<bv8>)
      modifies uart`calls
      ensures uart.calls == old(uart.calls) +
                (if Receive(read) > 0 then [SetRxBuf(packet), StartUartTx] else [])
    {
      var len := Receive(read);
      if len > 0 {
        uart.Call(SetRxBuf(packet));
        uart.Call(StartUartTx);
      }
    }

    /** Lines 100-133, run when a bit other than Rx is set: line reset with
        its keepalive, then the Tx branch, then the exit test. */
    method Serve(flags: bv32) returns (exit: bool)
      requires Valid()
      modifies this`txStatus, txData, uart`calls, uart`tx, dev`inFrames
      ensures uart.calls == old(uart.calls) + (if Has(flags, EventResetSio) then [ResetSio] else [])
      ensures dev.inFrames == old(dev.inFrames)
                + (if Has(flags, EventResetSio) then [StatusBytes(old(txStatus))] else [])
                + (if WantsTx(flags) then [TxStep(old(View())).0] else [])
      ensures View() == if WantsTx(flags) then TxStep(old(View())).1 else old(View())
      ensures exit == Has(flags, EventExit)
    {
      var f := flags;
      if f & EventResetSio != 0 {
        uart.Call(ResetSio);
        dev.Send(StatusBytes(txStatus));
      }
      if f & EventTxComplete != 0 {
        f := f | EventTx;
      }
      assert (f & EventTx != 0) == WantsTx(flags);
      assert (f & EventExit != 0) == Has(flags, EventExit);
      if f & EventTx != 0 {
        SendTx();
      }
      exit := f & EventExit != 0;
    }

    /** One iteration of the loop, lines 80-136: `flags` is what the wait
        returned, `read` and `packet` what the bulk-OUT read gives. */
    method Wake(flags: bv32, read: int, packet: seq<bv8>) returns (exit: bool)
      requires Valid() && WakeupOk(Wakeup(flags, read, packet))
      modifies this`txStatus, txData, uart`calls, uart`tx, dev`inFrames
      ensures var r := WakeSpec(Wakeup(flags, read, packet), old(View()));
              && uart.calls == old(uart.calls) + r.calls
              && dev.inFrames == old(dev.inFrames) + r.frames
              && View() == r.view
              && exit == r.exit
    {
      WakeShape(Wakeup(flags, read, packet), View());
      var f := flags;
      exit := false;
      if f & EventRx != 0 {
        HandOver(read, packet);
        f := f & !EventRx;
      }
      if f != 0 {
        assert Has(f, EventResetSio) == Has(flags, EventResetSio);
        assert WantsTx(f) == WantsTx(flags);
        assert Has(f, EventExit) == Has(flags, EventExit);
        exit := Serve(f);
      }
    }

    /** One wait and the iteration it wakes, inside a run. */
    method Advance(ks: seq<Wait>, i: nat, ghost total: RunResult,
                   ghost calls0: seq<UartCall>, ghost frames0: seq<seq<bv8>>) returns (exit: bool)
      requires Valid() && i < |ks| && WakeupOk(ks[i].wake)
      requires Accounts(ks, i, View(), total, calls0, frames0, uart.calls, dev.inFrames)
      modifies this`txStatus, txData, uart`calls, uart`tx, uart`modemStatus, dev`inFrames
      ensures exit ==> && uart.calls == calls0 + total.calls
                       && dev.inFrames == frames0 + total.frames
                       && View() == total.view
                       && i + 1 == total.cycles
      ensures !exit ==> Accounts(ks, i + 1, View(), total, calls0, frames0, uart.calls, dev.inFrames)
    {
      var t := ks[i];
      var k := t.wake;
      assert k == Wakeup(k.flags, k.read, k.packet);
      AccountsStep(ks, i, View(), total, calls0, frames0, uart.calls, dev.inFrames);
      uart.Progress(t.arrived, t.status);
      exit := Wake(k.flags, k.read, k.packet);
    }

    /** The loop itself, over the successive waits: it leaves at the first
        cycle that sees the exit bit. `cycles` counts the iterations run. */
    method Run(ks: seq<Wait>) returns (cycles: nat)
      requires Valid() && forall i :: 0 <= i < |ks| ==> WakeupOk(ks[i].wake)
      modifies this`txStatus, txData, uart`calls, uart`tx, uart`modemStatus, dev`inFrames
      ensures var r := RunSpec(ks, old(View()));
              && uart.calls == old(uart.calls) + r.calls
              && dev.inFrames == old(dev.inFrames) + r.frames
              && View() == r.view
              && cycles == r.cycles
    {
      ghost var total := RunSpec(ks, View());
      ghost var calls0, frames0 := uart.calls, dev.inFrames;
      AccountsEnds(ks, View(), calls0, frames0);
      cycles := 0;
      var i := 0;
      while i < |ks|
        invariant 0 <= i <= |ks| && cycles == i
        invariant Accounts(ks, i, View(), total, calls0, frames0, uart.calls, dev.inFrames)
      {
        var exit := Advance(ks, i, total, calls0, frames0);
        i := i + 1;
        cycles := i;
        if exit {
          return;
        }
      }
      AccountsEnds(ks, View(), uart.calls, dev.inFrames);
    }
  }
}
