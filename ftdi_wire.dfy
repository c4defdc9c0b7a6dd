/**
  Wire-level vocabulary of the FT232H emulation in flip_tdi/helpers/ftdi_usb.c:
  endpoint geometry, the worker's event bits, USB control requests and the
  pure parts of the driver: the read-result normaliser, the endpoint
  configuration switch, the admission test and the request dispatch table,
  and the bulk-IN frame layout.

  The request-type and request-code constants live in ftdi.h, which is not
  part of this model. They are carried as a record, `FtdiHeader`, whose only
  known property is the one the C compiler enforces: the case labels of one
  `switch` statement are pairwise distinct.
*/
module FtdiWire {

  // ---------------------------------------------------------------------
  // Endpoint geometry
  // ---------------------------------------------------------------------

  const EpInSize: nat := 64
  const EpOutSize: nat := 64
  /** Largest bulk-OUT read. */
  const RxMaxSize: nat := EpOutSize
  /** Size of the modem-status header of every bulk-IN frame. */
  const ModemStatusSize: nat := 2
  /** Largest payload of one bulk-IN frame. */
  const TxMaxSize: nat := EpInSize - ModemStatusSize
  /** Size of the instance's response scratch buffer `data_recvest`. */
  const ScratchSize: nat := 8

  // ---------------------------------------------------------------------
  // Worker event bits
  // ---------------------------------------------------------------------

  const EventExit: bv32 := 0x0001
  const EventReset: bv32 := 0x0002
  const EventRx: bv32 := 0x0004
  const EventTx: bv32 := 0x0008
  const EventTxComplete: bv32 := 0x0010
  const EventResetSio: bv32 := 0x0020
  const EventResetPurgeRx: bv32 := 0x0040
  const EventResetPurgeTx: bv32 := 0x0080
  const EventSetBitmode: bv32 := 0x0100
  const EventSetLatencyTimer: bv32 := 0x0200
  const EventSetEventChar: bv32 := 0x0400
  const EventSetErrorChar: bv32 := 0x0800
  const EventSetBaudrate: bv32 := 0x1000
  const EventSetData: bv32 := 0x2000
  const EventSetFlowCtrl: bv32 := 0x4000
  const EventAll: bv32 := 0x7FFF

  /** The bits the worker loop acts on; every other bit is reserved. */
  const WorkerBits: bv32 := EventRx | EventResetSio | EventTxComplete | EventTx | EventExit

  predicate Has(flags: bv32, bit: bv32) {
    flags & bit != 0
  }

  // ---------------------------------------------------------------------
  // USB control requests (the setup packet of section 9.3 of USB 2.0)
  // ---------------------------------------------------------------------

  datatype ControlRequest = ControlRequest(
    bmRequestType: bv8,
    bRequest: bv8,
    wValue: bv16,
    wIndex: bv16,
    wLength: bv16)

  /** The answer a control or configuration callback gives the USB stack. */
  datatype Respond = Ack | Fail

  /** The constants ftdi.h defines for the control path. */
  datatype FtdiHeader = FtdiHeader(
    typeVendor: bv8,
    recipientDevice: bv8,
    requestsOut: bv8,
    requestsIn: bv8,
    reqReset: bv8,
    reqSetBitmode: bv8,
    reqSetLatencyTimer: bv8,
    reqSetEventChar: bv8,
    reqSetErrorChar: bv8,
    reqSetBaudrate: bv8,
    reqSetData: bv8,
    reqSetFlowCtrl: bv8,
    reqGetLatencyTimer: bv8,
    reqPollModemStatus: bv8,
    reqReadPins: bv8,
    resetSio: bv16,
    resetPurgeRx: bv16,
    resetPurgeTx: bv16)
  {
    /** Request codes handled under the host-to-device request type. */
    function OutCodes(): seq<bv8> {
      [reqReset, reqSetBitmode, reqSetLatencyTimer, reqSetEventChar,
       reqSetErrorChar, reqSetBaudrate, reqSetData, reqSetFlowCtrl]
    }

    /** Request codes handled under the device-to-host request type. */
    function InCodes(): seq<bv8> {
      [reqGetLatencyTimer, reqPollModemStatus, reqReadPins]
    }

    /** The case labels of each `switch` in the dispatcher are distinct,
        as a C compiler demands. The SIO reset sub-codes are compared by
        separate `if` statements and need not be distinct. */
    predicate Distinct() {
      && requestsOut != requestsIn
      && reqReset !in {reqSetBitmode, reqSetLatencyTimer, reqSetEventChar, reqSetErrorChar, reqSetBaudrate, reqSetData, reqSetFlowCtrl}
      && reqSetBitmode !in {reqSetLatencyTimer, reqSetEventChar, reqSetErrorChar, reqSetBaudrate, reqSetData, reqSetFlowCtrl}
      && reqSetLatencyTimer !in {reqSetEventChar, reqSetErrorChar, reqSetBaudrate, reqSetData, reqSetFlowCtrl}
      && reqSetEventChar !in {reqSetErrorChar, reqSetBaudrate, reqSetData, reqSetFlowCtrl}
      && reqSetErrorChar !in {reqSetBaudrate, reqSetData, reqSetFlowCtrl}
      && reqSetBaudrate !in {reqSetData, reqSetFlowCtrl}
      && reqSetData != reqSetFlowCtrl
      && reqGetLatencyTimer !in {reqPollModemStatus, reqReadPins}
      && reqPollModemStatus != reqReadPins
    }
  }

  // ---------------------------------------------------------------------
  // Pure classifiers
  // ---------------------------------------------------------------------

  /** ftdi_usb_receive: the bulk-OUT read result, with an error (negative)
      result read as "no data". */
  function Receive(len: int): (n: nat)
    ensures len >= 0 ==> n == len
    ensures len < 0 ==> n == 0
  {
    if len < 0 then 0 else len
  }

  /** What the configuration callback asks of the endpoint layer. */
  datatype EndpointPlan =
    | Deconfigure
      // deconfigure both bulk endpoints and unregister their callbacks
    | ConfigureBulk(inSize: nat, outSize: nat)
      // configure both as bulk endpoints and register the IN/OUT callbacks

  datatype EpConfigOutcome = EpAcked(plan: EndpointPlan) | EpFailed

  /** ftdi_usb_ep_config: configuration 0 tears the endpoints down,
      configuration 1 sets them up, anything else is refused. */
  function EpConfig(cfg: bv8): (r: EpConfigOutcome)
    ensures r.EpAcked? <==> cfg <= 1
    ensures r == EpAcked(Deconfigure) <==> cfg == 0
    ensures r.EpAcked? && r.plan.ConfigureBulk? ==> r.plan == ConfigureBulk(EpInSize, EpOutSize)
  {
    if cfg == 0 then EpAcked(Deconfigure)
    else if cfg == 1 then EpAcked(ConfigureBulk(EpInSize, EpOutSize))
    else EpFailed
  }

  /** The admission test at the top of ftdi_usb_control: the request type
      must share at least one bit with `Vendor | RecipientDevice`. */
  predicate Admitted(h: FtdiHeader, requestType: bv8)
    ensures Admitted(h, requestType) ==> requestType != 0
    ensures requestType & h.typeVendor != 0 ==> Admitted(h, requestType)
  {
    requestType & (h.typeVendor | h.recipientDevice) != 0
  }

  /** The vendor requests this driver recognises, one variant per request
      code, carrying the fields of the setup packet that the driver reads. */
  datatype Command =
    | SioReset(kind: bv16)
    | SioSetBitmode(value: bv16, index: bv16)
    | SioSetLatencyTimer(value: bv16, index: bv16)
    | SioSetEventChar
    | SioSetErrorChar
    | SioSetBaudrate(value: bv16, index: bv16)
    | SioSetData(value: bv16, index: bv16)
    | SioSetFlowCtrl(index: bv16)
    | SioGetLatencyTimer
    | SioPollModemStatus(length: bv16)
    | SioReadPins
  {
    predicate DeviceToHost() {
      SioGetLatencyTimer? || SioPollModemStatus? || SioReadPins?
    }
  }

  /** The two nested switches of ftdi_usb_control, read as a decoder:
      `None` is the fall-through to `usbd_fail`. */
  function Decode(h: FtdiHeader, req: ControlRequest): (r: Option<Command>)
    ensures r.Some? ==> req.bmRequestType == (if r.value.DeviceToHost() then h.requestsIn else h.requestsOut)
    ensures req.bmRequestType != h.requestsOut && req.bmRequestType != h.requestsIn ==> r.None?
    ensures req.bmRequestType == h.requestsOut && req.bRequest !in h.OutCodes() ==> r.None?
    ensures (req.bmRequestType == h.requestsIn && req.bmRequestType != h.requestsOut
             && req.bRequest !in h.InCodes()) ==> r.None?
  {
    var b := req.bRequest;
    if req.bmRequestType == h.requestsOut then
      if b == h.reqReset then Some(SioReset(req.wValue))
      else if b == h.reqSetBitmode then Some(SioSetBitmode(req.wValue, req.wIndex))
      else if b == h.reqSetLatencyTimer then Some(SioSetLatencyTimer(req.wValue, req.wIndex))
      else if b == h.reqSetEventChar then Some(SioSetEventChar)
      else if b == h.reqSetErrorChar then Some(SioSetErrorChar)
      else if b == h.reqSetBaudrate then Some(SioSetBaudrate(req.wValue, req.wIndex))
      else if b == h.reqSetData then Some(SioSetData(req.wValue, req.wIndex))
      else if b == h.reqSetFlowCtrl then Some(SioSetFlowCtrl(req.wIndex))
      else None
    else if req.bmRequestType == h.requestsIn then
      if b == h.reqGetLatencyTimer then Some(SioGetLatencyTimer)
      else if b == h.reqPollModemStatus then Some(SioPollModemStatus(req.wLength))
      else if b == h.reqReadPins then Some(SioReadPins)
      else None
    else None
  }

  /** A setup packet that carries `c`: the reference against which Decode
      is checked. Fields the command does not carry are zero. */
  function Encode(h: FtdiHeader, c: Command): (req: ControlRequest)
    ensures req.bmRequestType == (if c.DeviceToHost() then h.requestsIn else h.requestsOut)
  {
    match c
    case SioReset(k) => ControlRequest(h.requestsOut, h.reqReset, k, 0, 0)
    case SioSetBitmode(v, i) => ControlRequest(h.requestsOut, h.reqSetBitmode, v, i, 0)
    case SioSetLatencyTimer(v, i) => ControlRequest(h.requestsOut, h.reqSetLatencyTimer, v, i, 0)
    case SioSetEventChar => ControlRequest(h.requestsOut, h.reqSetEventChar, 0, 0, 0)
    case SioSetErrorChar => ControlRequest(h.requestsOut, h.reqSetErrorChar, 0, 0, 0)
    case SioSetBaudrate(v, i) => ControlRequest(h.requestsOut, h.reqSetBaudrate, v, i, 0)
    case SioSetData(v, i) => ControlRequest(h.requestsOut, h.reqSetData, v, i, 0)
    case SioSetFlowCtrl(i) => ControlRequest(h.requestsOut, h.reqSetFlowCtrl, 0, i, 0)
    case SioGetLatencyTimer => ControlRequest(h.requestsIn, h.reqGetLatencyTimer, 0, 0, 0)
    case SioPollModemStatus(n) => ControlRequest(h.requestsIn, h.reqPollModemStatus, 0, 0, n)
    case SioReadPins => ControlRequest(h.requestsIn, h.reqReadPins, 0, 0, 0)
  }

  datatype Option<+T> = None | Some(value: T)

  /** The calls the driver makes on the virtual UART (ftdi.h), recorded
      with their arguments; the UART's own handling is not modelled. */
  datatype UartCall =
    | SetRxBuf(bytes: seq<bv8>)
    | StartUartTx
    | ResetSio
    | PurgeRx
    | PurgeTx
    | SetBitmode(value: bv16, index: bv16)
    | SetLatencyTimer(value: bv16, index: bv16)
    | SetBaudrate(value: bv16, index: bv16)
    | SetDataConfig(value: bv16, index: bv16)
    | SetFlowCtrl(index: bv16)

  /** What an admitted, recognised request does. */
  datatype ControlAction =
    | Stall
      // the request falls through to usbd_fail
    | ResetAction(raiseResetSio: bool, purgeRx: bool, purgeTx: bool)
      // SIO reset: defer a line reset to the worker and/or purge synchronously
    | Forward(call: UartCall)
      // a configuration call on the virtual UART
    | AcceptOnly
      // acknowledged and ignored (event and error character)
    | StageLatencyTimer
    | StageModemStatus(length: bv16)
    | StagePins
      // stage a device-to-host response in the scratch buffer

  function ActionOf(h: FtdiHeader, c: Command): (a: ControlAction)
    ensures a != Stall
  {
    match c
    case SioReset(k) => ResetAction(k == h.resetSio, k == h.resetPurgeRx, k == h.resetPurgeTx)
    case SioSetBitmode(v, i) => Forward(SetBitmode(v, i))
    case SioSetLatencyTimer(v, i) => Forward(SetLatencyTimer(v, i))
    case SioSetEventChar => AcceptOnly
    case SioSetErrorChar => AcceptOnly
    case SioSetBaudrate(v, i) => Forward(SetBaudrate(v, i))
    case SioSetData(v, i) => Forward(SetDataConfig(v, i))
    case SioSetFlowCtrl(i) => Forward(SetFlowCtrl(i))
    case SioGetLatencyTimer => StageLatencyTimer
    case SioPollModemStatus(n) => StageModemStatus(n)
    case SioReadPins => StagePins
  }

  /** The dispatch of an admitted request from the active instance. */
  function Dispatch(h: FtdiHeader, req: ControlRequest): (a: ControlAction)
    ensures a == Stall <==> Decode(h, req).None?
  {
    match Decode(h, req)
    case None => Stall
    case Some(c) => ActionOf(h, c)
  }

  /** The verdict of ftdi_usb_control, given whether the calling controller
      is the one of the active instance. */
  function ControlVerdict(h: FtdiHeader, req: ControlRequest, active: bool): (r: Respond)
    ensures r == Ack <==> Admitted(h, req.bmRequestType) && active && Decode(h, req).Some?
  {
    if !Admitted(h, req.bmRequestType) then Fail
    else if !active then Fail
    else if Dispatch(h, req) == Stall then Fail
    else Ack
  }

  // ---------------------------------------------------------------------
  // Bulk-IN frames: [modem status: 2, little-endian][payload: 0..62]
  // ---------------------------------------------------------------------

  /** The two bytes of the `uint16_t status` field as they lie in memory on
      the little-endian target. */
  function StatusBytes(s: bv16): (b: seq<bv8>)
    ensures |b| == ModemStatusSize
  {
    [(s & 0xFF) as bv8, (s >> 8) as bv8]
  }

  function StatusOf(b0: bv8, b1: bv8): bv16 {
    ((b1 as bv16) << 8) | (b0 as bv16)
  }

  /** The bytes written to the bulk-IN endpoint for one `FtdiTxData`
      carrying `payload`. */
  function Frame(status: bv16, payload: seq<bv8>): (f: seq<bv8>)
    ensures |f| == ModemStatusSize + |payload|
  {
    StatusBytes(status) + payload
  }

  /** Splits a frame back into its status and payload, as the host does. */
  function ParseFrame(f: seq<bv8>): (r: Option<(bv16, seq<bv8>)>)
    ensures r.Some? <==> |f| >= ModemStatusSize
  {
    if |f| < ModemStatusSize then None
    else Some((StatusOf(f[0], f[1]), f[ModemStatusSize..]))
  }

  /** The payload bytes of a sequence of frames, concatenated in order. */
  function Payloads(frames: seq<seq<bv8>>): seq<bv8> {
    if frames == [] then []
    else
      var f := frames[0];
      (if |f| >= ModemStatusSize then f[ModemStatusSize..] else []) + Payloads(frames[1..])
  }

  function Min(a: nat, b: nat): nat {
    if a <= b then a else b
  }

  // ---------------------------------------------------------------------
  // Properties of the control path
  // ---------------------------------------------------------------------

  /** Decoding the packet that carries a command gives that command back. */
  lemma DecodeEncode(h: FtdiHeader, c: Command)
    requires h.Distinct()
    ensures Decode(h, Encode(h, c)) == Some(c)
  {
  }

  /** Every decoded command is the one its packet's request type and code
      name, and it carries the packet's own fields. */
  lemma DecodeIsEncodeInverse(h: FtdiHeader, req: ControlRequest, c: Command)
    requires Decode(h, req) == Some(c)
    ensures Encode(h, c).bmRequestType == req.bmRequestType
    ensures Encode(h, c).bRequest == req.bRequest
    ensures Decode(h, Encode(h, c)) == Some(c)
  {
    if req.bmRequestType == h.requestsOut {
      DecodeOutIsEncodeInverse(h, req, c);
    } else {
      DecodeInIsEncodeInverse(h, req, c);
    }
  }

  lemma DecodeOutIsEncodeInverse(h: FtdiHeader, req: ControlRequest, c: Command)
    requires Decode(h, req) == Some(c) && req.bmRequestType == h.requestsOut
    ensures Encode(h, c).bmRequestType == req.bmRequestType
    ensures Encode(h, c).bRequest == req.bRequest
    ensures Decode(h, Encode(h, c)) == Some(c)
  {
  }

  lemma DecodeInIsEncodeInverse(h: FtdiHeader, req: ControlRequest, c: Command)
    requires Decode(h, req) == Some(c) && req.bmRequestType != h.requestsOut
    ensures Encode(h, c).bmRequestType == req.bmRequestType
    ensures Encode(h, c).bRequest == req.bRequest
    ensures Decode(h, Encode(h, c)) == Some(c)
  {
  }

  /** The admission test accepts a request type that has EITHER the vendor
      bit OR a device-recipient bit; it does not demand both. */
  lemma AdmissionNeedsEitherBit(h: FtdiHeader, t: bv8)
    ensures Admitted(h, t) <==> t & h.typeVendor != 0 || t & h.recipientDevice != 0
  {
  }

  /** With the device recipient encoded as 0, as section 9.3.1 of USB 2.0
      does, the admission test is "the vendor bit is set". */
  lemma AdmissionWithZeroRecipient(h: FtdiHeader, t: bv8)
    requires h.recipientDevice == 0
    ensures Admitted(h, t) <==> t & h.typeVendor != 0
  {
  }

  /** A vendor-typed request with none of the recipient bits is admitted. */
  lemma AdmissionIgnoresMissingRecipient(h: FtdiHeader)
    requires h.recipientDevice != 0 && h.typeVendor & !h.recipientDevice != 0
    ensures var t := h.typeVendor & !h.recipientDevice;
            Admitted(h, t) && t & h.recipientDevice == 0
  {
  }

  /** A request failing admission, or coming from a controller that is not
      the active instance's, is refused whatever its other fields say. */
  lemma ControlRefusesBeforeDispatch(h: FtdiHeader, req: ControlRequest, active: bool)
    requires !Admitted(h, req.bmRequestType) || !active
    ensures ControlVerdict(h, req, active) == Fail
  {
  }

  /** Only the two exact request types are dispatched, and under them only
      the listed request codes. */
  lemma OnlyKnownRequestsAck(h: FtdiHeader, req: ControlRequest, active: bool)
    requires h.Distinct() && ControlVerdict(h, req, active) == Ack
    ensures req.bmRequestType == h.requestsOut || req.bmRequestType == h.requestsIn
    ensures req.bmRequestType == h.requestsOut ==> req.bRequest in h.OutCodes()
    ensures req.bmRequestType == h.requestsIn ==> req.bRequest in h.InCodes()
  {
  }

  /** SIO reset: a reset-SIO value raises only the deferred event, the purge
      values purge synchronously, and every value, recognised or not, is
      acknowledged. */
  lemma SioResetAlwaysAcks(h: FtdiHeader, req: ControlRequest)
    requires h.Distinct() && Admitted(h, h.requestsOut)
    requires req.bmRequestType == h.requestsOut && req.bRequest == h.reqReset
    ensures ControlVerdict(h, req, true) == Ack
    ensures Dispatch(h, req) == ResetAction(req.wValue == h.resetSio,
                                            req.wValue == h.resetPurgeRx,
                                            req.wValue == h.resetPurgeTx)
    ensures req.wValue !in {h.resetSio, h.resetPurgeRx, h.resetPurgeTx} ==>
              Dispatch(h, req) == ResetAction(false, false, false)
  {
  }

  /** The other host-to-device requests: five forward their arguments to the
      virtual UART (flow control only `wIndex`), two are accepted and ignored. */
  lemma OutRequestsForward(h: FtdiHeader, req: ControlRequest)
    requires h.Distinct() && req.bmRequestType == h.requestsOut
    ensures req.bRequest == h.reqSetBitmode ==> Dispatch(h, req) == Forward(SetBitmode(req.wValue, req.wIndex))
    ensures req.bRequest == h.reqSetLatencyTimer ==> Dispatch(h, req) == Forward(SetLatencyTimer(req.wValue, req.wIndex))
    ensures req.bRequest == h.reqSetBaudrate ==> Dispatch(h, req) == Forward(SetBaudrate(req.wValue, req.wIndex))
    ensures req.bRequest == h.reqSetData ==> Dispatch(h, req) == Forward(SetDataConfig(req.wValue, req.wIndex))
    ensures req.bRequest == h.reqSetFlowCtrl ==> Dispatch(h, req) == Forward(SetFlowCtrl(req.wIndex))
    ensures req.bRequest == h.reqSetEventChar || req.bRequest == h.reqSetErrorChar ==>
              Dispatch(h, req) == AcceptOnly
  {
  }

  /** The device-to-host requests stage a response: one byte for the latency
      timer and the pins, and for the modem status a length taken from the
      host's `wLength` with no bound against the 8-byte scratch buffer. */
  lemma InRequestsStage(h: FtdiHeader, req: ControlRequest)
    requires h.Distinct() && req.bmRequestType == h.requestsIn
    ensures req.bRequest == h.reqGetLatencyTimer ==> Dispatch(h, req) == StageLatencyTimer
    ensures req.bRequest == h.reqPollModemStatus ==> Dispatch(h, req) == StageModemStatus(req.wLength)
    ensures req.bRequest == h.reqReadPins ==> Dispatch(h, req) == StagePins
  {
  }

  /** A poll of the modem status with `wLength` 9 stages a response longer
      than the scratch buffer it points into. */
  lemma PollModemStatusOverrunsScratch(h: FtdiHeader)
    requires h.Distinct()
    ensures var req := ControlRequest(h.requestsIn, h.reqPollModemStatus, 0, 0, 9);
            Dispatch(h, req) == StageModemStatus(9) && 9 > ScratchSize
  {
    DecodeEncode(h, SioPollModemStatus(9));
  }

  /** A frame splits back into the status and the payload it was built from. */
  lemma ParseFrameRoundTrip(status: bv16, payload: seq<bv8>)
    ensures ParseFrame(Frame(status, payload)) == Some((status, payload))
  {
    var f := Frame(status, payload);
    assert f[ModemStatusSize..] == payload;
  }

  lemma {:induction false} PayloadsAppend(a: seq<seq<bv8>>, b: seq<seq<bv8>>)
    ensures Payloads(a + b) == Payloads(a) + Payloads(b)
  {
    if a != [] {
      assert (a + b)[0] == a[0];
      assert (a + b)[1..] == a[1..] + b;
      PayloadsAppend(a[1..], b);
    } else {
      assert a + b == b;
    }
  }
}
