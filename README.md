# FlipTDI USB driver and signal-generator menu, modelled in Dafny

This project models two components of a collection of Flipper Zero apps.

**The FT232H emulation's USB driver** (`flip_tdi/helpers/ftdi_usb.c`). The Flipper poses as an FTDI
FT232H USB-to-serial bridge. The driver handles the vendor control requests a host's FTDI
driver sends. It also runs a worker that moves serial data between the USB bulk endpoints
and a virtual UART. Every bulk-IN frame carries a 2-byte modem status in front of at most
62 payload bytes.

- `ftdi_wire.dfy` (module `FtdiWire`) holds the vocabulary and the pure parts: the
  constants, the control-request decoder and dispatch table, the admission test, the
  endpoint-configuration switch, the read-result normaliser and the frame layout.
- `ftdi_cycle.dfy` (module `FtdiCycle`) states one wake-up of the worker loop as a function
  of the flags it woke with. While the worker blocks in the flag wait, the virtual UART
  queues bytes for the host and its modem status moves. A run of the loop alternates such
  a wait with a cycle.
- `ftdi_usb.dfy` (module `FtdiUsb`) holds the stateful side, as classes:
  - the USB controller, with a log of the frames written to bulk-IN and the pending
    control response;
  - the virtual UART, as a log of the calls made on it and the values the driver reads
    back;
  - the device instance;
  - the driver's file-static record of the active instance, with the callbacks that consult it;
  - the worker thread, whose loop body and loop are methods proved against `FtdiCycle`.

**The signal generator's menu** (`signal_generator/menu/`).

- `menu_items.dfy` (module `MenuItems`) models the items:
  - a number bounded by min/max/step, with an edit mode;
  - a choice among at most 16 strings;
  - a plain text line.

  Each item's `handle_input` is a function on a value of its state. The classes keep that
  state in fields and are proved against the function. The value-changed callback is
  counted, not called.
- `menu.dfy` (module `SignalMenu`) models the menu. It holds a fixed array of 16 entries and
  a cursor that is -1 while the menu is empty. Events go to the selected item first; Up and
  Down move the cursor only when the item refuses. The cursor logic is a function on a
  `Cursor` value, and the class is proved against it.

Constants from `ftdi.h` (request types, request codes, SIO reset sub-codes) are not part of
this model. They are a record parameter, `FtdiHeader`. Its only assumed property is that
the case labels of one `switch` differ (`FtdiHeader.Distinct`).

The admission test in `ftdi_usb_control` (ftdi_usb.c:277) accepts a request type with
**either** the vendor bit **or** the device-recipient bit set. The model follows the code; `AdmissionNeedsEitherBit`
and `AdmissionIgnoresMissingRecipient` state what the code does.

The model also proves these behaviours of the code as written. It records them and does
not change them:

- PollModemStatus stages a response whose length is the host's `wLength`, while the
  staged data points into an 8-byte scratch buffer. A `wLength` of 9 or more describes a
  response longer than that buffer (`PollModemStatusOverrunsScratch`).
- The keepalive frame sent on a line reset carries the status the worker captured at its
  last Tx, not the current one. This happens as soon as the modem status moves during a
  wait that a line reset ends (`ResetKeepaliveIsStale`, `RunResetKeepaliveIsStale`).
- The bulk-endpoint callbacks do not check which controller called them. They also do not
  check that there is an active instance (`Driver.RxEndpointCallback` requires one).
- A choice item with no choices compares against `num_choices_ - 1` in `size_t`
  arithmetic, which wraps to 2^32 - 1 on the 32-bit target. Right then moves the selection
  past every choice there is, and notifies (`ChoiceEmptyRightEscapes`).

## Model

| member | source | states |
|---|---|---|
| `FtdiWire.Receive` | flip_tdi/helpers/ftdi_usb.c:204-207 | a negative read result becomes 0 and any other result is kept as it is |
| `FtdiWire.EpConfig` | flip_tdi/helpers/ftdi_usb.c:252-270 | configuration 0 tears down both endpoints and configuration 1 sets up both as 64-byte bulk endpoints, both acked; any other value fails |
| `FtdiWire.Admitted` | flip_tdi/helpers/ftdi_usb.c:277-279 | a request type of 0 is never admitted, and one with the vendor bit always is |
| `FtdiWire.Decode` | flip_tdi/helpers/ftdi_usb.c:314-421 | a request is recognised only under the two exact request types, and only with a listed request code for that direction; a recognised command's direction matches its request type |
| `FtdiWire.Encode` | flip_tdi/helpers/ftdi_usb.c:314-413 | reference packet for each command; its request type is the one for the command's direction |
| `FtdiWire.Dispatch` | flip_tdi/helpers/ftdi_usb.c:314-437 | an admitted request from the active instance stalls exactly when it is not recognised |
| `FtdiWire.ActionOf` | flip_tdi/helpers/ftdi_usb.c:318-413 | every recognised command has an effect other than a stall |
| `FtdiWire.ControlVerdict` | flip_tdi/helpers/ftdi_usb.c:272-437 | a control request is acked if and only if it passes admission, comes from the active instance's controller and is recognised |
| `FtdiWire.DecodeEncode` | flip_tdi/helpers/ftdi_usb.c:314-421 | decoding the packet that carries any command gives that command back |
| `FtdiWire.DecodeIsEncodeInverse` | flip_tdi/helpers/ftdi_usb.c:314-421 | a decoded command has the packet's request type and code, and re-encoding and decoding it gives it back |
| `FtdiWire.DecodeOutIsEncodeInverse` | flip_tdi/helpers/ftdi_usb.c:314-384 | the same, for the host-to-device request type |
| `FtdiWire.DecodeInIsEncodeInverse` | flip_tdi/helpers/ftdi_usb.c:385-418 | the same, for the device-to-host request type |
| `FtdiWire.AdmissionNeedsEitherBit` | flip_tdi/helpers/ftdi_usb.c:277-279 | admission holds if and only if the type has the vendor bit or a device-recipient bit |
| `FtdiWire.AdmissionWithZeroRecipient` | flip_tdi/helpers/ftdi_usb.c:277-279 | when the recipient constant is 0, admission is exactly "the vendor bit is set" |
| `FtdiWire.AdmissionIgnoresMissingRecipient` | flip_tdi/helpers/ftdi_usb.c:277-279 | a vendor-typed request with no recipient bit is still admitted |
| `FtdiWire.ControlRefusesBeforeDispatch` | flip_tdi/helpers/ftdi_usb.c:277-284 | a request that fails admission, or comes when the caller's controller is not the active one, fails whatever its other fields are |
| `FtdiWire.OnlyKnownRequestsAck` | flip_tdi/helpers/ftdi_usb.c:314-437 | an acked request has one of the two exact request types and one of the request codes listed for it |
| `FtdiWire.SioResetAlwaysAcks` | flip_tdi/helpers/ftdi_usb.c:318-337 | SIO reset is acked for every wValue; ResetSio only raises the deferred event; the purge values purge; unknown values do nothing |
| `FtdiWire.OutRequestsForward` | flip_tdi/helpers/ftdi_usb.c:338-379 | set-bitmode, set-latency, set-baudrate and set-data forward (wValue, wIndex); flow control forwards wIndex only; event and error char are acked and ignored |
| `FtdiWire.InRequestsStage` | flip_tdi/helpers/ftdi_usb.c:385-414 | get-latency and read-pins stage one byte; poll-modem-status stages the status with the host's wLength as the response length |
| `FtdiWire.PollModemStatusOverrunsScratch` | flip_tdi/helpers/ftdi_usb.c:398-405 | a poll with wLength 9 stages a response longer than the 8-byte scratch buffer |
| `FtdiWire.StatusBytes` | flip_tdi/helpers/ftdi_usb.c:17 | the status header is exactly 2 bytes |
| `FtdiWire.Frame` | flip_tdi/helpers/ftdi_usb.c:111-121 | a frame is 2 bytes longer than its payload |
| `FtdiWire.ParseFrame` | flip_tdi/helpers/ftdi_usb.c:111-121 | a byte string parses as a frame if and only if it holds at least the 2-byte status |
| `FtdiWire.ParseFrameRoundTrip` | flip_tdi/helpers/ftdi_usb.c:111-121 | parsing a built frame gives back its status and payload |
| `FtdiWire.PayloadsAppend` | flip_tdi/helpers/ftdi_usb.c:111-121 | the payload stream of two frame sequences is the concatenation of their payload streams |
| `FtdiCycle.TxStep` | flip_tdi/helpers/ftdi_usb.c:109-121 | the Tx branch keeps the 62-byte payload buffer at its size |
| `FtdiCycle.RxCalls` | flip_tdi/helpers/ftdi_usb.c:84-97 | the UART is called if and only if Rx is set and the read gave data, and then with set-rx-buf of the received bytes followed by start-tx |
| `FtdiCycle.PlanOf` | flip_tdi/helpers/ftdi_usb.c:84-134 | Rx is acted on exactly when its bit is set; reset, Tx and exit are only looked at when a bit other than Rx is set |
| `FtdiCycle.WakeSpec` | flip_tdi/helpers/ftdi_usb.c:80-136 | one cycle leaves the payload buffer at its size and the modem status untouched |
| `FtdiCycle.PlanOfBits` | flip_tdi/helpers/ftdi_usb.c:84-134 | clearing Rx and folding TxComplete into Tx leave the reset, Tx and exit decisions as plain tests of the flags the cycle woke with |
| `FtdiCycle.WakeCalls` | flip_tdi/helpers/ftdi_usb.c:84-105 | a cycle's UART calls: set-rx-buf and start-tx only when Rx is set and the read gave data, then a line reset when ResetSio is set |
| `FtdiCycle.WakeFrames` | flip_tdi/helpers/ftdi_usb.c:100-122 | a keepalive for ResetSio; exactly one frame when Tx or TxComplete is set, carrying the current status and min(n, 62) pending bytes, 2 + min(n, 62) long; those bytes leave the buffer; without Tx the state is unchanged |
| `FtdiCycle.WakeShape` | flip_tdi/helpers/ftdi_usb.c:80-136 | a whole cycle's calls, frames, new state and exit, each decided by its own bit |
| `FtdiCycle.TxFrameStatusOnly` | flip_tdi/helpers/ftdi_usb.c:113-121 | the Tx frame is status-only (2 bytes) if and only if nothing is pending |
| `FtdiCycle.WakeExitIsLast` | flip_tdi/helpers/ftdi_usb.c:132-135 | a cycle ends the loop exactly when Exit is set, and Exit takes away none of the same cycle's work |
| `FtdiCycle.WakeIgnoresReservedBits` | flip_tdi/helpers/ftdi_usb.c:80-136 | a cycle woken only by bits other than Rx, ResetSio, TxComplete, Tx and Exit does nothing |
| `FtdiCycle.KeepalivePayload` | flip_tdi/helpers/ftdi_usb.c:101-104 | a keepalive frame has no payload |
| `FtdiCycle.TxStepConservesTx` | flip_tdi/helpers/ftdi_usb.c:109-121 | the Tx frame's payload followed by what stays pending is exactly what was pending |
| `FtdiCycle.WakeConservesTx` | flip_tdi/helpers/ftdi_usb.c:80-136 | one cycle sends pending bytes in order and loses none |
| `FtdiCycle.ResetKeepaliveIsStale` | flip_tdi/helpers/ftdi_usb.c:101-104 | the reset keepalive carries the last captured status, which differs from the current one whenever it moved |
| `FtdiCycle.RunResetKeepaliveIsStale` | flip_tdi/helpers/ftdi_usb.c:101-111 | from the state the prologue leaves (captured status current), a wait in which the status moves, ended by a line reset, sends the status captured before the wait |
| `FtdiCycle.Arrive` | flip_tdi/helpers/ftdi_usb.c:80 | during a wait the arrived bytes join the end of the pending tx bytes and the modem status takes its new value; the captured status and the payload buffer stay as they were |
| `FtdiCycle.CycleOf` | flip_tdi/helpers/ftdi_usb.c:79-136 | a wait and the cycle it wakes leave the payload buffer at its size and the modem status as the wait left it |
| `FtdiCycle.RunSpec` | flip_tdi/helpers/ftdi_usb.c:79-137 | a run does no more cycles than it is given waits |
| `FtdiCycle.FirstExit` | flip_tdi/helpers/ftdi_usb.c:132-135 | index of the first wake-up with the exit bit: none before it carries the bit, and it does |
| `FtdiCycle.RunStopsAtFirstExit` | flip_tdi/helpers/ftdi_usb.c:79-137 | the loop runs up to and including the first cycle with the exit bit, and no further |
| `FtdiCycle.RunConservesTx` | flip_tdi/helpers/ftdi_usb.c:79-137 | over a whole run, the payloads sent followed by what stays pending are, in order, the bytes pending at the start followed by those that arrived during the waits the run went through |
| `FtdiCycle.RunFramesFit` | flip_tdi/helpers/ftdi_usb.c:110-122 | every frame of a run is 2 to 64 bytes long, so it fits the bulk-IN endpoint |
| `FtdiCycle.AccountsStep` | flip_tdi/helpers/ftdi_usb.c:79-137 | each loop iteration keeps the bookkeeping of a run, and the exiting one completes it |
| `FtdiUsb.UsbDevice.Send` | flip_tdi/helpers/ftdi_usb.c:200-202 | the bytes are appended to the bulk-IN log unchanged |
| `FtdiUsb.Uart.Call` | flip_tdi/helpers/ftdi_usb.c:94-96 | a call on the virtual UART is appended to its log with its arguments |
| `FtdiUsb.Uart.Progress` | flip_tdi/helpers/ftdi_usb.c:80 | while the worker waits, received serial bytes join the end of the tx queue and the modem status takes its new value |
| `FtdiUsb.Uart.PurgeTxBuf` | flip_tdi/helpers/ftdi_usb.c:330-334 | the purge is recorded and the pending tx bytes are dropped |
| `FtdiUsb.Uart.AvailableTx` | flip_tdi/helpers/ftdi_usb.c:112 | the number of bytes pending in the tx queue |
| `FtdiUsb.Uart.GetTxBuf` | flip_tdi/helpers/ftdi_usb.c:118 | min(len, pending) bytes move, oldest first, to the front of the buffer, and the rest stay pending |
| `FtdiUsb.FtdiUsb.Apply` | flip_tdi/helpers/ftdi_usb.c:318-413 | an acked request raises only ResetSio, makes the purge and forwarded calls, and stages the response in the scratch buffer, its length and the controller's `data_ptr` |
| `FtdiUsb.FtdiUsb.Act` | flip_tdi/helpers/ftdi_usb.c:318-379 | a host-to-device request raises ResetSio only for the SIO value, records the purges and forwarded calls in order, and empties the tx queue only on a Tx purge |
| `FtdiUsb.FtdiUsb.Stage` | flip_tdi/helpers/ftdi_usb.c:388-412 | the response bytes go to the front of the scratch buffer, and it becomes the pending data phase with the given length |
| `FtdiUsb.Driver.constructor` | flip_tdi/helpers/ftdi_usb.c:146 | there is no active instance at start |
| `FtdiUsb.FtdiUsb.RaiseFlags` | flip_tdi/helpers/ftdi_usb.c:323 | the given event bits are added to the worker's pending flags and none is cleared |
| `FtdiUsb.Driver.Init` | flip_tdi/helpers/ftdi_usb.c:148-170 | the instance becomes the active one and is bound to the controller; callbacks registered, device connected, worker started |
| `FtdiUsb.Driver.Deinit` | flip_tdi/helpers/ftdi_usb.c:172-198 | callbacks are always unregistered; only for the active instance's controller is there no active instance afterwards, with the worker told to exit and joined; in that case the virtual UART, the scratch buffer, its length and the instance's controller stay as they were; otherwise nothing else changes |
| `FtdiUsb.Driver.Suspend` | flip_tdi/helpers/ftdi_usb.c:213-217 | the guard lets the call through exactly for the active instance's controller |
| `FtdiUsb.Driver.RxEndpointCallback` | flip_tdi/helpers/ftdi_usb.c:227-242 | Rx is raised on the active instance's worker whichever controller called |
| `FtdiUsb.Driver.TxEndpointCallback` | flip_tdi/helpers/ftdi_usb.c:244-250 | TxComplete is raised the same way |
| `FtdiUsb.Driver.Control` | flip_tdi/helpers/ftdi_usb.c:272-438 | the verdict is `ControlVerdict`; a failed request changes nothing; an acked one has exactly the effect `Apply` states, and the UART values and the active instance stay as they were |
| `FtdiUsb.Worker.constructor` | flip_tdi/helpers/ftdi_usb.c:65-77 | the status is captured and sent as a status-only frame before the first wait; the payload buffer is zeroed |
| `FtdiUsb.Worker.SendTx` | flip_tdi/helpers/ftdi_usb.c:109-121 | sends the frame `TxStep` describes and leaves the state it describes |
| `FtdiUsb.Worker.HandOver` | flip_tdi/helpers/ftdi_usb.c:84-96 | the received bytes are handed over and transmission started, only when the read gave data |
| `FtdiUsb.Worker.Serve` | flip_tdi/helpers/ftdi_usb.c:100-135 | a line reset with its keepalive, then the Tx frame, then the exit test, each on its own bit |
| `FtdiUsb.Worker.Wake` | flip_tdi/helpers/ftdi_usb.c:80-136 | UART calls, frames, new state and exit are exactly those of `WakeSpec` |
| `FtdiUsb.Worker.Advance` | flip_tdi/helpers/ftdi_usb.c:79-137 | one wait and the iteration it wakes keep the run's bookkeeping, or complete it when the iteration exits |
| `FtdiUsb.Worker.Run` | flip_tdi/helpers/ftdi_usb.c:79-137 | the loop, with the virtual UART working during each wait, makes exactly the calls, frames and cycles of `RunSpec` and ends in its state |
| `MenuItems.NumberIgnoresOtherTypes` | signal_generator/menu/menu_items.hpp:98-100 | an event that is neither Short nor Repeat is refused and changes nothing |
| `MenuItems.NumberInput` | signal_generator/menu/menu_items.hpp:97-131 | bounds and step never change; a notification comes only with a handled event in edit mode and a move of exactly one step; a refused event changes nothing |
| `MenuItems.NumberOkToggles` | signal_generator/menu/menu_items.hpp:102-105 | OK flips edit mode either way and is handled, with no other change and no notification |
| `MenuItems.NumberSteps` | signal_generator/menu/menu_items.hpp:107-130 | Right or Left is handled if and only if edit mode is on and the stepped value stays within max or min; it then moves by one step and notifies exactly once; otherwise nothing changes |
| `MenuItems.NumberRefusesOtherKeys` | signal_generator/menu/menu_items.hpp:107-130 | outside edit mode every key but OK is refused, and so is any key other than OK, Left and Right |
| `MenuItems.NumberKeepsRange` | signal_generator/menu/menu_items.hpp:111-122 | with step >= 0 the value stays in [min, max], and bounds and step never change |
| `MenuItems.Clamp` | signal_generator/menu/menu_items.hpp:149 | the result is in [min, max] when min <= max; an in-range argument is kept, one below min becomes min, and one at or above min but above max becomes max |
| `MenuItems.ClampIdempotent` | signal_generator/menu/menu_items.hpp:149 | clamping twice is clamping once |
| `MenuItems.NumberRun` | signal_generator/menu/menu_items.hpp:97-131 | a sequence of events produces at most one notification per event |
| `MenuItems.NumberRunKeepsRange` | signal_generator/menu/menu_items.hpp:97-131 | over any event sequence the value stays in range, the bounds stay fixed, and the value moves at most one step per notification |
| `MenuItems.NumberValueMenuItem.constructor` | signal_generator/menu/menu_items.hpp:55-70 | a new item has value = min and edit mode off |
| `MenuItems.NumberValueMenuItem.HandleInput` | signal_generator/menu/menu_items.hpp:97-131 | the new state, the result and one notification per step are those of `NumberInput`, and the range invariant is kept |
| `MenuItems.NumberValueMenuItem.OnExit` | signal_generator/menu/menu_items.hpp:135-137 | leaving the item always clears edit mode and changes nothing else |
| `MenuItems.NumberValueMenuItem.NumericValue` | signal_generator/menu/menu_items.hpp:145-147 | the value lies in [min, max] for ordered bounds and a non-negative step |
| `MenuItems.NumberValueMenuItem.SetValue` | signal_generator/menu/menu_items.hpp:148-152 | the value becomes the clamped argument, and there is always one notification, even when nothing changed |
| `MenuItems.LastIndex` | signal_generator/menu/menu_items.hpp:222 | `num_choices_ - 1` in size_t: count - 1, or 2^32 - 1 when there are no choices |
| `MenuItems.ChoiceIgnoresOtherTypes` | signal_generator/menu/menu_items.hpp:217-219 | an event that is neither Short nor Repeat is refused and changes nothing |
| `MenuItems.ChoiceInput` | signal_generator/menu/menu_items.hpp:216-236 | the number of choices never changes; handled exactly when notified; a refused event changes nothing, a handled one moves the selection by one |
| `MenuItems.ChoiceMovesByOne` | signal_generator/menu/menu_items.hpp:221-235 | with choices, Right is handled if and only if a next choice exists and Left if and only if a previous one does; each moves by exactly one, and anything else is refused |
| `MenuItems.ChoiceNotifiesOnChange` | signal_generator/menu/menu_items.hpp:221-235 | it notifies, and reports handled, exactly when the selection changed |
| `MenuItems.ChoiceKeepsRange` | signal_generator/menu/menu_items.hpp:221-228 | with at least one choice the selection stays a valid index |
| `MenuItems.ChoiceEmptyRightEscapes` | signal_generator/menu/menu_items.hpp:222-224 | with no choices, Right moves the selection past every choice and notifies |
| `MenuItems.ChoiceRun` | signal_generator/menu/menu_items.hpp:216-236 | a sequence of events never changes the number of choices |
| `MenuItems.ChoiceRunKeepsRange` | signal_generator/menu/menu_items.hpp:216-236 | with at least one choice, no event sequence takes the selection out of range |
| `MenuItems.ChoiceMenuItem.constructor` | signal_generator/menu/menu_items.hpp:176-184 | at most 16 choices are copied in order, and the first is selected |
| `MenuItems.ChoiceMenuItem.HandleInput` | signal_generator/menu/menu_items.hpp:216-236 | the new state, the result and the notification are those of `ChoiceInput`, and the range invariant is kept |
| `MenuItems.ChoiceMenuItem.Value` | signal_generator/menu/menu_items.hpp:245-247 | the empty string when there are no choices, otherwise the selected choice, which is one of the choices |
| `MenuItems.ChoiceMenuItem.SetSelectedIndex` | signal_generator/menu/menu_items.hpp:252-257 | an index past the choices is ignored with no notification; a valid one is selected and notified once |
| `MenuItems.SimpleLineMenuItem.HandleInput` | signal_generator/menu/menu_items.hpp:32-34 | every event is refused |
| `SignalMenu.EntryRefusalChangesNothing` | signal_generator/menu/menu_items.hpp:97-236 | an item that refuses an event is left as it was and does not notify |
| `SignalMenu.EntryInput` | signal_generator/menu/menu.hpp:44 | an item keeps its kind, notifies only when it handles the event, and a text line never handles one |
| `SignalMenu.EntryExit` | signal_generator/menu/menu.hpp:53 | on_exit ends a number item's edit mode and keeps its value; other kinds are unchanged |
| `SignalMenu.AddStep` | signal_generator/menu/menu.hpp:16-25 | adding succeeds if and only if the menu is not full; a refusal changes nothing, a success adds one item |
| `SignalMenu.Navigate` | signal_generator/menu/menu.hpp:49-74 | navigation never changes the item count; it moves the cursor by exactly one, and only for a Short or Repeat event; otherwise nothing moves |
| `SignalMenu.MenuInput` | signal_generator/menu/menu.hpp:39-75 | the item count never changes; the cursor moves only on a handled event, which then notifies nothing; a refused event changes nothing |
| `SignalMenu.SelectedSlot` | signal_generator/menu/menu.hpp:78-83 | a slot is returned only below the item count |
| `SignalMenu.AddKeepsCursorOk` | signal_generator/menu/menu.hpp:16-25 | add succeeds if and only if fewer than 16 items are present; on failure nothing changes; otherwise count + 1, with the first add selecting 0 and later ones keeping the selection; the invariant holds |
| `SignalMenu.NavigateMovesByOne` | signal_generator/menu/menu.hpp:49-74 | Up or Down succeeds if and only if the event is Short or Repeat and the neighbour exists; it moves by exactly one, and otherwise nothing moves; the invariant holds |
| `SignalMenu.MenuItemFirst` | signal_generator/menu/menu.hpp:39-75 | an event the item takes is handled without moving the cursor; a refused one navigates, and a move ends the edit of the item left; the invariant holds |
| `SignalMenu.SelectedSlotOk` | signal_generator/menu/menu.hpp:78-83 | under the invariant the cursor is on an item if and only if there is one |
| `SignalMenu.RunKeepsCursorOk` | signal_generator/menu/menu.hpp:10-75 | every sequence of adds and inputs keeps count <= 16, selection -1 exactly when empty, and otherwise in range |
| `SignalMenu.ItemInput` | signal_generator/menu/menu.hpp:44 | the selected item's handle_input, for any kind of item, as `EntryInput` |
| `SignalMenu.ItemExit` | signal_generator/menu/menu.hpp:53 | the item's on_exit, for any kind, as `EntryExit` |
| `SignalMenu.Menu.constructor` | signal_generator/menu/menu.hpp:12 | no items and selection -1 |
| `SignalMenu.Menu.AddItem` | signal_generator/menu/menu.hpp:16-25 | cursor and result as `AddStep`; on success the item is placed at slot count and no other slot changes |
| `SignalMenu.Menu.HandleInput` | signal_generator/menu/menu.hpp:39-75 | an empty menu refuses; otherwise cursor, item state, result and notifications are those of `MenuInput`, and the invariant is kept |
| `SignalMenu.Menu.GetSelectedItem` | signal_generator/menu/menu.hpp:78-83 | an item exactly when the menu has one, and then the item under the cursor |

## Left out

- `FtdiUsb.Driver.RxEndpointCallback`, `FtdiUsb.Driver.TxEndpointCallback`: require an active
  instance, because the source dereferences it unchecked (ftdi_usb.c:231-233, 248-249); a
  callback with no active instance is a null dereference the model does not describe.
- `FtdiCycle.RunSpec`: the virtual UART's activity (bytes queued, modem status) is placed in
  the waits between cycles; a change that lands in the middle of a cycle, between two reads
  of the status or of the queue, is not modelled.

- Threads: creating, joining and freeing the worker, and the blocking flag wait. The
  worker is driven by a given sequence of wake-ups, and "joined" is a flag.
- Deinit does not model freeing the virtual UART, the descriptor strings or the instance.
  Init takes an already allocated virtual UART.
- USB HAL calls: endpoint read/write, (de)configuration, callback registration and connect.
  They become logs, flags and the `EpConfig` plan.
- The virtual UART (`ftdi.h`/`ftdi.c`) is not part of this model. Its tx queue is a byte
  sequence: `AvailableTx` reads its length, `GetTxBuf` drains it oldest first, `Progress`
  appends to it and `PurgeTxBuf` empties it. Every other call is only recorded with its
  arguments. Latency timer, pins and modem status are readable fields not tied to the
  setters.
- `FtdiCycle.WakeFrames`, `FtdiCycle.WakeConservesTx`, `FtdiCycle.RunConservesTx`: these rest
  on two assumptions about the virtual UART. First, `ftdi_reset_sio` (ftdi_usb.c:104) is
  taken to leave the tx queue as it was; the Tx step of the same cycle reads the count
  after it (ftdi_usb.c:112), so the frame's bytes and "no pending byte is lost" hold only
  if the reset does not drop pending bytes. Second, a wait only appends to the queue; a
  purge-tx request (ftdi_usb.c:333) that lands during a wait empties it, and the bytes it
  drops are not in the run's account.
- Logging and hex dumps of requests (ftdi_usb.c:286-307 and every log call): output only.
- USB descriptors, `ftdi_usb_start`/`ftdi_usb_stop` and the wakeup callback: static data,
  HAL configuration and allocation, and an empty callback.
- Every `draw` method; `strdup`/`free` of names and units. The formatted value string of a
  number item (`update_value_str`, its `get_value`) is not modelled; only `get_numeric_value`
  is.
- `MenuItems.NumberValueMenuItem.HandleInput`, `MenuItems.NumberInput`, `MenuItems.NumberSteps`,
  `MenuItems.NumberKeepsRange`, `MenuItems.NumberRunKeepsRange`: do not model 32-bit overflow of
  `value_ + step_` or `value_ - step_`; values and bounds are unbounded integers.
- The `on_enter` of every item kind and the `on_exit` of choice and line items are empty,
  so the menu's calls to them change nothing. The value-changed callback is a counter.
- `add_item` with a null item is excluded by the entry type.
- Nothing of `signal_gen_pwm_cpp*` is modelled: it is view glue with no logic of its own.
