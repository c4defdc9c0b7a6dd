/**
  The menu of signal_generator/menu/menu.hpp: at most 16 items in a fixed
  array and a cursor on the selected one, -1 while the menu is empty. An
  input event goes to the selected item first; only if the item refuses it
  does Up or Down move the cursor, ending the edit of the item it leaves.
  The cursor logic is a pair of functions on a value `Cursor`; the class
  holding the array is proved against them.
*/
module SignalMenu {
  import opened MenuItems

  const MaxItems: nat := 16

  datatype Option<T> = None | Some(value: T)

  /** A menu entry: a reference to one of the three item kinds. */
  datatype Entry =
    | NumberEntry(number: NumberValueMenuItem)
    | ChoiceEntry(choice: ChoiceMenuItem)
    | LineEntry(line: SimpleLineMenuItem)

  function Obj(e: Entry): object {
    match e
    case NumberEntry(n) => n
    case ChoiceEntry(c) => c
    case LineEntry(l) => l
  }

  /** The state of an item, whatever its kind. */
  datatype EntryState =
    | NumberState(number: NumberItem)
    | ChoiceState(choice: ChoiceItem)
    | LineState

  function EntryView(e: Entry): EntryState
    reads Obj(e)
  {
    match e
    case NumberEntry(n) => NumberState(n.View())
    case ChoiceEntry(c) => ChoiceState(c.View())
    case LineEntry(_) => LineState
  }

  function Notifications(e: Entry): nat
    reads Obj(e)
  {
    match e
    case NumberEntry(n) => n.notifications
    case ChoiceEntry(c) => c.notifications
    case LineEntry(_) => 0
  }

  /** The item's own handle_input, whatever its kind. */
  function EntryInput(s: EntryState, ev: InputEvent): (r: Reply<EntryState>)
    ensures r.item.NumberState? == s.NumberState? && r.item.ChoiceState? == s.ChoiceState?
    ensures r.notify ==> r.handled
    ensures s.LineState? ==> !r.handled
  {
    match s
    case NumberState(n) =>
      var r := NumberInput(n, ev);
      Reply(NumberState(r.item), r.handled, r.notify)
    case ChoiceState(c) =>
      var r := ChoiceInput(c, ev);
      Reply(ChoiceState(r.item), r.handled, r.notify)
    case LineState => Reply(LineState, false, false)
  }

  /** The item's on_exit: only a number item has one that does something. */
  function EntryExit(s: EntryState): (r: EntryState)
    ensures r.NumberState? == s.NumberState? && (!s.NumberState? ==> r == s)
    ensures s.NumberState? ==> !r.number.editMode && r.number.value == s.number.value
  {
    match s
    case NumberState(n) => NumberState(n.(editMode := false))
    case _ => s
  }

  /** An item that refuses an event is left as it was and does not notify. */
  lemma EntryRefusalChangesNothing(s: EntryState, ev: InputEvent)
    ensures var r := EntryInput(s, ev); !r.handled ==> r.item == s && !r.notify
  {
  }

  // ---------------------------------------------------------------------
  // The cursor
  // ---------------------------------------------------------------------

  /** items_count_ and selected_index_. */
  datatype Cursor = Cursor(count: nat, selected: int)

  /** The menu's invariant: at most 16 items, the cursor at -1 exactly when
      there are none and on an item otherwise. */
  predicate CursorOk(c: Cursor) {
    && c.count <= MaxItems
    && (c.count == 0 <==> c.selected == -1)
    && (c.count > 0 ==> 0 <= c.selected < c.count)
  }

  /** A new cursor position and the boolean the operation returns. */
  datatype Step = Step(cursor: Cursor, done: bool)

  /** add_item, lines 16-25, as far as the cursor goes. */
  function AddStep(c: Cursor): (r: Step)
    ensures r.done <==> c.count < MaxItems
    ensures !r.done ==> r.cursor == c
    ensures r.done ==> r.cursor.count == c.count + 1
  {
    if c.count >= MaxItems then Step(c, false)
    else Step(Cursor(c.count + 1, if c.selected == -1 then 0 else c.selected), true)
  }

  /** The navigation of handle_input, lines 49-74, once the item has
      refused the event. */
  function Navigate(c: Cursor, ev: InputEvent): (r: Step)
    ensures r.cursor.count == c.count
    ensures !r.done ==> r.cursor == c
    ensures r.done ==> Acts(ev) && (r.cursor.selected == c.selected - 1 || r.cursor.selected == c.selected + 1)
  {
    if !Acts(ev) then Step(c, false)
    else if ev.key == Up && c.selected > 0 then Step(c.(selected := c.selected - 1), true)
    else if ev.key == Down && c.selected < c.count - 1 then Step(c.(selected := c.selected + 1), true)
    else Step(c, false)
  }

  /** The outcome of the menu's handle_input on a non-empty menu. */
  datatype MenuReply = MenuReply(cursor: Cursor, item: EntryState, handled: bool, notify: bool)

  /** handle_input, lines 39-75, for a non-empty menu whose selected item
      is in state `s`: the item is offered the event first, and the cursor
      moves only when it refuses. */
  function MenuInput(c: Cursor, s: EntryState, ev: InputEvent): (r: MenuReply)
    ensures r.cursor.count == c.count
    ensures r.cursor != c ==> r.handled && !r.notify
    ensures !r.handled ==> r.cursor == c && r.item == s && !r.notify
  {
    var r := EntryInput(s, ev);
    if r.handled then MenuReply(c, r.item, true, r.notify)
    else
      var nav := Navigate(c, ev);
      if nav.done then MenuReply(nav.cursor, EntryExit(s), true, false)
      else MenuReply(c, s, false, false)
  }

  /** get_selected_item, lines 78-83: the slot under the cursor, if the
      cursor is on an item. */
  function SelectedSlot(c: Cursor): (r: Option<nat>)
    ensures r.Some? ==> r.value < c.count
  {
    if 0 <= c.selected < c.count then Some(c.selected) else None
  }

  /** Adding to a full menu fails and changes nothing; otherwise the item
      goes at the end, the first one added becomes selected and later ones
      leave the selection alone. The invariant is kept either way. */
  lemma AddKeepsCursorOk(c: Cursor)
    requires CursorOk(c)
    ensures var r := AddStep(c);
            && CursorOk(r.cursor)
            && (r.done <==> c.count < MaxItems)
            && (!r.done ==> r.cursor == c)
            && (r.done ==> r.cursor.count == c.count + 1)
            && (r.done ==> r.cursor.selected == (if c.count == 0 then 0 else c.selected))
  {
  }

  /** Up and Down move the cursor by exactly one and report success, as
      long as it stays on an item; at either end, or for any other key or
      event type, nothing moves and the result is false. */
  lemma NavigateMovesByOne(c: Cursor, ev: InputEvent)
    requires CursorOk(c) && c.count > 0
    ensures var r := Navigate(c, ev);
            && CursorOk(r.cursor)
            && r.cursor.count == c.count
            && (r.done <==> Acts(ev) && ((ev.key == Up && c.selected > 0)
                                         || (ev.key == Down && c.selected + 1 < c.count)))
            && r.cursor.selected == (if !r.done then c.selected
                                     else if ev.key == Up then c.selected - 1
                                     else c.selected + 1)
  {
  }

  /** An event the selected item takes is reported handled and leaves the
      cursor where it is; a refused one moves the cursor as Navigate says,
      and a move ends the edit of the item left behind. */
  lemma MenuItemFirst(c: Cursor, s: EntryState, ev: InputEvent)
    requires CursorOk(c) && c.count > 0
    ensures var r := MenuInput(c, s, ev);
            var taken := EntryInput(s, ev).handled;
            var nav := Navigate(c, ev);
            && CursorOk(r.cursor)
            && (taken ==> r.cursor == c && r.handled && r.item == EntryInput(s, ev).item)
            && (!taken ==> r.cursor == nav.cursor && r.handled == nav.done && !r.notify)
            && (!taken && nav.done ==> r.item == EntryExit(s))
            && (!taken && !nav.done ==> r.item == s)
  {
    NavigateMovesByOne(c, ev);
  }

  /** On a menu that keeps its invariant, the cursor is on an item exactly
      when there is one. */
  lemma SelectedSlotOk(c: Cursor)
    requires CursorOk(c)
    ensures SelectedSlot(c).Some? <==> c.count > 0
    ensures SelectedSlot(c).Some? ==> SelectedSlot(c).value == c.selected
  {
  }

  /** An operation on the menu, with the state of the item selected at the
      time for an input. */
  datatype MenuOp = AddOp | InputOp(ev: InputEvent, item: EntryState)

  function RunCursor(c: Cursor, ops: seq<MenuOp>): Cursor
    decreases |ops|
  {
    if ops == [] then c
    else
      var next := match ops[0]
        case AddOp => AddStep(c).cursor
        case InputOp(ev, s) => if c.count == 0 then c else MenuInput(c, s, ev).cursor;
      RunCursor(next, ops[1..])
  }

  /** Every sequence of adds and inputs keeps the invariant. */
  lemma {:induction false} RunKeepsCursorOk(c: Cursor, ops: seq<MenuOp>)
    requires CursorOk(c)
    ensures CursorOk(RunCursor(c, ops))
    decreases |ops|
  {
    if ops != [] {
      match ops[0]
      case AddOp =>
        AddKeepsCursorOk(c);
        RunKeepsCursorOk(AddStep(c).cursor, ops[1..]);
      case InputOp(ev, s) =>
        if c.count == 0 {
          RunKeepsCursorOk(c, ops[1..]);
        } else {
          MenuItemFirst(c, s, ev);
          RunKeepsCursorOk(MenuInput(c, s, ev).cursor, ops[1..]);
        }
    }
  }

  // ---------------------------------------------------------------------
  // Calls on the item objects
  // ---------------------------------------------------------------------

  /** `items_[i]->handle_input(event)`, through the entry's kind. */
  method ItemInput(e: Entry, ev: InputEvent) returns (handled: bool)
    modifies Obj(e)
    ensures var r := EntryInput(old(EntryView(e)), ev);
            && EntryView(e) == r.item
            && handled == r.handled
            && Notifications(e) == old(Notifications(e)) + (if r.notify then 1 else 0)
  {
    match e
    case NumberEntry(n) => handled := n.HandleInput(ev);
    case ChoiceEntry(c) => handled := c.HandleInput(ev);
    case LineEntry(l) => handled := l.HandleInput(ev);
  }

  /** `items_[i]->on_exit()`. */
  method ItemExit(e: Entry)
    modifies Obj(e)
    ensures EntryView(e) == EntryExit(old(EntryView(e)))
    ensures Notifications(e) == old(Notifications(e))
  {
    match e
    case NumberEntry(n) => n.OnExit();
    case ChoiceEntry(_) =>
    case LineEntry(_) =>
  }

  // ---------------------------------------------------------------------
  // The menu
  // ---------------------------------------------------------------------

  class Menu {
    const items: array<Option<Entry>>
    var count: nat      // items_count_
    var selected: int   // selected_index_

    function CursorOf(): Cursor
      reads this
    {
      Cursor(count, selected)
    }

    ghost predicate Valid()
      reads this, items
    {
      && items.Length == MaxItems
      && CursorOk(CursorOf())
      && (forall i :: 0 <= i < count ==> items[i].Some?)
    }

    /** Line 12: no items, no selection. */
    constructor ()
      ensures Valid() && fresh(items)
      ensures CursorOf() == Cursor(0, -1)
    {
      items := new Option<Entry>[MaxItems](_ => None);
      count := 0;
      selected := -1;
    }

    /** add_item, lines 16-25. */
    method AddItem(e: Entry) returns (added: bool)
      requires Valid()
      modifies this`count, this`selected, items
      ensures Valid()
      ensures var r := AddStep(old(CursorOf())); CursorOf() == r.cursor && added == r.done
      ensures items[..] == if added then old(items[..])[old(count) := Some(e)] else old(items[..])
    {
      if count >= MaxItems {
        return false;
      }
      items[count] := Some(e);
      count := count + 1;
      if selected == -1 {
        selected := 0;
      }
      return true;
    }

    function Selected(): Entry
      reads this, items
      requires Valid() && count > 0
    {
      items[selected].value
    }

    /** handle_input, lines 39-75. The on_enter of every item kind is
        empty, so entering an item changes nothing. */
    method HandleInput(ev: InputEvent) returns (handled: bool)
      requires Valid()
      modifies this`selected, if count > 0 then {Obj(Selected())} else {}
      ensures Valid() && count == old(count)
      ensures old(count) == 0 ==> !handled && selected == old(selected)
      ensures old(count) > 0 ==>
                var e := items[old(selected)].value;
                var r := MenuInput(old(CursorOf()), old(EntryView(e)), ev);
                && CursorOf() == r.cursor
                && EntryView(e) == r.item
                && handled == r.handled
                && Notifications(e) == old(Notifications(e)) + (if r.notify then 1 else 0)
    {
      if count == 0 {
        return false;
      }
      ghost var c := CursorOf();
      var e := items[selected].value;
      ghost var s := EntryView(e);
      var taken := ItemInput(e, ev);
      if taken {
        return true;
      }
      EntryRefusalChangesNothing(s, ev);
      if ev.kind == Short || ev.kind == Repeat {
        if ev.key == Up {
          if selected > 0 {
            ItemExit(e);
            selected := selected - 1;
            return true;
          }
        } else if ev.key == Down {
          if selected < count - 1 {
            ItemExit(e);
            selected := selected + 1;
            return true;
          }
        }
      }
      return false;
    }

    /** get_selected_item, lines 78-83: an item exactly when the menu has
        one, and then the one under the cursor. */
    method GetSelectedItem() returns (e: Option<Entry>)
      requires Valid()
      ensures e.Some? <==> count > 0
      ensures e.Some? ==> e == items[selected]
    {
      if 0 <= selected < count {
        return items[selected];
      }
      return None;
    }
  }
}
