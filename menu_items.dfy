/**
  The menu items of signal_generator/menu/menu_items.hpp: a bounded number
  with an edit mode, a choice among at most 16 strings, and a plain line of
  text. Each item's reaction to a key event is a function on a value of its
  state; the classes hold that state in fields and are proved against those
  functions. The value-changed callback of menu_item.hpp is counted, not
  called.
*/
module MenuItems {

  // ---------------------------------------------------------------------
  // Input events (the firmware's input.h, as far as the items look at it)
  // ---------------------------------------------------------------------

  datatype InputType = Press | Release | Short | Long | Repeat
  datatype InputKey = Up | Down | Right | Left | Ok | Back
  datatype InputEvent = InputEvent(key: InputKey, kind: InputType)

  /** Only short presses and auto-repeats act on a menu. */
  predicate Acts(ev: InputEvent) {
    ev.kind == Short || ev.kind == Repeat
  }

  /** The outcome of handle_input on an item: its new state, the value
      handle_input returns and whether it called notify_value_changed. */
  datatype Reply<S> = Reply(item: S, handled: bool, notify: bool)

  // ---------------------------------------------------------------------
  // NumberValueMenuItem
  // ---------------------------------------------------------------------

  /** The state of a number item; the 32-bit fields are unbounded here. */
  datatype NumberItem = NumberItem(min: int, max: int, step: int, value: int, editMode: bool)

  predicate InRange(n: NumberItem) {
    n.min <= n.value <= n.max
  }

  /** handle_input, lines 97-131. */
  function NumberInput(n: NumberItem, ev: InputEvent): (r: Reply<NumberItem>)
    ensures r.item.min == n.min && r.item.max == n.max && r.item.step == n.step
    ensures r.notify ==> r.handled && r.item.editMode
                         && (r.item.value == n.value + n.step || r.item.value == n.value - n.step)
    ensures !r.handled ==> r.item == n && !r.notify
  {
    if !Acts(ev) then Reply(n, false, false)
    else if ev.key == Ok then Reply(n.(editMode := !n.editMode), true, false)
    else if !n.editMode then Reply(n, false, false)
    else if ev.key == Right && n.value + n.step <= n.max then
      Reply(n.(value := n.value + n.step), true, true)
    else if ev.key == Left && n.value - n.step >= n.min then
      Reply(n.(value := n.value - n.step), true, true)
    else Reply(n, false, false)
  }

  /** The clamp of set_value, line 149. */
  function Clamp(min: int, max: int, v: int): (c: int)
    ensures min <= max ==> min <= c <= max
    ensures min <= v <= max ==> c == v
    ensures v < min ==> c == min
    ensures v >= min && v > max ==> c == max
  {
    if v < min then min else if v > max then max else v
  }

  /** Only Short and Repeat events reach the item; the rest are refused
      with no change. */
  lemma NumberIgnoresOtherTypes(n: NumberItem, ev: InputEvent)
    requires !Acts(ev)
    ensures NumberInput(n, ev) == Reply(n, false, false)
  {
  }

  /** OK toggles the edit mode, in either direction, and is always
      handled; it changes nothing else and does not notify. */
  lemma NumberOkToggles(n: NumberItem, ev: InputEvent)
    requires Acts(ev) && ev.key == Ok
    ensures var r := NumberInput(n, ev);
            r.item == n.(editMode := !n.editMode) && r.handled && !r.notify
  {
  }

  /** Right adds one step exactly when edit mode is on and the result stays
      at or below the maximum, Left takes one off under the mirror-image
      condition; otherwise the event is refused and nothing changes. A
      step notifies exactly once. */
  lemma NumberSteps(n: NumberItem, ev: InputEvent)
    requires Acts(ev) && (ev.key == Right || ev.key == Left)
    ensures var r := NumberInput(n, ev);
            var fits := if ev.key == Right then n.value + n.step <= n.max
                        else n.value - n.step >= n.min;
            && (r.handled <==> n.editMode && fits)
            && r.notify == r.handled
            && r.item == (if !r.handled then n
                          else if ev.key == Right then n.(value := n.value + n.step)
                          else n.(value := n.value - n.step))
  {
  }

  /** Keys other than OK, Left and Right, and every key outside edit mode
      but OK, are refused. */
  lemma NumberRefusesOtherKeys(n: NumberItem, ev: InputEvent)
    requires ev.key != Ok && (!n.editMode || (ev.key != Left && ev.key != Right))
    ensures NumberInput(n, ev) == Reply(n, false, false)
  {
  }

  /** A non-negative step keeps the value within [min, max]. */
  lemma NumberKeepsRange(n: NumberItem, ev: InputEvent)
    requires InRange(n) && n.step >= 0
    ensures var r := NumberInput(n, ev);
            InRange(r.item) && r.item.(value := n.value, editMode := n.editMode) == n
  {
  }

  /** Clamping is idempotent and lands in [min, max] when the bounds are
      ordered. */
  lemma ClampIdempotent(min: int, max: int, v: int)
    requires min <= max
    ensures Clamp(min, max, Clamp(min, max, v)) == Clamp(min, max, v)
  {
  }

  /** A sequence of events applied to a number item, with the number of
      notifications it produced. */
  function NumberRun(n: NumberItem, evs: seq<InputEvent>): (r: (NumberItem, nat))
    ensures r.1 <= |evs|
    decreases |evs|
  {
    if evs == [] then (n, 0)
    else
      var s := NumberInput(n, evs[0]);
      var rest := NumberRun(s.item, evs[1..]);
      (rest.0, rest.1 + (if s.notify then 1 else 0))
  }

  /** Over any sequence of events the value stays within its bounds, the
      bounds never change, and the value moves from where it started by at
      most one step per notification. */
  lemma {:induction false} NumberRunKeepsRange(n: NumberItem, evs: seq<InputEvent>)
    requires InRange(n) && n.step >= 0
    ensures var r := NumberRun(n, evs);
            && InRange(r.0)
            && r.0.min == n.min && r.0.max == n.max && r.0.step == n.step
            && -(n.step * r.1) <= r.0.value - n.value <= n.step * r.1
    decreases |evs|
  {
    if evs != [] {
      var s := NumberInput(n, evs[0]);
      NumberKeepsRange(n, evs[0]);
      NumberRunKeepsRange(s.item, evs[1..]);
      var rest := NumberRun(s.item, evs[1..]);
      var k := if s.notify then 1 else 0;
      assert -n.step * k <= s.item.value - n.value <= n.step * k;
      assert n.step * (rest.1 + k) == n.step * rest.1 + n.step * k;
    }
  }

  /** NumberValueMenuItem: the name and units strings are kept for
      completeness; the formatted value string is not modelled. */
  class NumberValueMenuItem {
    const name: string
    const units: string
    const min: int
    const max: int
    const step: int
    var value: int
    var editMode: bool
    var notifications: nat     // calls of notify_value_changed so far

    function View(): NumberItem
      reads this
    {
      NumberItem(min, max, step, value, editMode)
    }

    /** The bounds the item promises to keep once they are ordered and the
        step is non-negative. */
    ghost predicate Valid()
      reads this
    {
      min <= max && step >= 0 ==> InRange(View())
    }

    /** Lines 55-70: the value starts at the minimum, edit mode off. */
    constructor (name: string, min: int, max: int, step: int, units: string)
      ensures Valid()
      ensures this.name == name && this.units == units
      ensures View() == NumberItem(min, max, step, min, false) && notifications == 0
    {
      this.name := name;
      this.units := units;
      this.min := min;
      this.max := max;
      this.step := step;
      value := min;
      editMode := false;
      notifications := 0;
    }

    method HandleInput(ev: InputEvent) returns (handled: bool)
      modifies this`value, this`editMode, this`notifications
      ensures old(Valid()) ==> Valid()
      ensures var r := NumberInput(old(View()), ev);
              && View() == r.item
              && handled == r.handled
              && notifications == old(notifications) + (if r.notify then 1 else 0)
    {
      if ev.kind != Short && ev.kind != Repeat {
        return false;
      }
      if ev.key == Ok {
        editMode := !editMode;
        return true;
      }
      if !editMode {
        return false;
      }
      var changed := false;
      if ev.key == Right {
        if value + step <= max {
          value := value + step;
          changed := true;
        }
      } else if ev.key == Left {
        if value - step >= min {
          value := value - step;
          changed := true;
        }
      }
      if changed {
        notifications := notifications + 1;
        return true;
      }
      return false;
    }

    /** on_exit, lines 135-137: leaving the item ends editing. */
    method OnExit()
      modifies this`editMode
      ensures View() == old(View()).(editMode := false)
    {
      editMode := false;
    }

    /** get_numeric_value: the value, always within the bounds of a
        well-formed item. */
    function NumericValue(): (v: int)
      reads this
      requires Valid()
      ensures min <= max && step >= 0 ==> min <= v <= max
    {
      value
    }

    /** set_value, lines 148-152: the argument clamped into the bounds, with
        a notification even when the value does not change. */
    method SetValue(v: int)
      requires Valid()
      modifies this`value, this`notifications
      ensures Valid()
      ensures View() == old(View()).(value := Clamp(min, max, v))
      ensures notifications == old(notifications) + 1
    {
      value := if v < min then min else if v > max then max else v;
      notifications := notifications + 1;
    }
  }

  // ---------------------------------------------------------------------
  // ChoiceMenuItem
  // ---------------------------------------------------------------------

  const MaxChoices: nat := 16

  /** size_t on the 32-bit target. */
  const SizeModulus: nat := 0x1_0000_0000

  type ChoiceCount = n: nat | n <= MaxChoices

  datatype ChoiceItem = ChoiceItem(count: ChoiceCount, index: nat)

  /** `num_choices_ - 1` in size_t arithmetic: with no choices it wraps to
      the largest size_t. */
  function LastIndex(count: ChoiceCount): (m: nat)
    ensures count > 0 ==> m == count - 1
    ensures count == 0 ==> m == SizeModulus - 1
  {
    (count + SizeModulus - 1) % SizeModulus
  }

  /** handle_input, lines 216-236. */
  function ChoiceInput(c: ChoiceItem, ev: InputEvent): (r: Reply<ChoiceItem>)
    ensures r.item.count == c.count && r.handled == r.notify
    ensures !r.handled ==> r.item == c
    ensures r.handled ==> r.item.index == c.index + 1 || r.item.index + 1 == c.index
  {
    if !Acts(ev) then Reply(c, false, false)
    else if ev.key == Right && c.index < LastIndex(c.count) then
      Reply(c.(index := c.index + 1), true, true)
    else if ev.key == Left && c.index > 0 then
      Reply(c.(index := c.index - 1), true, true)
    else Reply(c, false, false)
  }

  /** Only Short and Repeat events reach the item. */
  lemma ChoiceIgnoresOtherTypes(c: ChoiceItem, ev: InputEvent)
    requires !Acts(ev)
    ensures ChoiceInput(c, ev) == Reply(c, false, false)
  {
  }

  /** With at least one choice, Right moves to the next choice unless the
      last is selected and Left to the previous unless the first is; each
      move is by exactly one, and any other key is refused. */
  lemma ChoiceMovesByOne(c: ChoiceItem, ev: InputEvent)
    requires Acts(ev) && c.count > 0
    ensures var r := ChoiceInput(c, ev);
            && (r.handled <==> ((ev.key == Right && c.index + 1 < c.count)
                                || (ev.key == Left && c.index > 0)))
            && r.item == (if !r.handled then c
                          else if ev.key == Right then c.(index := c.index + 1)
                          else c.(index := c.index - 1))
  {
  }

  /** The item notifies, and reports the event handled, exactly when the
      selection changed. */
  lemma ChoiceNotifiesOnChange(c: ChoiceItem, ev: InputEvent)
    ensures var r := ChoiceInput(c, ev);
            && r.notify == (r.item.index != c.index)
            && r.handled == r.notify
            && r.item.count == c.count
  {
  }

  /** With at least one choice the selection stays a valid index. */
  lemma ChoiceKeepsRange(c: ChoiceItem, ev: InputEvent)
    requires 0 < c.count && c.index < c.count
    ensures ChoiceInput(c, ev).item.index < c.count
  {
  }

  /** With no choices the bound wraps around, so Right moves the selection
      past every choice there is (and notifies). */
  lemma ChoiceEmptyRightEscapes(c: ChoiceItem, ev: InputEvent)
    requires c.count == 0 && c.index < SizeModulus - 1 && Acts(ev) && ev.key == Right
    ensures var r := ChoiceInput(c, ev);
            r.item.index == c.index + 1 && r.item.index >= c.count && r.notify
  {
  }

  function ChoiceRun(c: ChoiceItem, evs: seq<InputEvent>): (r: ChoiceItem)
    ensures r.count == c.count
    decreases |evs|
  {
    if evs == [] then c else ChoiceRun(ChoiceInput(c, evs[0]).item, evs[1..])
  }

  /** With at least one choice, no sequence of events leaves the range. */
  lemma {:induction false} ChoiceRunKeepsRange(c: ChoiceItem, evs: seq<InputEvent>)
    requires 0 < c.count && c.index < c.count
    ensures ChoiceRun(c, evs).index < c.count
    decreases |evs|
  {
    if evs != [] {
      ChoiceKeepsRange(c, evs[0]);
      ChoiceRunKeepsRange(ChoiceInput(c, evs[0]).item, evs[1..]);
    }
  }

  /** ChoiceMenuItem: up to 16 choice strings in a fixed array. */
  class ChoiceMenuItem {
    const name: string
    const choices: array<string>
    const count: ChoiceCount   // num_choices_
    var index: nat             // selected_index_
    var notifications: nat

    ghost predicate Valid()
      reads this
    {
      choices.Length == MaxChoices && (count > 0 ==> index < count)
    }

    function View(): ChoiceItem
      reads this
    {
      ChoiceItem(count, index)
    }

    /** Lines 176-184: at most 16 of the given choices are copied, in
        order, and the first is selected. */
    constructor (name: string, given: seq<string>, numChoices: nat)
      requires (if numChoices > MaxChoices then MaxChoices else numChoices) <= |given|
      ensures Valid() && fresh(choices)
      ensures count == (if numChoices > MaxChoices then MaxChoices else numChoices)
      ensures choices[..count] == given[..count]
      ensures this.name == name && index == 0 && notifications == 0
    {
      this.name := name;
      count := if numChoices > MaxChoices then MaxChoices else numChoices;
      choices := new string[MaxChoices](_ => "");
      index := 0;
      notifications := 0;
      new;
      var i := 0;
      while i < count
        modifies choices
        invariant 0 <= i <= count
        invariant choices[..i] == given[..i]
      {
        choices[i] := given[i];
        i := i + 1;
      }
    }

    method HandleInput(ev: InputEvent) returns (handled: bool)
      modifies this`index, this`notifications
      ensures old(Valid()) ==> Valid()
      ensures var r := ChoiceInput(old(View()), ev);
              && View() == r.item
              && handled == r.handled
              && notifications == old(notifications) + (if r.notify then 1 else 0)
    {
      if ev.kind != Short && ev.kind != Repeat {
        return false;
      }
      var changed := false;
      if ev.key == Right && index < LastIndex(count) {
        index := index + 1;
        changed := true;
      } else if ev.key == Left && index > 0 {
        index := index - 1;
        changed := true;
      }
      if changed {
        notifications := notifications + 1;
        return true;
      }
      return false;
    }

    /** get_value, lines 245-247: the selected choice, or the empty string
        when there are none. */
    function Value(): (s: string)
      reads this, choices
      requires Valid()
      ensures count == 0 ==> s == ""
      ensures count > 0 ==> s in choices[..count] && s == choices[index]
    {
      if count > 0 then choices[index] else ""
    }

    /** set_selected_index, lines 252-257: an index past the choices is
        ignored; a valid one is selected and notified. */
    method SetSelectedIndex(i: nat)
      requires Valid()
      modifies this`index, this`notifications
      ensures Valid()
      ensures i < count ==> index == i && notifications == old(notifications) + 1
      ensures i >= count ==> index == old(index) && notifications == old(notifications)
    {
      if i < count {
        index := i;
        notifications := notifications + 1;
      }
    }
  }

  // ---------------------------------------------------------------------
  // SimpleLineMenuItem
  // ---------------------------------------------------------------------

  /** A line of text that takes no input. */
  class SimpleLineMenuItem {
    const name: string

    constructor (name: string)
      ensures this.name == name
    {
      this.name := name;
    }

    /** handle_input, lines 32-34: every event is refused. */
    method HandleInput(ev: InputEvent) returns (handled: bool)
      ensures !handled
    {
      handled := false;
    }
  }
}
