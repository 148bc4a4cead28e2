/** The hours/minutes wheel picker of the new-game form
    (public/js/timer-picker.js): the two selected values, the total in
    seconds they stand for, setting them from a total with clamping, and the
    change events, which are sent only when the total changes. Scrolling,
    geometry and markup are left out. */
module Picker {

  import opened Wrappers
  import opened Js

  /** The largest hour and minute on the wheels. */
  const MaxHours := 12
  const MaxMinutes := 59

  /** The `timerPickerChange` event detail. */
  datatype Change = Change(hours: int, minutes: int, totalSeconds: int)

  /** A wheel entry: one of the blank padding rows, or a value with its
      two-digit label. */
  datatype WheelItem = Padding | Item(value: int, text: string)

  /** `getValue()` for the given wheel values. */
  function Value(hours: int, minutes: int): int {
    hours * 3600 + minutes * 60
  }

  /** `getDisplayValue()` for the given wheel values. */
  function DisplayValue(hours: int, minutes: int): string {
    Pad2(hours) + ":" + Pad2(minutes) + ":00"
  }

  /** The hours and minutes `setValue(totalSeconds)` stores: whole hours and
      the whole minutes left over, each clamped to its wheel's largest value. */
  function FromSeconds(totalSeconds: int): (hm: (int, int))
    ensures hm.0 <= MaxHours && hm.1 <= MaxMinutes
    ensures totalSeconds >= 0 ==> hm.0 >= 0 && hm.1 >= 0
    ensures 0 <= totalSeconds < (MaxHours + 1) * 3600 ==>
              0 <= totalSeconds - Value(hm.0, hm.1) < 60
  {
    (Min(totalSeconds / 3600, MaxHours), Min(JsRem(totalSeconds, 3600) / 60, MaxMinutes))
  }

  /** Setting a value the wheels can show and reading it back gives it again. */
  lemma SetThenGet(hours: int, minutes: int)
    requires 0 <= hours <= MaxHours && 0 <= minutes <= MaxMinutes
    ensures FromSeconds(Value(hours, minutes)) == (hours, minutes)
  {
    var t := Value(hours, minutes);
    assert t / 3600 == hours && t % 3600 == minutes * 60;
  }

  /** Reading the wheels and setting the result changes nothing. */
  lemma GetThenSet(totalSeconds: int)
    requires 0 <= totalSeconds
    ensures var (h, m) := FromSeconds(totalSeconds); FromSeconds(Value(h, m)) == (h, m)
  {
    var (h, m) := FromSeconds(totalSeconds);
    SetThenGet(h, m);
  }

  /** From 13 hours up the hours wheel stays at 12. */
  lemma SetClamps(totalSeconds: int)
    requires totalSeconds >= 13 * 3600
    ensures FromSeconds(totalSeconds).0 == MaxHours
  {
  }

  /** The display value is `HH:MM:00`, two digits each, and reads back as the
      wheel values. */
  lemma DisplayValueFormat(hours: int, minutes: int)
    requires 0 <= hours <= MaxHours && 0 <= minutes <= MaxMinutes
    ensures var t := DisplayValue(hours, minutes);
            |t| == 8 && t[2] == ':' && t[5] == ':' && t[6..] == "00" &&
            DigitsValue(t[..2], 10) == hours && DigitsValue(t[3..5], 10) == minutes
  {
    var t := DisplayValue(hours, minutes);
    assert t[..2] == Pad2(hours) && t[3..5] == Pad2(minutes) && t[6..] == "00";
    Pad2Value(hours);
    Pad2Value(minutes);
  }

  /** The de-duplication at the head of `emitChange`: a new event only for a
      total other than the last one sent. */
  function Emit(last: Option<int>, log: seq<Change>, hours: int, minutes: int): (r: (Option<int>, seq<Change>))
    ensures r.0 == Some(Value(hours, minutes))
    ensures last == Some(Value(hours, minutes)) ==> r.1 == log
    ensures last != Some(Value(hours, minutes)) ==> r.1 == log + [Change(hours, minutes, Value(hours, minutes))]
  {
    var total := Value(hours, minutes);
    if last == Some(total) then (last, log)
    else (Some(total), log + [Change(hours, minutes, total)])
  }

  /** Emitting twice without a change in between sends one event. */
  lemma EmitOnce(last: Option<int>, log: seq<Change>, hours: int, minutes: int)
    ensures var (last1, log1) := Emit(last, log, hours, minutes);
            Emit(last1, log1, hours, minutes) == (last1, log1) && |log1| <= |log| + 1
  {
  }

  /** `TimerPicker`. `hasContainer` is whether the container element was
      found; `emitted` are the change events dispatched so far. */
  class TimerPicker {
    var hasContainer: bool
    var hours: int
    var minutes: int
    var lastEmitted: Option<int>
    var emitted: seq<Change>

    /** Every event carries the total of its hours and minutes, and the last
        one sent is the one remembered. */
    ghost predicate Valid()
      reads this
    {
      (forall k :: 0 <= k < |emitted| ==> emitted[k].totalSeconds == Value(emitted[k].hours, emitted[k].minutes)) &&
      (emitted == [] <==> lastEmitted == None) &&
      (emitted != [] ==> lastEmitted == Some(emitted[|emitted| - 1].totalSeconds))
    }

    /** The constructor: 0 hours and 5 minutes, and with a container one
        change event for that value from `init()`. */
    constructor (containerFound: bool)
      ensures Valid() && hasContainer == containerFound && hours == 0 && minutes == 5
      ensures containerFound ==> emitted == [Change(0, 5, 300)]
      ensures !containerFound ==> emitted == []
    {
      hasContainer := containerFound;
      hours := 0;
      minutes := 5;
      lastEmitted := None;
      emitted := [];
      new;
      EmitChange();
    }

    function GetValue(): int
      reads this
    {
      Value(hours, minutes)
    }

    function GetDisplayValue(): string
      reads this
    {
      DisplayValue(hours, minutes)
    }

    /** `emitChange()`. */
    method EmitChange()
      requires Valid()
      modifies this
      ensures Valid()
      ensures hasContainer ==> (lastEmitted, emitted) == Emit(old(lastEmitted), old(emitted), hours, minutes)
      ensures !hasContainer ==> lastEmitted == old(lastEmitted) && emitted == old(emitted)
      ensures hasContainer == old(hasContainer) && hours == old(hours) && minutes == old(minutes)
    {
      if !hasContainer {
        return;
      }
      var totalSeconds := GetValue();
      if lastEmitted == Some(totalSeconds) {
        return;
      }
      lastEmitted := Some(totalSeconds);
      emitted := emitted + [Change(hours, minutes, totalSeconds)];
    }

    /** `setValue(totalSeconds)`: the wheels are set to the clamped hours and
        minutes and a change event is sent if the total changed. Without a
        container `init` built no wheels, so `setupWheel(null, ...)` throws
        once the values are stored: `completed` is false and no event is sent. */
    method SetValue(totalSeconds: int) returns (completed: bool)
      requires Valid()
      modifies this
      ensures Valid()
      ensures completed == hasContainer
      ensures (hours, minutes) == FromSeconds(totalSeconds)
      ensures completed ==> (lastEmitted, emitted) == Emit(old(lastEmitted), old(emitted), hours, minutes)
      ensures !completed ==> lastEmitted == old(lastEmitted) && emitted == old(emitted)
      ensures hasContainer == old(hasContainer)
    {
      var h := totalSeconds / 3600;
      var m := JsRem(totalSeconds, 3600) / 60;
      hours := Min(h, MaxHours);
      minutes := Min(m, MaxMinutes);
      if !hasContainer {
        // getWheelMetrics(null) reads `null.querySelector`
        return false;
      }
      EmitChange();
      return true;
    }

    /** `resetToDefault()`: five minutes; it throws as `setValue` does
        without a container. */
    method ResetToDefault() returns (completed: bool)
      requires Valid()
      modifies this
      ensures Valid()
      ensures completed == hasContainer
      ensures hours == 0 && minutes == 5 && GetValue() == 300
      ensures completed ==> (lastEmitted, emitted) == Emit(old(lastEmitted), old(emitted), 0, 5)
      ensures !completed ==> lastEmitted == old(lastEmitted) && emitted == old(emitted)
      ensures hasContainer == old(hasContainer)
    {
      completed := SetValue(300);
    }

    /** `updateSelectedValue(wheel)` once the wheel has settled on an item
        whose `data-value` is `itemValue` (`None` for no item or a padding
        row): the value is taken unless it does not parse, and a change event
        follows when the total changed. */
    method UpdateSelectedValue(hoursWheel: bool, itemValue: Option<string>)
      requires Valid()
      modifies this
      ensures Valid()
      ensures var v := ParseOptDecimal(itemValue);
              (hours, minutes) == if v.NotInt? then (old(hours), old(minutes))
                                  else if hoursWheel then (v.i, old(minutes)) else (old(hours), v.i)
      ensures GetValue() == Value(old(hours), old(minutes)) ==> lastEmitted == old(lastEmitted) && emitted == old(emitted)
      ensures GetValue() != Value(old(hours), old(minutes)) && hasContainer ==>
                (lastEmitted, emitted) == Emit(old(lastEmitted), old(emitted), hours, minutes)
      ensures !hasContainer ==> lastEmitted == old(lastEmitted) && emitted == old(emitted)
      ensures hasContainer == old(hasContainer)
    {
      var previousValue := GetValue();
      var value := ParseOptDecimal(itemValue);
      if value.Int? {
        if hoursWheel {
          hours := value.i;
        } else {
          minutes := value.i;
        }
      }
      if GetValue() != previousValue {
        EmitChange();
      }
    }
  }

  /** Value rows for `min`, `min + 1`, ... with their two-digit labels. */
  predicate ValueRows(rows: seq<WheelItem>, min: int) {
    forall k :: 0 <= k < |rows| ==> rows[k] == Item(min + k, Pad2(min + k))
  }

  /** `generateWheelItems(min, max)`: two padding rows, the values from `min`
      to `max` with their two-digit labels, two padding rows. */
  method GenerateWheelItems(min: int, max: int) returns (items: seq<WheelItem>)
    ensures var n := if max >= min then max - min + 1 else 0;
            |items| == n + 4 && items[..2] == [Padding, Padding] && items[n + 2..] == [Padding, Padding] &&
            ValueRows(items[2..n + 2], min)
  {
    items := [Padding, Padding];
    var i := min;
    while i <= max
      invariant min <= i && (i <= max + 1 || i == min)
      invariant |items| == i - min + 2 && items[..2] == [Padding, Padding]
      invariant ValueRows(items[2..], min)
      decreases max - i
    {
      items := items + [Item(i, Pad2(i))];
      i := i + 1;
    }
    var n := |items| - 2;
    items := items + [Padding, Padding];
  }
}
