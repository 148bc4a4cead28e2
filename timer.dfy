/** The game timer of the player page (public/js/timer.js): the status and
    remaining seconds the server's timer events drive, the one-second
    countdown, the `HH:MM:SS` / `MM:SS` display, the urgency colouring and the
    control buttons shown for each status. The socket, the clock and the
    page are parameters or left out. */
module Timer {

  import opened Wrappers
  import opened Js

  datatype Button = Start | Pause | Resume | Reset

  /** The urgency class on the timer containers. */
  datatype Urgency = Calm | Warning | Danger

  // ---------------------------------------------------------------- display

  /** `Math.floor(s / 3600)`, `Math.floor((s % 3600) / 60)` and `s % 60`. */
  function Fields(s: int): (int, int, int) {
    (s / 3600, JsRem(s, 3600) / 60, JsRem(s, 60))
  }

  /** `updateDisplay`'s text: hours only when there is at least one. */
  function Display(s: int): string {
    var (h, m, sec) := Fields(s);
    if h > 0 then Pad2(h) + ":" + Pad2(m) + ":" + Pad2(sec) else Pad2(m) + ":" + Pad2(sec)
  }

  /** For a non-negative count the three fields are hours, minutes below 60
      and seconds below 60 that add back up to the count. */
  lemma FieldsRecombine(s: nat)
    ensures var (h, m, sec) := Fields(s);
            h * 3600 + m * 60 + sec == s && 0 <= m < 60 && 0 <= sec < 60 && h >= 0
    ensures Fields(s).0 > 0 <==> s >= 3600
  {
    assert s % 3600 % 60 == s % 60;
  }

  /** Under an hour the display is `MM:SS`, and reads back as the seconds. */
  lemma DisplayUnderAnHour(s: nat)
    requires s < 3600
    ensures var t := Display(s);
            |t| == 5 && t[2] == ':' && DigitsValue(t[..2], 10) * 60 + DigitsValue(t[3..], 10) == s
  {
    FieldsRecombine(s);
    var (h, m, sec) := Fields(s);
    TwoFields(Pad2(m), Pad2(sec));
    Pad2Value(m);
    Pad2Value(sec);
  }

  /** From one hour up to a hundred, the display is `HH:MM:SS`, and reads
      back as the seconds. */
  lemma DisplayWithHours(s: nat)
    requires 3600 <= s < 360000
    ensures var t := Display(s);
            |t| == 8 && t[2] == ':' && t[5] == ':' &&
            DigitsValue(t[..2], 10) * 3600 + DigitsValue(t[3..5], 10) * 60 + DigitsValue(t[6..], 10) == s
  {
    FieldsRecombine(s);
    var (h, m, sec) := Fields(s);
    ThreeFields(Pad2(h), Pad2(m), Pad2(sec));
    Pad2Value(h);
    Pad2Value(m);
    Pad2Value(sec);
  }

  lemma TwoFields(a: string, b: string)
    requires |a| == 2 && |b| == 2
    ensures var t := a + ":" + b; |t| == 5 && t[2] == ':' && t[..2] == a && t[3..] == b
  {
    var t := a + ":" + b;
    assert t[..2] == a && t[3..] == b;
  }

  lemma ThreeFields(a: string, b: string, c: string)
    requires |a| == 2 && |b| == 2 && |c| == 2
    ensures var t := a + ":" + b + ":" + c;
            |t| == 8 && t[2] == ':' && t[5] == ':' && t[..2] == a && t[3..5] == b && t[6..] == c
  {
    var t := a + ":" + b + ":" + c;
    assert t[..2] == a && t[3..5] == b && t[6..] == c;
  }

  /** `updateVisualState`: danger in the last minute, warning in the last
      five, otherwise neither. */
  function UrgencyOf(s: int): Urgency {
    if s <= 60 then Danger else if s <= 300 then Warning else Calm
  }

  /** The three urgency states split the remaining seconds between them. */
  lemma UrgencyBands(s: int)
    ensures UrgencyOf(s) == Danger <==> s <= 60
    ensures UrgencyOf(s) == Warning <==> 60 < s <= 300
    ensures UrgencyOf(s) == Calm <==> 300 < s
  {
  }

  /** `updateButtonVisibility(status)`. */
  function Buttons(status: string): set<Button> {
    if status == "not_started" then {Start}
    else if status == "running" then {Pause, Reset}
    else if status == "paused" then {Resume, Reset}
    else {}
  }

  /** Start only before the timer runs, pause only while it runs, resume only
      while paused, reset in both of the latter; nothing once expired. */
  lemma ButtonsByStatus(status: string)
    ensures Start in Buttons(status) <==> status == "not_started"
    ensures Pause in Buttons(status) <==> status == "running"
    ensures Resume in Buttons(status) <==> status == "paused"
    ensures Reset in Buttons(status) <==> status == "running" || status == "paused"
    ensures status == "expired" ==> Buttons(status) == {}
  {
  }

  // ---------------------------------------------------------------- countdown

  /** The remaining seconds after one interval callback. */
  function TickValue(s: int, paused: bool): int {
    if !paused && s > 0 then s - 1 else s
  }

  function Ticks(s: int, n: nat): int {
    if n == 0 then s else Ticks(TickValue(s, false), n - 1)
  }

  /** Unpaused, `n` ticks take `n` seconds off and stop at zero. */
  lemma {:induction false} TicksCountDown(s: nat, n: nat)
    ensures Ticks(s, n) == Max(0, s - n)
    decreases n
  {
    if n > 0 {
      TicksCountDown(TickValue(s, false), n - 1);
    }
  }

  /** `parseInt(document.body.dataset.timerDuration) || 0`. */
  function DurationOf(attr: Option<string>): (d: int)
    ensures ParseOptInt(attr).NotInt? ==> d == 0
    ensures ParseOptInt(attr).Int? ==> d == ParseOptInt(attr).i
  {
    match ParseOptInt(attr) {
      case Int(i) => i
      case NotInt => 0
    }
  }

  /** `document.body.dataset.timerStatus || 'not_started'`. */
  function StatusOf(attr: Option<string>): (s: string)
    ensures s != ""
    ensures attr.Some? && attr.value != "" ==> s == attr.value
    ensures attr.None? || attr.value == "" ==> s == "not_started"
  {
    if attr.Some? && attr.value != "" then attr.value else "not_started"
  }

  /** `GameTimer`: `ticking` stands for a set `interval`, `display`, `urgency`
      and `buttons` for what the page shows. */
  class GameTimer {
    var enabled: bool
    var duration: int
    var status: string
    var startedAt: Option<int>
    var remaining: int
    var isPaused: bool
    var ticking: bool
    var display: string
    var urgency: Urgency
    var buttons: set<Button>

    /** An enabled timer always shows its remaining seconds and the buttons
        of its status. */
    ghost predicate Valid()
      reads this
    {
      enabled ==> display == Display(remaining) && buttons == Buttons(status)
    }

    /** The constructor, given the page's data attributes and, for a timer
        already running, the current time in milliseconds. */
    constructor (timerEnabled: bool, durationAttr: Option<string>, statusAttr: Option<string>,
                 startedAtAttr: Option<int>, now: int)
      ensures Valid()
      ensures enabled == timerEnabled && duration == DurationOf(durationAttr) && status == StatusOf(statusAttr)
      ensures startedAt == startedAtAttr && !isPaused
      ensures enabled && status == "running" && startedAt.Some? ==>
                remaining == Max(0, duration - (now - startedAt.value) / 1000) && ticking
      ensures !(enabled && status == "running" && startedAt.Some?) ==> remaining == duration && !ticking
    {
      enabled := timerEnabled;
      duration := DurationOf(durationAttr);
      status := StatusOf(statusAttr);
      startedAt := startedAtAttr;
      remaining := DurationOf(durationAttr);
      isPaused := false;
      ticking := false;
      display := "";
      urgency := Calm;
      buttons := {};
      new;
      if enabled {
        Init(now);
        buttons := Buttons(status);
      }
    }

    /** `init()`: a running timer with a start time resumes from the time
        already spent; any other shows its whole duration. */
    method Init(now: int)
      modifies this
      ensures status == old(status) && duration == old(duration) && startedAt == old(startedAt)
      ensures isPaused == old(isPaused) && enabled == old(enabled) && buttons == old(buttons)
      ensures urgency == old(urgency) && display == Display(remaining)
      ensures status == "running" && startedAt.Some? ==>
                remaining == Max(0, duration - (now - startedAt.value) / 1000) && ticking
      ensures !(status == "running" && startedAt.Some?) ==> remaining == duration && ticking == old(ticking)
    {
      if status == "running" && startedAt.Some? {
        CalculateRemainingTime(now);
        StartCountdown();
      } else {
        remaining := duration;
        display := Display(remaining);
      }
    }

    /** `calculateRemainingTime()`, given `Date.now()`: the duration less the
        whole seconds since the start, never below zero. */
    method CalculateRemainingTime(now: int)
      requires startedAt.Some?
      modifies this
      ensures startedAt == old(startedAt) && status == old(status) && duration == old(duration)
      ensures remaining == Max(0, duration - (now - startedAt.value) / 1000) && remaining >= 0
      ensures isPaused == old(isPaused) && ticking == old(ticking) && enabled == old(enabled)
      ensures display == old(display) && urgency == old(urgency) && buttons == old(buttons)
    {
      var elapsedSeconds := (now - startedAt.value) / 1000;
      remaining := Max(0, duration - elapsedSeconds);
    }

    /** `startCountdown()`: the interval is (re)started and the display updated. */
    method StartCountdown()
      modifies this
      ensures ticking && display == Display(remaining)
      ensures remaining == old(remaining) && status == old(status) && duration == old(duration)
      ensures startedAt == old(startedAt) && isPaused == old(isPaused) && enabled == old(enabled)
      ensures urgency == old(urgency) && buttons == old(buttons)
    {
      ticking := true;
      display := Display(remaining);
    }

    /** `stop()`. */
    method Stop()
      modifies this
      ensures !ticking
      ensures remaining == old(remaining) && status == old(status) && duration == old(duration)
      ensures startedAt == old(startedAt) && isPaused == old(isPaused) && enabled == old(enabled)
      ensures display == old(display) && urgency == old(urgency) && buttons == old(buttons)
    {
      ticking := false;
    }

    /** The interval callback: unless paused or at zero, one second off, the
        display and urgency updated, a sync request (`sync`) on every multiple
        of 30 seconds, and the interval stopped on reaching zero. */
    method Tick() returns (sync: bool)
      requires Valid() && ticking
      modifies this
      ensures Valid()
      ensures remaining == TickValue(old(remaining), old(isPaused))
      ensures !old(isPaused) && old(remaining) > 0 ==>
                sync == (remaining % 30 == 0) && urgency == UrgencyOf(remaining) && ticking == (remaining > 0)
      ensures old(isPaused) || old(remaining) <= 0 ==> !sync && urgency == old(urgency) && ticking
      ensures status == old(status) && duration == old(duration) && startedAt == old(startedAt)
      ensures isPaused == old(isPaused) && enabled == old(enabled) && buttons == old(buttons)
    {
      sync := false;
      if !isPaused && remaining > 0 {
        remaining := remaining - 1;
        display := Display(remaining);
        urgency := UrgencyOf(remaining);
        sync := remaining % 30 == 0;
        if remaining == 0 {
          Stop();
        }
      }
    }

    /** `handleTimerStarted(data)`: running from the server's start time, with
        the server's remaining seconds unless those are absent or zero. */
    method HandleTimerStarted(dataStartedAt: Option<int>, dataRemaining: Option<int>)
      requires Valid()
      modifies this
      ensures Valid()
      ensures status == "running" && startedAt == dataStartedAt && ticking
      ensures remaining == if dataRemaining.Some? && dataRemaining.value != 0 then dataRemaining.value else duration
      ensures duration == old(duration) && isPaused == old(isPaused) && enabled == old(enabled)
      ensures urgency == old(urgency) && buttons == Buttons("running")
    {
      status := "running";
      startedAt := dataStartedAt;
      remaining := if dataRemaining.Some? && dataRemaining.value != 0 then dataRemaining.value else duration;
      buttons := Buttons("running");
      StartCountdown();
    }

    /** `handlePaused()`: the countdown keeps its interval but stops counting. */
    method HandlePaused()
      requires Valid()
      modifies this
      ensures Valid()
      ensures status == "paused" && isPaused && buttons == Buttons("paused")
      ensures remaining == old(remaining) && ticking == old(ticking) && duration == old(duration)
      ensures startedAt == old(startedAt) && enabled == old(enabled)
      ensures display == old(display) && urgency == old(urgency)
    {
      status := "paused";
      isPaused := true;
      buttons := Buttons("paused");
    }

    /** `handleResumed(data)`: running again, adopting the server's remaining
        seconds only when the event carries them. */
    method HandleResumed(dataRemaining: Option<int>)
      requires Valid()
      modifies this
      ensures Valid()
      ensures status == "running" && !isPaused && buttons == Buttons("running")
      ensures remaining == dataRemaining.GetOr(old(remaining))
      ensures ticking == old(ticking) && duration == old(duration) && startedAt == old(startedAt)
      ensures enabled == old(enabled) && urgency == old(urgency)
    {
      status := "running";
      isPaused := false;
      if dataRemaining.Some? {
        remaining := dataRemaining.value;
      }
      buttons := Buttons("running");
      display := Display(remaining);
    }

    /** `handleReset(data)`: back to the whole duration, not started. */
    method HandleReset()
      requires Valid()
      modifies this
      ensures Valid()
      ensures status == "not_started" && startedAt == None && remaining == duration && !isPaused && !ticking
      ensures buttons == Buttons("not_started")
      ensures duration == old(duration) && enabled == old(enabled) && urgency == old(urgency)
    {
      status := "not_started";
      startedAt := None;
      remaining := duration;
      isPaused := false;
      Stop();
      display := Display(remaining);
      buttons := Buttons("not_started");
    }

    /** `resetToInitial()`. */
    method ResetToInitial()
      requires Valid()
      modifies this
      ensures Valid()
      ensures status == "not_started" && remaining == duration && !isPaused && !ticking
      ensures urgency == UrgencyOf(duration) && buttons == Buttons("not_started")
      ensures duration == old(duration) && startedAt == old(startedAt) && enabled == old(enabled)
    {
      Stop();
      status := "not_started";
      isPaused := false;
      remaining := duration;
      display := Display(remaining);
      urgency := UrgencyOf(remaining);
      buttons := Buttons("not_started");
    }

    /** `handleTimerUpdate(data)`: the server's remaining seconds, when given. */
    method HandleTimerUpdate(dataRemaining: Option<int>)
      requires Valid()
      modifies this
      ensures Valid()
      ensures dataRemaining.None? ==> remaining == old(remaining) && urgency == old(urgency)
      ensures dataRemaining.Some? ==> remaining == dataRemaining.value && urgency == UrgencyOf(remaining)
      ensures status == old(status) && ticking == old(ticking) && isPaused == old(isPaused)
      ensures duration == old(duration) && startedAt == old(startedAt) && enabled == old(enabled)
      ensures buttons == old(buttons)
    {
      if dataRemaining.Some? {
        remaining := dataRemaining.value;
        display := Display(remaining);
        urgency := UrgencyOf(remaining);
      }
    }

    /** `handleExpiry(data)`: stopped at zero. */
    method HandleExpiry()
      requires Valid()
      modifies this
      ensures Valid()
      ensures remaining == 0 && !ticking && display == "00:00"
      ensures status == old(status) && isPaused == old(isPaused) && duration == old(duration)
      ensures startedAt == old(startedAt) && enabled == old(enabled)
      ensures urgency == old(urgency) && buttons == old(buttons)
    {
      Stop();
      remaining := 0;
      display := Display(remaining);
    }
  }
}
