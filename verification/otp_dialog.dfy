/**
 The administrator's code-entry dialog of
 `components/auth/otp-verification-dialog.jsx`: six one-character slots,
 per-slot typing, paste, the verify guard, the five-minute countdown and its
 `m:ss` rendering. The one-second interval is modelled as `Tick` steps.
 */
module OtpDialog {
  import opened Optional
  import opened Text

  /** Number of code slots, and the countdown's starting value in seconds. */
  const SlotCount: nat := 6
  const Lifetime: int := 300

  const Cleared: seq<string> := ["", "", "", "", "", ""]

  datatype Dialog = Dialog(open: bool, slots: seq<string>, timeLeft: int, loading: bool)

  /** What typing or pasting produces: the new slots and the slot that
      receives focus, if focus moves. */
  datatype Edit = Edit(slots: seq<string>, focus: Option<nat>)

  /** The dialog as first rendered. */
  function Initial(open: bool): Dialog {
    Dialog(open, Cleared, Lifetime, false)
  }

  /** Six slots, each empty or a single digit. */
  predicate WellFormed(slots: seq<string>) {
    |slots| == SlotCount && forall i :: 0 <= i < |slots| ==> |slots[i]| <= 1 && AllDigits(slots[i])
  }

  /** The invariant every reachable dialog state keeps. */
  predicate Valid(d: Dialog) {
    WellFormed(d.slots) && 0 <= d.timeLeft <= Lifetime
  }

  /** `value.slice(-1)`: the last character, or nothing. */
  function LastChar(v: string): (r: string)
    ensures |r| <= 1 && (r == [] <==> v == [])
    ensures v != [] ==> r[0] == v[|v| - 1]
  {
    if v == [] then [] else [v[|v| - 1]]
  }

  /** `handleChange(index, value)`; `index` is one of the rendered slots. */
  function HandleChange(slots: seq<string>, index: nat, value: string): (r: Edit)
    requires index < |slots|
    ensures !AllDigits(value) ==> r == Edit(slots, None)
    ensures AllDigits(value) ==>
      |r.slots| == |slots| && r.slots[index] == LastChar(value) &&
      forall j :: 0 <= j < |slots| && j != index ==> r.slots[j] == slots[j]
    ensures r.focus.Some? <==> AllDigits(value) && value != [] && index < 5
    ensures r.focus.Some? ==> r.focus.value == index + 1
    ensures WellFormed(slots) ==> WellFormed(r.slots)
  {
    if !AllDigits(value) then Edit(slots, None)
    else
      var last := LastChar(value);
      assert AllDigits(last);
      Edit(slots[index := last], if value != [] && index < 5 then Some(index + 1) else None)
  }

  /** The pasted digits spread over the slots, the rest left empty. */
  function Spread(digits: string): (r: seq<string>)
    requires |digits| <= SlotCount && AllDigits(digits)
    ensures WellFormed(r)
    ensures forall i :: 0 <= i < SlotCount ==> (r[i] != [] <==> i < |digits|)
  {
    seq(SlotCount, i requires 0 <= i < SlotCount => if i < |digits| then [digits[i]] else [])
  }

  /** `handlePaste`: the first six characters, taken only if they are all
      digits and there is at least one. */
  function HandlePaste(slots: seq<string>, text: string): (r: Edit)
    ensures var p := if |text| <= SlotCount then text else text[..SlotCount];
      if p != [] && AllDigits(p) then
        r.slots == Spread(p) && Concat(r.slots) == p &&
        r.focus == Some(if |p| < 5 then |p| else 5)
      else r == Edit(slots, None)
  {
    var pasted := if |text| <= SlotCount then text else text[..SlotCount];
    if pasted == [] || !AllDigits(pasted) then Edit(slots, None)
    else
      SpreadJoin(pasted);
      Edit(Spread(pasted), Some(if |pasted| < 5 then |pasted| else 5))
  }

  /** Reading the slots back after a paste gives exactly the pasted digits. */
  lemma SpreadJoin(digits: string)
    requires |digits| <= SlotCount && AllDigits(digits)
    ensures Concat(Spread(digits)) == digits
  {
    var r := Spread(digits);
    SpreadJoinFrom(digits, r, 0);
  }

  lemma {:induction false} SpreadJoinFrom(digits: string, r: seq<string>, k: nat)
    requires |digits| <= SlotCount && AllDigits(digits) && r == Spread(digits)
    requires k <= SlotCount
    ensures Concat(r[k..]) == if k < |digits| then digits[k..] else []
    decreases SlotCount - k
  {
    if k < SlotCount {
      SpreadJoinFrom(digits, r, k + 1);
      assert r[k..][1..] == r[k + 1..];
      if k < |digits| {
        assert digits[k..] == [digits[k]] + digits[k + 1..];
      }
    }
  }

  /** `handleVerify` up to its `await`: the joined code goes to `onVerify`
      only when it has six characters, and then `loading` is set, which
      disables the inputs and the Verify button until the answer arrives. */
  function HandleVerify(d: Dialog): (r: (Dialog, Option<string>))
    ensures r.1.Some? <==> |Concat(d.slots)| == SlotCount
    ensures r.1.Some? ==> r.1.value == Concat(d.slots) && r.0 == d.(loading := true)
    ensures r.1.Some? ==> InputDisabled(r.0) && VerifyDisabled(r.0)
    ensures r.1.None? ==> r.0 == d
  {
    var code := Concat(d.slots);
    if |code| != SlotCount then (d, None) else (d.(loading := true), Some(code))
  }

  /** The rest of `handleVerify`, once `onVerify` has answered: `loading` is
      cleared and so are the slots, whatever the answer was. */
  function VerifyAnswered(d: Dialog): (r: Dialog)
    ensures !r.loading && r.slots == Cleared
    ensures r.open == d.open && r.timeLeft == d.timeLeft
    ensures VerifyDisabled(r)
  {
    assert Cleared[0] == [];
    d.(loading := false, slots := Cleared)
  }

  // ---------------------------------------------------------------------------
  // Countdown

  /** The `open` prop changes: only a change from closed to open restarts the
      countdown (the effect is keyed on `open`); the slots are left as they are. */
  function SetOpen(d: Dialog, open: bool): (r: Dialog)
    ensures r.open == open && r.slots == d.slots
    ensures open && !d.open ==> r.timeLeft == Lifetime
    ensures !(open && !d.open) ==> r.timeLeft == d.timeLeft
    ensures open == d.open ==> r == d
  {
    if open && !d.open then d.(open := true, timeLeft := Lifetime) else d.(open := open)
  }

  /** One interval tick: the countdown runs only while open and positive. */
  function Tick(d: Dialog): (r: Dialog)
    ensures d.open && d.timeLeft > 0 ==> r == d.(timeLeft := d.timeLeft - 1)
    ensures !(d.open && d.timeLeft > 0) ==> r == d
  {
    if !d.open || d.timeLeft <= 0 then d else d.(timeLeft := d.timeLeft - 1)
  }

  /** "Resend OTP": a fresh five minutes and empty slots. */
  function Resend(d: Dialog): (r: Dialog)
    ensures r.timeLeft == Lifetime && r.slots == Cleared
    ensures r.open == d.open && r.loading == d.loading
  {
    d.(timeLeft := Lifetime, slots := Cleared)
  }

  predicate InputDisabled(d: Dialog) {
    d.loading || d.timeLeft <= 0
  }

  predicate VerifyDisabled(d: Dialog) {
    d.loading || d.timeLeft <= 0 || exists i :: 0 <= i < |d.slots| && d.slots[i] == []
  }

  /** `n` ticks in a row. */
  function Ticks(d: Dialog, n: nat): Dialog
    decreases n
  {
    if n == 0 then d else Ticks(Tick(d), n - 1)
  }

  /** An open dialog counts down one per tick and stops at zero. */
  lemma {:induction false} CountdownStopsAtZero(d: Dialog, n: nat)
    requires d.open && d.timeLeft >= 0
    ensures Ticks(d, n).timeLeft == if d.timeLeft >= n then d.timeLeft - n else 0
    ensures Ticks(d, n).slots == d.slots
    decreases n
  {
    if n > 0 {
      CountdownStopsAtZero(Tick(d), n - 1);
    }
  }

  /** Five minutes of ticks after opening leave the dialog expired: input and
      the verify button are disabled until "Resend OTP". A dialog that was
      already open keeps its countdown, which never exceeds five minutes. */
  lemma ExpiresAfterLifetime(d: Dialog, extra: nat)
    requires 0 <= d.timeLeft <= Lifetime
    ensures var e := Ticks(SetOpen(d, true), Lifetime + extra);
      e.timeLeft == 0 && InputDisabled(e) && VerifyDisabled(e) &&
      !InputDisabled(Resend(e).(loading := false))
  {
    CountdownStopsAtZero(SetOpen(d, true), Lifetime + extra);
  }

  // ---------------------------------------------------------------------------
  // The verify button and the verify guard agree

  lemma {:induction false} ConcatLength(slots: seq<string>)
    requires forall i :: 0 <= i < |slots| ==> |slots[i]| <= 1
    ensures |Concat(slots)| <= |slots|
    ensures |Concat(slots)| == |slots| <==> forall i :: 0 <= i < |slots| ==> slots[i] != []
    decreases |slots|
  {
    if slots != [] {
      ConcatLength(slots[1..]);
      assert forall i :: 1 <= i < |slots| ==> slots[1..][i - 1] == slots[i];
    }
  }

  /** On well-formed slots the joined code has six characters exactly when no
      slot is empty, so an enabled Verify button always reaches `onVerify`. */
  lemma VerifyButtonMatchesGuard(d: Dialog)
    requires WellFormed(d.slots)
    ensures |Concat(d.slots)| == SlotCount <==> forall i :: 0 <= i < SlotCount ==> d.slots[i] != []
    ensures !VerifyDisabled(d) ==> HandleVerify(d).1.Some?
  {
    ConcatLength(d.slots);
  }

  // ---------------------------------------------------------------------------
  // Every interaction keeps the dialog valid

  datatype Action =
    | Change(index: nat, value: string)
    | Paste(text: string)
    | Verify
    | TickAction
    | ResendAction
    | OpenChange(open: bool)
    | Answer

  /** One interaction. A disabled input or button receives no event, and an
      answer arrives only for a submission that is waiting for one. */
  function Step(d: Dialog, a: Action): Dialog
    requires a.Change? ==> a.index < |d.slots|
  {
    match a
    case Change(i, v) => if InputDisabled(d) then d else d.(slots := HandleChange(d.slots, i, v).slots)
    case Paste(t) => if InputDisabled(d) then d else d.(slots := HandlePaste(d.slots, t).slots)
    case Verify => if VerifyDisabled(d) then d else HandleVerify(d).0
    case TickAction => Tick(d)
    case ResendAction => Resend(d)
    case OpenChange(o) => SetOpen(d, o)
    case Answer => if d.loading then VerifyAnswered(d) else d
  }

  lemma StepKeepsValid(d: Dialog, a: Action)
    requires Valid(d)
    requires a.Change? ==> a.index < SlotCount
    ensures Valid(Step(d, a))
  {
  }

  /** Any sequence of interactions from a freshly rendered dialog. */
  lemma {:induction false} RunKeepsValid(d: Dialog, actions: seq<Action>)
    requires Valid(d)
    requires forall k :: 0 <= k < |actions| ==> (actions[k].Change? ==> actions[k].index < SlotCount)
    ensures Valid(Run(d, actions))
    decreases |actions|
  {
    if actions != [] {
      StepKeepsValid(d, actions[0]);
      RunKeepsValid(Step(d, actions[0]), actions[1..]);
    }
  }

  function Run(d: Dialog, actions: seq<Action>): Dialog
    requires WellFormed(d.slots)
    requires forall k :: 0 <= k < |actions| ==> (actions[k].Change? ==> actions[k].index < SlotCount)
    decreases |actions|
  {
    if actions == [] then d
    else
      var next := Step(d, actions[0]);
      StepKeepsSlots(d, actions[0]);
      Run(next, actions[1..])
  }

  lemma StepKeepsSlots(d: Dialog, a: Action)
    requires WellFormed(d.slots)
    requires a.Change? ==> a.index < SlotCount
    ensures WellFormed(Step(d, a).slots)
  {
  }

  /** While a submission waits for its answer, nothing but the answer ends
      the wait: typing, pasting and Verify are ignored, so the code cannot be
      submitted a second time. */
  lemma StepWhileWaiting(d: Dialog, a: Action)
    requires WellFormed(d.slots) && d.loading && !a.Answer?
    requires a.Change? ==> a.index < SlotCount
    ensures Step(d, a).loading && VerifyDisabled(Step(d, a))
    ensures a.Change? || a.Paste? || a.Verify? ==> Step(d, a) == d
  {
  }

  /** Any run of interactions without the answer keeps the dialog waiting,
      with Verify disabled at its end. */
  lemma {:induction false} NoSecondSubmission(d: Dialog, actions: seq<Action>)
    requires WellFormed(d.slots) && d.loading
    requires forall k :: 0 <= k < |actions| ==> (actions[k].Change? ==> actions[k].index < SlotCount)
    requires forall k :: 0 <= k < |actions| ==> !actions[k].Answer?
    ensures Run(d, actions).loading && VerifyDisabled(Run(d, actions))
    decreases |actions|
  {
    if actions != [] {
      StepWhileWaiting(d, actions[0]);
      StepKeepsSlots(d, actions[0]);
      NoSecondSubmission(Step(d, actions[0]), actions[1..]);
    }
  }

  // ---------------------------------------------------------------------------
  // The countdown's rendering

  /** `padStart(2, "0")` on a one- or two-digit numeral. */
  function Pad2(s: string): string {
    if |s| < 2 then "0" + s else s
  }

  /** `formatTime(seconds)`: whole minutes, a colon, two-digit seconds. */
  function FormatTime(seconds: nat): (r: string)
    ensures 4 <= |r| && r[|r| - 3] == ':'
    ensures AllDigits(r[..|r| - 3]) && AllDigits(r[|r| - 2..])
  {
    var secs := NatToString(seconds % 60);
    NatToStringLength(seconds % 60, if seconds % 60 < 10 then 1 else 2);
    NatToString(seconds / 60) + ":" + Pad2(secs)
  }

  /** Reading an `m:ss` string back into seconds. */
  function ParseTime(t: string): Option<nat> {
    match IndexOf(t, ':')
    case None => None
    case Some(i) =>
      var mins := t[..i];
      var secs := t[i + 1..];
      if mins != [] && AllDigits(mins) && |secs| == 2 && AllDigits(secs) && DigitsValue(secs) < 60
      then Some(DigitsValue(mins) * 60 + DigitsValue(secs))
      else None
  }

  /** The rendering loses nothing: minutes * 60 + seconds gives the count back. */
  lemma FormatTimeRoundTrip(seconds: nat)
    ensures ParseTime(FormatTime(seconds)) == Some(seconds)
  {
    var m := NatToString(seconds / 60);
    var s := NatToString(seconds % 60);
    var r := FormatTime(seconds);
    assert r == m + ":" + Pad2(s);
    NatToStringRoundTrip(seconds / 60);
    NatToStringRoundTrip(seconds % 60);
    NatToStringLength(seconds % 60, if seconds % 60 < 10 then 1 else 2);
    assert ':' !in m;
    assert r[|m|] == ':';
    assert r[..|m|] == m;
    assert r[|m| + 1..] == Pad2(s);
    assert IndexOf(r, ':') == Some(|m|);
    if |s| < 2 {
      assert DigitsValue(Pad2(s)) == DigitsValue(s) by {
        assert Pad2(s)[..1] == "0";
      }
    }
  }

  /** The dialog shows "5:00" when it opens. */
  lemma OpensAtFiveMinutes()
    ensures FormatTime(Lifetime) == "5:00"
  {
  }
}
