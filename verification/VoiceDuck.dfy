/**
 Ducking the music while a voice speaks: the duck keeps a receipt of the level
 it replaced, and gives it back only if the control still holds what it installed.
 */
module VoiceDuck {
  import opened Bytes

  const SOFTVOL_MAX := 255
  // round(20 log10(0.4) * 255 / 51): the soft duck on the control's 0.2 dB scale.
  const DUCK_STEPS := 40

  type Level = x: int | 0 <= x <= SOFTVOL_MAX

  // The two channels of the ALSA control.
  datatype Pair = Pair(left: Level, right: Level)

  // How the write half of a compare-and-swap ends: a failed write may or may not
  // have reached the control, a failed read has changed nothing.
  datatype Swap = Works | ReadFails | WriteFails(taken: bool)

  // What the outside answers during one call: whether music is playing, whether
  // the control opens and can be read, what it holds by the time of the swap,
  // and how the swap ends.
  datatype Answers = Answers(playing: bool, opens: bool, readable: bool, now: Pair, swap: Swap)

  datatype State = State(ready: bool, wanted: bool, held: bool, before: Pair, after: Pair, control: Pair)

  datatype Swapped = Changed | Refused | Broken

  // voiceMusicLevel
  function VoiceLevel(value: Level): Level {
    if value < DUCK_STEPS then 0 else value - DUCK_STEPS
  }

  function Ducked(base: Pair): Pair {
    Pair(VoiceLevel(base.left), VoiceLevel(base.right))
  }

  // CompareAndSwapChannels: what the control holds afterwards, and the result.
  function CompareAndSwap(now: Pair, expected: Pair, target: Pair, swap: Swap): (Pair, Swapped) {
    match swap
    case ReadFails => (now, Broken)
    case Works => if now == expected then (target, Changed) else (now, Refused)
    case WriteFails(taken) =>
      if now != expected then (now, Refused) else (if taken then target else now, Broken)
  }

  // ------------------------------------------------------------------ the calls, as functions

  function ApplyTo(s: State, current: Pair, base: Pair, a: Answers): (State, bool) {
    var (control, swapped) := CompareAndSwap(a.now, current, Ducked(base), a.swap);
    (s.(before := base, after := Ducked(base), held := swapped != Refused, control := control), swapped == Changed)
  }

  // SetActive: the new state, and whether nil is returned.
  function Activate(s: State, active: bool, a: Answers): (State, bool) {
    var s1 := s.(wanted := active);
    if (!active && !s.held) || (active && !s.held && !a.playing) then (s1, true)
    else if !s.ready && !a.opens then (s1, false)
    else
      var s2 := s1.(ready := true);
      if !a.readable then (s2, false)
      else if !active then
        if s.control != s.after then (s2.(held := false, control := a.now), true)
        else
          var (control, swapped) := CompareAndSwap(a.now, s.control, s.before, a.swap);
          (s2.(control := control, held := swapped == Broken), swapped == Changed)
      else if s.held && s.control == s.after then (s2.(control := a.now), true)
      else ApplyTo(s2, s.control, s.control, a)
  }

  // Write, of a level in range.
  function Dial(s: State, value: Level, a: Answers): (State, bool) {
    var target := Pair(value, value);
    if !s.ready || !a.readable then (s, false)
    else if s.wanted && a.playing then ApplyTo(s, s.control, target, a)
    else
      var (control, swapped) := CompareAndSwap(a.now, s.control, target, a.swap);
      (s.(control := control, held := s.held && swapped == Broken), swapped == Changed)
  }

  // Read: the reported level, if any.
  function Report(s: State, a: Answers): (State, Option<Level>) {
    if !s.ready || !a.readable then (s, None)
    else if s.held && s.control == s.after then (s, Some(s.before.left))
    else (s.(held := false), Some(s.control.left))
  }

  // ------------------------------------------------------------------ no outside writers

  predicate Undisturbed(s: State, a: Answers) {
    a.now == s.control
  }

  // The receipt is good: without one the control holds the level intended, with
  // one the level intended can be had back.
  predicate Kept(s: State, intended: Pair) {
    if s.held then
      s.ready && s.before == intended && s.after == Ducked(intended) && (s.control == s.after || s.control == intended)
    else s.control == intended
  }

  // Forty steps of 0.2 dB quieter on both channels, as far as there is room.
  predicate IsQuieter(quiet: Pair, loud: Pair) {
    && quiet.left == (if loud.left < 40 then 0 else loud.left - 40)
    && quiet.right == (if loud.right < 40 then 0 else loud.right - 40)
  }

  // SetActive keeps the intended level within reach whatever fails, and once it
  // has ended the voice phase without error the control holds it.  It fails when
  // there is something to do and the control cannot be opened, read or written.
  lemma ActivationKeepsLevel(s: State, intended: Pair, active: bool, a: Answers)
    requires Kept(s, intended) && Undisturbed(s, a)
    ensures var (s', ok) := Activate(s, active, a);
            && Kept(s', intended)
            && (ok && !active ==> !s'.held && s'.control == intended)
            && (ok && active && a.playing ==> s'.held && IsQuieter(s'.control, intended))
            && s'.wanted == active
            && var idle := !s.held && (!active || !a.playing);
               && (idle ==> ok && s'.control == s.control && s'.ready == s.ready)
               && (!idle ==> s'.ready == (s.ready || a.opens))
               && (a.swap == Works ==> (ok <==> idle || (s'.ready && a.readable)))
  {
  }

  // A dial write that meets no failing ioctl makes its level the intended one,
  // audibly at once when nothing is ducked, at the end of the voice phase else.
  lemma DialMovesLevel(s: State, intended: Pair, value: Level, a: Answers)
    requires Kept(s, intended) && Undisturbed(s, a) && a.swap == Works
    ensures var (s', ok) := Dial(s, value, a);
            && Kept(s', if ok then Pair(value, value) else intended)
            && (ok <==> s.ready && a.readable)
            && (ok && !s'.held ==> s'.control == Pair(value, value))
            && (ok && s.wanted && a.playing ==> s'.held && IsQuieter(s'.control, Pair(value, value)))
            && s'.wanted == s.wanted && s'.ready == s.ready
  {
  }

  // Reading back reports the dial, not the duck.
  lemma ReportIsDial(s: State, intended: Pair, a: Answers)
    requires Kept(s, intended) && Undisturbed(s, a)
    ensures var (s', level) := Report(s, a);
            && Kept(s', intended) && s'.wanted == s.wanted
            && level == if s.ready && a.readable then Some(intended.left) else None
  {
  }

  // A dial write whose swap fails while a voice speaks leaves a receipt for a
  // level that was never installed.  Ending the voice phase then finds the old or
  // the new level exactly when the write was a plain one, or got through after
  // all, or the control already held the new level or its ducked form, or was not
  // ducked at all.
  lemma FailedDialIsRecoveredIff(s: State, intended: Pair, value: Level, a: Answers, end: Answers)
    requires Kept(s, intended) && Undisturbed(s, a) && s.ready && a.readable && a.swap != Works
    requires var s' := Dial(s, value, a).0; Undisturbed(s', end) && end.readable && end.swap == Works
    ensures var target := Pair(value, value);
            var (ended, ok) := Activate(Dial(s, value, a).0, false, end);
            && ok && !ended.held
            && (ended.control == intended || ended.control == target
                <==> || !(s.wanted && a.playing) || a.swap == WriteFails(true)
                     || s.control in {intended, target, Ducked(target)})
  {
  }

  lemma FailedDialCanBeLost() returns (s: State, intended: Pair, value: Level, a: Answers)
    ensures Kept(s, intended) && Undisturbed(s, a) && a.swap == WriteFails(false)
    ensures var s' := Dial(s, value, a).0;
            var ended := Activate(s', false, Answers(false, true, true, s'.control, Works)).0;
            ended.control != intended && ended.control != Pair(value, value)
  {
    intended, value := Pair(200, 200), 100;
    s := State(true, true, true, intended, Ducked(intended), Ducked(intended));
    a := Answers(true, true, true, s.control, WriteFails(false));
  }

  // ------------------------------------------------------------------ runs

  // A call, with what the outside answers during it, or an outside write between calls.
  datatype Event =
    | SetActiveCall(active: bool, answers: Answers)
    | DialCall(value: Level, answers: Answers)
    | ReportCall(answers: Answers)
    | OutsideWrite(level: Pair)

  function After(s: State, event: Event): State {
    match event
    case SetActiveCall(active, a) => Activate(s, active, a).0
    case DialCall(value, a) => Dial(s, value, a).0
    case ReportCall(a) => Report(s, a).0
    case OutsideWrite(level) => s.(control := level)
  }

  function AfterAll(s: State, events: seq<Event>): State
    decreases |events|
  {
    if events == [] then s else AfterAll(After(s, events[0]), events[1..])
  }

  // The level dialled with success in an event, or the one there was.
  function Dialled(s: State, intended: Pair, event: Event): Pair {
    match event
    case DialCall(value, a) => if Dial(s, value, a).1 then Pair(value, value) else intended
    case _ => intended
  }

  // The last level dialled with success, or the one there was at first.
  function Intended(s: State, intended: Pair, events: seq<Event>): Pair
    decreases |events|
  {
    if events == [] then intended
    else Intended(After(s, events[0]), Dialled(s, intended, events[0]), events[1..])
  }

  // No outside writer anywhere, and no dial write meets a failing ioctl.
  predicate Quiet(s: State, events: seq<Event>)
    decreases |events|
  {
    events != [] ==>
      && !events[0].OutsideWrite?
      && Undisturbed(s, events[0].answers)
      && (events[0].DialCall? ==> events[0].answers.swap == Works)
      && Quiet(After(s, events[0]), events[1..])
  }

  lemma {:induction false} RunsKeepLevel(s: State, intended: Pair, events: seq<Event>)
    requires Kept(s, intended) && Quiet(s, events)
    ensures Kept(AfterAll(s, events), Intended(s, intended, events))
    decreases |events|
  {
    if events != [] {
      match events[0] {
        case SetActiveCall(active, a) => ActivationKeepsLevel(s, intended, active, a);
        case DialCall(value, a) => DialMovesLevel(s, intended, value, a);
        case ReportCall(a) => ReportIsDial(s, intended, a);
      }
      RunsKeepLevel(After(s, events[0]), Dialled(s, intended, events[0]), events[1..]);
    }
  }

  // From an unducked control, a voice phase of any calls that ends without error
  // leaves both channels at the last dialled level, or at the original pair.
  lemma VoicePhaseRestores(s: State, events: seq<Event>, end: Answers)
    requires !s.held && Quiet(s, events)
    requires Undisturbed(AfterAll(s, events), end) && Activate(AfterAll(s, events), false, end).1
    ensures Activate(AfterAll(s, events), false, end).0.control == Intended(s, s.control, events)
  {
    RunsKeepLevel(s, s.control, events);
    ActivationKeepsLevel(AfterAll(s, events), Intended(s, s.control, events), false, end);
  }

  // The phase, read off the calls: a voice speaks from a SetActive(true) up to the
  // next SetActive(false).
  predicate Sets(event: Event, active: bool) {
    event.SetActiveCall? && event.active == active
  }

  ghost predicate Speaking(events: seq<Event>) {
    exists i :: 0 <= i < |events| && Sets(events[i], true)
                && forall j :: i < j < |events| ==> !Sets(events[j], false)
  }

  lemma {:induction false} AfterAllAppend(s: State, events: seq<Event>, event: Event)
    ensures AfterAll(s, events + [event]) == After(AfterAll(s, events), event)
    decreases |events|
  {
    hide After;
    if events == [] {
      assert [event][1..] == [] && AfterAll(s, [event]) == AfterAll(After(s, event), []);
    } else {
      assert (events + [event])[1..] == events[1..] + [event];
      AfterAllAppend(After(s, events[0]), events[1..], event);
    }
  }

  lemma SpeakingAppend(events: seq<Event>, event: Event)
    ensures Speaking(events + [event]) <==> Sets(event, true) || (Speaking(events) && !Sets(event, false))
  {
    var longer, n := events + [event], |events|;
    if Sets(event, true) {
      assert Sets(longer[n], true);
    } else if Sets(event, false) {
      assert Sets(longer[n], false);
    } else {
      if Speaking(events) {
        var i :| 0 <= i < n && Sets(events[i], true) && forall j :: i < j < n ==> !Sets(events[j], false);
        assert Sets(longer[i], true);
      }
      if Speaking(longer) {
        var i :| 0 <= i <= n && Sets(longer[i], true) && forall j :: i < j <= n ==> !Sets(longer[j], false);
        assert i < n && Sets(events[i], true);
        assert forall j :: i < j < n ==> longer[j] == events[j];
      }
    }
  }

  // Every run leaves the phase of its calls on record.
  lemma {:induction false} PhaseIsRecorded(s: State, events: seq<Event>)
    requires !s.wanted
    ensures AfterAll(s, events).wanted <==> Speaking(events)
    decreases |events|
  {
    if events != [] {
      var n := |events| - 1;
      assert events == events[..n] + [events[n]];
      PhaseIsRecorded(s, events[..n]);
      AfterAllAppend(s, events[..n], events[n]);
      SpeakingAppend(events[..n], events[n]);
      assert !Speaking([]);
    }
  }

  // In every quiet run a dial write that succeeds while a voice speaks over music
  // leaves the music quieter than the dial by the duck, with a receipt for the level
  // dialled; at any other time it leaves that level and no receipt.
  lemma DialFollowsPhase(s: State, events: seq<Event>, value: Level, a: Answers)
    requires !s.held && !s.wanted && Quiet(s, events)
    requires Undisturbed(AfterAll(s, events), a) && a.swap == Works
    ensures var t := AfterAll(s, events);
            var (t', ok) := Dial(t, value, a);
            && (ok <==> t.ready && a.readable)
            && (ok ==>
                  if Speaking(events) && a.playing
                  then t'.held && t'.before == Pair(value, value) && IsQuieter(t'.control, Pair(value, value))
                  else !t'.held && t'.control == Pair(value, value))
  {
    PhaseIsRecorded(s, events);
    RunsKeepLevel(s, s.control, events);
  }

  // ------------------------------------------------------------------ outside writers

  // The control takes the new pair, whatever is reported.
  predicate Stores(expected: Pair, a: Answers) {
    a.now == expected && (a.swap == Works || a.swap == WriteFails(true))
  }

  // Ending the voice phase gets as far as reading the control, and as far as
  // storing something into it.
  predicate Reaches(s: State, a: Answers) {
    s.held && (s.ready || a.opens) && a.readable
  }

  predicate Restores(s: State, a: Answers) {
    Reaches(s, a) && s.control == s.after && Stores(s.control, a)
  }

  // One call, whatever others write during it: it stores nothing but the pair of
  // its receipt, and only over the pair of its receipt; else the control is left
  // to the others.
  lemma RestoreSparesOthers(s: State, a: Answers)
    ensures var control := Activate(s, false, a).0.control;
            if Restores(s, a) then s.held && a.now == s.after && control == s.before
            else control == if Reaches(s, a) then a.now else s.control
  {
  }

  // An attempt to duck: the pair to come back to, the pair to install, how the
  // swap ended, and whether the control took the pair.
  datatype Attempt = Attempt(base: Pair, target: Pair, swap: Swap, stored: bool)

  // The attempt an event makes, if it makes one.
  function AttemptOf(s: State, event: Event): Option<Attempt> {
    match event
    case SetActiveCall(active, a) =>
      if active && (s.held || a.playing) && (s.ready || a.opens) && a.readable && !(s.held && s.control == s.after)
      then Some(Attempt(s.control, Ducked(s.control), a.swap, Stores(s.control, a)))
      else None
    case DialCall(value, a) =>
      if s.ready && a.readable && s.wanted && a.playing
      then Some(Attempt(Pair(value, value), Ducked(Pair(value, value)), a.swap, Stores(s.control, a)))
      else None
    case _ => None
  }

  function LastAttempt(s: State, last: Option<Attempt>, events: seq<Event>): Option<Attempt>
    decreases |events|
  {
    if events == [] then last
    else
      var attempt := AttemptOf(s, events[0]);
      LastAttempt(After(s, events[0]), if attempt.Some? then attempt else last, events[1..])
  }

  // A held receipt is that of the last attempt, whose swap was not refused.
  predicate Receipted(s: State, last: Option<Attempt>) {
    s.held ==>
      && s.ready && last.Some?
      && s.before == last.value.base && s.after == last.value.target
      && (last.value.stored <==> last.value.swap == Works || last.value.swap == WriteFails(true))
  }

  lemma {:induction false} RunsKeepReceipt(s: State, last: Option<Attempt>, events: seq<Event>)
    requires Receipted(s, last)
    ensures Receipted(AfterAll(s, events), LastAttempt(s, last, events))
    decreases |events|
  {
    if events != [] {
      var attempt := AttemptOf(s, events[0]);
      RunsKeepReceipt(After(s, events[0]), if attempt.Some? then attempt else last, events[1..]);
    }
  }

  // Over every run, with outside writers anywhere between and during the calls: a
  // restore replaces nothing but the pair the last attempt to duck was for, by the
  // pair that attempt found or was given.
  lemma RestoreReplacesLastAttempt(s: State, events: seq<Event>, a: Answers)
    requires !s.held
    ensures var t := AfterAll(s, events);
            var last := LastAttempt(s, None, events);
            Restores(t, a) ==>
              && last.Some? && a.now == t.control == last.value.target
              && Activate(t, false, a).0.control == last.value.base
  {
    RunsKeepReceipt(s, None, events);
    RestoreSparesOthers(AfterAll(s, events), a);
  }

  // No outside write can make a restore replace a pair that the receipt's own
  // attempt did not install, exactly if nothing is held or that attempt's swap
  // succeeded or failed after the write had got through.
  lemma RestoreReplacesItsOwnIff(s: State, events: seq<Event>)
    requires !s.held
    ensures var t := AfterAll(s, events);
            var last := LastAttempt(s, None, events);
            && (t.held ==> last.Some?)
            && ((forall level, a :: Restores(After(t, OutsideWrite(level)), a) ==> last.Some? && last.value.stored)
                <==> !t.held || last.value.swap == Works || last.value.swap == WriteFails(true))
  {
    var t := AfterAll(s, events);
    var last := LastAttempt(s, None, events);
    RunsKeepReceipt(s, None, events);
    if t.held {
      var foreign := After(t, OutsideWrite(t.after));
      assert Restores(foreign, Answers(true, true, true, t.after, Works));
    }
  }

  // After a swap that read nothing and wrote nothing, an outside write of what
  // would have been the ducked pair is taken for the duck's own and replaced.
  lemma RestoreCanReplaceForeign() returns (s: State, events: seq<Event>, a: Answers)
    ensures !s.held && s.control == Pair(200, 200)
    ensures |events| == 2 && events[1] == OutsideWrite(Pair(160, 160))
    ensures var t := AfterAll(s, events);
            var last := LastAttempt(s, None, events);
            && last.Some? && last.value.swap == ReadFails && !last.value.stored
            && AfterAll(s, events[..1]).control == Pair(200, 200)
            && Restores(t, a) && a.now == Pair(160, 160)
            && Activate(t, false, a).0.control == Pair(200, 200)
  {
    var pair, other := Pair(200, 200), Pair(160, 160);
    s := State(true, false, false, pair, pair, pair);
    events := [SetActiveCall(true, Answers(true, true, true, pair, ReadFails)), OutsideWrite(other)];
    a := Answers(true, true, true, other, Works);
    var s1 := After(s, events[0]);
    var attempt := AttemptOf(s, events[0]);
    var later := events[1..];
    assert attempt == Some(Attempt(pair, Ducked(pair), ReadFails, false));
    assert s1 == State(true, true, true, pair, other, pair);
    assert later[1..] == [] && later[0] == OutsideWrite(other);
    assert AfterAll(s, events) == AfterAll(s1, later) == AfterAll(After(s1, later[0]), later[1..])
        == s1.(control := other);
    assert LastAttempt(s, None, events) == LastAttempt(s1, attempt, later)
        == LastAttempt(After(s1, later[0]), attempt, later[1..]) == attempt;
    assert events[..1][1..] == [] && AfterAll(s, events[..1]) == AfterAll(s1, events[..1][1..]) == s1;
  }

  // ------------------------------------------------------------------ the object

  class VoiceMusicDuck {
    // The control is opened on first use.
    var ready: bool
    var wanted: bool
    var held: bool
    var before: Pair
    var after: Pair
    // What the ALSA control holds.
    var control: Pair

    function View(): State
      reads this
    {
      State(ready, wanted, held, before, after, control)
    }

    constructor (control: Pair)
      ensures View() == State(false, false, false, Pair(0, 0), Pair(0, 0), control)
    {
      ready, wanted, held := false, false, false;
      before, after, this.control := Pair(0, 0), Pair(0, 0), control;
    }

    method CompareAndSwapChannels(expected: Pair, target: Pair, a: Answers) returns (swapped: Swapped)
      modifies `control
      ensures (control, swapped) == CompareAndSwap(a.now, expected, target, a.swap)
    {
      control := a.now;
      if a.swap == ReadFails {
        return Broken;
      }
      if control != expected {
        return Refused;
      }
      if a.swap.WriteFails? {
        if a.swap.taken {
          control := target;
        }
        return Broken;
      }
      control := target;
      return Changed;
    }

    method SetActive(active: bool, a: Answers) returns (ok: bool)
      modifies this
      ensures (View(), ok) == Activate(old(View()), active, a)
      // The phase is recorded whatever becomes of the control.
      ensures wanted == active
    {
      wanted := active;
      if !active && !held {
        return true;
      }
      if active && !held && !a.playing {
        return true;
      }
      if !ready {
        if !a.opens {
          return false;
        }
        ready := true;
      }
      if !a.readable {
        return false;
      }
      var current := control;
      if !active {
        if current != after {
          held, control := false, a.now;
          return true;
        }
        var swapped := CompareAndSwapChannels(current, before, a);
        if swapped == Broken {
          return false;
        }
        held := false;
        return swapped == Changed;
      }
      if held && current == after {
        control := a.now;
        return true;
      }
      ok := ApplyLocked(current, current, a);
    }

    // The receipt is kept on a failing ioctl: the write may have reached the control.
    method ApplyLocked(current: Pair, base: Pair, a: Answers) returns (ok: bool)
      requires ready
      modifies this
      ensures (View(), ok) == ApplyTo(old(View()), current, base, a)
    {
      before, after, held := base, Ducked(base), true;
      var swapped := CompareAndSwapChannels(current, after, a);
      if swapped == Broken {
        return false;
      }
      if swapped == Refused {
        held := false;
        return false;
      }
      return true;
    }

    method Read(a: Answers) returns (level: Option<Level>)
      modifies this
      ensures (View(), level) == Report(old(View()), a)
    {
      if !ready || !a.readable {
        return None;
      }
      var current := control;
      if held && current == after {
        return Some(before.left);
      }
      held := false;
      return Some(current.left);
    }

    method Write(value: int, a: Answers) returns (ok: bool)
      modifies this
      ensures if 0 <= value <= 255 then (View(), ok) == Dial(old(View()), value, a)
              else !ok && View() == old(View())
    {
      if value < 0 || value > SOFTVOL_MAX || !ready || !a.readable {
        return false;
      }
      var current := control;
      var target := Pair(value, value);
      if wanted && a.playing {
        ok := ApplyLocked(current, target, a);
        return;
      }
      var swapped := CompareAndSwapChannels(current, target, a);
      if swapped == Broken {
        return false;
      }
      held := false;
      return swapped == Changed;
    }
  }
}
