/**
 The microphone mute controller: it keeps the DSP, the state file and the
 indicator in step through calls that may all fail, blocks voice whenever it is
 not sure that the microphone may be live, and reconciles until it is sure.
 */
module MicMute {

  // One external call, what it asked for, and whether it reported success.
  datatype Event =
    | Indicator(muted: bool, ok: bool)
    | Request(muted: bool, ok: bool)
    | Persist(muted: bool, ok: bool)

  // The microphone is opened only after the indicator, where there is one, has
  // been cleared, and the file says so only after the DSP has acknowledged it.  It
  // is closed only once the file says so, or to undo an unmute that was refused.
  ghost predicate Ordered(log: seq<Event>, lights: bool) {
    forall i :: 0 <= i < |log| ==> Justified(log, lights, i)
  }

  // The file says muted, or an unmute has just been refused.
  ghost predicate MayClose(log: seq<Event>) {
    && log != []
    && var last := log[|log| - 1];
       last == Persist(true, true) || last == Request(false, false) || last == Persist(false, false)
  }

  ghost predicate MayAsk(log: seq<Event>, lights: bool, mute: bool) {
    if mute then MayClose(log) else lights ==> log != [] && log[|log| - 1] == Indicator(false, true)
  }

  ghost predicate Justified(log: seq<Event>, lights: bool, i: nat)
    requires i < |log|
  {
    match log[i]
    case Persist(false, _) => i > 0 && log[i - 1] == Request(false, true)
    case Request(mute, _) => MayAsk(log[..i], lights, mute)
    case _ => true
  }

  lemma OrderedAppend(log: seq<Event>, lights: bool, next: Event)
    requires Ordered(log, lights) && Justified(log + [next], lights, |log|)
    ensures Ordered(log + [next], lights)
  {
    forall i | 0 <= i < |log + [next]|
      ensures Justified(log + [next], lights, i)
    {
      assert (log + [next])[..i] == log[..i];
      assert i < |log| ==> Justified(log, lights, i);
    }
  }

  ghost predicate AllOk(log: seq<Event>) {
    log == [] || (log[|log| - 1].ok && AllOk(log[..|log| - 1]))
  }

  ghost predicate AllMuting(log: seq<Event>) {
    log == [] || (log[|log| - 1].muted && AllMuting(log[..|log| - 1]))
  }

  lemma EventsAppend(log: seq<Event>, next: Event)
    ensures AllOk(log + [next]) == (AllOk(log) && next.ok)
    ensures AllMuting(log + [next]) == (AllMuting(log) && next.muted)
  {
    assert (log + [next])[..|log|] == log;
  }

  lemma {:induction false} EventsConcat(log: seq<Event>, more: seq<Event>)
    ensures AllOk(log + more) == (AllOk(log) && AllOk(more))
    ensures AllMuting(log + more) == (AllMuting(log) && AllMuting(more))
  {
    if more == [] {
      assert log + more == log;
    } else {
      var n := |more| - 1;
      EventsConcat(log, more[..n]);
      assert log + more == (log + more[..n]) + [more[n]];
      EventsAppend(log + more[..n], more[n]);
    }
  }

  lemma NoEvents()
    ensures AllOk([]) && AllMuting([])
  {
  }

  ghost function Note(log: seq<Event>, next: Event): (longer: seq<Event>)
    ensures longer == log + [next]
    ensures AllOk(longer) == (AllOk(log) && next.ok)
    ensures AllMuting(longer) == (AllMuting(log) && next.muted)
  {
    EventsAppend(log, next);
    log + [next]
  }

  // The calls of an unmute that opens the microphone.
  function Unmute(lights: bool, shown: bool): seq<Event> {
    (if lights then [Indicator(false, true)] else []) + [Request(false, true), Persist(false, true)]
    + if lights then [Indicator(false, shown)] else []
  }

  // A request the DSP or the file has not acknowledged.
  ghost predicate Refused(made: seq<Event>, mute: bool) {
    made == [Request(mute, false)] || made == [Request(mute, true), Persist(mute, false)]
  }

  function Shown(lights: bool, mute: bool, ok: bool): seq<Event> {
    if lights then [Indicator(mute, ok)] else []
  }

  // The calls of a mute: the file first, then the DSP, the file again and the
  // indicator, up to the first that fails.
  ghost predicate MuteCalls(made: seq<Event>, lights: bool) {
    || made == [Persist(true, false)]
    || (|made| > 0 && made[0] == Persist(true, true) && Refused(made[1..], true))
    || (exists ok :: made == [Persist(true, true), Request(true, true), Persist(true, true)] + Shown(lights, true, ok))
  }

  // The calls that undo an unmute.
  ghost predicate RestoreCalls(made: seq<Event>, lights: bool) {
    || Refused(made, true)
    || (exists ok :: made == [Request(true, true), Persist(true, true)] + Shown(lights, true, ok))
  }

  // The calls of an unmute: it stops at an indicator that cannot be cleared, is
  // undone from the first refusal on, or opens the microphone.
  ghost predicate UnmuteCalls(made: seq<Event>, lights: bool) {
    || (lights && made == [Indicator(false, false)])
    || Opens(made, lights)
    || (exists refused, restored :: Refused(refused, false) && RestoreCalls(restored, lights)
                                    && made == Shown(lights, false, true) + refused + restored)
  }

  lemma MuteShapes(lights: bool, refused: seq<Event>, ok: bool)
    ensures MuteCalls([Persist(true, false)], lights)
    ensures Refused(refused, true) ==> MuteCalls([Persist(true, true)] + refused, lights)
    ensures MuteCalls([Persist(true, true)] + [Request(true, true), Persist(true, true)] + Shown(lights, true, ok),
                      lights)
  {
    assert ([Persist(true, true)] + refused)[1..] == refused;
    var made := [Persist(true, true)] + [Request(true, true), Persist(true, true)] + Shown(lights, true, ok);
    assert made == [Persist(true, true), Request(true, true), Persist(true, true)] + Shown(lights, true, ok);
  }

  // The microphone is opened, whatever becomes of the indicator afterwards.
  ghost predicate Opens(made: seq<Event>, lights: bool) {
    made == Unmute(lights, true) || made == Unmute(lights, false)
  }

  lemma Opened(lights: bool, shown: bool)
    ensures Opens(Unmute(lights, shown), lights)
  {
  }

  // The last state the file was told to hold.
  function FileAfter(file: bool, log: seq<Event>): bool {
    if log == [] then file
    else
      match log[|log| - 1]
      case Persist(muted, true) => muted
      case _ => FileAfter(file, log[..|log| - 1])
  }

  lemma FileAfterAppend(file: bool, log: seq<Event>, next: Event)
    ensures FileAfter(file, log + [next])
            == if next.Persist? && next.ok then next.muted else FileAfter(file, log)
  {
    assert (log + [next])[..|log|] == log;
  }

  // The state file and the DSP's microphone, muted or not.
  datatype World = World(file: bool, dsp: bool)

  // What a call does to them: a request that fails may have taken effect, the file
  // is replaced as a whole or not at all.
  predicate Moves(w: World, event: Event, w': World) {
    match event
    case Request(mute, ok) => w' == w.(dsp := mute) || (!ok && w' == w)
    case Persist(mute, ok) => w' == if ok then w.(file := mute) else w
    case Indicator(_, _) => w' == w
  }

  ghost predicate Course(worlds: seq<World>, log: seq<Event>) {
    |worlds| == |log| + 1 && forall i :: 0 <= i < |log| ==> Moves(worlds[i], log[i], worlds[i + 1])
  }

  lemma CourseAppend(worlds: seq<World>, log: seq<Event>, next: Event, w: World)
    requires Course(worlds, log) && Moves(worlds[|log|], next, w)
    ensures Course(worlds + [w], log + [next])
  {
    var worlds', log' := worlds + [w], log + [next];
    forall i | 0 <= i < |log'|
      ensures Moves(worlds'[i], log'[i], worlds'[i + 1])
    {
      if i < |log| {
        assert Moves(worlds[i], log[i], worlds[i + 1]);
      }
    }
  }

  // Event i writes the file, and no later write succeeds.
  ghost predicate LastWrite(log: seq<Event>, i: nat) {
    && i < |log| && log[i].Persist? && log[i].ok
    && forall j :: i < j < |log| ==> !(log[j].Persist? && log[j].ok)
  }

  // A file that has come to say "unmuted" was written straight after the DSP
  // acknowledged the unmute, itself asked for straight after a cleared indicator.
  lemma {:induction false} UnmutedFileIsJustified(log: seq<Event>, lights: bool) returns (i: nat)
    requires Ordered(log, lights) && !FileAfter(true, log)
    ensures LastWrite(log, i) && 0 < i && log[i] == Persist(false, true) && log[i - 1] == Request(false, true)
    ensures lights ==> i > 1 && log[i - 2] == Indicator(false, true)
  {
    var n := |log| - 1;
    if log[n].Persist? && log[n].ok {
      i := n;
      assert Justified(log, lights, n) && Justified(log, lights, n - 1);
    } else {
      var front := log[..n];
      forall k | 0 <= k < n
        ensures Justified(front, lights, k)
      {
        assert Justified(log, lights, k) && front[..k] == log[..k];
      }
      i := UnmutedFileIsJustified(front, lights);
    }
  }

  class Controller {
    const lights: bool
    const persistent: bool

    var muted: bool
    var desired: bool
    var unknown: bool
    // The one entry of the reconcile channel.
    var requested: bool

    // The outside: the DSP's microphone, the state file, and the calls made.
    ghost var dsp: bool
    ghost var file: bool
    ghost var log: seq<Event>
    ghost const loaded: bool
    // What became of file and DSP from call to call.
    ghost var worlds: seq<World>
    // The worker is reconciling, or gone; callers that still owe it a request.
    ghost var reconciling: bool
    ghost var stopped: bool
    ghost var owed: nat
    // How often voice was told that it is blocked, and the worker's uncancelled attempts.
    ghost var notices: nat
    ghost var attempts: nat

    predicate Blocked()
      reads `muted, `desired, `unknown
    {
      muted || desired || unknown
    }

    // When the outcome is known, everything agrees, but for a DSP that a process
    // before this one has left muted and that nothing has been asked of since.
    ghost predicate Agreed()
      reads `muted, `desired, `unknown, `dsp, `file, `log
    {
      && (unknown ==> desired)
      && (!unknown ==> muted == desired && (persistent ==> file == muted) && (dsp == muted || Inherited()))
    }

    ghost predicate Inherited()
      reads `muted, `dsp, `log
    {
      log == [] && !muted && dsp
    }

    ghost predicate Traced()
      reads `file, `dsp, `log, `worlds
    {
      && Ordered(log, lights)
      && (persistent ==> file == FileAfter(loaded, log)
                         && Course(worlds, log) && worlds[|log|] == World(file, dsp) && worlds[0].file == loaded)
    }

    // A doubtful outcome is being attended to.
    ghost predicate Attended()
      reads `unknown, `requested, `reconciling, `stopped, `owed
    {
      unknown ==> requested || reconciling || stopped || owed > 0
    }

    ghost predicate Inv()
      reads this
    {
      Agreed() && Traced() && Attended()
    }

    // The state file has been read; the DSP is as the process before left it.  A
    // muted start owes the worker a request.
    constructor (muted: bool, lights: bool, persistent: bool, ghost dsp: bool)
      ensures Inv() && log == [] && this.lights == lights && this.persistent == persistent
      ensures this.muted == muted && Blocked() == muted && !stopped && !reconciling
      ensures Inherited() <==> !muted && dsp
    {
      this.lights, this.persistent := lights, persistent;
      this.muted, desired, unknown, requested := muted, muted, muted, false;
      this.dsp, file, log, loaded, worlds := dsp, muted, [], muted, [World(muted, dsp)];
      reconciling, stopped, owed := false, false, if muted then 1 else 0;
      notices, attempts := 0, 0;
    }

    // ---------------------------------------------------------------- outside calls

    // The call just made goes on record.
    ghost method Advance(event: Event)
      requires persistent ==> Course(worlds, log) && Moves(worlds[|log|], event, World(file, dsp))
      modifies `log, `worlds
      ensures log == old(log) + [event] && old(worlds) <= worlds
      ensures persistent ==> Course(worlds, log) && worlds[|log|] == World(file, dsp)
    {
      if persistent {
        CourseAppend(worlds, log, event, World(file, dsp));
      }
      log, worlds := log + [event], worlds + [World(file, dsp)];
    }

    method SetIndicator(mute: bool) returns (ok: bool)
      requires Traced()
      modifies `log, `worlds
      ensures Traced() && log == old(log) + [Indicator(mute, ok)]
    {
      ok := *;
      OrderedAppend(log, lights, Indicator(mute, ok));
      FileAfterAppend(loaded, log, Indicator(mute, ok));
      Advance(Indicator(mute, ok));
    }

    // A request that fails may still have taken effect.
    method SetDsp(mute: bool) returns (ok: bool)
      requires Traced()
      requires MayAsk(log, lights, mute)
      modifies `log, `worlds, `dsp
      ensures Traced() && log == old(log) + [Request(mute, ok)]
      ensures ok ==> dsp == mute
      ensures !ok ==> dsp == mute || dsp == old(dsp)
    {
      ok := *;
      var obeyed: bool := *;
      if ok || obeyed {
        dsp := mute;
      }
      OrderedAppend(log, lights, Request(mute, ok));
      FileAfterAppend(loaded, log, Request(mute, ok));
      Advance(Request(mute, ok));
    }

    // The file is replaced as a whole or not at all; without a path nothing is written.
    method PersistState(mute: bool) returns (ok: bool)
      requires Traced()
      requires !mute ==> |log| > 0 && log[|log| - 1] == Request(false, true)
      modifies `log, `worlds, `file
      ensures Traced() && log == old(log) + [Persist(mute, ok)]
      ensures persistent ==> file == if ok then mute else old(file)
    {
      ok := *;
      if !persistent {
        ok := true;
      } else if ok {
        file := mute;
      }
      OrderedAppend(log, lights, Persist(mute, ok));
      FileAfterAppend(loaded, log, Persist(mute, ok));
      Advance(Persist(mute, ok));
    }

    // ---------------------------------------------------------------- setting

    // setLocked: voice is unblocked only by an unmute whose indicator clear, DSP
    // request and write of the file have all succeeded, in that order.
    method SetLocked(mute: bool) returns (ok: bool, ghost made: seq<Event>)
      requires Agreed() && Traced()
      modifies `muted, `desired, `unknown, `dsp, `file, `log, `worlds
      ensures Agreed() && Traced() && log == old(log) + made
      ensures !Blocked() ==> !mute && Opens(made, lights)
      ensures if mute then MuteCalls(made, lights) else UnmuteCalls(made, lights)
      ensures mute ==> AllMuting(made)
      ensures ok <==> AllOk(made)
      ensures ok ==> muted == desired == dsp == mute && !unknown && (persistent ==> file == mute)
    {
      hide Traced, FileAfter, Ordered, AllMuting, AllOk, Opens, MuteCalls, RestoreCalls, Refused, MayAsk;
      desired := true;
      unknown := true;
      ok, made := Prepare(mute);
      MuteShapes(lights, [], true);
      if !ok {
        return;
      }
      ghost var told;
      ok, told := Commit(mute);
      EventsConcat(made, told);
      MuteShapes(lights, told, true);
      made := made + told;
      if !ok {
        // An unmute that may have got through is undone.
        if !mute {
          ghost var restored;
          made, restored := Revert(made);
          assert made == Shown(lights, false, true) + told + restored;
        }
        return;
      }
      ghost var shown;
      ok, shown := Confirm(mute);
      made := if lights then Note(made, Indicator(mute, ok)) else made;
      Opened(lights, ok);
      MuteShapes(lights, told, ok);
      assert !mute ==> made == Unmute(lights, ok);
      assert mute ==> made == [Persist(true, true)] + told + Shown(lights, true, ok);
    }

    // The step before the DSP is asked: the indicator is cleared for an unmute,
    // the file written for a mute.
    method Prepare(mute: bool) returns (ok: bool, ghost made: seq<Event>)
      requires Agreed() && Traced() && unknown
      modifies `file, `log, `worlds
      ensures Agreed() && Traced() && log == old(log) + made
      ensures made == if mute then [Persist(true, ok)] else if lights then [Indicator(false, ok)] else []
      ensures ok <==> AllOk(made)
      ensures mute ==> AllMuting(made)
      ensures (mute && ok && persistent ==> file) && (!mute && !lights ==> ok)
      ensures ok ==> MayAsk(log, lights, mute)
    {
      hide Traced, FileAfter, Ordered;
      ok := true;
      if !mute && lights {
        ok := SetIndicator(false);
      }
      if mute {
        ok := PersistState(true);
      }
      made := if mute then [Persist(true, ok)] else if lights then [Indicator(false, ok)] else [];
    }

    // The step after everything has been acknowledged.
    method Confirm(mute: bool) returns (ok: bool, ghost made: seq<Event>)
      requires Traced() && dsp == mute && (persistent ==> file == mute)
      modifies `muted, `desired, `unknown, `log, `worlds
      ensures Agreed() && Traced() && log == old(log) + made
      ensures made == if lights then [Indicator(mute, ok)] else []
      ensures muted == desired == mute && !unknown && (!lights ==> ok)
    {
      hide Traced, FileAfter, Ordered;
      muted, desired, unknown := mute, mute, false;
      ok, made := true, [];
      if lights {
        ok := SetIndicator(mute);
        made := [Indicator(mute, ok)];
      }
    }

    // restoreMuteLocked, after the events of a failed unmute; a failure is
    // reported even when the mute is restored.
    method Revert(ghost before: seq<Event>) returns (ghost made: seq<Event>, ghost restored: seq<Event>)
      requires Agreed() && Traced() && unknown && !AllOk(before) && MayAsk(log, lights, true)
      modifies `muted, `desired, `unknown, `dsp, `file, `log, `worlds
      ensures Agreed() && Traced() && Blocked() && made == before + restored && log == old(log) + restored
      ensures RestoreCalls(restored, lights) && !AllOk(made)
    {
      var _, more := RestoreMute();
      restored := more;
      made := before + restored;
      EventsConcat(before, restored);
    }

    // The DSP is asked, and then the file written.
    method Commit(mute: bool) returns (ok: bool, ghost made: seq<Event>)
      requires Agreed() && Traced() && unknown
      requires MayAsk(log, lights, mute)
      modifies `dsp, `file, `log, `worlds
      ensures Agreed() && Traced() && log == old(log) + made
      ensures if ok then made == [Request(mute, true), Persist(mute, true)] else Refused(made, mute)
      ensures !ok && !mute ==> MayAsk(log, lights, true)
      ensures ok <==> AllOk(made)
      ensures mute ==> AllMuting(made)
      ensures ok ==> dsp == mute && (persistent ==> file == mute)
    {
      hide Traced, FileAfter, Ordered, AllMuting, AllOk;
      NoEvents();
      ok := SetDsp(mute);
      made := Note([], Request(mute, ok));
      if ok {
        ok := PersistState(mute);
        made := Note(made, Persist(mute, ok));
      }
    }

    method RestoreMute() returns (ok: bool, ghost made: seq<Event>)
      requires Agreed() && Traced() && unknown && MayAsk(log, lights, true)
      modifies `muted, `desired, `unknown, `dsp, `file, `log, `worlds
      ensures Agreed() && Traced() && log == old(log) + made && Blocked()
      ensures RestoreCalls(made, lights) && AllMuting(made)
      ensures ok <==> AllOk(made)
      ensures ok ==> muted && !unknown && dsp
    {
      hide Traced, FileAfter, Ordered, AllMuting, AllOk;
      ok, made := Commit(true);
      if ok {
        muted, desired, unknown := true, true, false;
        if lights {
          ok := SetIndicator(true);
          made := Note(made, Indicator(true, ok));
        }
        assert made == [Request(true, true), Persist(true, true)] + Shown(lights, true, ok);
      }
    }

    // ---------------------------------------------------------------- entry points

    // Set up to the release of the lock: on failure a request is owed.
    method Change(cancelled: bool, mute: bool) returns (ok: bool)
      requires Inv()
      modifies `muted, `desired, `unknown, `dsp, `file, `log, `worlds, `owed
      ensures Inv() && old(log) <= log && owed >= old(owed)
      ensures cancelled ==> !ok && log == old(log) && Blocked() == old(Blocked())
      ensures !Blocked() && old(Blocked()) ==>
                !mute && Opens(log[|old(log)|..], lights)
      ensures owed == old(owed) + if cancelled || ok then 0 else 1
      // Otherwise the calls are those of a mute or of an unmute up to the first failure, and
      // without one DSP, file and fields are as asked for.
      ensures cancelled ==> muted == old(muted) && desired == old(desired) && unknown == old(unknown) && dsp == old(dsp)
      ensures !cancelled ==>
                if mute then MuteCalls(log[|old(log)|..], lights) else UnmuteCalls(log[|old(log)|..], lights)
      ensures ok <==> !cancelled && AllOk(log[|old(log)|..])
      ensures ok ==> muted == desired == dsp == mute && !unknown && (persistent ==> file == mute)
    {
      if cancelled {
        return false;
      }
      ghost var made;
      ok, made := SetLocked(mute);
      assert log[|old(log)|..] == made;
      if !ok {
        owed := owed + 1;
      }
    }

    // Apply: the button asks for the opposite of what is confirmed.
    method Toggle(cancelled: bool) returns (ok: bool)
      requires Inv()
      modifies `muted, `desired, `unknown, `dsp, `file, `log, `worlds, `owed
      ensures Inv() && old(log) <= log && owed >= old(owed)
      ensures !Blocked() && old(Blocked()) ==>
                old(muted) && Opens(log[|old(log)|..], lights)
      ensures owed == old(owed) + if cancelled || ok then 0 else 1
      ensures cancelled ==> log == old(log) && Blocked() == old(Blocked())
      ensures !cancelled ==>
                if old(muted) then UnmuteCalls(log[|old(log)|..], lights) else MuteCalls(log[|old(log)|..], lights)
      ensures ok <==> !cancelled && AllOk(log[|old(log)|..])
      ensures ok ==> muted == desired == dsp == !old(muted) && !unknown && (persistent ==> file == muted)
    {
      ok := Change(cancelled, !muted);
    }

    // Set, when nobody else gets the lock before its request is made.
    method Set(cancelled: bool, mute: bool) returns (ok: bool)
      requires Inv()
      modifies `muted, `desired, `unknown, `dsp, `file, `log, `worlds, `owed, `requested, `notices
      ensures Inv() && old(log) <= log
      ensures cancelled ==> !ok && log == old(log) && Blocked() == old(Blocked())
                            && requested == old(requested) && notices == old(notices)
      ensures !cancelled ==>
                && (if mute then MuteCalls(log[|old(log)|..], lights) else UnmuteCalls(log[|old(log)|..], lights))
                && (ok <==> AllOk(log[|old(log)|..]))
                && requested == (old(requested) || !ok)
                && notices == old(notices) + if Blocked() then 1 else 0
      ensures ok ==> muted == desired == dsp == mute && !unknown && (persistent ==> file == mute)
    {
      hide Traced, Agreed, MuteCalls, UnmuteCalls, AllOk, Opens;
      ok := Change(cancelled, mute);
      if cancelled {
        return;
      }
      NotifyVoiceBlocked();
      if !ok {
        RequestReconcile();
      }
    }

    // Voice is told when it has become blocked, or still is.
    method NotifyVoiceBlocked()
      modifies `notices
      ensures notices == old(notices) + if Blocked() then 1 else 0
    {
      if Blocked() {
        notices := notices + 1;
      }
    }

    // The rest of Set or Apply: a request owed is made; a full slot keeps it.
    method RequestReconcile()
      requires Inv()
      modifies `requested, `owed
      ensures Inv() && requested
    {
      requested := true;
      owed := if owed > 0 then owed - 1 else 0;
    }

    // Reconcile never asks for an unmute; from a blocked state it leaves the
    // microphone muted for certain exactly when nothing failed on the way.
    method Reconcile(cancelled: bool) returns (ok: bool)
      requires Agreed() && Traced()
      modifies `muted, `desired, `unknown, `dsp, `file, `log, `worlds, `attempts
      ensures Agreed() && Traced() && old(log) <= log
      ensures AllMuting(log[|old(log)|..])
      ensures Blocked() == old(Blocked())
      ensures ok <==> !cancelled && AllOk(log[|old(log)|..])
      ensures cancelled || !old(Blocked()) ==> log == old(log)
      ensures !cancelled && old(Blocked()) ==> MuteCalls(log[|old(log)|..], lights)
      ensures ok ==> !unknown
      ensures attempts == old(attempts) + if cancelled then 0 else 1
      ensures ok && old(Blocked()) ==> muted && desired && dsp && (persistent ==> file)
    {
      assert log[|log|..] == [];
      if cancelled {
        return false;
      }
      attempts := attempts + 1;
      if !muted && !desired && !unknown {
        return true;
      }
      ghost var made;
      ok, made := SetLocked(true);
      assert log[|old(log)|..] == made;
    }

    // Steps of other goroutines while the lock is free.
    method Others()
      requires Inv()
      modifies `muted, `desired, `unknown, `dsp, `file, `log, `worlds, `owed, `requested
      ensures Inv() && old(log) <= log && (old(requested) ==> requested)
    {
      var count: int := *;
      while count > 0
        invariant Inv() && old(log) <= log && (old(requested) ==> requested)
      {
        var choice: int, cancelled: bool, mute: bool := *, *, *;
        match choice {
          case 0 => var _ := Change(cancelled, mute);
          case 1 => var _ := Toggle(cancelled);
          case _ => RequestReconcile();
        }
        count := count - 1;
      }
    }

    // Run, cut off after any number of reconciliations.  A worker that waits with
    // nothing requested or owed leaves no doubtful outcome behind.
    method Run(rounds: nat)
      requires Inv() && !reconciling && !stopped
      modifies this
      ensures Inv()
      ensures !reconciling && !stopped && !requested && owed == 0 ==> !unknown
      ensures attempts >= old(attempts) && (old(requested) && rounds >= 2 && !stopped ==> attempts > old(attempts))
    {
      var left := rounds;
      while left > 0
        invariant Inv() && !reconciling && !stopped
        invariant attempts >= old(attempts) && (left == rounds ==> requested == old(requested))
        invariant old(requested) && left < rounds && rounds >= 2 ==> attempts > old(attempts)
      {
        left := left - 1;
        Others();
        var cancelled: bool := *;
        if cancelled {
          stopped := true;
          return;
        }
        if !requested {
          continue;
        }
        requested, reconciling := false, true;
        var ok := false;
        while !ok && left > 0
          invariant Inv() && reconciling && !stopped
          invariant ok ==> !unknown || requested || owed > 0
          invariant attempts >= old(attempts)
          invariant ok || (old(requested) && left < rounds - 1) ==> attempts > old(attempts)
          decreases left, !ok
        {
          left := left - 1;
          Others();
          cancelled := *;
          ok := Reconcile(cancelled);
          if !ok {
            var ended: bool := *;
            if cancelled || ended {
              stopped := true;
              return;
            }
          }
        }
        if !ok {
          return;
        }
        reconciling := false;
      }
    }
  }
}
