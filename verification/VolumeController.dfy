/**
 The volume controller of the MCU service: setters change the level under a
 lock and leave a notification in a one-entry slot; a single worker takes it,
 reads the level and pushes it to the DSP until the DSP accepts it.
 */
module VolumeController {
  import opened Bytes

  const DEFAULT_VOLUME := 40
  const MAX_VOLUME := 100
  const VOLUME_FADE_STEP := 6

  datatype Duck = DuckNone | DuckSoft | DuckHard

  // Where the worker is: before its first request, waiting for a wake, woken but
  // yet to read the level, carrying a level to the DSP, or gone.
  datatype Phase = Starting | Waiting | Woken | Pushing(level: int) | Stopped

  datatype Snapshot = Snapshot(volume: int, muted: bool, duck: Duck)

  function Depth(duck: Duck): nat {
    match duck
    case DuckNone => 0
    case DuckSoft => 1
    case DuckHard => 2
  }

  function DuckScale(duck: Duck): nat {
    match duck
    case DuckNone => 100
    case DuckSoft => 40
    case DuckHard => 10
  }

  function Clamp(percent: int): (level: int)
    ensures 0 <= level <= MAX_VOLUME
  {
    if percent < 0 then 0 else if percent > MAX_VOLUME then MAX_VOLUME else percent
  }

  // The deepest attenuation anybody holds, independently of the order of asking.
  ghost predicate IsStrongest(ducks: map<string, Duck>, duck: Duck) {
    && (forall name <- ducks :: Depth(ducks[name]) <= Depth(duck))
    && (duck == DuckNone || exists name <- ducks :: ducks[name] == duck)
  }

  function Strongest(ducks: map<string, Duck>): (duck: Duck)
    ensures IsStrongest(ducks, duck)
  {
    if exists name <- ducks :: ducks[name] == DuckHard then DuckHard
    else if exists name <- ducks :: ducks[name] == DuckSoft then DuckSoft
    else DuckNone
  }

  lemma StrongestIsUnique(ducks: map<string, Duck>, duck: Duck)
    requires IsStrongest(ducks, duck)
    ensures duck == Strongest(ducks)
  {
    var other := Strongest(ducks);
    assert Depth(other) <= Depth(duck) && Depth(duck) <= Depth(other);
  }

  function EffectiveOf(volume: int, muted: bool, ducks: map<string, Duck>): int {
    if muted then 0 else volume * DuckScale(Strongest(ducks)) / 100
  }

  // What a level handed to the DSP must be: silence when muted, else the chosen level,
  // two fifths of it under a soft duck or a tenth under a hard one, whoever holds it.
  ghost predicate Attenuated(level: int, volume: int, muted: bool, ducks: map<string, Duck>) {
    && 0 <= level <= volume
    && (muted ==> level == 0)
    && (!muted && ducks == map[] ==> level == volume)
    && (!muted && DuckHard in ducks.Values ==> level == volume / 10)
    && (!muted && DuckHard !in ducks.Values && DuckSoft in ducks.Values ==> level == 2 * volume / 5)
  }

  lemma EffectiveIsAttenuated(volume: int, muted: bool, ducks: map<string, Duck>)
    requires 0 <= volume <= MAX_VOLUME && forall name <- ducks :: ducks[name] != DuckNone
    ensures Attenuated(EffectiveOf(volume, muted, ducks), volume, muted, ducks)
  {
    var duck := Strongest(ducks);
    if ducks == map[] {
      assert duck == DuckNone;
    } else {
      var name :| name in ducks;
      assert Depth(ducks[name]) >= 1 && duck != DuckNone;
    }
    if DuckHard in ducks.Values {
      var name :| name in ducks && ducks[name] == DuckHard;
      assert Depth(ducks[name]) <= Depth(duck);
    }
  }

  // Under a deeper duck the same volume is never louder, and it is quieter exactly when
  // it is loud enough for the two to round to different levels.
  lemma DeeperIsQuieter(volume: int, ducks: map<string, Duck>, deeper: map<string, Duck>)
    requires 0 <= volume <= MAX_VOLUME && Depth(Strongest(ducks)) < Depth(Strongest(deeper))
    ensures EffectiveOf(volume, false, deeper) <= EffectiveOf(volume, false, ducks)
    ensures EffectiveOf(volume, false, deeper) < EffectiveOf(volume, false, ducks)
            <==> volume >= if Strongest(ducks) == DuckSoft then 3 else 1
  {
    hide Strongest, IsStrongest;
    var before, after := Strongest(ducks), Strongest(deeper);
    match before
    case DuckNone =>
      assert volume * 100 / 100 == volume;
    case DuckSoft =>
    case DuckHard =>
  }

  // Whatever one request asked for, the level is attenuated at least that much;
  // releasing a request while others stand leaves what those others ask for.
  lemma OverlappingDucks(volume: int, ducks: map<string, Duck>, name: string, duck: Duck)
    requires 0 <= volume <= MAX_VOLUME && name !in ducks && duck != DuckNone
    ensures EffectiveOf(volume, false, ducks[name := duck])
            == if Depth(duck) > Depth(Strongest(ducks)) then volume * DuckScale(duck) / 100
               else EffectiveOf(volume, false, ducks)
    ensures EffectiveOf(volume, false, ducks[name := duck] - {name}) == EffectiveOf(volume, false, ducks)
  {
    var held := ducks[name := duck];
    assert held - {name} == ducks;
    if Depth(duck) > Depth(Strongest(ducks)) {
      assert held[name] == duck;
      StrongestIsUnique(held, duck);
    } else {
      var strongest := Strongest(ducks);
      assert Depth(strongest) >= 1;
      var other :| other in ducks && ducks[other] == strongest;
      assert held[other] == strongest;
      StrongestIsUnique(held, strongest);
    }
  }

  // ------------------------------------------------------------------ fading

  // One tick towards the target, never past it.
  function Toward(current: int, target: int): int {
    if current < target then (if current + VOLUME_FADE_STEP > target then target else current + VOLUME_FADE_STEP)
    else if current - VOLUME_FADE_STEP < target then target
    else current - VOLUME_FADE_STEP
  }

  function Distance(a: int, b: int): nat {
    if a < b then b - a else a - b
  }

  // No level of 0 to 100 is nearer to what was asked for.
  lemma ClampIsNearest(percent: int, level: int)
    requires 0 <= level <= 100
    ensures 0 <= Clamp(percent) <= 100
    ensures Distance(percent, Clamp(percent)) <= Distance(percent, level)
  {
  }

  // The levels written are the ticks from the first level, in order.
  ghost predicate FadesFrom(current: int, target: int, writes: seq<int>)
    decreases |writes|
  {
    writes == [] || (current != target && writes[0] == Toward(current, target)
                     && FadesFrom(writes[0], target, writes[1..]))
  }

  // The level before tick i.
  ghost function Before(current: int, writes: seq<int>, i: nat): int
    requires i <= |writes|
  {
    if i == 0 then current else writes[i - 1]
  }

  // A fade moves steadily: every tick, the first included, comes strictly closer
  // to the target than the level before it, by one step or by all that is left,
  // and stays on its side of the target.
  lemma {:induction false} FadeIsSteady(current: int, target: int, writes: seq<int>)
    requires FadesFrom(current, target, writes)
    ensures forall i :: 0 <= i < |writes| ==>
              var before := Before(current, writes, i);
              && Distance(writes[i], target) < Distance(before, target)
              && 0 < Distance(before, writes[i]) <= 6
              && (writes[i] != target ==> Distance(before, writes[i]) == 6)
              && (writes[i] == target || (writes[i] < target <==> current < target))
    decreases |writes|
  {
    if writes != [] {
      var next, rest := writes[0], writes[1..];
      FadeIsSteady(next, target, rest);
      forall i | 0 < i < |writes|
        ensures writes[i] == rest[i - 1] && Before(current, writes, i) == Before(next, rest, i - 1)
      {
      }
    }
  }

  // It arrives after one tick for every step of the way, and not before.
  lemma {:induction false} FadeTakesItsTime(current: int, target: int, writes: seq<int>)
    requires FadesFrom(current, target, writes)
    ensures (if writes == [] then current else writes[|writes| - 1]) == target
            <==> |writes| == (Distance(current, target) + 5) / 6
    decreases |writes|
  {
    if writes != [] {
      FadeTakesItsTime(writes[0], target, writes[1..]);
    }
  }

  lemma {:induction false} FadeGrows(current: int, target: int, writes: seq<int>)
    requires FadesFrom(current, target, writes)
    requires var last := if writes == [] then current else writes[|writes| - 1]; last != target
    ensures var last := if writes == [] then current else writes[|writes| - 1];
            FadesFrom(current, target, writes + [Toward(last, target)])
    decreases |writes|
  {
    if writes != [] {
      FadeGrows(writes[0], target, writes[1..]);
      var last := writes[|writes| - 1];
      assert (writes + [Toward(last, target)])[1..] == writes[1..] + [Toward(last, target)];
    }
  }

  // The ALSA control; a failed write may or may not have taken effect.
  class Softvol {
    var level: int
    ghost var writes: seq<int>
    ghost var faults: nat

    constructor (level: int)
      ensures this.level == level && writes == [] && faults == 0
    {
      this.level, writes, faults := level, [], 0;
    }

    method Read() returns (value: Option<int>)
      modifies `faults
      ensures value.Some? ==> value.value == level
      ensures faults == old(faults) + if value.Some? then 0 else 1
    {
      var ok: bool := *;
      faults := faults + if ok then 0 else 1;
      return if ok then Some(level) else None;
    }

    method Write(value: int) returns (ok: bool)
      modifies this
      ensures ok ==> level == value && writes == old(writes) + [value]
      ensures !ok ==> (level == value || level == old(level)) && writes == old(writes)
      ensures faults == old(faults) + if ok then 0 else 1
    {
      ok := *;
      var taken: bool := *;
      if ok || taken {
        level := value;
      }
      if ok {
        writes := writes + [value];
      } else {
        faults := faults + 1;
      }
    }
  }

  // fadeToTarget: it may be cut short by a failed access or by cancellation.
  method FadeToTarget(softvol: Softvol?, target: int) returns (ok: bool, ghost cancelled: bool)
    modifies softvol
    ensures softvol == null ==> ok
    ensures softvol != null ==> (ok <==> !cancelled && softvol.faults == old(softvol.faults))
    ensures ok && softvol != null ==> softvol.level == target
    ensures softvol != null ==>
              old(softvol.writes) <= softvol.writes
              && FadesFrom(old(softvol.level), target, softvol.writes[|old(softvol.writes)|..])
  {
    cancelled := false;
    if softvol == null {
      return true, false;
    }
    ghost var first := |softvol.writes|;
    assert softvol.writes[first..] == [];
    var read := softvol.Read();
    if read.None? {
      return false, false;
    }
    var current := read.value;
    while current != target
      invariant old(softvol.writes) <= softvol.writes
      invariant FadesFrom(old(softvol.level), target, softvol.writes[first..])
      invariant softvol.level == current && softvol.faults == old(softvol.faults)
      invariant current
             == if |softvol.writes| == first then old(softvol.level) else softvol.writes[|softvol.writes| - 1]
      decreases Distance(current, target)
    {
      var ended: bool := *;
      if ended {
        return false, true;
      }
      ghost var before := softvol.writes;
      FadeGrows(old(softvol.level), target, before[first..]);
      if current < target {
        current := current + VOLUME_FADE_STEP;
        if current > target {
          current := target;
        }
      } else {
        current := current - VOLUME_FADE_STEP;
        if current < target {
          current := target;
        }
      }
      ok := softvol.Write(current);
      if !ok {
        return false, false;
      }
      assert softvol.writes[first..] == before[first..] + [current];
    }
    return true, false;
  }

  // ------------------------------------------------------------------ the ring

  // No arc is drawn that the ring already shows.
  ghost predicate NoRedraw(arcs: seq<int>) {
    forall i :: 0 < i < |arcs| ==> arcs[i - 1] != arcs[i]
  }

  // The arcs drawn on a ring that showed the first level and now shows another.
  ghost predicate Drawn(first: int, arcs: seq<int>, shown: int) {
    NoRedraw([first] + arcs) && ([first] + arcs)[|arcs|] == shown
  }

  lemma RingAtFirst(first: int)
    ensures Drawn(first, [], first)
  {
  }

  lemma DrawnGrows(first: int, arcs: seq<int>, shown: int, next: int)
    requires Drawn(first, arcs, shown)
    ensures Drawn(first, if next == shown then arcs else arcs + [next], next)
  {
    assert [first] + (arcs + [next]) == ([first] + arcs) + [next];
  }

  // ------------------------------------------------------------------ the controller

  class Controller {
    // Set when the chosen level is to be remembered, and the level last saved.
    const remembers: bool
    var saved: Option<int>

    var volume: int
    var muted: bool
    var ducks: map<string, Duck>
    // The one entry of the notify channel, and the worker's retry timer.
    var notified: bool
    var retry: bool
    // Closed once the DSP has accepted a level.
    var applied: bool

    const softvol: Softvol?
    const softvolForPercent: int -> int

    // Where the worker is, the last level the DSP accepted, how often the cue
    // for arriving at the top was played, the arcs drawn since the start, how often the
    // worker was asked to push, and how many pushes failed.
    ghost var phase: Phase
    ghost var accepted: Option<int>
    ghost var cues: nat
    ghost var arcs: seq<int>
    ghost var requests: nat
    ghost var failures: nat

    ghost function Effective(): int
      reads `volume, `muted, `ducks
    {
      EffectiveOf(volume, muted, ducks)
    }

    ghost predicate Sane()
      reads `volume, `ducks
    {
      0 <= volume <= MAX_VOLUME && forall name <- ducks :: ducks[name] != DuckNone
    }

    // No update is lost: a worker that waits has pushed the effective level or
    // will be woken, and one that carries an outdated level will be woken again.
    ghost predicate Inv()
      reads this
    {
      && Sane()
      && (applied ==> accepted.Some?)
      && match phase
         case Waiting => accepted == Some(Effective()) || notified || retry
         case Pushing(level) => level == Effective() || notified
         case _ => true
    }

    constructor (remembers: bool, softvol: Softvol?, softvolForPercent: int -> int)
      ensures Inv() && phase == Starting && volume == DEFAULT_VOLUME && !muted && ducks == map[] && arcs == []
    {
      this.remembers, this.softvol, this.softvolForPercent := remembers, softvol, softvolForPercent;
      saved := None;
      volume, muted, ducks := DEFAULT_VOLUME, false, map[];
      notified, retry, applied := false, false, false;
      phase, accepted, cues, arcs := Starting, None, 0, [];
      requests, failures := 0, 0;
    }

    // ---------------------------------------------------------------- setters

    // requestPushLocked: a send on a full slot is dropped.
    method RequestPush()
      modifies `notified, `requests
      ensures notified && requests == old(requests) + 1
    {
      requests := requests + 1;
      if !notified {
        notified := true;
      }
    }

    method Remember() returns (ok: bool)
      modifies `saved
      ensures saved == if ok && remembers then Some(volume) else old(saved)
    {
      if !remembers {
        return true;
      }
      ok := *;
      if ok {
        saved := Some(volume);
      }
    }

    // applyLocked: the worker is woken even when the level cannot be remembered.
    method Apply() returns (ok: bool)
      modifies `saved, `notified, `requests
      ensures notified && requests == old(requests) + 1
      ensures saved == if ok && remembers then Some(volume) else old(saved)
    {
      ok := Remember();
      RequestPush();
    }

    method TakeSnapshot() returns (snapshot: Snapshot)
      ensures snapshot == Snapshot(volume, muted, Strongest(ducks))
    {
      var duck := StrongestDuck();
      return Snapshot(volume, muted, duck);
    }

    // strongestDuckLocked: the map is walked in no particular order.
    method StrongestDuck() returns (duck: Duck)
      ensures duck == Strongest(ducks)
    {
      duck := DuckNone;
      var left := ducks.Keys;
      while left != {}
        invariant left <= ducks.Keys
        invariant forall name <- ducks :: name in left || Depth(ducks[name]) <= Depth(duck)
        invariant duck == DuckNone || exists name <- ducks :: ducks[name] == duck
        decreases |left|
      {
        var name :| name in left;
        if Depth(ducks[name]) > Depth(duck) {
          duck := ducks[name];
        }
        left := left - {name};
      }
      StrongestIsUnique(ducks, duck);
    }

    method SetVolume(percent: int) returns (snapshot: Snapshot, ok: bool)
      requires Inv()
      modifies `volume, `saved, `notified, `requests
      ensures Inv() && notified && requests > old(requests)
      ensures volume == Clamp(percent) && snapshot == Snapshot(volume, muted, Strongest(ducks))
      ensures saved == if ok && remembers then Some(volume) else old(saved)
    {
      volume := Clamp(percent);
      ok := Apply();
      snapshot := TakeSnapshot();
    }

    // The cue is played on arriving at the top, not while staying there.
    method AdjustVolume(delta: int) returns (snapshot: Snapshot, ok: bool)
      requires Inv()
      modifies `volume, `saved, `notified, `cues, `requests
      ensures Inv() && notified && requests > old(requests)
      ensures volume == Clamp(old(volume) + delta) && snapshot == Snapshot(volume, muted, Strongest(ducks))
      ensures saved == if ok && remembers then Some(volume) else old(saved)
      ensures cues == old(cues) + if old(volume) < MAX_VOLUME == volume then 1 else 0
    {
      var was := volume;
      volume := Clamp(volume + delta);
      if volume == MAX_VOLUME && was != MAX_VOLUME {
        cues := cues + 1;
      }
      ok := Apply();
      snapshot := TakeSnapshot();
    }

    method SetMuted(muted: bool) returns (snapshot: Snapshot, ok: bool)
      requires Inv()
      modifies `muted, `saved, `notified, `requests
      ensures Inv() && notified && requests > old(requests)
      ensures this.muted == muted && snapshot == Snapshot(volume, muted, Strongest(ducks))
      ensures saved == if ok && remembers then Some(volume) else old(saved)
    {
      this.muted := muted;
      ok := Apply();
      snapshot := TakeSnapshot();
    }

    method ToggleMuted() returns (snapshot: Snapshot, ok: bool)
      requires Inv()
      modifies `muted, `saved, `notified, `requests
      ensures Inv() && notified && requests > old(requests)
      ensures muted != old(muted) && snapshot == Snapshot(volume, muted, Strongest(ducks))
      ensures saved == if ok && remembers then Some(volume) else old(saved)
    {
      muted := !muted;
      ok := Apply();
      snapshot := TakeSnapshot();
    }

    // SetDuck, given the name with its surrounding blanks removed.
    method SetDuck(name: string, duck: Duck) returns (snapshot: Option<Snapshot>, ok: bool)
      requires Inv()
      modifies `ducks, `saved, `notified, `requests
      ensures Inv()
      ensures name == "" ==>
                snapshot.None? && !ok && ducks == old(ducks) && saved == old(saved) && notified == old(notified)
                && requests == old(requests)
      ensures name != "" ==>
                && ducks == (if duck == DuckNone then old(ducks) - {name} else old(ducks)[name := duck])
                && snapshot == Some(Snapshot(volume, muted, Strongest(ducks)))
                && saved == (if ok && remembers then Some(volume) else old(saved)) && notified
                && requests > old(requests)
    {
      if name == "" {
        return None, false;
      }
      if duck == DuckNone {
        ducks := ducks - {name};
      } else {
        ducks := ducks[name := duck];
      }
      ok := Apply();
      var taken := TakeSnapshot();
      snapshot := Some(taken);
    }

    // Any number of calls by other goroutines while the lock is free.
    method Setters()
      requires Inv()
      modifies `volume, `muted, `ducks, `saved, `notified, `cues, `requests
      ensures Inv() && requests >= old(requests)
      ensures requests > old(requests) ==> notified
      ensures requests == old(requests) ==>
                volume == old(volume) && muted == old(muted) && ducks == old(ducks) && notified == old(notified)
    {
      var count: int := *;
      while count > 0
        invariant Inv() && requests >= old(requests)
        invariant requests > old(requests) ==> notified
        invariant requests == old(requests) ==>
                    volume == old(volume) && muted == old(muted) && ducks == old(ducks) && notified == old(notified)
      {
        var choice: int, number: int, flag: bool, name: string, duck: Duck := *, *, *, *, *;
        match choice {
          case 0 => var _, _ := SetVolume(number);
          case 1 => var _, _ := AdjustVolume(number);
          case 2 => var _, _ := SetMuted(flag);
          case 3 => var _, _ := ToggleMuted();
          case 4 => var _, _ := SetDuck(name, duck);
          case _ => RequestPush();
        }
        count := count - 1;
      }
    }

    // ---------------------------------------------------------------- the worker

    lemma EffectiveIsHeard()
      requires Sane()
      ensures Attenuated(Effective(), volume, muted, ducks)
    {
      EffectiveIsAttenuated(volume, muted, ducks);
    }

    method EffectiveLevel() returns (level: int)
      requires Inv()
      ensures level == Effective() && Attenuated(level, volume, muted, ducks)
    {
      EffectiveIsHeard();
      if muted {
        return 0;
      }
      var duck := StrongestDuck();
      return volume * DuckScale(duck) / 100;
    }

    // displayLevel ignores ducking.
    function DisplayLevel(): int
      reads `volume, `muted
    {
      if muted then 0 else volume
    }

    // One level handed to the DSP; a call that fails may still have been obeyed.
    method Push(level: int) returns (ok: bool)
      modifies `accepted, `failures
      ensures ok ==> accepted == Some(level)
      ensures failures == old(failures) + if ok then 0 else 1
      ensures !ok ==> accepted == old(accepted) || accepted == Some(level)
    {
      ok := *;
      var obeyed: bool := *;
      if ok || obeyed {
        accepted := Some(level);
      }
      failures := failures + if ok then 0 else 1;
    }

    // One round of Run, from the moment the worker is woken.  drawn is the level
    // the ring shows; the worker is gone when it is cancelled on the way.
    method Round(drawn: int) returns (shown: int, alive: bool)
      requires Inv() && phase == Woken
      modifies this, softvol
      ensures Inv() && phase == if alive then Waiting else Stopped
      ensures if shown == drawn then arcs == old(arcs) else arcs == old(arcs) + [shown]
      // A round whose push is taken shows the chosen level, or nothing when muted, and
      // leaves no timer; one whose push fails draws nothing and sets the timer.
      ensures failures >= old(failures) && requests >= old(requests)
      ensures alive && failures == old(failures) ==>
                !retry && applied && shown == if muted then 0 else volume
      ensures alive && failures > old(failures) ==> retry && shown == drawn
      ensures requests > old(requests) ==> notified
      ensures requests == old(requests) ==> notified == old(notified)
    {
      hide Strongest, FadesFrom, DuckScale, Attenuated, Sane, Effective;
      shown, alive := drawn, true;
      retry := false;
      Setters();
      var level := EffectiveLevel();
      phase := Pushing(level);
      var faded, _ := FadeToTarget(softvol, softvolForPercent(level));
      var cancelled: bool := *;
      if !faded && cancelled {
        phase, alive := Stopped, false;
        return;
      }
      Setters();
      shown, alive := Deliver(level, drawn);
    }

    // The second half of a round: the level is pushed, with setters in between, then
    // the ring drawn.
    method Deliver(level: int, drawn: int) returns (shown: int, alive: bool)
      requires Inv() && phase == Pushing(level) && !retry
      modifies this
      ensures Inv() && phase == if alive then Waiting else Stopped
      ensures if shown == drawn then arcs == old(arcs) else arcs == old(arcs) + [shown]
      ensures failures >= old(failures) && requests >= old(requests)
      ensures alive && failures == old(failures) ==>
                !retry && applied && shown == if muted then 0 else volume
      ensures alive && failures > old(failures) ==> retry && shown == drawn
      ensures requests > old(requests) ==> notified
      ensures requests == old(requests) ==> notified == old(notified)
    {
      hide EffectiveOf;
      shown, alive := drawn, true;
      var ok := Push(level);
      Setters();
      var cancelled: bool := *;
      if ok {
        phase := Waiting;
        if DisplayLevel() != drawn {
          shown := DisplayLevel();
          arcs := arcs + [shown];
        }
        applied := true;
      } else if cancelled {
        phase, alive := Stopped, false;
      } else {
        retry, phase := true, Waiting;
      }
    }

    // Run, cut off after any number of rounds, with setters wherever the lock is
    // free.  A worker with nothing to wait for has the effective level applied.
    method Run(rounds: nat)
      requires Inv() && phase == Starting && arcs == []
      modifies this, softvol
      ensures Inv()
      ensures phase == Waiting && !notified && !retry ==>
                accepted == Some(Effective()) && Attenuated(accepted.value, volume, muted, ducks)
      // No arc repeats the one before, and the ring then shows the level chosen.
      ensures exists first, shown ::
                && Drawn(first, arcs, shown)
                && (phase == Waiting && !notified && !retry ==> shown == if muted then 0 else volume)
      // One round is enough when no push fails and nobody asks for another.
      ensures phase == Waiting && failures == old(failures) ==> !retry
      ensures phase == Waiting && failures == old(failures) && rounds > 0 ==> accepted.Some? && applied
      ensures phase == Waiting && failures == old(failures) && rounds > 0 && requests == old(requests) + 1 ==> !notified
    {
      hide Strongest, Attenuated, Sane, Effective, NoRedraw, Drawn;
      retry := false;
      RequestPush();
      phase := Waiting;
      Setters();
      var drawn := DisplayLevel();
      ghost var first := drawn;
      RingAtFirst(first);
      for round := 0 to rounds
        invariant Inv() && phase == Waiting
        invariant failures >= old(failures) && requests > old(requests)
        invariant failures == old(failures) ==> !retry && (round > 0 ==> applied)
        invariant round == 0 ==> notified
        invariant round > 0 && failures == old(failures) && requests == old(requests) + 1 ==> !notified
        invariant !notified && !retry ==> drawn == DisplayLevel()
        invariant Drawn(first, arcs, drawn)
      {
        Setters();
        var cancelled: bool, timer: bool := *, *;
        if cancelled {
          phase := Stopped;
          assert Drawn(first, arcs, drawn);
          return;
        }
        if retry && timer {
          phase := Woken;
        } else if notified {
          notified, phase := false, Woken;
        } else {
          continue;
        }
        ghost var before, arcsBefore := drawn, arcs;
        var alive;
        drawn, alive := Round(drawn);
        DrawnGrows(first, arcsBefore, before, drawn);
        if !alive {
          return;
        }
      }
      EffectiveIsHeard();
    }
  }
}
