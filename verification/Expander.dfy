/**
 One output register shared by two processes: the MCU service owns the amplifier
 and DAC mute bits, the DSP service the reset bit, and both read-modify-write it
 under a file lock.
 */
module Expander {
  import opened Bytes

  type Register = bv8

  const DSP_RESET_MASK: Register := 0x01
  // Set when the amplifier is muted.
  const AMP_MUTE_MASK: Register := 0x02
  // Clear when the DAC is muted.
  const DAC_MUTE_MASK: Register := 0x04

  function Updated(value: Register, mask: Register, on: bool): Register {
    if on then value | mask else value & !mask
  }

  predicate AmpLive(value: Register) {
    value & AMP_MUTE_MASK == 0
  }

  predicate DacLive(value: Register) {
    value & DAC_MUTE_MASK != 0
  }

  predicate ResetBit(value: Register) {
    value & DSP_RESET_MASK != 0
  }

  predicate On(value: Register, mask: Register) {
    value & mask != 0
  }

  // The power rails of the DSP.
  function Rails(value: Register): (bool, bool) {
    (On(value, 0x10), On(value, 0x08))
  }

  // An amplifier driven by a muted DAC thumps the speaker.
  predicate Safe(value: Register) {
    AmpLive(value) ==> DacLive(value)
  }

  // ------------------------------------------------------------------ lock, read, write, unlock

  datatype Process = Mcu | Dsp

  // Where a process is in an update of the register.
  datatype Progress = Idle | Locked | HasRead(value: Register)

  // mcuView and dspView are the register as it would be if only that process had
  // ever written it.
  datatype System = System(register: Register, holder: Option<Process>, mcu: Progress, dsp: Progress,
                           mcuView: Register, dspView: Register)

  datatype Step =
    | Lock(process: Process)
    | Read(process: Process)
    | Write(process: Process, mask: Register, on: bool)
    | GiveUp(process: Process)

  function ProgressOf(s: System, p: Process): Progress {
    if p == Mcu then s.mcu else s.dsp
  }

  function At(s: System, p: Process, progress: Progress): System {
    if p == Mcu then s.(mcu := progress) else s.(dsp := progress)
  }

  // Each process updates its own bits only.
  predicate Owns(p: Process, mask: Register) {
    if p == Mcu then mask & DSP_RESET_MASK == 0 else mask == DSP_RESET_MASK
  }

  predicate CanTake(s: System, step: Step) {
    match step
    case Lock(p) => s.holder == None && ProgressOf(s, p) == Idle
    case Read(p) => ProgressOf(s, p) == Locked
    case Write(p, mask, on) => ProgressOf(s, p).HasRead? && Owns(p, mask)
    case GiveUp(p) => ProgressOf(s, p) != Idle
  }

  // Writing releases the lock; so does giving up after a failed transfer.
  function Take(s: System, step: Step): System
    requires CanTake(s, step)
  {
    match step
    case Lock(p) => At(s, p, Locked).(holder := Some(p))
    case Read(p) => At(s, p, HasRead(s.register))
    case GiveUp(p) => At(s, p, Idle).(holder := None)
    case Write(p, mask, on) =>
      var written := Updated(ProgressOf(s, p).value, mask, on);
      var t := At(s, p, Idle).(holder := None, register := written);
      if p == Mcu then t.(mcuView := Updated(s.mcuView, mask, on)) else t.(dspView := Updated(s.dspView, mask, on))
  }

  predicate Fresh(s: System) {
    s.holder == None && s.mcu == Idle && s.dsp == Idle && s.mcuView == s.register && s.dspView == s.register
  }

  // A run, and the steps it takes.
  ghost predicate Behaviour(run: seq<System>, steps: seq<Step>) {
    && |run| == |steps| + 1 && Fresh(run[0])
    && forall i :: 0 <= i < |steps| ==> Follows(run, steps, i)
  }

  ghost predicate Follows(run: seq<System>, steps: seq<Step>, i: nat)
    requires i < |steps| && |run| == |steps| + 1
  {
    CanTake(run[i], steps[i]) && run[i + 1] == Take(run[i], steps[i])
  }

  // Only the holder is under way, and what it has read is what the register holds.
  predicate Exclusive(s: System) {
    && (s.mcu != Idle ==> s.holder == Some(Mcu))
    && (s.dsp != Idle ==> s.holder == Some(Dsp))
    && (s.mcu.HasRead? ==> s.mcu.value == s.register)
    && (s.dsp.HasRead? ==> s.dsp.value == s.register)
  }

  // The MCU's view, with bit 0 as the DSP sees it.
  function Merge(mcuView: Register, dspView: Register): Register {
    (mcuView & 0xFE) | (dspView & DSP_RESET_MASK)
  }

  predicate Merged(s: System) {
    s.register == Merge(s.mcuView, s.dspView)
  }

  lemma McuUpdates(mcuView: Register, dspView: Register, mask: Register, on: bool)
    requires Owns(Mcu, mask)
    ensures Updated(Merge(mcuView, dspView), mask, on) == Merge(Updated(mcuView, mask, on), dspView)
  {
    if on {
      McuSets(mcuView, dspView & DSP_RESET_MASK, mask);
    } else {
      McuClears(mcuView, dspView & DSP_RESET_MASK, mask);
    }
  }

  lemma McuSets(view: Register, bit: Register, mask: Register)
    requires mask & 0x01 == 0
    ensures ((view & 0xFE) | bit) | mask == ((view | mask) & 0xFE) | bit
  {
  }

  lemma McuClears(view: Register, bit: Register, mask: Register)
    requires mask & 0x01 == 0 && bit & 0xFE == 0
    ensures ((view & 0xFE) | bit) & !mask == ((view & !mask) & 0xFE) | bit
  {
  }

  lemma DspUpdates(mcuView: Register, dspView: Register, on: bool)
    ensures Updated(Merge(mcuView, dspView), DSP_RESET_MASK, on)
            == Merge(mcuView, Updated(dspView, DSP_RESET_MASK, on))
  {
    if on {
      DspSets(mcuView & 0xFE, dspView);
    } else {
      DspClears(mcuView & 0xFE, dspView);
    }
  }

  lemma DspSets(bits: Register, view: Register)
    ensures (bits | (view & 0x01)) | 0x01 == bits | ((view | 0x01) & 0x01)
  {
  }

  lemma DspClears(bits: Register, view: Register)
    requires bits & 0x01 == 0
    ensures (bits | (view & 0x01)) & !0x01 == bits | ((view & !0x01) & 0x01)
  {
  }

  lemma StepKeepsMerged(s: System, step: Step)
    requires Exclusive(s) && Merged(s) && CanTake(s, step)
    ensures Exclusive(Take(s, step)) && Merged(Take(s, step))
  {
    hide Updated, Merge;
    if step.Write? {
      if step.process == Mcu {
        McuUpdates(s.mcuView, s.dspView, step.mask, step.on);
      } else {
        DspUpdates(s.mcuView, s.dspView, step.on);
      }
    }
  }

  // However the two processes interleave and fail, neither loses an update of the
  // other: every register value is the MCU's own view with the DSP's own bit 0.
  lemma {:induction false} UpdatesAreNotLost(run: seq<System>, steps: seq<Step>, i: nat)
    requires Behaviour(run, steps) && i < |run|
    ensures Exclusive(run[i]) && Merged(run[i])
    ensures ResetBit(run[i].register) == ResetBit(run[i].dspView)
    ensures AmpLive(run[i].register) == AmpLive(run[i].mcuView) && DacLive(run[i].register) == DacLive(run[i].mcuView)
  {
    hide Updated, Merge, AmpLive, DacLive, ResetBit, On;
    if i == 0 {
      SplitRegister(run[0].register);
    } else {
      UpdatesAreNotLost(run, steps, i - 1);
      assert Follows(run, steps, i - 1);
      StepKeepsMerged(run[i - 1], steps[i - 1]);
    }
    ViewsShow(run[i].mcuView, run[i].dspView);
  }

  // The one thing asked of the MCU: from some point of the run on, no write of its
  // own would make its view of the register unsafe.
  ghost predicate Careful(run: seq<System>, steps: seq<Step>, since: nat)
    requires |run| == |steps| + 1
  {
    forall i :: since <= i < |steps| ==> CarefulStep(run[i], steps[i])
  }

  predicate CarefulStep(s: System, step: Step) {
    step.Write? && step.process == Mcu ==> Safe(Updated(s.mcuView, step.mask, step.on))
  }

  // Then no register value from there on is unsafe, in whatever way the lock,
  // read, write and unlock steps of the two processes interleave and fail.
  lemma {:induction false} EveryRegisterIsSafe(run: seq<System>, steps: seq<Step>, since: nat, i: nat)
    requires Behaviour(run, steps) && since <= i < |run|
    requires Safe(run[since].register) && Careful(run, steps, since)
    ensures Safe(run[i].register)
    decreases i
  {
    hide Updated, AmpLive, DacLive, ResetBit;
    UpdatesAreNotLost(run, steps, i);
    if i > since {
      EveryRegisterIsSafe(run, steps, since, i - 1);
      UpdatesAreNotLost(run, steps, i - 1);
      assert Follows(run, steps, i - 1) && CarefulStep(run[i - 1], steps[i - 1]);
    }
  }

  lemma {:induction false} HolderHasProgress(run: seq<System>, steps: seq<Step>, i: nat)
    requires Behaviour(run, steps) && i < |run|
    ensures run[i].holder.Some? ==> ProgressOf(run[i], run[i].holder.value) != Idle
  {
    hide Updated, Merge, Merged;
    if i > 0 {
      HolderHasProgress(run, steps, i - 1);
      UpdatesAreNotLost(run, steps, i - 1);
      assert Follows(run, steps, i - 1);
    }
  }

  // The output bits: 0x02 mutes the amplifier, 0x04 opens the DAC, 0x10 and 0x08 are the
  // rails; only with both clear does a live amplifier meet a muted DAC.
  lemma Outputs(value: Register)
    ensures value & 0x06 == 0x02 <==> !AmpLive(value) && !DacLive(value)
    ensures value & 0x06 == 0x04 <==> AmpLive(value) && DacLive(value)
    ensures value & 0x1E == 0x1A <==> !AmpLive(value) && !DacLive(value) && Rails(value) == (true, true)
    ensures Safe(value) <==> value & 0x06 != 0
  {
  }

  lemma SplitRegister(value: Register)
    ensures value == Merge(value, value)
  {
  }

  lemma ViewsShow(mcuView: Register, dspView: Register)
    ensures var register := Merge(mcuView, dspView);
            && ResetBit(register) == ResetBit(dspView)
            && AmpLive(register) == AmpLive(mcuView) && DacLive(register) == DacLive(mcuView)
            && Rails(register) == Rails(mcuView)
  {
  }

  // What the MCU has written, in order.
  datatype Change = Change(mask: Register, on: bool)

  function Made(step: Step): seq<Change> {
    if step.Write? && step.process == Mcu then [Change(step.mask, step.on)] else []
  }

  function McuWrites(steps: seq<Step>): seq<Change> {
    if steps == [] then [] else McuWrites(steps[..|steps| - 1]) + Made(steps[|steps| - 1])
  }

  lemma WritesAppend(steps: seq<Step>, step: Step)
    ensures McuWrites(steps + [step]) == McuWrites(steps) + Made(step)
  {
    assert (steps + [step])[..|steps|] == steps;
  }

  // ------------------------------------------------------------------ the bits

  // What one update does to the bits that matter.
  lemma UpdateBits(value: Register, mask: Register, on: bool)
    ensures var next := Updated(value, mask, on);
            && (mask == AMP_MUTE_MASK ==> AmpLive(next) == !on && DacLive(next) == DacLive(value))
            && (mask == DAC_MUTE_MASK ==> DacLive(next) == on && AmpLive(next) == AmpLive(value))
            && (mask in {0x08, 0x10, DSP_RESET_MASK} ==>
                  AmpLive(next) == AmpLive(value) && DacLive(next) == DacLive(value))
            && (mask == 0x08 || mask == 0x10 ==> On(next, mask) == on)
            && (mask & DSP_RESET_MASK == 0 ==> ResetBit(next) == ResetBit(value))
            && (mask == DSP_RESET_MASK ==> ResetBit(next) == on)
  {
  }

  // Nor does it touch a rail other than its own.
  lemma UpdateSparesRails(value: Register, mask: Register, on: bool)
    requires mask in {DSP_RESET_MASK, AMP_MUTE_MASK, DAC_MUTE_MASK, 0x08, 0x10}
    ensures mask != 0x08 ==> On(Updated(value, mask, on), 0x08) == On(value, 0x08)
    ensures mask != 0x10 ==> On(Updated(value, mask, on), 0x10) == On(value, 0x10)
  {
  }

  // ------------------------------------------------------------------ the controller

  class Controller {
    // The register, the lock, and how far the two processes are.
    var system: System

    var initialized: bool
    var ampMuted: bool
    var dacMuted: bool

    // Every state so far and the steps between them; whether the amplifier has
    // been muted yet, and since which state.
    ghost var run: seq<System>
    ghost var steps: seq<Step>
    ghost var settled: bool
    ghost var since: nat
    // How many transfers and locks of this process have failed.
    ghost var faults: nat

    ghost predicate Recorded()
      reads `system, `run, `steps
    {
      && Behaviour(run, steps) && run[|run| - 1] == system
      && Exclusive(system) && Merged(system)
    }

    // From the first mute on, the run is careful.
    ghost predicate Secured()
      reads `run, `steps, `settled, `since
    {
      |run| == |steps| + 1
      && (settled ==> since < |run| && Safe(run[since].register) && Careful(run, steps, since))
    }

    // What this process has written to the register.
    ghost function Writes(): seq<Change>
      reads `steps
    {
      McuWrites(steps)
    }

    // The cached flags say what the MCU's view of the register says.
    ghost predicate Inv()
      reads this
    {
      && Recorded() && Secured() && system.mcu == Idle
      && (initialized ==> settled)
      && if settled then
           && ampMuted == !AmpLive(system.mcuView)
           && (!dacMuted ==> DacLive(system.mcuView))
           && (!ampMuted ==> !dacMuted)
         else ampMuted && dacMuted
    }

    // A controller starts on whatever a previous process has left in the register.
    constructor (register: Register)
      ensures Inv() && !initialized && !settled && run == [system] && system.register == register
    {
      system := System(register, None, Idle, Idle, register, register);
      initialized, ampMuted, dacMuted := false, true, true;
      run, steps := [System(register, None, Idle, Idle, register, register)], [];
      settled, since, faults := false, 0, 0;
      new;
      SplitRegister(register);
    }

    // Every register value since the amplifier was first muted is safe.
    lemma AlwaysSafe()
      requires Inv() && settled
      ensures forall i :: since <= i < |run| ==> Safe(run[i].register)
    {
      forall i | since <= i < |run|
        ensures Safe(run[i].register)
      {
        EveryRegisterIsSafe(run, steps, since, i);
      }
    }

    // The register shows the MCU's view, and in bit 0 the DSP's.
    lemma RegisterShowsView()
      requires Recorded()
      ensures AmpLive(system.register) == AmpLive(system.mcuView)
      ensures DacLive(system.register) == DacLive(system.mcuView)
      ensures Rails(system.register) == Rails(system.mcuView)
      ensures ResetBit(system.register) == ResetBit(system.dspView)
    {
      ViewsShow(system.mcuView, system.dspView);
    }

    method TakeStep(step: Step)
      requires Recorded() && Secured() && CanTake(system, step)
      requires settled ==> CarefulStep(system, step)
      modifies `system, `run, `steps
      ensures Recorded() && Secured()
      ensures system == Take(old(system), step)
      ensures run == old(run) + [system] && Writes() == old(Writes()) + Made(step)
    {
      WritesAppend(steps, step);
      hide Updated, Merge, CanTake, Take, Exclusive, McuWrites, Made, Safe;
      StepKeepsMerged(system, step);
      ghost var before, done := run, steps;
      system := Take(system, step);
      run, steps := run + [system], steps + [step];
      forall i | 0 <= i < |steps|
        ensures Follows(run, steps, i)
      {
        assert i < |done| ==> Follows(before, done, i);
      }
      forall i | settled && since <= i < |steps|
        ensures CarefulStep(run[i], steps[i])
      {
        assert i < |done| ==> run[i] == before[i] && steps[i] == done[i];
      }
    }

    // Any number of steps by the DSP service.
    method DspSteps()
      requires Recorded() && Secured()
      modifies `system, `run, `steps
      ensures Recorded() && Secured() && old(run) <= run
      ensures system.mcu == old(system.mcu) && system.mcuView == old(system.mcuView)
      ensures old(system.mcu) != Idle ==> system.holder == Some(Mcu)
      ensures Writes() == old(Writes())
    {
      hide Updated, Merge, Safe, McuWrites;
      var count: int := *;
      while count > 0
        invariant Recorded() && Secured() && old(run) <= run
        invariant system.mcu == old(system.mcu) && system.mcuView == old(system.mcuView)
        invariant Writes() == old(Writes())
      {
        var asserted: bool, choice: int := *, *;
        var step := match choice
                    case 0 => Lock(Dsp)
                    case 1 => Read(Dsp)
                    case 2 => Write(Dsp, DSP_RESET_MASK, asserted)
                    case _ => GiveUp(Dsp);
        if CanTake(system, step) {
          TakeStep(step);
        }
        count := count - 1;
      }
    }

    // Waiting for the lock is waiting for the steps of the DSP service, up to the one
    // that releases it.
    method AwaitLock()
      requires Recorded() && Secured() && system.mcu == Idle
      modifies `system, `run, `steps
      ensures Recorded() && Secured() && old(run) <= run
      ensures system.mcu == Idle && system.mcuView == old(system.mcuView) && system.holder == None
      ensures Writes() == old(Writes())
    {
      hide Updated, Merge, Safe, Secured, Merged, McuWrites;
      DspSteps();
      if system.holder == None {
        return;
      }
      HolderIsUnderWay();
      var done: bool, asserted: bool := *, *;
      if done && system.dsp.HasRead? {
        TakeStep(Write(Dsp, DSP_RESET_MASK, asserted));
      } else {
        TakeStep(GiveUp(Dsp));
      }
    }

    // Whoever holds the lock is in an update.
    lemma HolderIsUnderWay()
      requires Recorded()
      ensures system.holder.Some? ==> ProgressOf(system, system.holder.value) != Idle
    {
      HolderHasProgress(run, steps, |steps|);
    }

    // UpdateRegister on the output register: lock, read, write, unlock, with the DSP
    // service going on in between.  It fails exactly if the lock or a transfer does.
    // The cached flag of the bit, if it has one, is the caller's to set.
    method UpdateExpander(mask: Register, on: bool) returns (ok: bool)
      requires Recorded() && Secured() && system.mcu == Idle
      requires mask in {AMP_MUTE_MASK, DAC_MUTE_MASK, 0x08, 0x10}
      requires settled ==> Safe(Updated(system.mcuView, mask, on))
      modifies `system, `run, `steps, `faults
      ensures Recorded() && Secured() && system.mcu == Idle && old(run) <= run
      ensures faults == old(faults) + if ok then 0 else 1
      ensures Writes() == old(Writes()) + if ok then [Change(mask, on)] else []
      ensures system.mcuView == if ok then Updated(old(system.mcuView), mask, on) else old(system.mcuView)
    {
      hide Updated, Merge, Safe, Secured, Merged, Exclusive, Behaviour, Writes, Follows;
      Disjoint(mask);
      AwaitLock();
      var working: bool := *;
      if !working {
        faults := faults + 1;
        return false;
      }
      TakeStep(Lock(Mcu));
      ok := ReadAndWrite(mask, on);
    }

    // The two transfers of an update, under the lock, which is released either way.
    method ReadAndWrite(mask: Register, on: bool) returns (ok: bool)
      requires Recorded() && Secured() && system.mcu == Locked && Owns(Mcu, mask)
      requires settled ==> Safe(Updated(system.mcuView, mask, on))
      modifies `system, `run, `steps, `faults
      ensures Recorded() && Secured() && system.mcu == Idle && old(run) <= run
      ensures faults == old(faults) + if ok then 0 else 1
      ensures Writes() == old(Writes()) + if ok then [Change(mask, on)] else []
      ensures system.mcuView == if ok then Updated(old(system.mcuView), mask, on) else old(system.mcuView)
    {
      hide Updated, Merge, Safe, Secured, Merged, Exclusive, Behaviour, Writes, Follows;
      DspSteps();
      var working: bool := *;
      if !working {
        faults := faults + 1;
        TakeStep(GiveUp(Mcu));
        return false;
      }
      TakeStep(Read(Mcu));
      DspSteps();
      working := *;
      if !working {
        faults := faults + 1;
        TakeStep(GiveUp(Mcu));
        return false;
      }
      TakeStep(Write(Mcu, mask, on));
      DspSteps();
      return true;
    }

    // Unmuting the amplifier unmutes the DAC first.
    method WriteAmpMute(muted: bool) returns (ok: bool)
      requires Inv() && (!muted ==> initialized)
      modifies `system, `run, `steps, `ampMuted, `dacMuted, `settled, `since, `faults
      ensures Inv() && old(run) <= run && Rails(system.mcuView) == Rails(old(system.mcuView))
      ensures settled == (old(settled) || (ok && muted)) && (old(settled) ==> since == old(since))
      ensures faults == old(faults) + if ok then 0 else 1
      ensures ok ==> ampMuted == muted && AmpLive(system.mcuView) == !muted && (!muted ==> DacLive(system.mcuView))
      // What is written, in order.
      ensures ok ==>
                var unmuting := (if old(dacMuted) then [Change(0x04, true)] else []) + [Change(0x02, false)];
                Writes() == old(Writes()) + if muted then [Change(0x02, true)] else unmuting
      ensures !ok ==> ampMuted == old(ampMuted)
      ensures muted ==> dacMuted == old(dacMuted) && DacLive(system.mcuView) == DacLive(old(system.mcuView))
      decreases !muted
    {
      hide Updated, AmpLive, DacLive, ResetBit, On, Careful, Behaviour, Merged, Exclusive, Writes;
      if !muted && dacMuted {
        ok := WriteDACMute(false);
        if !ok {
          return;
        }
      }
      UpdateBits(system.mcuView, AMP_MUTE_MASK, muted);
      UpdateSparesRails(system.mcuView, AMP_MUTE_MASK, muted);
      ok := UpdateExpander(AMP_MUTE_MASK, muted);
      if ok {
        ampMuted := muted;
        if muted && !settled {
          settled, since := true, |run| - 1;
          RegisterShowsView();
          Settles(run, steps);
        }
      }
    }

    // Muting the DAC mutes the amplifier first.
    method WriteDACMute(muted: bool) returns (ok: bool)
      requires Inv() && (!muted ==> initialized)
      modifies `system, `run, `steps, `ampMuted, `dacMuted, `settled, `since, `faults
      ensures Inv() && old(run) <= run && Rails(system.mcuView) == Rails(old(system.mcuView))
      ensures settled == old(settled) && since == old(since)
      ensures faults == old(faults) + if ok then 0 else 1
      ensures ok ==> dacMuted == muted && DacLive(system.mcuView) == !muted && (muted ==> ampMuted)
      ensures ok ==>
                var muting := (if old(ampMuted) then [] else [Change(0x02, true)]) + [Change(0x04, false)];
                Writes() == old(Writes()) + if muted then muting else [Change(0x04, true)]
      ensures !ok ==> dacMuted == old(dacMuted)
      ensures muted && old(ampMuted) ==> ampMuted
      ensures !muted || !settled ==>
                ampMuted == old(ampMuted) && AmpLive(system.mcuView) == AmpLive(old(system.mcuView))
      decreases muted
    {
      hide Updated, AmpLive, DacLive, ResetBit, On, Careful, Behaviour, Merged, Exclusive, Writes;
      if muted && !ampMuted {
        ok := WriteAmpMute(true);
        if !ok {
          return;
        }
      }
      UpdateBits(system.mcuView, DAC_MUTE_MASK, !muted);
      UpdateSparesRails(system.mcuView, DAC_MUTE_MASK, !muted);
      ok := UpdateExpander(DAC_MUTE_MASK, !muted);
      if ok {
        dacMuted := muted;
      }
    }

    // setAmpMute: refused before initialize has succeeded.
    method SetAmpMute(muted: bool) returns (ok: bool)
      requires Inv()
      modifies `system, `run, `steps, `ampMuted, `dacMuted, `settled, `since, `faults
      ensures Inv() && old(run) <= run && Rails(system.mcuView) == Rails(old(system.mcuView))
      ensures settled == (old(settled) || (ok && muted)) && (old(settled) ==> since == old(since))
      ensures ok <==> (muted || initialized) && faults == old(faults)
      ensures faults == old(faults) + if ok || (!muted && !initialized) then 0 else 1
      ensures ok ==> ampMuted == muted && AmpLive(system.mcuView) == !muted
      ensures ok ==>
                var unmuting := (if old(dacMuted) then [Change(0x04, true)] else []) + [Change(0x02, false)];
                Writes() == old(Writes()) + if muted then [Change(0x02, true)] else unmuting
      ensures !muted && !initialized ==> !ok && run == old(run)
      ensures muted ==> dacMuted == old(dacMuted) && DacLive(system.mcuView) == DacLive(old(system.mcuView))
      ensures ok && !muted ==> DacLive(system.mcuView)
      ensures !ok ==> ampMuted == old(ampMuted)
    {
      if !muted && !initialized {
        return false;
      }
      ok := WriteAmpMute(muted);
    }

    // setDACMute.  While the amplifier has not been muted once, its cached flag is
    // not to be trusted: muting the DAC then leaves a safe register exactly if the
    // amplifier happens to be muted.
    method SetDACMute(muted: bool) returns (ok: bool)
      requires Inv()
      modifies `system, `run, `steps, `ampMuted, `dacMuted, `settled, `since, `faults
      ensures Inv() && old(run) <= run && Rails(system.mcuView) == Rails(old(system.mcuView))
      ensures settled == old(settled) && since == old(since)
      ensures ok <==> (muted || initialized) && faults == old(faults)
      ensures faults == old(faults) + if ok || (!muted && !initialized) then 0 else 1
      ensures ok ==> dacMuted == muted && DacLive(system.mcuView) == !muted
      ensures ok ==>
                var muting := (if old(ampMuted) then [] else [Change(0x02, true)]) + [Change(0x04, false)];
                Writes() == old(Writes()) + if muted then muting else [Change(0x04, true)]
      ensures muted && (ok || old(ampMuted)) ==> ampMuted
      ensures !muted && !initialized ==> !ok && run == old(run)
      ensures !muted ==> ampMuted == old(ampMuted)
      ensures ok && muted && !settled ==> (Safe(system.register) <==> !AmpLive(old(system.register)))
    {
      RegisterShowsView();
      if !muted && !initialized {
        return false;
      }
      ok := WriteDACMute(muted);
      RegisterShowsView();
    }

    // muteAll: when the amplifier cannot be muted the DAC is tried all the same.
    method MuteAll() returns (ok: bool)
      requires Inv()
      modifies `system, `run, `steps, `ampMuted, `dacMuted, `settled, `since, `faults
      ensures Inv() && old(run) <= run && Rails(system.mcuView) == Rails(old(system.mcuView))
      ensures ok <==> faults == old(faults)
      ensures ok ==> settled && !AmpLive(system.register) && !DacLive(system.register) && system.register & 0x06 == 0x02
      // The amplifier first, as an amplifier live on a muted DAC thumps.
      ensures ok ==> Writes() == old(Writes()) + [Change(0x02, true), Change(0x04, false)]
      // One failure is made up for: the amplifier is silent all the same.
      ensures old(settled) && faults <= old(faults) + 1 ==> !AmpLive(system.register)
    {
      var amp := SetAmpMute(true);
      var dac := SetDACMute(true);
      RegisterShowsView();
      Outputs(system.register);
      return amp && dac;
    }

    // initialize: the amplifier is muted before anything else is written.
    method Initialize() returns (ok: bool)
      requires Inv() && !initialized
      modifies this
      ensures Inv() && initialized == ok && old(run) <= run
      ensures ok <==> faults == old(faults)
      ensures ok ==> !AmpLive(system.register) && !DacLive(system.register) && Rails(system.register) == (true, true)
      ensures ok ==> system.register & 0x1E == 0x1A
      ensures ok ==>
                Writes() == old(Writes())
                            + [Change(0x02, true), Change(0x04, false), Change(0x10, true), Change(0x08, true)]
    {
      hide Updated, AmpLive, DacLive, On, ResetBit, Recorded, Secured, Writes;
      ok := *;
      if !ok {
        faults := faults + 1;
        return;
      }
      ok := SetAmpMute(true);
      if !ok {
        return;
      }
      ok := SetDACMute(true);
      if !ok {
        return;
      }
      UpdateBits(system.mcuView, 0x10, true);
      UpdateSparesRails(system.mcuView, 0x10, true);
      ok := UpdateExpander(0x10, true);
      if !ok {
        return;
      }
      UpdateBits(system.mcuView, 0x08, true);
      UpdateSparesRails(system.mcuView, 0x08, true);
      ok := UpdateExpander(0x08, true);
      if !ok {
        return;
      }
      for setting := 0 to 10
        invariant Inv() && settled && ampMuted && !DacLive(system.mcuView) && !initialized
        invariant Rails(system.mcuView) == (true, true)
        invariant old(run) <= run && faults == old(faults)
        invariant Writes() == old(Writes())
                  + [Change(0x02, true), Change(0x04, false), Change(0x10, true), Change(0x08, true)]
      {
        ok := *;
        if !ok {
          faults := faults + 1;
          var _ := SetAmpMute(true);
          var _ := SetDACMute(true);
          return;
        }
      }
      RegisterShowsView();
      Outputs(system.register);
      initialized, ok := true, true;
    }

    // OpenOutputs: the DAC, then the amplifier.
    method OpenOutputs() returns (ok: bool)
      requires Inv()
      modifies `system, `run, `steps, `ampMuted, `dacMuted, `settled, `since, `faults
      ensures Inv() && old(run) <= run && Rails(system.mcuView) == Rails(old(system.mcuView))
      ensures ok <==> initialized && faults == old(faults)
      ensures ok ==> AmpLive(system.register) && DacLive(system.register) && system.register & 0x06 == 0x04
      ensures ok ==> Writes() == old(Writes()) + [Change(0x04, true), Change(0x02, false)]
      ensures !initialized ==> !ok && run == old(run)
    {
      ok := SetDACMute(false);
      if !ok {
        return;
      }
      ok := SetAmpMute(false);
      RegisterShowsView();
      Outputs(system.register);
    }
  }

  // A run is careful from its last state on.
  lemma Settles(run: seq<System>, steps: seq<Step>)
    requires |run| == |steps| + 1
    ensures Careful(run, steps, |run| - 1)
  {
  }

  lemma Disjoint(mask: Register)
    requires mask in {AMP_MUTE_MASK, DAC_MUTE_MASK, 0x08, 0x10}
    ensures mask & DSP_RESET_MASK == 0
  {
  }
}
