/**
 The microphone's state file and the DSP over processes that die at any call and
 are started again on what they find.
 */
module MicMuteRestart {
  import opened MicMute

  // The calls of one process after the other; each may end anywhere in the middle.
  function Joined(lives: seq<seq<Event>>): seq<Event> {
    if lives == [] then [] else lives[0] + Joined(lives[1..])
  }

  // A process that dies has made the first few of the calls it would have made.
  lemma DyingKeepsOrder(log: seq<Event>, lights: bool, k: nat)
    requires Ordered(log, lights) && k <= |log|
    ensures Ordered(log[..k], lights)
  {
    forall i | 0 <= i < k
      ensures Justified(log[..k], lights, i)
    {
      assert log[..k][..i] == log[..i] && Justified(log, lights, i);
    }
  }

  // No process relies on a call made by one before it.
  lemma {:induction false} LivesKeepOrder(lives: seq<seq<Event>>, lights: bool)
    requires forall life <- lives :: Ordered(life, lights)
    ensures Ordered(Joined(lives), lights)
  {
    if lives != [] {
      var first, rest := lives[0], Joined(lives[1..]);
      assert Ordered(first, lights);
      LivesKeepOrder(lives[1..], lights);
      forall i | 0 <= i < |first + rest|
        ensures Justified(first + rest, lights, i)
      {
        if i < |first| {
          assert Justified(first, lights, i) && (first + rest)[..i] == first[..i];
        } else {
          LaterStaysJustified(first, rest, lights, i - |first|);
        }
      }
    }
  }

  lemma LaterStaysJustified(first: seq<Event>, rest: seq<Event>, lights: bool, i: nat)
    requires i < |rest| && Justified(rest, lights, i)
    ensures Justified(first + rest, lights, |first| + i)
  {
    var log := first + rest;
    assert log[|first| + i] == rest[i];
    assert log[..|first| + i] == first + rest[..i];
  }

  // Neither is the file written after event i, nor a mute acknowledged.
  ghost predicate NoWriteAfter(log: seq<Event>, i: nat) {
    forall j :: i < j < |log| ==> !(log[j].Persist? && log[j].ok)
  }

  ghost predicate NoMuteAfter(log: seq<Event>, i: nat) {
    forall j :: i < j < |log| ==> log[j] != Request(true, true)
  }

  lemma CourseBefore(worlds: seq<World>, log: seq<Event>, lights: bool)
    requires Course(worlds, log) && Ordered(log, lights) && log != []
    ensures Course(worlds[..|log|], log[..|log| - 1]) && Ordered(log[..|log| - 1], lights)
    ensures Moves(worlds[|log| - 1], log[|log| - 1], worlds[|log|])
  {
    var n := |log| - 1;
    DyingKeepsOrder(log, lights, n);
    var front, before := log[..n], worlds[..n + 1];
    forall i | 0 <= i < |front|
      ensures Moves(before[i], front[i], before[i + 1])
    {
      assert Moves(worlds[i], log[i], worlds[i + 1]);
    }
    assert Moves(worlds[n], log[n], worlds[n + 1]);
  }

  // A live microphone behind a file that says muted: an unmute has been asked for,
  // or a mute written down, and since then no mute has been acknowledged and the
  // file not written.  The next process starts blocked, and reconciles.
  lemma {:induction false} LiveBehindMutedFile(worlds: seq<World>, log: seq<Event>, lights: bool) returns (i: nat)
    requires Course(worlds, log) && Ordered(log, lights)
    requires worlds[0] != World(true, false) && worlds[|log|] == World(true, false)
    ensures i < |log| && (log[i] == Persist(true, true) || (log[i].Request? && !log[i].muted))
    ensures NoWriteAfter(log, i) && NoMuteAfter(log, i)
    decreases |log|
  {
    var n := |log| - 1;
    var last := log[n];
    CourseBefore(worlds, log, lights);
    if last == Persist(true, true) || (last.Request? && !last.muted) {
      i := n;
    } else {
      i := LiveBehindMutedFile(worlds[..n + 1], log[..n], lights);
    }
  }

  // A muted microphone behind a file that says unmuted: an unmute has been refused
  // and undone, and the file not written since.  The next process takes it for live.
  lemma {:induction false} MutedBehindUnmutedFile(worlds: seq<World>, log: seq<Event>, lights: bool) returns (i: nat)
    requires Course(worlds, log) && Ordered(log, lights)
    requires worlds[0] != World(false, true) && worlds[|log|] == World(false, true)
    ensures i + 1 < |log| && (log[i] == Request(false, false) || log[i] == Persist(false, false))
    ensures log[i + 1].Request? && log[i + 1].muted && NoWriteAfter(log, i)
    decreases |log|
  {
    var n := |log| - 1;
    var last := log[n];
    CourseBefore(worlds, log, lights);
    assert Justified(log, lights, n);
    if n > 0 {
      assert Moves(worlds[n - 1], log[n - 1], worlds[n]);
      assert log[..n][n - 1] == log[n - 1];
    }
    // A write that succeeds leaves "muted", or follows the DSP's word that it is live.
    assert !(last.Persist? && last.ok);
    if worlds[n] == World(false, true) {
      i := MutedBehindUnmutedFile(worlds[..n + 1], log[..n], lights);
      assert log[..n][i] == log[i] && log[..n][i + 1] == log[i + 1];
    } else {
      i := n - 1;
    }
  }

  // Over every run of processes, however each of them ends: how the microphone has
  // come to be live behind a file that says muted, or muted behind one that does not,
  // if it was not so from the start.
  lemma RestartsExplained(worlds: seq<World>, lives: seq<seq<Event>>, lights: bool)
    requires Course(worlds, Joined(lives)) && forall life <- lives :: Ordered(life, lights)
    ensures var log := Joined(lives);
            var now := worlds[|log|];
            && (now == World(true, false) != worlds[0] ==>
                  exists i :: 0 <= i < |log| && (log[i] == Persist(true, true) || (log[i].Request? && !log[i].muted))
                              && NoWriteAfter(log, i) && NoMuteAfter(log, i))
            && (now == World(false, true) != worlds[0] ==>
                  exists i :: 0 <= i < |log| - 1 && (log[i] == Request(false, false) || log[i] == Persist(false, false))
                              && log[i + 1].Request? && log[i + 1].muted && NoWriteAfter(log, i))
  {
    var log := Joined(lives);
    LivesKeepOrder(lives, lights);
    if worlds[|log|] == World(true, false) != worlds[0] {
      var i := LiveBehindMutedFile(worlds, log, lights);
    } else if worlds[|log|] == World(false, true) != worlds[0] {
      var i := MutedBehindUnmutedFile(worlds, log, lights);
    }
  }

  // The second case happens: the request of an unmute fails, the mute that undoes
  // it is acknowledged, and the write of the file fails.
  lemma RestartCanInheritMute() returns (worlds: seq<World>, log: seq<Event>)
    ensures log == [Request(false, false), Request(true, true), Persist(true, false)]
    ensures Course(worlds, log) && Ordered(log, false)
    ensures worlds[0] == World(false, false) && worlds[|log|] == World(false, true)
  {
    log := [Request(false, false), Request(true, true), Persist(true, false)];
    var live, muted := World(false, false), World(false, true);
    worlds := [live, live, muted, muted];
    assert log[..1] == [Request(false, false)];
    assert Justified(log, false, 0) && Justified(log, false, 1) && Justified(log, false, 2);
  }
}
