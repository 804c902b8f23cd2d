/**
 The DSP's handshake lines and SPI shift register, where every access may fail,
 and what a request and its reply look like on a device that does not fail.
 */
module DspExchange {
  import opened Bytes
  import opened DspFrame
  import opened DspStream

  const MAX_UNRELATED_FRAMES: nat := 8
  const MAX_RECEIVE_RETRIES: nat := 3
  const MAX_RECEIVES: nat := MAX_UNRELATED_FRAMES + MAX_RECEIVE_RETRIES

  // The errors a caller can tell apart: isFrameError holds of BadFrame and Unmatched only.
  datatype Fault = DeviceFault | BadFrame | ResponseFault | Unmatched

  // The reply to a message carries its id, and its code as first payload byte.
  predicate Answers(frame: Frame, message: Data)
    requires |message| >= 6
  {
    var high: int, low: int, code: int := message[0], message[1], message[5];
    && frame.id == 0x100 * high + low
    && |frame.payload| > 0 && frame.payload[0] == code
  }

  // The same, byte by byte as on the wire.
  predicate IsReplyTo(frame: Frame, message: Data)
    requires |message| >= 6
  {
    [frame.id / 0x100, frame.id % 0x100] == message[..2] && frame.payload != [] && [frame.payload[0]] == message[5..6]
  }

  lemma AnswersIffReply(frame: Frame, message: Data)
    requires |message| >= 6
    ensures Answers(frame, message) <==> IsReplyTo(frame, message)
  {
    assert message[..2] == [message[0], message[1]] && message[5..6] == [message[5]];
    var high: int, low: int := message[0], message[1];
    assert (0x100 * high + low) / 0x100 == high && (0x100 * high + low) % 0x100 == low;
  }

  datatype Exchange =
    | Reply(frame: Frame, strays: seq<Frame>, rest: Data)
    | Failure(fault: Fault, strays: seq<Frame>, rest: Data)

  // The receive loop of transmitOnce on a device that never fails: strays are
  // the unrelated frames, in order; three bad frames or nine strays end it.
  function Await(input: Data, message: Data, strays: seq<Frame>, failures: nat): Exchange
    requires |message| >= 6 && failures < MAX_RECEIVE_RETRIES && |strays| <= MAX_UNRELATED_FRAMES + 1
    decreases MAX_UNRELATED_FRAMES + 1 - |strays| + MAX_RECEIVE_RETRIES - failures
  {
    if |strays| > MAX_UNRELATED_FRAMES then Failure(Unmatched, strays, input)
    else
      match Receive(input)
      case Hungry => Failure(DeviceFault, strays, input)
      case Received(frame, rest) =>
        if Answers(frame, message) then Reply(frame, strays, rest)
        else Await(rest, message, strays + [frame], failures)
      case Lost(rest) =>
        if failures + 1 >= MAX_RECEIVE_RETRIES then Failure(ResponseFault, strays, rest)
        else Await(rest, message, strays, failures + 1)
      case Corrupt(rest) =>
        if failures + 1 >= MAX_RECEIVE_RETRIES then Failure(ResponseFault, strays, rest)
        else Await(rest, message, strays, failures + 1)
  }

  // What may come before the reply: a sound frame that is not it, or a damaged one.
  predicate Passed(wire: Wire, message: Data)
    requires |message| >= 6
  {
    wire.noise <= MAX_HEADER_SHIFTS && Sized(wire) && (Sound(wire) ==> !IsReplyTo(WireFrame(wire), message))
  }

  function Sounds(wires: seq<Wire>): (sounds: seq<Wire>)
    ensures forall w <- sounds :: Sound(w)
    ensures |sounds| <= |wires|
  {
    if wires == [] then [] else (if Sound(wires[0]) then [wires[0]] else []) + Sounds(wires[1..])
  }

  // A reply behind unrelated and damaged frames, in any mixture, is found exactly when
  // there are at most eight of the first and two of the second; the unrelated ones are
  // all kept, in order, and nothing after the reply is read.
  lemma ReplyIsFoundIff(wires: seq<Wire>, reply: Wire, tail: Data, message: Data)
    requires |message| >= 6
    requires forall w <- wires :: Passed(w, message)
    requires Sound(reply) && reply.noise <= MAX_HEADER_SHIFTS && IsReplyTo(WireFrame(reply), message)
    ensures Await(Stream(wires) + (WireBytes(reply) + tail), message, [], 0)
            == Reply(WireFrame(reply), Frames(Sounds(wires)), tail)
            <==> |Sounds(wires)| <= 8 && |wires| - |Sounds(wires)| <= 2
    // Otherwise, with few enough of one kind, the error is for too many of the other.
    ensures var found := Await(Stream(wires) + (WireBytes(reply) + tail), message, [], 0);
            && (|Sounds(wires)| <= 8 && |wires| - |Sounds(wires)| > 2 ==>
                  found.Failure? && found.fault == ResponseFault)
            && (|Sounds(wires)| > 8 && |wires| - |Sounds(wires)| <= 2 ==>
                  found.Failure? && found.fault == Unmatched)
  {
    hide Await, Stream, WireBytes, Passed, IsReplyTo, Sound, Decode, Frames;
    FramesArePassed(wires, reply, tail, message, [], 0);
    assert [] + Frames(Sounds(wires)) == Frames(Sounds(wires));
  }

  lemma {:induction false} FramesArePassed(wires: seq<Wire>, reply: Wire, tail: Data, message: Data,
                                           strays: seq<Frame>, failures: nat)
    requires |message| >= 6 && |strays| <= MAX_UNRELATED_FRAMES + 1 && failures < MAX_RECEIVE_RETRIES
    requires forall w <- wires :: Passed(w, message)
    requires Sound(reply) && reply.noise <= MAX_HEADER_SHIFTS && IsReplyTo(WireFrame(reply), message)
    ensures var sounds := Sounds(wires);
            var found := Await(Stream(wires) + (WireBytes(reply) + tail), message, strays, failures);
            if |strays| + |sounds| <= MAX_UNRELATED_FRAMES && failures + |wires| - |sounds| < MAX_RECEIVE_RETRIES
            then found == Reply(WireFrame(reply), strays + Frames(sounds), tail)
            else
              && found.Failure?
              && (|strays| + |sounds| <= MAX_UNRELATED_FRAMES ==> found.fault == ResponseFault)
              && (failures + |wires| - |sounds| < MAX_RECEIVE_RETRIES ==> found.fault == Unmatched)
    decreases |wires|
  {
    hide Receive, WireBytes, Answers, IsReplyTo, Sound, Sized, Decode;
    var after := WireBytes(reply) + tail;
    if wires == [] {
      assert Stream(wires) + after == after;
      assert strays + Frames(Sounds(wires)) == strays;
      FrameAfterNoiseIff(reply, tail);
      AnswersIffReply(WireFrame(reply), message);
    } else {
      var first, later := wires[0], wires[1..];
      var rest := Stream(later) + after;
      assert Stream(wires) + after == WireBytes(first) + rest;
      assert Passed(first, message);
      if Sound(first) && |strays| <= MAX_UNRELATED_FRAMES {
        FrameAfterNoiseIff(first, rest);
        AnswersIffReply(WireFrame(first), message);
        FramesArePassed(later, reply, tail, message, strays + [WireFrame(first)], failures);
        StraysGrow(first, later, strays);
      } else if !Sound(first) && |strays| <= MAX_UNRELATED_FRAMES {
        DamagedFrameIsDropped(first, rest);
        if failures + 1 < MAX_RECEIVE_RETRIES {
          FramesArePassed(later, reply, tail, message, strays, failures + 1);
        }
        assert [] + Sounds(later) == Sounds(later);
      }
    }
  }

  lemma StraysGrow(first: Wire, later: seq<Wire>, strays: seq<Frame>)
    requires Sound(first)
    ensures |Sounds([first] + later)| == 1 + |Sounds(later)|
    ensures strays + [WireFrame(first)] + Frames(Sounds(later)) == strays + Frames(Sounds([first] + later))
  {
    hide Sound;
    assert ([first] + later)[1..] == later;
    var sounds := Sounds([first] + later);
    assert sounds == [first] + Sounds(later);
    assert sounds[1..] == Sounds(later);
  }

  // What an exchange on a device that does not fail came to.
  ghost predicate Exchanged(before: Data, message: Data, reply: Option<Frame>, fault: Option<Fault>,
                            strays: seq<Frame>, after: Data)
  {
    && |message| >= 6 && (reply.Some? <==> fault.None?)
    && Await(before, message, [], 0)
       == if reply.Some? then Reply(reply.value, strays, after) else Failure(fault.value, strays, after)
  }

  // A line driven to a level.
  datatype Driven = Active(level: bool) | Strobe(level: bool)

  /** The GPIO lines and the SPI bus, as the link sees them. */
  class Device {
    // The bytes the DSP will shift out, and the levels of the Active, Busy and
    // Ready lines; the last two are the DSP's, and Ready is active low.
    var input: Data
    var active: bool
    var busy: bool
    var ready: bool
    // The bytes shifted in, the lines driven, and how many accesses and line writes
    // have failed.
    ghost var sent: Data
    ghost var driven: seq<Driven>
    ghost var faults: nat
    ghost var writeFaults: nat

    constructor (input: Data, active: bool, busy: bool, ready: bool)
      ensures this.input == input && this.active == active && this.busy == busy && this.ready == ready
      ensures sent == [] && driven == [] && faults == 0 && writeFaults == 0
    {
      this.input, this.active, this.busy, this.ready := input, active, busy, ready;
      sent, driven, faults, writeFaults := [], [], 0, 0;
    }

    // Time passes: the DSP moves its lines and may have more to say.
    method Moves(busy: bool)
      modifies `input, `busy, `ready
      ensures this.busy == busy && old(input) <= input
    {
      var more: Data, level: bool := *, *;
      input, this.busy, ready := input + more, busy, level;
    }

    // A failed write leaves the line in an unknown state.
    method WriteActive(level: bool) returns (ok: bool)
      modifies `active, `driven, `faults, `writeFaults
      ensures ok ==> active == level && faults == old(faults) && writeFaults == old(writeFaults)
      ensures !ok ==> faults == old(faults) + 1 && writeFaults == old(writeFaults) + 1
      ensures driven == if ok then old(driven) + [Active(level)] else old(driven)
    {
      ok := *;
      if ok {
        active, driven := level, driven + [Active(level)];
      } else {
        active := *;
        faults, writeFaults := faults + 1, writeFaults + 1;
      }
    }

    method WriteStrobe(level: bool) returns (ok: bool)
      modifies `driven, `faults, `writeFaults
      ensures ok ==> faults == old(faults) && writeFaults == old(writeFaults)
      ensures !ok ==> faults == old(faults) + 1 && writeFaults == old(writeFaults) + 1
      ensures driven == if ok then old(driven) + [Strobe(level)] else old(driven)
    {
      ok := *;
      if ok {
        driven := driven + [Strobe(level)];
      } else {
        faults, writeFaults := faults + 1, writeFaults + 1;
      }
    }

    // Turning the Active line into an output may move it; failing to does not.
    method DriveActive() returns (ok: bool)
      modifies `active, `faults
      ensures ok ==> faults == old(faults)
      ensures !ok ==> faults == old(faults) + 1 && active == old(active)
    {
      ok := *;
      if ok {
        active := *;
      } else {
        faults := faults + 1;
      }
    }

    // A sampled line, or None when the read fails.
    method ReadBusy() returns (level: Option<bool>)
      modifies `faults
      ensures level.Some? ==> level.value == busy
      ensures faults == old(faults) + if level.None? then 1 else 0
    {
      var ok: bool := *;
      faults := faults + if ok then 0 else 1;
      return if ok then Some(busy) else None;
    }

    method ReadReady() returns (level: Option<bool>)
      modifies `faults
      ensures level.Some? ==> level.value == ready
      ensures faults == old(faults) + if level.None? then 1 else 0
    {
      var ok: bool := *;
      faults := faults + if ok then 0 else 1;
      return if ok then Some(ready) else None;
    }

    // waitReady: polls until the line is low, it cannot be read, or time is up.
    method WaitReady(polls: nat) returns (ok: bool)
      modifies `faults, `ready
      ensures ok ==> !ready && faults == old(faults)
      ensures !ok ==> faults == old(faults) + 1
    {
      for i := 0 to polls
        invariant faults == old(faults)
      {
        var level := ReadReady();
        if level.None? {
          return false;
        }
        if !level.value {
          return true;
        }
        ready := *;
      }
      faults := faults + 1;
      return false;
    }

    // A transfer under way, the DSP may move its Ready line.
    method Proceeds()
      modifies `ready
    {
      ready := *;
    }

    // transferSerial, reading.
    method ReadBytes(count: nat) returns (bytes: Option<Data>)
      modifies `input, `faults
      ensures bytes.Some? ==> count <= |old(input)| && bytes.value == old(input)[..count]
                              && input == old(input)[count..] && faults == old(faults)
      ensures bytes.None? ==> faults == old(faults) + 1
    {
      var out: Data := [];
      for index := 0 to count
        invariant index <= |old(input)| && out == old(input)[..index] && input == old(input)[index..]
        invariant faults == old(faults)
      {
        var ok: bool := *;
        if !ok || input == [] {
          input := *;
          faults := faults + 1;
          return None;
        }
        out, input := out + [input[0]], input[1..];
      }
      return Some(out);
    }

    // transferSerial, writing.
    method WriteBytes(bytes: Data) returns (ok: bool)
      modifies `sent, `faults
      ensures ok ==> sent == old(sent) + bytes && faults == old(faults)
      ensures !ok ==> faults == old(faults) + 1
    {
      for index := 0 to |bytes|
        invariant sent == old(sent) + bytes[..index] && faults == old(faults)
      {
        var working: bool := *;
        if !working {
          faults := faults + 1;
          return false;
        }
        sent := sent + [bytes[index]];
        assert bytes[..index + 1] == bytes[..index] + [bytes[index]];
      }
      return true;
    }
  }
}
