/**
 The queue of requests and the exchange of frames on the DSP link, with other
 goroutines adding to the queue whenever the link's lock is free.
 */
module DspLink {
  import opened Bytes
  import opened DspFrame
  import opened DspExchange
  import Wire = DspStream

  // How a message left the link for good: what its completion is sent.
  datatype Fate = Expired | Transmitted(fault: Option<Fault>)

  // A completion channel holds at most one value.
  datatype Channel = Channel(buffer: seq<Fate>, closed: bool)

  datatype Message = Message(frame: Data, completion: Option<nat>)

  datatype Finished = Finished(message: Message, fate: Fate)

  // A decoded frame, and whether it was the matched reply of an exchange.
  datatype Heard = Heard(frame: Frame, reply: bool)

  datatype Receipt = Got(frame: Frame) | Missed(fault: Fault)

  datatype Admission = TooLong | NotBooted | Queued(completion: Option<nat>)

  // ------------------------------------------------------------------ histories

  function Messages(finished: seq<Finished>): (messages: seq<Message>)
    ensures |messages| == |finished|
    ensures forall i :: 0 <= i < |finished| ==> messages[i] == finished[i].message
  {
    seq(|finished|, i requires 0 <= i < |finished| => finished[i].message)
  }

  // The messages put on the wire, in order.
  function OnWire(finished: seq<Finished>): seq<Message> {
    if finished == [] then []
    else
      var last := finished[|finished| - 1];
      OnWire(finished[..|finished| - 1]) + if last.fate.Transmitted? then [last.message] else []
  }

  function FramesOf(heard: seq<Heard>): (frames: seq<Frame>)
    ensures |frames| == |heard|
    ensures forall i :: 0 <= i < |heard| ==> frames[i] == heard[i].frame
  {
    seq(|heard|, i requires 0 <= i < |heard| => heard[i].frame)
  }

  // The frames heard as replies, or as anything else.
  function Only(heard: seq<Heard>, reply: bool): seq<Frame> {
    if heard == [] then []
    else
      var last := heard[|heard| - 1];
      Only(heard[..|heard| - 1], reply) + if last.reply == reply then [last.frame] else []
  }

  lemma HeardAppend(heard: seq<Heard>, next: Heard)
    ensures FramesOf(heard + [next]) == FramesOf(heard) + [next.frame]
    ensures Only(heard + [next], true) == Only(heard, true) + if next.reply then [next.frame] else []
    ensures Only(heard + [next], false) == Only(heard, false) + if next.reply then [] else [next.frame]
  {
    assert (heard + [next])[..|heard|] == heard;
  }

  lemma OnWireAppend(finished: seq<Finished>, next: Finished)
    ensures OnWire(finished + [next]) == OnWire(finished) + if next.fate.Transmitted? then [next.message] else []
  {
    assert (finished + [next])[..|finished|] == finished;
  }

  lemma {:induction false} OnlySplits(heard: seq<Heard>)
    ensures multiset(FramesOf(heard)) == multiset(Only(heard, true)) + multiset(Only(heard, false))
  {
    if heard != [] {
      var front := heard[..|heard| - 1];
      assert FramesOf(heard) == FramesOf(front) + [heard[|heard| - 1].frame];
      OnlySplits(front);
    }
  }

  // When replies agree and the rest is returned in order up to what is pending,
  // every frame heard is returned exactly once or still pending.
  lemma FramesConserved(heard: seq<Heard>, delivered: seq<Heard>, pending: seq<Frame>)
    requires Only(heard, true) == Only(delivered, true)
    requires Only(heard, false) == Only(delivered, false) + pending
    ensures multiset(FramesOf(heard)) == multiset(FramesOf(delivered)) + multiset(pending)
  {
    hide Only, FramesOf;
    OnlySplits(heard);
    OnlySplits(delivered);
    assert multiset(Only(delivered, false) + pending) == multiset(Only(delivered, false)) + multiset(pending);
  }

  // What reaches the wire keeps the order of the queue: it is picked out of the
  // finished messages at increasing positions, all of those not expired.
  function Picks(finished: seq<Finished>): (at: seq<nat>) {
    if finished == [] then []
    else
      var n := |finished| - 1;
      Picks(finished[..n]) + if finished[n].fate.Transmitted? then [n] else []
  }

  lemma {:induction false} WireKeepsQueueOrder(finished: seq<Finished>)
    ensures var at := Picks(finished);
            && |at| == |OnWire(finished)|
            && (forall k :: 0 <= k < |at| ==> at[k] < |finished| && OnWire(finished)[k] == finished[at[k]].message)
            && (forall j, k :: 0 <= j < k < |at| ==> at[j] < at[k])
            && (forall i :: 0 <= i < |finished| ==> (finished[i].fate.Transmitted? <==> i in at))
  {
    if finished != [] {
      var n := |finished| - 1;
      var front := finished[..n];
      WireKeepsQueueOrder(front);
      var at, at' := Picks(front), Picks(finished);
      assert forall i :: 0 <= i < n ==> (i in at <==> i in at');
      assert finished[n].fate.Transmitted? ==> at'[|at'| - 1] == n;
      assert forall k :: 0 <= k < |at| ==> at[k] < n && front[at[k]] == finished[at[k]];
    }
  }

  // The channels made before are as they were.
  ghost predicate ChannelsSpared(before: map<nat, Channel>, after: map<nat, Channel>) {
    forall k <- before :: k in after && after[k] == before[k]
  }

  // ------------------------------------------------------------------ the link

  class Link {
    const device: Device
    // How often the Ready line is looked at before a wait is given up.
    const readyPolls: nat

    var queue: seq<Message>
    var pending: seq<Frame>
    var booted: bool
    var framesSent: nat
    var framesReceived: nat
    var framesRejected: nat
    var frameResyncs: nat
    // The completion channels made so far, by number.
    var made: nat
    var channels: map<nat, Channel>

    // History: every message accepted, those gone for good, the one taken off
    // the queue, and those whose transmission was started.
    ghost var accepted: seq<Message>
    ghost var finished: seq<Finished>
    ghost var inHand: seq<Message>
    ghost var attempts: seq<Message>
    // Every frame decoded, how each was classified, and those Poll has returned.
    ghost var arrived: seq<Frame>
    ghost var heard: seq<Heard>
    ghost var delivered: seq<Heard>
    ghost var receives: nat

    ghost predicate QueueKept()
      reads `queue, `accepted, `finished, `inHand
    {
      && |inHand| <= 1
      && accepted == Messages(finished) + inHand + queue
      && forall m <- accepted :: |m.frame| >= 6
    }

    // Every tracked message has a channel of its own, signalled and closed once
    // the message is finished and untouched before.
    ghost predicate ChannelsKept()
      reads `accepted, `finished, `made, `channels
    {
      && (forall k <- channels :: k < made)
      && (forall i :: 0 <= i < |accepted| && accepted[i].completion.Some? ==>
            accepted[i].completion.value in channels
            && channels[accepted[i].completion.value] == ChannelAt(i))
      && (forall i, j :: 0 <= i < j < |accepted| && accepted[i].completion.Some? ==>
            accepted[i].completion != accepted[j].completion)
    }

    ghost function ChannelAt(i: nat): Channel
      reads `finished
    {
      if i < |finished| then Channel([finished[i].fate], true) else Channel([], false)
    }

    // Each frame decoded has been returned once, or is pending; replies are
    // returned at once and all the others in the order of arrival.
    ghost predicate FramesKept()
      reads `arrived, `heard, `delivered, `pending, `framesReceived
    {
      FramesAs(delivered)
    }

    ghost predicate FramesAs(returned: seq<Heard>)
      reads `arrived, `heard, `pending, `framesReceived
    {
      && arrived == FramesOf(heard) && framesReceived == |arrived|
      && Only(heard, true) == Only(returned, true)
      && Only(heard, false) == Only(returned, false) + pending
    }

    // A frame has been decoded and not yet been classified.
    ghost predicate Arriving(frame: Frame)
      reads `arrived, `heard, `delivered, `pending, `framesReceived
    {
      && arrived == FramesOf(heard) + [frame] && framesReceived == |arrived|
      && Only(heard, true) == Only(delivered, true)
      && Only(heard, false) == Only(delivered, false) + pending
    }

    // The frame is a reply, which the exchange hands straight back.
    ghost method HearReply(frame: Frame)
      requires Arriving(frame)
      modifies `heard
      ensures FramesAs(delivered + [Heard(frame, true)])
    {
      HeardAppend(heard, Heard(frame, true));
      HeardAppend(delivered, Heard(frame, true));
      heard := heard + [Heard(frame, true)];
    }

    // The frame is anything else; it is now last in line.
    ghost method HearOther(frame: Frame)
      requires Arriving(frame)
      modifies `heard
      ensures arrived == FramesOf(heard) && framesReceived == |arrived|
      ensures Only(heard, true) == Only(delivered, true)
      ensures Only(heard, false) == Only(delivered, false) + pending + [frame]
    {
      HeardAppend(heard, Heard(frame, false));
      heard := heard + [Heard(frame, false)];
    }

    ghost predicate Valid()
      reads this
    {
      QueueKept() && ChannelsKept() && FramesKept()
    }

    // Between two calls of Poll nothing is in hand.
    ghost predicate Idle()
      reads this
    {
      Valid() && inHand == [] && attempts == OnWire(finished)
    }

    constructor (device: Device, readyPolls: nat)
      ensures Idle() && this.device == device && this.readyPolls == readyPolls
      ensures accepted == [] && delivered == [] && arrived == [] && receives == 0
    {
      this.device, this.readyPolls := device, readyPolls;
      queue, pending, booted := [], [], false;
      framesSent, framesReceived, framesRejected, frameResyncs := 0, 0, 0, 0;
      made, channels := 0, map[];
      accepted, finished, inHand, attempts := [], [], [], [];
      arrived, heard, delivered, receives := [], [], [], 0;
    }

    // The end of BootContext: the Active line is driven low, then messages are admitted.
    method FinishBoot() returns (ok: bool)
      requires Idle()
      modifies `booted, device`active, device`driven, device`faults, device`writeFaults
      ensures Idle()
      ensures ok ==> booted && !device.active
      ensures !ok ==> booted == old(booted) && device.faults > old(device.faults)
    {
      ok := LowerActive();
      if ok {
        booted := true;
      }
    }

    // ---------------------------------------------------------------- the queue

    method Enqueue(id: uint16, payload: Data, tracked: bool) returns (admission: Admission)
      requires Valid()
      modifies `queue, `made, `channels, `accepted
      ensures Valid()
      ensures admission.TooLong? <==> |payload| > MAX_PAYLOAD_BYTES
      ensures admission.NotBooted? <==> !booted && |payload| <= MAX_PAYLOAD_BYTES
      ensures admission.Queued? ==>
                queue == old(queue) + [Message(FrameBytes(id, payload), admission.completion)]
                && (admission.completion.Some? <==> tracked)
                && accepted == old(accepted) + [Message(FrameBytes(id, payload), admission.completion)]
      ensures !admission.Queued? ==> queue == old(queue) && accepted == old(accepted) && channels == old(channels)
      ensures ChannelsSpared(old(channels), channels)
    {
      hide FrameBytes, FramesKept;
      var built := BuildFrame(id, payload);
      if built.None? {
        return TooLong;
      }
      if !booted {
        return NotBooted;
      }
      var completion := None;
      if tracked {
        var number := made;
        made := made + 1;
        channels := channels[number := Channel([], false)];
        completion := Some(number);
      }
      var message := Message(built.value, completion);
      queue := queue + [message];
      accepted := accepted + [message];
      assert accepted == Messages(finished) + inHand + queue;
      return Queued(completion);
    }

    // Any number of calls by other goroutines while the lock is free.
    method Enqueuers()
      requires Valid()
      modifies `queue, `made, `channels, `accepted
      ensures Valid()
      ensures old(queue) <= queue && old(accepted) <= accepted
      ensures |accepted| - |old(accepted)| == |queue| - |old(queue)|
      ensures ChannelsSpared(old(channels), channels)
    {
      var count: int := *;
      while count > 0
        invariant Valid() && old(queue) <= queue && old(accepted) <= accepted
        invariant |accepted| - |old(accepted)| == |queue| - |old(queue)|
        invariant ChannelsSpared(old(channels), channels)
      {
        var id: uint16 := *;
        var payload: Data := *;
        var tracked: bool := *;
        var _ := Enqueue(id, payload, tracked);
        count := count - 1;
      }
    }

    method Dequeue() returns (message: Option<Message>)
      requires Valid() && inHand == []
      modifies `queue, `inHand
      ensures Valid()
      ensures message.None? <==> old(queue) == []
      ensures message.None? ==> queue == [] && inHand == []
      ensures message.Some? ==> [message.value] + queue == old(queue) && inHand == [message.value]
    {
      hide FramesKept;
      if queue == [] {
        return None;
      }
      message := Some(queue[0]);
      queue := queue[1..];
      inHand := [message.value];
      assert [message.value] + queue == old(queue);
      assert Messages(finished) + inHand + queue == Messages(finished) + old(queue);
    }

    method Requeue(message: Message)
      requires Valid() && inHand == [message]
      modifies `queue, `inHand
      ensures Valid() && inHand == []
      ensures queue == [message] + old(queue)
    {
      hide FramesKept;
      queue := [message] + queue;
      assert Messages(finished) + inHand + old(queue) == Messages(finished) + queue;
      inHand := [];
    }

    // complete: a second send would block and a second close would panic, so
    // the channel must be untouched, which ChannelsKept promises.
    method Complete(message: Message, fate: Fate)
      requires Valid() && inHand == [message]
      modifies `channels, `finished, `inHand
      ensures Valid() && inHand == []
      ensures finished == old(finished) + [Finished(message, fate)]
      ensures message.completion.None? ==> channels == old(channels)
      ensures message.completion.Some? ==>
                message.completion.value in old(channels)
                && old(channels)[message.completion.value] == Channel([], false)
                && channels == old(channels)[message.completion.value := Channel([fate], true)]
    {
      hide FramesKept;
      ghost var i := |finished|;
      assert accepted[i] == message;
      if message.completion.Some? {
        var number := message.completion.value;
        channels := channels[number := channels[number].(buffer := channels[number].buffer + [fate])];
        channels := channels[number := channels[number].(closed := true)];
      }
      finished := finished + [Finished(message, fate)];
      inHand := [];
      assert Messages(finished) == Messages(old(finished)) + [message];
    }

    // ---------------------------------------------------------------- receiving

    // finishTransfer: a release that fails turns any cause into a device fault.
    method FinishTransfer(cause: Option<Fault>) returns (fault: Option<Fault>)
      modifies device`active, device`driven, device`faults, device`writeFaults
      ensures device.faults == old(device.faults) ==> fault == cause
      ensures device.faults != old(device.faults) ==> fault == Some(DeviceFault) && device.faults > old(device.faults)
      ensures device.writeFaults >= old(device.writeFaults)
      ensures device.writeFaults == old(device.writeFaults) ==> !device.active
      ensures device.faults == old(device.faults) ==> device.driven == old(device.driven) + [Active(false)]
    {
      var ok := device.WriteActive(false);
      return if ok then cause else Some(DeviceFault);
    }

    method PulseStrobe() returns (ok: bool)
      modifies device`active, device`driven, device`faults, device`writeFaults
      ensures device.faults >= old(device.faults) && device.writeFaults >= old(device.writeFaults)
      ensures ok <==> device.faults == old(device.faults)
      ensures ok <==> device.writeFaults == old(device.writeFaults)
      ensures ok ==> device.driven == old(device.driven) + [Strobe(false), Strobe(true), Active(true)]
    {
      ok := device.WriteStrobe(false);
      if !ok {
        return;
      }
      ok := device.WriteStrobe(true);
      if !ok {
        return;
      }
      ok := device.WriteActive(true);
    }

    // readSynchronizedHeader: the header buffer slides over the input in place.
    method ReadSynchronizedHeader() returns (found: Option<Data>, fault: Fault)
      modifies device`input, device`faults, `frameResyncs
      ensures device.faults >= old(device.faults)
      ensures found.Some? ==>
                var sync := Wire.ReadHeader(old(device.input));
                && device.faults == old(device.faults)
                && sync.Synchronized? && sync.header == found.value && sync.rest == device.input
                && Wire.Plausible(found.value) && |found.value| == 5
                && frameResyncs == old(frameResyncs) + if sync.shift > 0 then 1 else 0
      ensures found.None? ==> fault == BadFrame || fault == DeviceFault
      ensures found.None? && fault == BadFrame ==>
                device.faults == old(device.faults)
                && Wire.ReadHeader(old(device.input)) == Wire.Unsynchronized(device.input)
      ensures found.None? && fault == DeviceFault ==> device.faults > old(device.faults)
    {
      hide Wire.Plausible;
      var first := device.ReadBytes(5);
      if first.None? {
        return None, DeviceFault;
      }
      var header := new byte[5](i requires 0 <= i < 5 => first.value[i]);
      assert header[..] == first.value;
      for shift := 0 to Wire.MAX_HEADER_SHIFTS + 1
        invariant device.faults == old(device.faults) && frameResyncs == old(frameResyncs)
        invariant shift <= Wire.MAX_HEADER_SHIFTS
        invariant Wire.ReadHeader(old(device.input)) == Wire.SyncFrom(header[..], shift, device.input)
      {
        if Wire.Plausible(header[..]) {
          if shift > 0 {
            frameResyncs := frameResyncs + 1;
          }
          return Some(header[..]), BadFrame;
        }
        if shift == Wire.MAX_HEADER_SHIFTS {
          return None, BadFrame;
        }
        ghost var window, rest := header[..], device.input;
        var next := device.ReadBytes(1);
        if next.None? {
          return None, DeviceFault;
        }
        forall i | 0 <= i < 4 {
          header[i] := header[i + 1];
        }
        header[4] := next.value[0];
        assert header[..] == window[1..] + [rest[0]];
      }
      assert false;
    }

    // receive: a fault of the device happens exactly when some access fails;
    // otherwise the outcome is what the input stream holds.
    method ReceiveFrame() returns (receipt: Receipt)
      requires FramesKept()
      // Only a low Ready line announces a frame.
      requires !device.ready
      modifies device`input, device`active, device`driven, device`ready, device`faults, device`writeFaults
      modifies `frameResyncs, `framesReceived, `framesRejected, `arrived, `receives
      ensures receives == old(receives) + 1
      ensures device.faults >= old(device.faults) && device.writeFaults >= old(device.writeFaults)
      ensures device.writeFaults == old(device.writeFaults) ==> !device.active
      ensures receipt.Missed? ==> receipt.fault == BadFrame || receipt.fault == DeviceFault
      ensures receipt == Missed(DeviceFault) <==> device.faults != old(device.faults)
      ensures receipt == Missed(BadFrame) ==>
                var heard := Wire.Receive(old(device.input));
                (heard.Lost? || heard.Corrupt?) && heard.rest == device.input
      ensures receipt.Got? ==>
                && Wire.Receive(old(device.input)) == Wire.Received(receipt.frame, device.input)
                && Arriving(receipt.frame)
      ensures receipt.Missed? ==> FramesKept()
      ensures device.faults == old(device.faults) ==>
                device.driven == old(device.driven) + [Strobe(false), Strobe(true), Active(true), Active(false)]
    {
      hide Wire.Receive, FramesKept, Arriving;
      receives := receives + 1;
      device.Proceeds();
      var ok := PulseStrobe();
      if !ok {
        return Missed(DeviceFault);
      }
      receipt := ReadFrame();
    }

    // The part of receive after the strobe: header, body, release of the line, checksum.
    method ReadFrame() returns (receipt: Receipt)
      requires FramesKept()
      modifies device`input, device`active, device`driven, device`faults, device`writeFaults
      modifies `frameResyncs, `framesReceived, `framesRejected, `arrived
      ensures device.faults >= old(device.faults) && device.writeFaults >= old(device.writeFaults)
      ensures device.writeFaults == old(device.writeFaults) ==> !device.active
      ensures receipt.Missed? ==> receipt.fault == BadFrame || receipt.fault == DeviceFault
      ensures receipt == Missed(DeviceFault) <==> device.faults != old(device.faults)
      ensures receipt == Missed(BadFrame) ==>
                var heard := Wire.Receive(old(device.input));
                (heard.Lost? || heard.Corrupt?) && heard.rest == device.input
      ensures receipt.Got? ==>
                && Wire.Receive(old(device.input)) == Wire.Received(receipt.frame, device.input)
                && Arriving(receipt.frame)
      ensures receipt.Missed? ==> FramesKept()
      ensures device.faults == old(device.faults) ==> device.driven == old(device.driven) + [Active(false)]
    {
      hide Wire.ReadHeader, Wire.Plausible, Decode, Wire.DeclaredLength, DevicePayloadRead, ParseDeviceHeader,
           FramesKept, Arriving;
      var found, fault := ReadSynchronizedHeader();
      if found.None? {
        framesRejected := framesRejected + 1;
        var last := FinishTransfer(Some(fault));
        return Missed(last.value);
      }
      var header := found.value;
      var body := device.ReadBytes(DevicePayloadRead(Wire.DeclaredLength(header)));
      if body.None? {
        var last := FinishTransfer(Some(DeviceFault));
        return Missed(last.value);
      }
      var release := FinishTransfer(None);
      if release.Some? {
        return Missed(release.value);
      }
      var decoded := DecodeDeviceFrame(header, body.value);
      if !decoded.Decoded? {
        framesRejected := framesRejected + 1;
        return Missed(BadFrame);
      }
      CountFrame(decoded.frame);
      return Got(decoded.frame);
    }

    method CountFrame(frame: Frame)
      requires FramesKept()
      modifies `framesReceived, `arrived
      ensures Arriving(frame)
    {
      framesReceived := framesReceived + 1;
      arrived := arrived + [frame];
    }

    method StashFrame(received: Frame)
      requires Arriving(received)
      modifies `pending, `heard
      ensures pending == old(pending) + [received]
      ensures FramesKept()
    {
      HearOther(received);
      assert Only(delivered, false) + pending + [received] == Only(delivered, false) + (pending + [received]);
      pending := pending + [received];
    }

    // A pending frame is taken to be returned by Poll.
    method TakePendingFrame() returns (frame: Option<Frame>)
      requires FramesKept()
      modifies `pending, `delivered
      ensures FramesKept()
      ensures frame.None? <==> old(pending) == []
      ensures frame.None? ==> pending == [] && delivered == old(delivered)
      ensures frame.Some? ==> old(pending) == [frame.value] + pending
                              && FramesOf(delivered) == FramesOf(old(delivered)) + [frame.value]
                              && Only(delivered, false) == Only(old(delivered), false) + [frame.value]
    {
      hide FramesOf, Only;
      if pending == [] {
        return None;
      }
      frame := Some(pending[0]);
      HeardAppend(delivered, Heard(frame.value, false));
      delivered := delivered + [Heard(frame.value, false)];
      pending := pending[1..];
      assert old(pending) == [frame.value] + pending;
      assert Only(old(delivered), false) + ([frame.value] + pending)
          == Only(old(delivered), false) + [frame.value] + pending;
    }

    // ---------------------------------------------------------------- exchanges

    // The first half of transmitOnce: the message is shifted in and the DSP gets ready.
    method SendFrame(message: Data) returns (fault: Option<Fault>)
      modifies device`sent, device`active, device`driven, device`ready, device`faults, device`writeFaults, `framesSent
      ensures fault == if device.faults == old(device.faults) then None else Some(DeviceFault)
      ensures fault.None? ==> device.sent == old(device.sent) + message && framesSent == old(framesSent) + 1
      ensures fault.None? ==> !device.ready && !device.active
      ensures fault.None? ==> device.driven == old(device.driven) + [Active(true), Active(false)]
      ensures device.faults >= old(device.faults) && device.writeFaults >= old(device.writeFaults)
      ensures device.writeFaults == old(device.writeFaults) ==> !device.active
    {
      var ok := device.WriteActive(true);
      if !ok {
        return Some(DeviceFault);
      }
      ok := device.WriteBytes(message);
      if !ok {
        fault := FinishTransfer(Some(DeviceFault));
        return;
      }
      ok := device.WriteActive(false);
      if !ok {
        fault := FinishTransfer(Some(DeviceFault));
        return;
      }
      ok := device.WaitReady(readyPolls);
      if !ok {
        fault := FinishTransfer(Some(DeviceFault));
        return;
      }
      framesSent := framesSent + 1;
      return None;
    }

    // The second half of transmitOnce: frames are received until one answers.
    method AwaitReply(message: Data) returns (reply: Option<Frame>, fault: Option<Fault>, ghost strays: seq<Frame>)
      requires |message| >= 6 && FramesKept() && !device.active && !device.ready
      modifies device`input, device`active, device`driven, device`ready, device`faults, device`writeFaults
      modifies `frameResyncs, `framesReceived, `framesRejected, `arrived, `receives, `heard, `pending
      ensures receives <= old(receives) + 11
      ensures pending == old(pending) + strays && |strays| <= 9
      ensures FramesAs(if reply.Some? then delivered + [Heard(reply.value, true)] else delivered)
      ensures reply.Some? <==> fault.None?
      // A reply has the two id bytes and the code byte of the request; no stray has.
      ensures reply.Some? ==> IsReplyTo(reply.value, message)
      ensures forall stray <- strays :: !IsReplyTo(stray, message)
      ensures fault == Some(DeviceFault) <==> device.faults != old(device.faults)
      ensures device.faults == old(device.faults) ==>
                Exchanged(old(device.input), message, reply, fault, strays, device.input)
      ensures device.faults >= old(device.faults) && device.writeFaults >= old(device.writeFaults)
      ensures device.writeFaults == old(device.writeFaults) ==> !device.active
    {
      hide Answers, IsReplyTo, Wire.Receive, FramesAs, Arriving;
      strays := [];
      reply := None;
      var failures, unrelated := 0, 0;
      while unrelated <= MAX_UNRELATED_FRAMES
        invariant failures < MAX_RECEIVE_RETRIES && unrelated == |strays| <= MAX_UNRELATED_FRAMES + 1
        invariant receives == old(receives) + unrelated + failures
        invariant unrelated <= MAX_UNRELATED_FRAMES ==> !device.ready
        invariant pending == old(pending) + strays && FramesKept()
        invariant forall stray <- strays :: !IsReplyTo(stray, message)
        invariant device.faults == old(device.faults)
        invariant device.writeFaults >= old(device.writeFaults)
        invariant device.writeFaults == old(device.writeFaults) ==> !device.active
        invariant Await(old(device.input), message, [], 0) == Await(device.input, message, strays, failures)
        decreases MAX_UNRELATED_FRAMES + 1 - unrelated + MAX_RECEIVE_RETRIES - failures
      {
        var receipt := ReceiveFrame();
        if receipt.Missed? {
          if receipt.fault != BadFrame {
            fault := Some(receipt.fault);
            return;
          }
          failures := failures + 1;
          if failures >= MAX_RECEIVE_RETRIES {
            fault := Some(ResponseFault);
            return;
          }
          var ok := device.WaitReady(readyPolls);
          if !ok {
            fault := Some(DeviceFault);
            return;
          }
          continue;
        }
        AnswersIffReply(receipt.frame, message);
        if Answers(receipt.frame, message) {
          reply, fault := Some(receipt.frame), None;
          HearReply(receipt.frame);
          return;
        }
        framesRejected := framesRejected + 1;
        StashFrame(receipt.frame);
        strays := strays + [receipt.frame];
        unrelated := unrelated + 1;
        if unrelated > MAX_UNRELATED_FRAMES {
          break;
        }
        var ok := device.WaitReady(readyPolls);
        if !ok {
          fault := Some(DeviceFault);
          return;
        }
      }
      fault := Some(Unmatched);
    }

    // transmitOnce: at most eleven receives, whatever the device does.  Unrelated
    // frames are stashed in order; a device fault is reported exactly when some
    // access fails, and otherwise the outcome is Await's.
    method TransmitOnce(message: Data) returns (reply: Option<Frame>, fault: Option<Fault>, ghost strays: seq<Frame>)
      requires |message| >= 6 && FramesKept()
      modifies device
      modifies `frameResyncs, `framesReceived, `framesRejected, `framesSent, `arrived, `receives, `heard, `pending
      ensures receives <= old(receives) + 11
      ensures pending == old(pending) + strays && |strays| <= 9
      ensures FramesAs(if reply.Some? then delivered + [Heard(reply.value, true)] else delivered)
      ensures reply.Some? <==> fault.None?
      // A reply has the two id bytes and the code byte of the request; no stray has.
      ensures reply.Some? ==> IsReplyTo(reply.value, message)
      ensures forall stray <- strays :: !IsReplyTo(stray, message)
      ensures fault == Some(DeviceFault) <==> device.faults != old(device.faults)
      ensures device.faults == old(device.faults) ==>
                && Exchanged(old(device.input), message, reply, fault, strays, device.input)
                && device.sent == old(device.sent) + message && framesSent == old(framesSent) + 1
      ensures device.busy == old(device.busy)
      ensures device.faults >= old(device.faults) && device.writeFaults >= old(device.writeFaults)
      ensures device.writeFaults == old(device.writeFaults) ==> !device.active
    {
      hide Exchanged, IsReplyTo, FramesAs;
      fault := SendFrame(message);
      if fault.Some? {
        return None, fault, [];
      }
      reply, fault, strays := AwaitReply(message);
    }

    // ---------------------------------------------------------------- polling

    // Poll, with other goroutines enqueuing wherever the lock is free.  ended
    // says whether the context of the message taken off the queue is over.
    method Poll(ended: bool) returns (frame: Option<Frame>, moved: bool, fault: Option<Fault>)
      requires Idle()
      modifies this, device
      ensures Idle()
      ensures frame.Some? ==> moved && fault.None?
      // Every frame returned is recorded, once.
      ensures FramesOf(delivered) == FramesOf(old(delivered)) + if frame.Some? then [frame.value] else []
      // Pending frames go first, and nothing is received or sent meanwhile.
      ensures old(pending) != [] ==> receives == old(receives) && finished == old(finished)
                                     && (fault.None? ==> frame == Some(old(pending)[0]) && pending == old(pending)[1..])
      ensures old(pending) != [] && device.faults == old(device.faults) ==>
                fault.None? && Only(delivered, false) == Only(old(delivered), false) + [old(pending)[0]]
      // With nothing pending and no fault the head of the queue is served: it expires, or
      // it is put on the wire and its completion told what the exchange came to.
      ensures device.faults == old(device.faults) && old(pending) == [] && old(queue) != []
              && (ended || !old(device.busy)) ==>
                && finished == old(finished) + [Finished(old(queue)[0], if ended then Expired else Transmitted(fault))]
                && Only(delivered, false) == Only(old(delivered), false) && |pending| <= 9
                && (!ended ==>
                      Carried(old(device.faults), old(device.sent), old(device.input), old(queue)[0], frame, fault))
      // A busy DSP is sent nothing, and the head stays the head.
      ensures old(pending) == [] && old(queue) != [] && !ended && old(device.busy) ==>
                finished == old(finished) && old(queue) <= queue && device.sent == old(device.sent) && !moved
      // With nothing to send by anybody, a low Ready line has exactly one frame received.
      ensures device.faults == old(device.faults) && old(pending) == [] && old(queue) == []
              && accepted == old(accepted) ==>
                receives == old(receives) + if old(device.ready) then 0 else 1
      // At most one message leaves the queue, untransmitted when its context has ended.
      ensures old(accepted) <= accepted && old(finished) <= finished && |finished| <= |old(finished)| + 1
      ensures |finished| > |old(finished)| ==> (finished[|old(finished)|].fate.Expired? <==> ended)
      ensures receives <= old(receives) + 11
      ensures !moved ==> receives == old(receives) && finished == old(finished) && delivered == old(delivered)
      ensures device.busy == old(device.busy) && device.faults >= old(device.faults)
      ensures device.writeFaults >= old(device.writeFaults)
      ensures device.writeFaults == old(device.writeFaults) && !old(device.active) ==> !device.active
    {
      hide FramesOf, Only, OnWire, ChannelsSpared, QueueKept, ChannelsKept, FramesKept, Carried;
      frame, fault := None, None;
      Enqueuers();
      var ok := LowerActive();
      if !ok {
        return None, false, Some(DeviceFault);
      }
      frame := TakePendingFrame();
      if frame.Some? {
        return frame, true, None;
      }
      frame, moved, fault := PollUnhindered(ended);
    }

    // The rest of Poll, with the lock held and nothing pending.
    method PollUnhindered(ended: bool) returns (frame: Option<Frame>, moved: bool, fault: Option<Fault>)
      requires Idle() && pending == []
      modifies this, device
      ensures Idle()
      ensures frame.Some? ==> moved && fault.None?
      ensures FramesOf(delivered) == FramesOf(old(delivered)) + if frame.Some? then [frame.value] else []
      ensures old(queue) == [] ==>
                && finished == old(finished) && accepted == old(accepted)
                && receives == old(receives) + (if moved then 1 else 0)
                && (device.faults == old(device.faults) ==> (moved <==> !old(device.ready)))
      ensures old(queue) != [] && finished == old(finished) ==> old(queue) <= queue && !moved
      ensures old(queue) != [] && !ended && old(device.busy) ==>
                finished == old(finished) && device.sent == old(device.sent)
      ensures device.faults == old(device.faults) && old(queue) != [] && (ended || !old(device.busy)) ==>
                finished != old(finished)
      ensures finished != old(finished) ==>
                && old(queue) != []
                && finished == old(finished) + [Finished(old(queue)[0], if ended then Expired else Transmitted(fault))]
                && Only(delivered, false) == Only(old(delivered), false) && |pending| <= 9
                && (!ended ==>
                      Carried(old(device.faults), old(device.sent), old(device.input), old(queue)[0], frame, fault))
      ensures !moved ==> receives == old(receives) && finished == old(finished) && delivered == old(delivered)
      ensures device.busy == old(device.busy) && device.faults >= old(device.faults)
      ensures old(accepted) <= accepted && receives <= old(receives) + MAX_RECEIVES
      ensures device.writeFaults >= old(device.writeFaults)
      ensures device.writeFaults == old(device.writeFaults) && !old(device.active) ==> !device.active
    {
      hide FramesOf, Only, OnWire, ChannelsSpared, QueueKept, ChannelsKept, FramesKept, Carried;
      var next := Dequeue();
      if next.Some? {
        frame, moved, fault := PollQueued(next.value, ended);
      } else {
        frame, moved, fault := PollReady();
      }
    }

    method LowerActive() returns (ok: bool)
      modifies device`active, device`driven, device`faults, device`writeFaults
      ensures device.faults >= old(device.faults) && device.writeFaults >= old(device.writeFaults)
      ensures ok ==> !device.active
      ensures !ok ==> device.faults > old(device.faults)
      ensures device.writeFaults == old(device.writeFaults) && !old(device.active) ==> !device.active
    {
      ok := device.DriveActive();
      if !ok {
        return;
      }
      ok := device.WriteActive(false);
    }

    // The part of Poll that has nothing to send.
    method PollReady() returns (frame: Option<Frame>, moved: bool, fault: Option<Fault>)
      requires FramesKept() && pending == []
      modifies device`input, device`active, device`driven, device`ready, device`faults, device`writeFaults
      modifies `frameResyncs, `framesReceived, `framesRejected, `arrived, `receives, `heard, `delivered
      ensures FramesKept()
      ensures frame.Some? ==> moved && fault.None?
      ensures FramesOf(delivered) == FramesOf(old(delivered)) + if frame.Some? then [frame.value] else []
      ensures receives == old(receives) + if moved then 1 else 0
      ensures !moved ==> delivered == old(delivered)
      // A low Ready line announces a frame.
      ensures old(device.ready) ==> !moved
      ensures !old(device.ready) && !moved ==> fault == Some(DeviceFault)
      ensures fault == Some(DeviceFault) <==> device.faults != old(device.faults)
      ensures device.faults >= old(device.faults) && device.writeFaults >= old(device.writeFaults)
      ensures device.writeFaults == old(device.writeFaults) && !old(device.active) ==> !device.active
    {
      hide FramesOf, Only, Wire.Receive;
      var ready := device.ReadReady();
      if ready.None? {
        return None, false, Some(DeviceFault);
      }
      if ready.value {
        return None, false, None;
      }
      var receipt := ReceiveFrame();
      if receipt.Missed? {
        return None, true, Some(receipt.fault);
      }
      HearOther(receipt.frame);
      HeardAppend(delivered, Heard(receipt.frame, false));
      delivered := delivered + [Heard(receipt.frame, false)];
      return Some(receipt.frame), true, None;
    }

    // The part of Poll that has a message in hand.
    method PollQueued(message: Message, ended: bool) returns (frame: Option<Frame>, moved: bool, fault: Option<Fault>)
      requires Valid() && inHand == [message] && pending == [] && attempts == OnWire(finished)
      modifies this, device
      ensures Idle()
      ensures frame.Some? ==> moved && fault.None?
      ensures FramesOf(delivered) == FramesOf(old(delivered)) + if frame.Some? then [frame.value] else []
      ensures old(accepted) <= accepted
      // Put back while the DSP is busy or the line cannot be read; else finished,
      // untransmitted exactly when its context has ended.
      ensures !ended && old(device.busy) ==> finished == old(finished) && device.sent == old(device.sent)
      ensures finished == old(finished) ==> !ended && ((old(device.busy) && fault.None?) || fault == Some(DeviceFault))
      ensures finished == old(finished)
              || finished == old(finished) + [Finished(message, if ended then Expired else Transmitted(fault))]
      ensures ended ==> finished != old(finished) && receives == old(receives) && device.sent == old(device.sent)
      ensures finished == old(finished) ==> receives == old(receives) && [message] + old(queue) <= queue
      ensures finished == old(finished) ==> delivered == old(delivered)
      ensures moved <==> finished != old(finished)
      ensures !ended && finished != old(finished) ==>
                Carried(old(device.faults), old(device.sent), old(device.input), message, frame, fault)
      ensures finished == old(finished) && fault == Some(DeviceFault) ==> device.faults > old(device.faults)
      ensures Only(delivered, false) == Only(old(delivered), false) && |pending| <= 9
      ensures device.busy == old(device.busy) && device.faults >= old(device.faults)
      ensures receives <= old(receives) + 11
      ensures device.writeFaults >= old(device.writeFaults)
      ensures device.writeFaults == old(device.writeFaults) && !old(device.active) ==> !device.active
    {
      hide FramesOf, Only, Await, OnWire, ChannelsSpared, ChannelsKept, QueueKept, FramesAs, Carried;
      Enqueuers();
      if ended {
        OnWireAppend(finished, Finished(message, Expired));
        Complete(message, Expired);
        return None, true, None;
      }
      var busy := device.ReadBusy();
      if busy.None? {
        Requeue(message);
        return None, false, Some(DeviceFault);
      }
      if busy.value {
        Requeue(message);
        return None, false, None;
      }
      frame, fault := TransmitInHand(message);
      return frame, true, fault;
    }

    // Unless an access failed since, the message is on the wire and the exchange is
    // the one the input stream held, the unrelated frames now being what is pending.
    ghost predicate Carried(faults: nat, sent: Data, input: Data, message: Message,
                            frame: Option<Frame>, fault: Option<Fault>)
      reads device`faults, device`sent, device`input, `pending
    {
      device.faults == faults ==>
        device.sent == sent + message.frame
        && Exchanged(input, message.frame, frame, fault, pending, device.input)
    }

    method TransmitInHand(message: Message) returns (frame: Option<Frame>, fault: Option<Fault>)
      requires Valid() && inHand == [message] && pending == [] && attempts == OnWire(finished)
      modifies this, device
      ensures Idle()
      ensures frame.Some? <==> fault.None?
      ensures FramesOf(delivered) == FramesOf(old(delivered)) + if frame.Some? then [frame.value] else []
      ensures Only(delivered, false) == Only(old(delivered), false) && |pending| <= 9
      ensures old(accepted) <= accepted
      ensures finished == old(finished) + [Finished(message, Transmitted(fault))]
      ensures Carried(old(device.faults), old(device.sent), old(device.input), message, frame, fault)
      ensures device.busy == old(device.busy) && device.faults >= old(device.faults)
      ensures receives <= old(receives) + 11
      ensures device.writeFaults >= old(device.writeFaults)
      ensures device.writeFaults == old(device.writeFaults) ==> !device.active
    {
      hide FramesOf, Only, Await, OnWire, ChannelsSpared, ChannelsKept, FramesAs, Exchanged;
      assert accepted[|finished|] == message && |message.frame| >= 6;
      attempts := attempts + [message];
      ghost var strays;
      frame, fault, strays := TransmitOnce(message.frame);
      assert pending == strays;
      if frame.Some? {
        HeardAppend(delivered, Heard(frame.value, true));
        delivered := delivered + [Heard(frame.value, true)];
      }
      Settle(message, fault);
    }

    // The message in hand leaves for good, others having been enqueued meanwhile.
    method Settle(message: Message, fault: Option<Fault>)
      requires Valid() && inHand == [message] && attempts == OnWire(finished) + [message]
      modifies `queue, `made, `channels, `accepted, `finished, `inHand
      ensures Idle() && old(accepted) <= accepted
      ensures finished == old(finished) + [Finished(message, Transmitted(fault))]
    {
      hide OnWire, ChannelsSpared, ChannelsKept, QueueKept, FramesKept;
      Enqueuers();
      OnWireAppend(finished, Finished(message, Transmitted(fault)));
      Complete(message, Transmitted(fault));
    }

    lemma QueueIsAccepted()
      requires QueueKept() && inHand == []
      ensures Messages(finished) + queue == accepted
    {
    }

    // The head of the queue comes off first, so what has been finished since begins
    // with what was queued then.
    lemma QueueIsServed(before: seq<Finished>, queued: seq<Message>)
      requires QueueKept() && inHand == [] && before <= finished
      requires Messages(before) + queued <= accepted
      ensures var served := |finished| - |before|;
              if served < |queued|
              then queue != [] && queue[0] == queued[served]
                   && forall i :: 0 <= i < served ==> finished[|before| + i].message == queued[i]
              else forall i :: 0 <= i < |queued| ==> finished[|before| + i].message == queued[i]
    {
      var done, served := Messages(finished), |finished| - |before|;
      forall i | 0 <= i < |queued| && i < served
        ensures finished[|before| + i].message == queued[i]
      {
        assert accepted[|before| + i] == done[|before| + i];
        assert (Messages(before) + queued)[|before| + i] == queued[i];
      }
      if served < |queued| {
        assert accepted[|finished|] == (Messages(before) + queued)[|before| + served] == queued[served];
        assert accepted == done + queue;
      }
    }

    // How many of the frames returned were pending or came unasked.
    ghost function Unasked(before: seq<Heard>): int
      reads `delivered
    {
      |Only(delivered, false)| - |Only(before, false)|
    }

    // The DSP is never busy.
    static predicate Quiet(busyAt: seq<bool>) {
      true !in busyAt
    }

    // So many polls have served the queue, or each has finished a message or returned an
    // unasked frame.
    ghost predicate Serving(before: seq<Finished>, returned: seq<Heard>, queued: nat, waiting: nat, polls: nat)
      reads `finished, `delivered, `pending
    {
      var served, unasked := |finished| - |before|, Unasked(returned);
      served >= queued
      || (polls == served + unasked && unasked + |pending| <= waiting + 9 * served)
    }

    // Any run of polls, the DSP's lines moving and its output growing in between: what
    // it returns, with what is pending, is exactly what was decoded, and the Active line
    // is low after it unless a line write failed.
    method Run(busyAt: seq<bool>) returns (frames: seq<Frame>)
      requires Idle()
      modifies this, device
      ensures Idle()
      ensures FramesOf(delivered) == FramesOf(old(delivered)) + frames
      ensures multiset(arrived) == multiset(FramesOf(old(delivered))) + multiset(frames) + multiset(pending)
      ensures old(accepted) <= accepted && old(finished) <= finished
      ensures device.writeFaults == old(device.writeFaults) && !old(device.active) ==> !device.active
      // What was queued is finished in order.
      ensures var served := |finished| - |old(finished)|;
              forall i :: 0 <= i < served && i < |old(queue)| ==>
                finished[|old(finished)| + i].message == old(queue)[i]
      // While the DSP is not busy and no access fails, every poll finishes a message or
      // returns a frame that nobody asked for, until the queue has been served.  There
      // are only those pending and nine for each message.
      ensures var served, unasked := |finished| - |old(finished)|, Unasked(old(delivered));
              device.faults == old(device.faults) && Quiet(busyAt) ==>
                served >= |old(queue)|
                || (|busyAt| == served + unasked
                    && unasked <= |old(pending)| + 9 * served)
    {
      hide FramesOf, Only, OnWire, ChannelsSpared, QueueKept, ChannelsKept, Carried;
      frames := [];
      QueueIsAccepted();
      for i := 0 to |busyAt|
        invariant Idle()
        invariant device.faults >= old(device.faults)
        invariant device.faults == old(device.faults) && Quiet(busyAt[..i]) ==>
                    Serving(old(finished), old(delivered), |old(queue)|, |old(pending)|, i)
        invariant FramesOf(delivered) == FramesOf(old(delivered)) + frames
        invariant old(accepted) <= accepted && old(finished) <= finished
        invariant device.writeFaults >= old(device.writeFaults)
        invariant device.writeFaults == old(device.writeFaults) && !old(device.active) ==> !device.active
      {
        device.Moves(busyAt[i]);
        assert busyAt[..i + 1] == busyAt[..i] + [busyAt[i]];
        assert Quiet(busyAt[..i + 1]) <==> Quiet(busyAt[..i]) && !busyAt[i];
        var ended: bool := *;
        QueueIsServed(old(finished), old(queue));
        ghost var served, unasked, waiting := |finished| - |old(finished)|, Unasked(old(delivered)), |pending|;
        ghost var faults := device.faults;
        var frame, _, _ := Poll(ended);
        if device.faults == faults && !busyAt[i] && served < |old(queue)| {
          if waiting > 0 {
            assert Unasked(old(delivered)) == unasked + 1 && |pending| == waiting - 1;
          } else {
            assert Unasked(old(delivered)) == unasked && |finished| - |old(finished)| == served + 1;
          }
        }
        if frame.Some? {
          frames := frames + [frame.value];
        }
      }
      assert busyAt[..|busyAt|] == busyAt;
      QueueIsServed(old(finished), old(queue));
      FramesConserved(heard, delivered, pending);
      assert multiset(FramesOf(old(delivered)) + frames) == multiset(FramesOf(old(delivered))) + multiset(frames);
    }
  }
}
