/**
 The hub that fans captured periods out to clients: a client is sent one header
 and then records without a gap, or it is cut off.
 */
module CaptureHub {
  import opened Bytes

  const DEFAULT_CLIENT_QUEUE_PERIODS: nat := 4

  // A period of 256 frames of two four-byte samples.
  const FRAMES_PER_PERIOD: nat := 256
  const NATIVE_PERIOD_BYTES: nat := 2048
  const DELIVERED_PERIOD_BYTES: nat := 1024

  datatype Record = Record(generation: nat, sequence: nat, period: Data)

  // A period the source delivers, and whether the microphone is muted just then.
  datatype Capture = Capture(stereo: Data, muted: bool)

  // Where a client's goroutine is: about to write the header, writing records,
  // about to leave the hub, about to stop, or gone.
  datatype Phase = Greeting | Streaming | Leaving | Stopping | Gone

  // Records of one generation with no number left out.
  predicate Consecutive(records: seq<Record>, generation: nat) {
    forall i :: 0 <= i < |records| ==>
      records[i].generation == generation && records[i].sequence == records[0].sequence + i
  }

  // The record that may follow.
  predicate Expects(records: seq<Record>, sequence: nat) {
    records == [] || records[|records| - 1].sequence + 1 == sequence
  }

  lemma ConsecutiveAppend(records: seq<Record>, generation: nat, record: Record)
    requires Consecutive(records, generation) && Expects(records, record.sequence)
    requires record.generation == generation
    ensures Consecutive(records + [record], generation) && Expects(records + [record], record.sequence + 1)
  {
    var longer := records + [record];
    forall i | 0 <= i < |longer|
      ensures longer[i].generation == generation && longer[i].sequence == longer[0].sequence + i
    {
      if i < |records| {
        assert longer[i] == records[i] && longer[0] == records[0];
      }
    }
  }

  // The first channel of a period.
  function FirstChannel(stereo: Data): (mono: Data)
    requires |stereo| == NATIVE_PERIOD_BYTES
    ensures |mono| == DELIVERED_PERIOD_BYTES
  {
    seq(DELIVERED_PERIOD_BYTES, i requires 0 <= i < DELIVERED_PERIOD_BYTES => stereo[i / 4 * 8 + i % 4])
  }

  // Sample by sample: the first of every two.
  lemma FirstChannelSamples(stereo: Data, frame: nat)
    requires |stereo| == 2048 && frame < 256
    ensures FirstChannel(stereo)[4 * frame..4 * frame + 4] == stereo[8 * frame..8 * frame + 4]
  {
    var mono := FirstChannel(stereo);
    forall i | 4 * frame <= i < 4 * frame + 4
      ensures mono[i] == stereo[i + 4 * frame]
    {
      assert i / 4 == frame && i % 4 == i - 4 * frame;
    }
  }

  // encodeRecord
  method EncodeRecord(generation: nat, sequence: nat, stereo: Data) returns (record: Option<Record>)
    ensures record == if |stereo| != NATIVE_PERIOD_BYTES then None
                      else Some(Record(generation, sequence, FirstChannel(stereo)))
  {
    if |stereo| != NATIVE_PERIOD_BYTES {
      return None;
    }
    hide FirstChannel;
    var output := new byte[DELIVERED_PERIOD_BYTES](_ => 0);
    ghost var mono := FirstChannel(stereo);
    for frame := 0 to FRAMES_PER_PERIOD
      invariant output[..4 * frame] == mono[..4 * frame]
    {
      FirstChannelSamples(stereo, frame);
      forall b | 0 <= b < 4 {
        output[4 * frame + b] := stereo[8 * frame + b];
      }
      assert output[4 * frame..4 * frame + 4] == stereo[8 * frame..8 * frame + 4];
      FourMore(output[..], mono, 4 * frame);
    }
    assert output[..] == mono;
    return Some(Record(generation, sequence, output[..]));
  }

  lemma FourMore(a: Data, b: Data, at: nat)
    requires at + 4 <= |a| == |b| && a[..at] == b[..at] && a[at..at + 4] == b[at..at + 4]
    ensures a[..at + 4] == b[..at + 4]
  {
    assert a[..at + 4] == a[..at] + a[at..at + 4] && b[..at + 4] == b[..at] + b[at..at + 4];
  }

  // What goes on the air of the periods captured in one generation: those of the right
  // size while the microphone is not muted, numbered from zero.
  function Aired(captures: seq<Capture>, generation: nat): seq<Record> {
    if captures == [] then []
    else
      var last, before := captures[|captures| - 1], Aired(captures[..|captures| - 1], generation);
      if last.muted || |last.stereo| != NATIVE_PERIOD_BYTES then before
      else before + [Record(generation, |before|, FirstChannel(last.stereo))]
  }

  class CaptureClient {
    // The generation its header names, and the capacity of its queue.
    const generation: nat
    const capacity: nat
    // How many records the hub had sent out when the client joined.
    ghost const joined: nat
    var queue: seq<Record>
    // Connection and queue are closed.
    var stopped: bool
    var phase: Phase
    // What the peer has been sent in full, and a record whose write failed.
    var headers: nat
    var sent: seq<Record>
    ghost var lost: seq<Record>

    // Every record ever queued.
    ghost function History(): seq<Record>
      reads `sent, `lost, `queue
    {
      sent + lost + queue
    }

    ghost predicate Valid()
      reads this
    {
      && Consecutive(History(), generation) && |queue| <= capacity
      && (phase == Greeting ==> headers == 0 && sent == [])
      && (phase == Streaming ==> headers == 1)
      && headers <= 1 && (sent != [] ==> headers == 1)
      && (phase == Greeting || phase == Streaming ==> lost == [])
      && (phase == Gone ==> stopped)
    }

    constructor (generation: nat, capacity: nat, ghost joined: nat)
      ensures Valid() && History() == [] && !stopped && phase == Greeting
      ensures this.generation == generation && this.capacity == capacity && this.joined == joined
    {
      this.generation, this.capacity, this.joined := generation, capacity, joined;
      queue, stopped, phase, headers, sent, lost := [], false, Greeting, 0, [], [];
    }

    method Stop()
      requires Valid()
      modifies `stopped
      ensures Valid() && stopped
    {
      if !stopped {
        stopped := true;
      }
    }

    // A send that does not wait.  Sending on a closed queue would panic.
    method TrySend(record: Record) returns (ok: bool)
      requires Valid() && !stopped
      requires record.generation == generation && Expects(History(), record.sequence)
      modifies `queue
      ensures Valid()
      ensures ok <==> old(|queue|) < capacity
      ensures History() == if ok then old(History()) + [record] else old(History())
      ensures ok ==> Expects(History(), record.sequence + 1)
    {
      ok := |queue| < capacity;
      if ok {
        ConsecutiveAppend(History(), generation, record);
        assert sent + lost + queue + [record] == sent + lost + (queue + [record]);
        queue := queue + [record];
      }
    }

    // One step of run, up to the exit.  Writes to a closed connection fail.
    method RunStep(works: bool)
      requires Valid() && (phase == Greeting || phase == Streaming)
      modifies `queue, `phase, `headers, `sent, `lost
      ensures Valid() && old(sent) <= sent && History() == old(History())
      // The header first.
      ensures old(phase) == Greeting ==>
                && queue == old(queue) && sent == []
                && (if works && !stopped then headers == 1 && phase == Streaming else headers == 0 && phase == Leaving)
      // Then record by record, until one cannot be written or the closed queue is empty.
      ensures old(phase) == Streaming ==> headers == 1
      ensures old(phase) == Streaming && old(queue) == [] ==>
                queue == [] && sent == old(sent) && phase == if stopped then Leaving else Streaming
      ensures old(phase) == Streaming && old(queue) != [] ==>
                && queue == old(queue)[1..]
                && if works && !stopped then sent == old(sent) + old(queue)[..1] && lost == [] && phase == Streaming
                   else sent == old(sent) && lost == old(queue)[..1] && phase == Leaving
    {
      var written := works && !stopped;
      if phase == Greeting {
        if written {
          headers, phase := headers + 1, Streaming;
        } else {
          phase := Leaving;
        }
        return;
      }
      if queue == [] {
        if stopped {
          phase := Leaving;
        }
        return;
      }
      var record := queue[0];
      ghost var before := History();
      queue := queue[1..];
      if written {
        sent := sent + [record];
      } else {
        lost, phase := [record], Leaving;
      }
      assert History() == before;
    }
  }

  class ClientHub {
    const queueSize: nat
    var enabled: bool
    var generation: nat
    var clients: set<CaptureClient>
    // The clients whose goroutines the runtime schedules, gone or not, and the
    // number the next record must have.
    var everyone: set<CaptureClient>
    ghost var next: nat

    ghost predicate Inv()
      reads this, everyone
    {
      && clients <= everyone
      && (!enabled ==> clients == {})
      && (forall c <- everyone :: c.Valid())
      && (forall c <- clients :: Following(c))
    }

    // A registered client is open and up to date.
    ghost predicate Following(c: CaptureClient)
      reads `generation, `next, c
    {
      && !c.stopped && c.generation == generation && Expects(c.History(), next)
      && c.phase != Stopping && c.phase != Gone
    }

    constructor (queueSize: int)
      ensures Inv() && !enabled && everyone == {}
      ensures this.queueSize == if queueSize <= 0 then 4 else queueSize
    {
      this.queueSize := if queueSize <= 0 then DEFAULT_CLIENT_QUEUE_PERIODS else queueSize;
      enabled, generation, clients, everyone, next := false, 0, {}, {}, 0;
    }

    method Add() returns (client: CaptureClient?)
      requires Inv()
      modifies `clients, `everyone
      ensures Inv() && (client == null <==> !enabled)
      ensures client == null ==> clients == old(clients) && everyone == old(everyone)
      ensures client != null ==>
                fresh(client) && clients == old(clients) + {client} && everyone == old(everyone) + {client}
                && client.generation == generation && client.joined == next && client.History() == []
    {
      if !enabled {
        return null;
      }
      client := new CaptureClient(generation, queueSize, next);
      clients := clients + {client};
      everyone := everyone + {client};
    }

    // The half of remove that holds the lock.
    method Remove(client: CaptureClient)
      requires Inv() && client in everyone && client.phase == Leaving
      modifies `clients, client`phase
      ensures Inv() && clients == old(clients) - {client}
      ensures client.phase == Stopping
    {
      clients := clients - {client};
      client.phase := Stopping;
    }

    // enable makes no check of its own.  The hub stays in order exactly if no client
    // is left that is of another generation or has had records queued, as none is
    // after block; otherwise the next record would not follow what that client has.
    method Enable(generation: nat)
      requires Inv()
      modifies `generation, `enabled, `next
      ensures enabled && this.generation == generation && next == 0
      ensures Inv() <==> forall c <- clients :: c.generation == generation && c.History() == []
      ensures !old(enabled) ==> Inv()
    {
      ghost var before := clients;
      assert forall c <- before :: Following(c);
      this.generation := generation;
      enabled := true;
      next := 0;
      assert forall c <- before :: Following(c) <==> c.generation == generation && c.History() == [];
    }

    // The half of block that holds the lock: every client is let go and stopped.
    method Block()
      requires Inv()
      modifies `enabled, `clients, everyone`stopped
      ensures Inv() && !enabled && clients == {}
      ensures forall c <- old(clients) :: c.stopped
    {
      hide CaptureClient.Valid, CaptureClient.History, Expects, Consecutive;
      enabled := false;
      var left := clients;
      clients := {};
      while left != {}
        invariant left <= old(clients) && clients == {} && !enabled
        invariant forall c <- everyone :: c.Valid()
        invariant forall c <- old(clients) - left :: c.stopped
        decreases |left|
      {
        var client :| client in left;
        client.Stop();
        left := left - {client};
      }
    }

    // replaceGeneration: enabled only once block has returned in time.
    method ReplaceGeneration(generation: nat) returns (ok: bool)
      requires Inv()
      modifies this, everyone`stopped
      ensures Inv() && enabled == ok && clients == {}
      ensures ok ==> this.generation == generation && next == 0
      ensures forall c <- old(clients) :: c.stopped
    {
      Block();
      ok := *;
      if ok {
        Enable(generation);
      }
    }

    // A client with room has the record queued; one without is cut off.
    twostate predicate Served(c: CaptureClient, record: Record)
      reads c`queue, c`sent, c`lost, c`stopped
    {
      if old(|c.queue|) < c.capacity then c.History() == old(c.History()) + [record]
      else c.stopped && c.History() == old(c.History())
    }

    // The body of broadcast's loop.
    method Offer(client: CaptureClient, record: Record)
      requires client in clients && client.Valid() && Unserved(client, record) && next == record.sequence + 1
      modifies `clients, client`queue, client`stopped
      ensures client.Valid() && Served(client, record)
      ensures clients == if old(|client.queue|) < client.capacity then old(clients) else old(clients) - {client}
      ensures client in clients ==> Following(client)
    {
      var ok := client.TrySend(record);
      if !ok {
        clients := clients - {client};
        client.Stop();
      }
    }

    // A client with room gets the record; one without is cut off, not given a gap.
    method Broadcast(record: Record)
      requires Inv()
      requires enabled ==> record.generation == generation && record.sequence == next
      modifies `clients, `next, everyone`queue, everyone`stopped
      ensures Inv()
      ensures !enabled ==> next == old(next)
      ensures enabled ==> next == old(next) + 1
      ensures enabled ==> forall c <- old(clients) ::
                Served(c, record) && (c in clients <==> old(|c.queue|) < c.capacity)
      ensures clients <= old(clients)
    {
      hide CaptureClient.Valid, CaptureClient.History, Expects, Consecutive, Following, Unserved;
      if !enabled {
        return;
      }
      Unserve(record);
      var left := clients;
      next := next + 1;
      while left != {}
        invariant left <= clients <= old(clients) && next == old(next) + 1
        invariant forall c <- everyone :: c.Valid()
        invariant forall c <- left :: Unserved(c, record) && unchanged(c)
        invariant forall c <- clients - left :: Following(c)
        invariant forall c <- old(clients) - left ::
                    Served(c, record) && (c in clients <==> old(|c.queue|) < c.capacity)
        decreases |left|
      {
        var client :| client in left;
        assert client.History() == old(client.History()) && |client.queue| == old(|client.queue|);
        Offer(client, record);
        assert Served(client, record);
        left := left - {client};
      }
    }

    lemma Unserve(record: Record)
      requires Inv() && record.generation == generation && record.sequence == next
      ensures forall c <- clients :: Unserved(c, record)
    {
    }

    ghost predicate Unserved(c: CaptureClient, record: Record)
      reads `generation, c
    {
      && !c.stopped && c.generation == generation == record.generation && Expects(c.History(), record.sequence)
      && c.phase != Stopping && c.phase != Gone
    }

    // ---------------------------------------------------------------- interleavings

    // One step of a client's goroutine: it writes, or leaves the hub, or stops.
    method Step(client: CaptureClient, works: bool)
      requires Inv() && client in everyone
      modifies `clients, client
      ensures Inv() && clients == if old(client.phase) == Leaving then old(clients) - {client} else old(clients)
      ensures old(client.sent) <= client.sent && client.History() == old(client.History())
      ensures match old(client.phase)
              case Leaving => client.phase == Stopping
              case Stopping => client.phase == Gone && client.stopped
              case Gone => client.phase == Gone
              case _ => client.phase != Stopping && client.phase != Gone
    {
      hide Consecutive, Expects;
      match client.phase {
        case Leaving => Remove(client);
        case Stopping =>
          assert client in clients ==> Following(client);
          client.Stop();
          client.phase := Gone;
        case Gone =>
        case _ => client.RunStep(works);
      }
    }

    // A client registered before has been queued nothing since, or it has just joined.
    twostate predicate Stays(new c: CaptureClient)
      reads this, c
    {
      || (c in old(clients) && c.History() == old(c.History()))
      || (c !in old(everyone) && c.joined == next && c.History() == [])
    }

    // Any number of new connections and client steps.
    method Others()
      requires Inv()
      modifies `clients, `everyone, everyone
      ensures Inv() && old(everyone) <= everyone && fresh(everyone - old(everyone))
      ensures forall c <- clients :: Stays(c)
    {
      hide Consecutive, Expects, CaptureClient.Valid, CaptureClient.History;
      var count: int := *;
      while count > 0
        invariant Inv() && old(everyone) <= everyone && fresh(everyone - old(everyone))
        invariant forall c <- clients :: Stays(c)
      {
        var connects: bool := *;
        if connects {
          var _ := Add();
        } else if everyone != {} {
          var client :| client in everyone;
          var works: bool := *;
          Step(client, works);
        }
        count := count - 1;
      }
    }

    // What was sent to any client at any time: its header, once, and then records
    // of that header's generation without a gap.
    lemma SentWithoutGap(client: CaptureClient)
      requires Inv() && client in everyone
      ensures Consecutive(client.sent, client.generation)
      ensures client.headers <= 1 && (client.sent != [] ==> client.headers == 1)
    {
      var history := client.History();
      assert forall i :: 0 <= i < |client.sent| ==> client.sent[i] == history[i];
    }

    // Every registered client has had queued all that went on the air since it joined.
    ghost predicate UpToDate(aired: seq<Record>)
      reads this, everyone
      requires clients <= everyone
    {
      next == |aired| && forall c <- clients :: c.joined <= |aired| && c.History() == aired[c.joined..]
    }

    // runCapture: the periods of one generation, up to where the source ends or its DSP
    // is another, numbered as they are broadcast, with clients coming and going.
    method RunCapture(generation: nat, captures: seq<Capture>) returns (ghost aired: seq<Record>, ghost taken: nat)
      requires Inv() && !enabled
      modifies this, everyone
      ensures Inv() && old(everyone) <= everyone && fresh(everyone - old(everyone))
      ensures taken <= |captures| && aired == Aired(captures[..taken], generation)
      ensures enabled ==> this.generation == generation && UpToDate(aired)
    {
      hide Consecutive, Expects, CaptureClient.Valid, CaptureClient.History, Following, FirstChannel;
      aired, taken := [], 0;
      var starts: bool := *;
      if !starts {
        return;
      }
      Enable(generation);
      var sequence := 0;
      for i := 0 to |captures|
        invariant Inv() && old(everyone) <= everyone && fresh(everyone - old(everyone))
        invariant enabled && this.generation == generation && next == sequence
        invariant taken == i && aired == Aired(captures[..i], generation) && UpToDate(aired)
      {
        Others();
        var over: bool := *;
        if over {
          return;
        }
        assert captures[..i + 1][..i] == captures[..i];
        taken := i + 1;
        if captures[i].muted {
          continue;
        }
        var record := EncodeRecord(generation, sequence, captures[i].stereo);
        if record.None? {
          continue;
        }
        Broadcast(record.value);
        aired := aired + [record.value];
        sequence := sequence + 1;
      }
      assert captures[..|captures|] == captures;
    }

    // The service: generation after generation, blocked in between.
    method Serve(captures: seq<seq<Capture>>)
      requires Inv() && !enabled
      modifies this, everyone
      ensures Inv() && old(everyone) <= everyone && fresh(everyone - old(everyone))
    {
      hide Consecutive, Expects, CaptureClient.Valid, CaptureClient.History, Following;
      var generation := 0;
      for i := 0 to |captures|
        invariant Inv() && !enabled && old(everyone) <= everyone && fresh(everyone - old(everyone))
      {
        Others();
        generation := generation + 1;
        var _, _ := RunCapture(generation, captures[i]);
        Others();
        Block();
      }
    }
  }
}
