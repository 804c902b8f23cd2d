/**
 Reading frames off the byte stream the DSP shifts out: a header is looked for
 in a five-byte window that may slide at most four bytes.
 */
module DspStream {
  import opened Bytes
  import opened DspFrame

  const MAX_DEVICE_PAYLOAD: nat := 64
  const MAX_HEADER_SHIFTS: nat := 4
  const MESSAGE_ID_TEST: nat := 2

  // The window readSynchronizedHeader settles on.
  predicate Plausible(window: Data) {
    match ParseDeviceHeader(window)
    case Refused => false
    case Parsed(id, length) => id <= MESSAGE_ID_TEST && length <= MAX_DEVICE_PAYLOAD
  }

  datatype Sync =
    | Starved
    | Unsynchronized(rest: Data)
    | Synchronized(header: Data, shift: nat, rest: Data)

  // The shift loop: window is the header buffer, input what is still to be shifted out.
  function SyncFrom(window: Data, shift: nat, input: Data): Sync
    requires |window| == 5 && shift <= MAX_HEADER_SHIFTS
    decreases MAX_HEADER_SHIFTS - shift
  {
    if Plausible(window) then Synchronized(window, shift, input)
    else if shift == MAX_HEADER_SHIFTS then Unsynchronized(input)
    else if input == [] then Starved
    else SyncFrom(window[1..] + [input[0]], shift + 1, input[1..])
  }

  function ReadHeader(input: Data): Sync {
    if |input| < 5 then Starved else SyncFrom(input[..5], 0, input[5..])
  }

  function DeclaredLength(header: Data): (length: nat)
    requires Plausible(header)
    ensures 1 <= length <= MAX_DEVICE_PAYLOAD
  {
    ParseDeviceHeader(header).length
  }

  datatype Reception =
    | Hungry
    | Lost(rest: Data)
    | Corrupt(rest: Data)
    | Received(frame: Frame, rest: Data)

  // One receive with every transfer working.
  function Receive(input: Data): Reception {
    match ReadHeader(input)
    case Starved => Hungry
    case Unsynchronized(rest) => Lost(rest)
    case Synchronized(header, _, rest) =>
      if !Plausible(header) then Lost(rest)
      else
        var wanted := DevicePayloadRead(DeclaredLength(header));
        if |rest| < wanted then Hungry
        else
          match Decode(header, rest[..wanted])
          case Decoded(frame) => Received(frame, rest[wanted..])
          case _ => Corrupt(rest[wanted..])
  }

  // ------------------------------------------------------------------ windows

  // Byte by byte: an id of 0, 1 or 2 and a length of 1 to 64.
  lemma PlausibleIff(window: Data)
    ensures Plausible(window) <==>
              |window| >= 5 && window[0] == 0 && window[1] <= 2 && window[2] == 0 && 1 <= window[3] <= 64
  {
    if |window| >= 5 {
      var b0: int, b1: int, b2: int, b3: int := window[0], window[1], window[2], window[3];
      assert 0x100 * b0 + b1 <= 2 <==> b0 == 0 && b1 <= 2;
      assert 1 <= 0x100 * b2 + b3 <= 64 <==> b2 == 0 && 1 <= b3 <= 64;
    }
  }

  predicate PlausibleAt(input: Data, k: nat) {
    k + 5 <= |input| && Plausible(input[k..k + 5])
  }

  ghost predicate NoneBefore(input: Data, k: nat) {
    forall j: nat :: j < k ==> !PlausibleAt(input, j)
  }

  // The header read is the earliest plausible window among the first five, and
  // five bytes plus its shift are consumed.
  lemma EarliestWindow(input: Data, header: Data, shift: nat, rest: Data)
    ensures ReadHeader(input) == Synchronized(header, shift, rest)
            <==> shift <= MAX_HEADER_SHIFTS && NoneBefore(input, shift) && PlausibleAt(input, shift)
                 && header == input[shift..shift + 5] && rest == input[shift + 5..]
  {
    hide Plausible;
    if |input| >= 5 {
      assert input[0..5] == input[..5];
      SyncFinds(input, 0);
    }
  }

  // Synchronisation is lost, nine bytes on, exactly when none of the five windows is plausible.
  lemma LostSynchronisationIff(input: Data, rest: Data)
    ensures ReadHeader(input) == Unsynchronized(rest)
            <==> |input| >= 9 && rest == input[9..] && NoneBefore(input, MAX_HEADER_SHIFTS + 1)
  {
    hide Plausible;
    if |input| >= 5 {
      assert input[0..5] == input[..5];
      SyncFinds(input, 0);
    }
  }

  lemma {:induction false} SyncFinds(input: Data, k: nat)
    requires k <= MAX_HEADER_SHIFTS && k + 5 <= |input| && NoneBefore(input, k)
    ensures match SyncFrom(input[k..k + 5], k, input[k + 5..])
            case Synchronized(header, at, rest) =>
              && k <= at <= MAX_HEADER_SHIFTS && NoneBefore(input, at) && PlausibleAt(input, at)
              && header == input[at..at + 5] && rest == input[at + 5..]
            case Unsynchronized(rest) =>
              |input| >= 9 && rest == input[9..] && NoneBefore(input, MAX_HEADER_SHIFTS + 1)
            case Starved =>
              |input| < 9 && NoneBefore(input, |input| - 4)
    decreases MAX_HEADER_SHIFTS - k
  {
    hide Plausible;
    var window, rest := input[k..k + 5], input[k + 5..];
    if !Plausible(window) && k < MAX_HEADER_SHIFTS && rest != [] {
      assert window[1..] + [rest[0]] == input[k + 1..k + 6];
      assert rest[1..] == input[k + 6..];
      assert !PlausibleAt(input, k);
      SyncFinds(input, k + 1);
    }
  }

  // ------------------------------------------------------------------ streams

  function Noise(n: nat): (noise: Data)
    ensures |noise| == n && forall i :: 0 <= i < n ==> noise[i] == 0xFF
  {
    seq(n, _ => 0xFF)
  }

  // A frame on the wire: some idle bytes, a header and a padded body.
  datatype Wire = Wire(noise: nat, header: Data, body: Data)

  predicate Sound(wire: Wire) {
    && Plausible(wire.header) && |wire.header| == 5
    && Decode(wire.header, wire.body).Decoded?
  }

  function WireBytes(wire: Wire): Data {
    Noise(wire.noise) + wire.header + wire.body
  }

  function WireFrame(wire: Wire): Frame
    requires Sound(wire)
  {
    Decode(wire.header, wire.body).frame
  }

  function Stream(wires: seq<Wire>): Data {
    if wires == [] then [] else WireBytes(wires[0]) + Stream(wires[1..])
  }

  // A sound frame is read off the stream exactly when at most four idle bytes
  // precede it, and then nothing after it is consumed.
  lemma FrameAfterNoiseIff(wire: Wire, tail: Data)
    requires Sound(wire)
    ensures Receive(WireBytes(wire) + tail) == Received(WireFrame(wire), tail)
            <==> wire.noise <= MAX_HEADER_SHIFTS
  {
    hide Plausible, Decode, SyncFrom, DevicePayloadRead, ReadHeader;
    var input := WireBytes(wire) + tail;
    var n := wire.noise;
    var rest := wire.body + tail;
    SoundBody(wire);
    IdleIsImplausible(wire, tail);
    if n <= MAX_HEADER_SHIFTS {
      assert input[n..n + 5] == wire.header;
      assert input[n + 5..] == rest;
      EarliestWindow(input, wire.header, n, rest);
      assert rest[..|wire.body|] == wire.body;
      assert rest[|wire.body|..] == tail;
    } else {
      LostSynchronisationIff(input, input[9..]);
    }
  }

  lemma IdleIsImplausible(wire: Wire, tail: Data)
    ensures NoneBefore(WireBytes(wire) + tail, wire.noise)
  {
    var input := WireBytes(wire) + tail;
    forall j: nat | j < wire.noise
      ensures !PlausibleAt(input, j)
    {
      if j + 5 <= |input| {
        assert input[j..j + 5][0] == Noise(wire.noise)[j];
      }
    }
  }

  lemma SoundBody(wire: Wire)
    requires Sound(wire)
    ensures |wire.body| == DevicePayloadRead(DeclaredLength(wire.header))
  {
  }

  // A frame as large as its header says, whatever its checksum.
  predicate Sized(wire: Wire) {
    && |wire.header| == 5 && Plausible(wire.header)
    && |wire.body| == DevicePayloadRead(DeclaredLength(wire.header))
  }

  // A damaged frame of the right size is consumed like a sound one.
  lemma DamagedFrameIsDropped(wire: Wire, tail: Data)
    requires Sized(wire) && !Sound(wire) && wire.noise <= MAX_HEADER_SHIFTS
    ensures Receive(WireBytes(wire) + tail) == Corrupt(tail)
  {
    hide Plausible, Decode, SyncFrom, DevicePayloadRead, ReadHeader;
    var input := WireBytes(wire) + tail;
    var n := wire.noise;
    var rest := wire.body + tail;
    IdleIsImplausible(wire, tail);
    assert input[n..n + 5] == wire.header;
    assert input[n + 5..] == rest;
    EarliestWindow(input, wire.header, n, rest);
    assert rest[..|wire.body|] == wire.body;
    assert rest[|wire.body|..] == tail;
  }

  // receive called count times, stopping at the first that gives no frame.
  function ReceiveMany(input: Data, count: nat): (seq<Frame>, Data) {
    if count == 0 then ([], input)
    else
      match Receive(input)
      case Received(frame, rest) =>
        var more := ReceiveMany(rest, count - 1);
        ([frame] + more.0, more.1)
      case _ => ([], input)
  }

  function Frames(wires: seq<Wire>): seq<Frame>
    requires forall w <- wires :: Sound(w)
  {
    if wires == [] then [] else [WireFrame(wires[0])] + Frames(wires[1..])
  }

  // A stream of sound frames, each after at most four idle bytes, is read as
  // exactly that sequence, and nothing beyond it is touched.
  lemma {:induction false} StreamIsRead(wires: seq<Wire>, tail: Data)
    requires forall w <- wires :: Sound(w) && w.noise <= MAX_HEADER_SHIFTS
    ensures ReceiveMany(Stream(wires) + tail, |wires|) == (Frames(wires), tail)
  {
    hide Receive, WireBytes;
    if wires == [] {
      assert Stream(wires) + tail == tail;
    } else {
      var rest := Stream(wires[1..]) + tail;
      assert Stream(wires) + tail == WireBytes(wires[0]) + rest;
      FrameAfterNoiseIff(wires[0], rest);
      StreamIsRead(wires[1..], tail);
    }
  }

  // What buildFrame produces is sound on the wire, so two ends that both use it
  // understand each other.
  lemma BuiltFramesAreSound(noise: nat, id: uint16, payload: Data)
    requires id <= MESSAGE_ID_TEST && 1 <= |payload| <= MAX_DEVICE_PAYLOAD
    ensures var bytes := FrameBytes(id, payload);
            var wire := Wire(noise, bytes[..5], bytes[5..]);
            Sound(wire) && WireFrame(wire) == Frame(id, payload) && WireBytes(wire) == Noise(noise) + bytes
  {
    hide Checksum, Decode;
    var bytes := FrameBytes(id, payload);
    BuiltFrameDecodesIff(id, payload);
    assert bytes[..5] == HeaderBytes(id, payload);
    HeaderDeclares(id, payload);
    assert bytes[..5] + bytes[5..] == bytes;
    assert Noise(noise) + bytes[..5] + bytes[5..] == Noise(noise) + (bytes[..5] + bytes[5..]);
  }
}
