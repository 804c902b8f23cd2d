/**
 Framing on the DSP's SPI link: five header bytes, a payload padded to a
 multiple of four, and an additive checksum.
 */
module DspFrame {
  import opened Bytes

  type uint16 = x: int | 0 <= x < 0x1_0000

  const MAX_PAYLOAD_BYTES: nat := 614400 - 5

  datatype Frame = Frame(id: uint16, payload: Data)

  function FrameLength(payload: nat): nat {
    (payload + 5 + 3) / 4 * 4
  }

  function DevicePayloadRead(payload: nat): nat {
    if payload <= 3 then 3 else FrameLength(payload) - 5
  }

  // The least multiple of four that holds five header bytes and the payload.
  lemma FrameLengthIsLeast(payload: nat, size: nat)
    ensures FrameLength(payload) % 4 == 0
    ensures size % 4 == 0 && size >= payload + 5 ==> payload + 5 <= FrameLength(payload) <= size
    ensures FrameLength(payload) >= payload + 5
  {
    if size % 4 == 0 && size >= payload + 5 {
      assert size == size / 4 * 4 && (payload + 8) / 4 <= (size + 3) / 4 == size / 4;
    }
  }

  // What is read after a header is the rest of the frame.
  lemma RestOfFrameIsRead(payload: nat)
    ensures 5 + DevicePayloadRead(payload) == FrameLength(payload)
  {
  }

  function Sum(bytes: Data): nat {
    if bytes == [] then 0
    else
      var last: int := bytes[|bytes| - 1];
      Sum(bytes[..|bytes| - 1]) + last
  }

  lemma {:induction false} SumAppend(a: Data, b: Data)
    ensures Sum(a + b) == Sum(a) + Sum(b)
  {
    if b == [] {
      assert a + b == a;
    } else {
      assert (a + b)[..|a + b| - 1] == a + b[..|b| - 1];
      SumAppend(a, b[..|b| - 1]);
    }
  }

  lemma {:induction false} SumOfZeros(n: nat)
    ensures Sum(Zeros(n)) == 0
  {
    if n > 0 {
      assert Zeros(n)[..n - 1] == Zeros(n - 1);
      SumOfZeros(n - 1);
    }
  }

  function Checksum(id: uint16, payload: Data): byte {
    (id / 0x100 + id % 0x100 + |payload| / 0x100 + |payload| % 0x100 + Sum(payload)) % 0x100
  }

  // The bytes of a frame; the length field has two bytes whatever the length is.
  function FrameBytes(id: uint16, payload: Data): (bytes: Data)
    ensures |bytes| == FrameLength(|payload|)
  {
    HeaderBytes(id, payload) + payload + Zeros(FrameLength(|payload|) - 5 - |payload|)
  }

  // checksum
  method ComputeChecksum(id: uint16, payload: Data) returns (b: byte)
    ensures b == Checksum(id, payload)
  {
    var sum := id / 0x100 + id % 0x100 + |payload| / 0x100 + |payload| % 0x100;
    ghost var start := sum;
    for i := 0 to |payload|
      invariant sum == start + Sum(payload[..i])
    {
      assert payload[..i + 1][..i] == payload[..i];
      var value: int := payload[i];
      sum := sum + value;
    }
    assert payload[..|payload|] == payload;
    return sum % 0x100;
  }

  // The five header bytes the host sends.
  function HeaderBytes(id: uint16, payload: Data): (header: Data)
    ensures |header| == 5
  {
    [id / 0x100, id % 0x100, |payload| / 0x100 % 0x100, |payload| % 0x100, Checksum(id, payload)]
  }

  // Bytes that are a header, then a payload, then zeros.
  lemma ThreeParts(out: Data, header: Data, payload: Data)
    requires |header| == 5 && |out| >= 5 + |payload|
    requires out[..5] == header
    requires forall i :: 0 <= i < |payload| ==> out[5 + i] == payload[i]
    requires forall i :: 5 + |payload| <= i < |out| ==> out[i] == 0
    ensures out == header + payload + Zeros(|out| - 5 - |payload|)
  {
    assert out[5..5 + |payload|] == payload;
    assert out[5 + |payload|..] == Zeros(|out| - 5 - |payload|);
  }

  lemma FrameFits(length: nat)
    ensures FrameLength(length) >= 5 + length
  {
  }

  // buildFrame
  method BuildFrame(id: uint16, payload: Data) returns (message: Option<Data>)
    ensures message == if |payload| > MAX_PAYLOAD_BYTES then None else Some(FrameBytes(id, payload))
  {
    hide Checksum, Sum;
    if |payload| > MAX_PAYLOAD_BYTES {
      return None;
    }
    var length := |payload|;
    FrameFits(length);
    hide FrameLength;
    var out := new byte[FrameLength(length)](_ => 0);
    var check := ComputeChecksum(id, payload);
    out[0] := id / 0x100;
    out[1] := id % 0x100;
    out[2] := length / 0x100 % 0x100;
    out[3] := length % 0x100;
    out[4] := check;
    ghost var header := HeaderBytes(id, payload);
    assert out[..5] == header;
    forall i | 0 <= i < length {
      out[5 + i] := payload[i];
    }
    ThreeParts(out[..], header, payload);
    return Some(out[..]);
  }

  // ------------------------------------------------------------------ decoding

  // parseDeviceHeader: the id and the declared length, or a rejection.
  datatype Parsed = Refused | Parsed(id: uint16, length: nat)

  function ParseDeviceHeader(header: Data): (p: Parsed)
    ensures p.Parsed? ==> 1 <= p.length <= 0xFFFF
  {
    if |header| < 5 then Refused
    else
      var b0: int, b1: int, b2: int, b3: int := header[0], header[1], header[2], header[3];
      if b0 == 0xFF || b1 == 0xFF || 0x100 * b2 + b3 == 0 then Refused
      else Parsed(0x100 * b0 + b1, 0x100 * b2 + b3)
  }

  datatype Decoding = Rejected | WrongSize | WrongChecksum | Decoded(frame: Frame)

  function Decode(header: Data, read: Data): Decoding {
    match ParseDeviceHeader(header)
    case Refused => Rejected
    case Parsed(id, length) =>
      if |read| != DevicePayloadRead(length) then WrongSize
      else
        var check: int := header[4];
        if (Sum(header[..4]) + Sum(read)) % 0x100 != check then WrongChecksum
        else Decoded(Frame(id, read[..length]))
  }

  // decodeDeviceFrame
  method DecodeDeviceFrame(header: Data, read: Data) returns (d: Decoding)
    ensures d == Decode(header, read)
  {
    var parsed := ParseDeviceHeader(header);
    if parsed.Refused? {
      return Rejected;
    }
    if |read| != DevicePayloadRead(parsed.length) {
      return WrongSize;
    }
    var b0: int, b1: int, b2: int, b3: int, check: int := header[0], header[1], header[2], header[3], header[4];
    var sum := b0 + b1 + b2 + b3;
    HeaderSum(header);
    for i := 0 to |read|
      invariant sum == Sum(header[..4]) + Sum(read[..i])
    {
      assert read[..i + 1][..i] == read[..i];
      var value: int := read[i];
      sum := sum + value;
    }
    assert read[..|read|] == read;
    if sum % 0x100 != check {
      return WrongChecksum;
    }
    var length := if parsed.length > |read| then |read| else parsed.length;
    return Decoded(Frame(parsed.id, read[..length]));
  }

  lemma HeaderSum(header: Data)
    requires |header| >= 4
    ensures Sum(header[..4]) == header[0] as int + header[1] as int + header[2] as int + header[3] as int
  {
    var h := header[..4];
    assert h[..3][..2] == h[..2] && h[..2][..1] == h[..1] && h[..1][..0] == [];
    assert Sum(h[..1]) == h[0] as int;
    assert Sum(h[..2]) == Sum(h[..1]) + h[1] as int;
    assert Sum(h[..3]) == Sum(h[..2]) + h[2] as int;
  }

  // The two frames on record: the DSP has booted, and its version is asked for.
  lemma RecordedFrames()
    ensures FrameBytes(1, [4]) == [0x00, 0x01, 0x00, 0x01, 0x06, 0x04, 0x00, 0x00]
    ensures FrameBytes(0, [8]) == [0x00, 0x00, 0x00, 0x01, 0x09, 0x08, 0x00, 0x00]
  {
    SumOfOne(4);
    SumOfOne(8);
    assert HeaderBytes(1, [4]) == [0x00, 0x01, 0x00, 0x01, 0x06];
    assert HeaderBytes(0, [8]) == [0x00, 0x00, 0x00, 0x01, 0x09];
    assert Zeros(2) == [0, 0];
  }

  lemma SumOfOne(value: byte)
    ensures Sum([value]) == value as int
  {
    assert [value][..0] == [];
  }

  // A header and what was read after it are a frame exactly when neither id byte is
  // 0xff, something is declared, the size is right and the checksum byte is the sum
  // of all the other bytes.
  lemma DecodesIff(header: Data, read: Data, frame: Frame)
    requires |header| == 5
    ensures var length := 0x100 * header[2] as int + header[3] as int;
            Decode(header, read) == Decoded(frame) <==>
              && header[0] != 0xFF && header[1] != 0xFF && length > 0
              && 5 + |read| == FrameLength(length)
              && (Sum(header[..4] + read) - header[4] as int) % 0x100 == 0
              && frame == Frame(0x100 * header[0] as int + header[1] as int, read[..length])
  {
    hide Sum;
    var b2: int, b3: int := header[2], header[3];
    var length := 0x100 * b2 + b3;
    RestOfFrameIsRead(length);
    FrameFits(length);
    hide FrameLength, DevicePayloadRead;
    SumAppend(header[..4], read);
    SameResidue(Sum(header[..4]) + Sum(read), header[4]);
    var id: int := 0x100 * header[0] as int + header[1] as int;
    assert ParseDeviceHeader(header)
        == if header[0] == 0xFF || header[1] == 0xFF || length == 0 then Refused else Parsed(id, length);
  }

  lemma SameResidue(sum: int, check: byte)
    ensures sum % 0x100 == check as int <==> (sum - check as int) % 0x100 == 0
  {
  }

  // A frame the host builds decodes to itself exactly when its length fits the
  // two-byte field, it is not empty, and neither id byte is 0xff.
  lemma BuiltFrameDecodesIff(id: uint16, payload: Data)
    ensures var bytes := FrameBytes(id, payload);
            Decode(bytes[..5], bytes[5..]) == Decoded(Frame(id, payload))
            <==> 1 <= |payload| <= 0xFFFF && id / 0x100 != 0xFF && id % 0x100 != 0xFF
  {
    hide Checksum, Sum;
    var bytes := FrameBytes(id, payload);
    var header, read := bytes[..5], bytes[5..];
    assert header == HeaderBytes(id, payload);
    HeaderDeclares(id, payload);
    if |payload| > 0xFFFF {
      LongFramesAreRefused(|payload|);
    } else if |payload| > 0 && ParseDeviceHeader(header).Parsed? {
      RestOfFrameIsRead(|payload|);
      BuiltChecksum(id, payload, read);
      assert read[..|payload|] == payload;
    }
  }

  lemma HeaderDeclares(id: uint16, payload: Data)
    ensures var declared := |payload| % 0x1_0000;
            ParseDeviceHeader(HeaderBytes(id, payload))
            == if id / 0x100 == 0xFF || id % 0x100 == 0xFF || declared == 0 then Refused else Parsed(id, declared)
  {
    hide Checksum, Sum;
    TwoBytes(|payload|);
    TwoBytes(id);
  }

  // Two bytes, most significant first, hold a number modulo 65536.
  lemma TwoBytes(n: nat)
    ensures 0x100 * (n / 0x100 % 0x100) + n % 0x100 == n % 0x1_0000
  {
    var q, low := n / 0x100, n % 0x100;
    var high, middle := q / 0x100, q % 0x100;
    assert n == 0x100 * q + low && q == 0x100 * high + middle;
    assert n == 0x1_0000 * high + (0x100 * middle + low);
  }

  lemma BuiltChecksum(id: uint16, payload: Data, read: Data)
    requires |payload| <= 0xFFFF
    requires read == FrameBytes(id, payload)[5..]
    ensures (Sum(HeaderBytes(id, payload)[..4]) + Sum(read)) % 0x100 == Checksum(id, payload)
  {
    hide Sum;
    var padding := Zeros(FrameLength(|payload|) - 5 - |payload|);
    assert read == payload + padding;
    SumAppend(payload, padding);
    SumOfZeros(|padding|);
    HeaderSum(HeaderBytes(id, payload));
  }

  lemma LongFramesAreRefused(length: nat)
    requires length > 0xFFFF
    ensures DevicePayloadRead(length % 0x1_0000) < FrameLength(length) - 5
  {
    var declared := length % 0x1_0000;
    assert length >= declared + 0x1_0000;
    assert FrameLength(declared) <= declared + 8 && FrameLength(length) >= length + 5;
  }

  // The checksum catches every single corrupted byte, in header or body.
  lemma SingleByteErrorIsCaught(header: Data, read: Data, header': Data, read': Data, k: nat)
    requires |header| == |header'| == 5 && |read| == |read'| && k < 5 + |read|
    requires Decode(header, read).Decoded?
    requires (header + read)[k] != (header' + read')[k]
    requires forall i :: 0 <= i < 5 + |read| && i != k ==> (header + read)[i] == (header' + read')[i]
    ensures !Decode(header', read').Decoded?
  {
    hide Sum;
    if Decode(header', read').Decoded? {
      if k < 5 {
        assert read == read' by {
          assert forall i :: 0 <= i < |read| ==>
            read[i] == (header + read)[5 + i] == (header' + read')[5 + i] == read'[i];
        }
        assert forall i :: 0 <= i < 5 && i != k ==>
          header[i] == (header + read)[i] == (header' + read')[i] == header'[i];
        HeaderByteShiftsResidue(header, header', read, k);
      } else {
        assert header == header' by {
          assert forall i :: 0 <= i < 5 ==> header[i] == (header + read)[i] == (header' + read')[i] == header'[i];
        }
        assert forall i :: 0 <= i < |read| && i != k - 5 ==>
          read[i] == (header + read)[5 + i] == (header' + read')[5 + i] == read'[i];
        OneByteShiftsSum(read, read', k - 5);
      }
      ResidueOf(header, read);
      ResidueOf(header', read');
    }
  }

  // What a frame's bytes add up to, less the checksum byte.
  function Residue(header: Data, read: Data): int
    requires |header| == 5
  {
    var check: int := header[4];
    Sum(header[..4]) + Sum(read) - check
  }

  lemma ResidueOf(header: Data, read: Data)
    requires |header| == 5 && Decode(header, read).Decoded?
    ensures Residue(header, read) % 0x100 == 0
  {
    hide Sum;
  }

  lemma HeaderByteShiftsResidue(header: Data, header': Data, read: Data, k: nat)
    requires |header| == |header'| == 5 && k < 5 && header[k] != header'[k]
    requires forall i :: 0 <= i < 5 && i != k ==> header[i] == header'[i]
    ensures 0 < Residue(header, read) - Residue(header', read) < 0x100
            || 0 < Residue(header', read) - Residue(header, read) < 0x100
  {
    hide Sum;
    HeaderSum(header);
    HeaderSum(header');
  }

  lemma OneByteShiftsSum(a: Data, b: Data, k: nat)
    requires |a| == |b| && k < |a|
    requires forall i :: 0 <= i < |a| && i != k ==> a[i] == b[i]
    ensures Sum(a) - a[k] as int == Sum(b) - b[k] as int
  {
    assert a == a[..k] + [a[k]] + a[k + 1..] && b == a[..k] + [b[k]] + a[k + 1..];
    SumAppend(a[..k] + [a[k]], a[k + 1..]);
    SumAppend(a[..k], [a[k]]);
    SumAppend(a[..k] + [b[k]], a[k + 1..]);
    SumAppend(a[..k], [b[k]]);
    assert [a[k]][..0] == [] && [b[k]][..0] == [];
  }
}
