/**
 The identifiers service's codec: writers append to a shared buffer, and a
 reader advances a cursor over the payload.
 */
module CursorCodec {
  import opened Bytes
  import opened MessagePack

  const EXACT_INTEGER_LIMIT: int := 0x20_0000_0000_0000

  // ---------------------------------------------------------------- encoding

  // writeUnsigned
  function UnsignedBytes(value: uint64): (field: Data)
    ensures 1 <= |field| <= 9
  {
    if value <= 0x7F then [value]
    else if value <= 0xFF then [0xCC, value]
    else if value <= 0xFFFF then [0xCD] + BigEndian(value, 2)
    else if value <= 0xFFFF_FFFF then [0xCE] + BigEndian(value, 4)
    else [0xCF] + BigEndian(value, 8)
  }

  // writeInteger
  function IntegerBytes(value: int64): (field: Data)
    ensures 1 <= |field| <= 9
  {
    if value >= 0 then UnsignedBytes(value)
    else if value >= -32 then [value + 0x100]
    else if value >= -0x80 then [0xD0, value + 0x100]
    else if value >= -0x8000 then [0xD1] + BigEndian(value + 0x1_0000, 2)
    else if value >= -0x8000_0000 then [0xD2] + BigEndian(value + 0x1_0000_0000, 4)
    else [0xD3] + BigEndian(value + 0x1_0000_0000_0000_0000, 8)
  }

  function StringHeader(length: nat): (header: Data)
    ensures 1 <= |header| <= 5
  {
    if length <= 31 then [0xA0 + length]
    else if length <= 0xFF then [0xD9, length]
    else if length <= 0xFFFF then [0xDA] + BigEndian(length, 2)
    else [0xDB] + BigEndian(length % 0x1_0000_0000, 4)
  }

  // The length is truncated to sixteen bits, never refused.
  function ArrayHeader(length: nat): (header: Data)
    ensures 1 <= |header| <= 3
  {
    if length <= 15 then [0x90 + length] else [0xDC] + BigEndian(length % 0x1_0000, 2)
  }

  function MapHeader(length: nat): (header: Data)
    ensures 1 <= |header| <= 3
  {
    if length <= 15 then [0x80 + length] else [0xDE] + BigEndian(length % 0x1_0000, 2)
  }

  // `whole` says which doubles are whole numbers, and which.
  function Encode(whole: uint64 -> Option<int>, n: Node): Option<Data>
    decreases n
  {
    match n
    case Nil => Some([0xC0])
    case Bool(b) => Some([if b then 0xC3 else 0xC2])
    case Int(i) => Some(IntegerBytes(i))
    case UInt(u) => Some(UnsignedBytes(u))
    case Float(bits) =>
      var integer := whole(bits);
      if integer.None? || integer.value < -EXACT_INTEGER_LIMIT || integer.value > EXACT_INTEGER_LIMIT then None
      else Some(IntegerBytes(integer.value))
    case Str(text) => Some(StringHeader(|text|) + text)
    case Arr(items) => Joined(Some(ArrayHeader(|items|)), EncodeItems(whole, items))
    case Map(entries) => Joined(Some(MapHeader(|entries|)), EncodeEntries(whole, entries))
    case Bin(_) => None
  }

  function EncodeItems(whole: uint64 -> Option<int>, items: seq<Node>): Option<Data>
    decreases items
  {
    if items == [] then Some([]) else Joined(Encode(whole, items[0]), EncodeItems(whole, items[1..]))
  }

  function EncodeEntries(whole: uint64 -> Option<int>, entries: seq<Entry>): Option<Data>
    decreases entries
  {
    assert entries != [] ==> (entries decreases to entries[0]);
    if entries == [] then Some([])
    else Joined(Joined(Encode(whole, entries[0].key), Encode(whole, entries[0].value)),
                EncodeEntries(whole, entries[1..]))
  }

  // bytes.Buffer
  class Writer {
    var buffer: Data

    constructor ()
      ensures buffer == []
    {
      buffer := [];
    }

    method WriteByte(b: byte)
      modifies this
      ensures buffer == old(buffer) + [b]
    {
      buffer := buffer + [b];
    }

    // binary.Write of a fixed-width big-endian integer
    method WriteField(v: nat, width: nat)
      modifies this
      ensures buffer == old(buffer) + BigEndian(v, width)
    {
      buffer := buffer + BigEndian(v, width);
    }

    method WriteUnsigned(value: uint64)
      modifies this
      ensures buffer == old(buffer) + UnsignedBytes(value)
    {
      hide BigEndian;
      if value <= 0x7F {
        WriteByte(value);
      } else if value <= 0xFF {
        WriteByte(0xCC);
        WriteByte(value);
      } else if value <= 0xFFFF {
        WriteByte(0xCD);
        WriteField(value, 2);
      } else if value <= 0xFFFF_FFFF {
        WriteByte(0xCE);
        WriteField(value, 4);
      } else {
        WriteByte(0xCF);
        WriteField(value, 8);
      }
    }

    method WriteInteger(value: int64)
      modifies this
      ensures buffer == old(buffer) + IntegerBytes(value)
    {
      hide BigEndian, UnsignedBytes;
      if value >= 0 {
        WriteUnsigned(value);
      } else if value >= -32 {
        WriteByte(value + 0x100);
      } else if value >= -0x80 {
        WriteByte(0xD0);
        WriteByte(value + 0x100);
      } else if value >= -0x8000 {
        WriteByte(0xD1);
        WriteField(value + 0x1_0000, 2);
      } else if value >= -0x8000_0000 {
        WriteByte(0xD2);
        WriteField(value + 0x1_0000_0000, 4);
      } else {
        WriteByte(0xD3);
        WriteField(value + 0x1_0000_0000_0000_0000, 8);
      }
    }

    method WriteString(text: Data)
      modifies this
      ensures buffer == old(buffer) + (StringHeader(|text|) + text)
    {
      hide BigEndian;
      if |text| <= 31 {
        WriteByte(0xA0 + |text|);
      } else if |text| <= 0xFF {
        WriteByte(0xD9);
        WriteByte(|text|);
      } else if |text| <= 0xFFFF {
        WriteByte(0xDA);
        WriteField(|text|, 2);
      } else {
        WriteByte(0xDB);
        WriteField(|text| % 0x1_0000_0000, 4);
      }
      buffer := buffer + text;
    }

    // On an error the buffer keeps what was already written.
    method WriteMessagePack(whole: uint64 -> Option<int>, n: Node) returns (ok: bool)
      modifies this
      ensures ok == Encode(whole, n).Some?
      ensures ok ==> buffer == old(buffer) + Encode(whole, n).value
      decreases n
    {
      match n {
        case Nil => WriteByte(0xC0);
        case Bool(b) => WriteByte(if b then 0xC3 else 0xC2);
        case Int(i) => WriteInteger(i);
        case UInt(u) => WriteUnsigned(u);
        case Float(bits) =>
          var integer := whole(bits);
          if integer.None? || integer.value < -EXACT_INTEGER_LIMIT || integer.value > EXACT_INTEGER_LIMIT {
            return false;
          }
          WriteInteger(integer.value);
        case Str(text) => WriteString(text);
        case Arr(items) =>
          ok := WriteArray(whole, items);
          return;
        case Map(entries) =>
          ok := WriteMap(whole, entries);
          return;
        case Bin(_) => return false;
      }
      return true;
    }

    method WriteArray(whole: uint64 -> Option<int>, items: seq<Node>) returns (ok: bool)
      modifies this
      ensures ok == EncodeItems(whole, items).Some?
      ensures ok ==> buffer == old(buffer) + (ArrayHeader(|items|) + EncodeItems(whole, items).value)
      decreases items, 1
    {
      hide Encode, BigEndian;
      if |items| <= 15 {
        WriteByte(0x90 + |items|);
      } else {
        WriteByte(0xDC);
        WriteField(|items| % 0x1_0000, 2);
      }
      ghost var start := buffer;
      for i := 0 to |items|
        invariant Joined(Some(buffer), EncodeItems(whole, items[i..])) == Joined(Some(start), EncodeItems(whole, items))
      {
        assert items[i..][0] == items[i] && items[i..][1..] == items[i + 1..];
        JoinedIsAssociative(Some(buffer), Encode(whole, items[i]), EncodeItems(whole, items[i + 1..]));
        ok := WriteMessagePack(whole, items[i]);
        if !ok {
          return false;
        }
      }
      assert buffer + [] == buffer;
      return true;
    }

    method WriteMap(whole: uint64 -> Option<int>, entries: seq<Entry>) returns (ok: bool)
      modifies this
      ensures ok == EncodeEntries(whole, entries).Some?
      ensures ok ==> buffer == old(buffer) + (MapHeader(|entries|) + EncodeEntries(whole, entries).value)
      decreases entries, 1
    {
      hide Encode, BigEndian;
      if |entries| <= 15 {
        WriteByte(0x80 + |entries|);
      } else {
        WriteByte(0xDE);
        WriteField(|entries| % 0x1_0000, 2);
      }
      ghost var start := buffer;
      for i := 0 to |entries|
        invariant Joined(Some(buffer), EncodeEntries(whole, entries[i..]))
                == Joined(Some(start), EncodeEntries(whole, entries))
      {
        var entry := entries[i];
        assert (entries decreases to entry);
        assert entries[i..][0] == entry && entries[i..][1..] == entries[i + 1..];
        ghost var field := Joined(Encode(whole, entry.key), Encode(whole, entry.value));
        JoinedIsAssociative(Some(buffer), field, EncodeEntries(whole, entries[i + 1..]));
        JoinedIsAssociative(Some(buffer), Encode(whole, entry.key), Encode(whole, entry.value));
        ok := WriteMessagePack(whole, entry.key);
        if !ok {
          return false;
        }
        ok := WriteMessagePack(whole, entry.value);
        if !ok {
          return false;
        }
      }
      assert buffer + [] == buffer;
      return true;
    }
  }

  // ---------------------------------------------------------------- decoding

  // The tree `read` finds at the cursor. Unlike the other service's decoder it
  // knows no binary or float tags and insists on string keys.
  function Parse(payload: Data, depth: nat): (p: Parsed)
    ensures p.Good? ==> |p.rest| < |payload|
    decreases |payload|, 0
  {
    if depth > MAX_DEPTH || payload == [] then Bad else
      var marker: int, rest := payload[0], payload[1..];
      if marker <= 0x7F then Good(UInt(marker), rest)
      else if marker >= 0xE0 then Good(Int(marker - 0x100), rest)
      else if marker < 0x90 then ParseMap(rest, marker - 0x80, depth + 1)
      else if marker < 0xA0 then ParseArray(rest, marker - 0x90, depth + 1)
      else if marker < 0xC0 then TakeString(rest, marker - 0xA0)
      else if marker == 0xC0 then Good(Nil, rest)
      else if marker == 0xC2 then Good(Bool(false), rest)
      else if marker == 0xC3 then Good(Bool(true), rest)
      else if marker == 0xCC then TakeUInt(rest, 1)
      else if marker == 0xCD then TakeUInt(rest, 2)
      else if marker == 0xCE then TakeUInt(rest, 4)
      else if marker == 0xCF then TakeUInt(rest, 8)
      else if marker == 0xD0 then TakeInt(rest, 1)
      else if marker == 0xD1 then TakeInt(rest, 2)
      else if marker == 0xD2 then TakeInt(rest, 4)
      else if marker == 0xD3 then TakeInt(rest, 8)
      else if 0xD9 <= marker <= 0xDB then
        var f := TakeUnsigned(rest, if marker == 0xD9 then 1 else if marker == 0xDA then 2 else 4);
        if f.NoField? then Bad else TakeString(f.rest, f.value)
      else if marker == 0xDC || marker == 0xDD then
        var f := TakeUnsigned(rest, if marker == 0xDC then 2 else 4);
        if f.NoField? then Bad else ParseArray(f.rest, f.value, depth + 1)
      else if marker == 0xDE || marker == 0xDF then
        var f := TakeUnsigned(rest, if marker == 0xDE then 2 else 4);
        if f.NoField? then Bad else ParseMap(f.rest, f.value, depth + 1)
      else Bad
  }

  function ParseArray(payload: Data, length: nat, depth: nat): (p: Parsed)
    ensures p.Good? ==> |p.rest| <= |payload|
    decreases |payload|, 2
  {
    if length > MAX_ELEMENTS || length > |payload| then Bad
    else
      match ParseItems(payload, length, depth)
      case BadItems => Bad
      case GoodItems(items, rest) => Good(Arr(items), rest)
  }

  function ParseItems(payload: Data, n: nat, depth: nat): (p: ParsedItems)
    ensures p.GoodItems? ==> |p.rest| <= |payload| && |p.items| == n
    decreases |payload|, 1
  {
    if n == 0 then GoodItems([], payload) else
      match Parse(payload, depth)
      case Bad => BadItems
      case Good(first, remainder) =>
        match ParseItems(remainder, n - 1, depth)
        case BadItems => BadItems
        case GoodItems(items, rest) => GoodItems([first] + items, rest)
  }

  function ParseMap(payload: Data, length: nat, depth: nat): (p: Parsed)
    ensures p.Good? ==> |p.rest| <= |payload|
    decreases |payload|, 2
  {
    if length > MAX_ELEMENTS || length > |payload| / 2 then Bad
    else
      match ParseEntries(payload, length, depth)
      case BadEntries => Bad
      case GoodEntries(entries, rest) => Good(Map(entries), rest)
  }

  function ParseEntries(payload: Data, n: nat, depth: nat): (p: ParsedEntries)
    ensures p.GoodEntries? ==> |p.rest| <= |payload| && |p.entries| == n
    decreases |payload|, 1
  {
    if n == 0 then GoodEntries([], payload) else
      match Parse(payload, depth)
      case Bad => BadEntries
      case Good(key, remainder) =>
        if !key.Str? then BadEntries else
          match Parse(remainder, depth)
          case Bad => BadEntries
          case Good(value, next) =>
            match ParseEntries(next, n - 1, depth)
            case BadEntries => BadEntries
            case GoodEntries(entries, rest) => GoodEntries([Entry(key, value)] + entries, rest)
  }

  // A map key, once it is known to be a string
  function TextOf(key: Value): Data {
    if key.VStr? then key.text else []
  }

  lemma KeyCollapse(key: Node)
    ensures Collapse(TextOf, key).VStr? <==> key.Str?
    ensures key.Str? ==> TextOf(Collapse(TextOf, key)) == Collapse(TextOf, key).text == key.text
  {
  }

  // messagePackReader over bytes.Reader
  class Reader {
    const payload: Data
    var pos: nat

    ghost predicate Valid()
      reads this
    {
      pos <= |payload|
    }

    function Remaining(): Data
      requires Valid()
      reads this
    {
      payload[pos..]
    }

    constructor (payload: Data)
      ensures this.payload == payload && Valid() && Remaining() == payload
    {
      this.payload := payload;
      this.pos := 0;
    }

    method ReadByte() returns (b: Option<byte>)
      requires Valid()
      modifies this`pos
      ensures Valid() && pos >= old(pos)
      ensures b == if old(Remaining()) == [] then None else Some(old(Remaining())[0])
      ensures b.Some? ==> pos == old(pos) + 1
    {
      if pos == |payload| {
        return None;
      }
      b := Some(payload[pos]);
      pos := pos + 1;
    }

    // binary.Read of an unsigned big-endian integer; a short read consumes the rest.
    method ReadField(width: nat) returns (v: Option<nat>)
      requires Valid()
      modifies this`pos
      ensures Valid() && pos >= old(pos)
      ensures v.Some? <==> TakeUnsigned(old(Remaining()), width).Field?
      ensures v.Some? ==> Field(v.value, Remaining()) == TakeUnsigned(old(Remaining()), width)
      ensures v.Some? ==> v.value < Pow256(width) && pos == old(pos) + width
    {
      if |payload| - pos < width {
        pos := |payload|;
        return None;
      }
      var field := payload[pos..pos + width];
      assert Remaining()[..width] == field;
      FieldBound(field);
      pos := pos + width;
      return Some(FromBigEndian(field));
    }

    // The cursor stands where parsing from `before` leaves it.
    ghost predicate Found(p: Parsed, value: Option<Value>)
      requires Valid()
      reads this
    {
      match p
      case Bad => value == None
      case Good(node, rest) => value == Some(Collapse(TextOf, node)) && Remaining() == rest
    }

    method Read(depth: nat) returns (value: Option<Value>)
      requires Valid()
      modifies this`pos
      ensures Valid() && pos >= old(pos) && Found(Parse(old(Remaining()), depth), value)
      decreases |payload| - pos, 0
    {
      hide ParseItems, ParseEntries, ParseArray, ParseMap, FromBigEndian, CollapseItems, CollapseEntries, Pow256;
      if depth > MAX_DEPTH {
        return None;
      }
      ghost var before := Remaining();
      var first := ReadByte();
      if first.None? {
        return None;
      }
      var marker: int := first.value;
      assert Remaining() == before[1..];
      if marker <= 0x7F {
        return Some(VUInt(marker));
      } else if marker >= 0xE0 {
        return Some(VInt(marker - 0x100));
      } else if marker < 0x90 {
        value := ReadMap(marker - 0x80, depth + 1);
        return;
      } else if marker < 0xA0 {
        value := ReadArray(marker - 0x90, depth + 1);
        return;
      } else if marker < 0xC0 {
        value := ReadString(marker - 0xA0);
        return;
      }
      value := ReadMarked(before, marker, depth);
    }

    method ReadUnsigned(width: nat) returns (value: Option<Value>)
      requires Valid() && IsWidth(width)
      modifies this`pos
      ensures Valid() && pos >= old(pos) && Found(TakeUInt(old(Remaining()), width), value)
    {
      Powers();
      var v := ReadField(width);
      if v.None? {
        return None;
      }
      return Some(VUInt(v.value));
    }

    method ReadSigned(width: nat) returns (value: Option<Value>)
      requires Valid() && IsWidth(width)
      modifies this`pos
      ensures Valid() && pos >= old(pos) && Found(TakeInt(old(Remaining()), width), value)
    {
      Powers();
      var v := ReadField(width);
      if v.None? {
        return None;
      }
      return Some(VInt(Signed(v.value, width)));
    }

    // The second switch of read: markers with their own tag.
    method ReadMarked(ghost before: Data, marker: byte, depth: nat) returns (value: Option<Value>)
      requires Valid() && depth <= MAX_DEPTH && 0xC0 <= marker < 0xE0
      requires before != [] && before[0] == marker && before[1..] == Remaining()
      modifies this`pos
      ensures Valid() && pos >= old(pos) && Found(Parse(before, depth), value)
      decreases |payload| - pos, 3
    {
      hide ParseItems, ParseEntries, ParseArray, ParseMap, FromBigEndian, CollapseItems, CollapseEntries, Pow256,
           TakeUInt, TakeInt;
      Powers();
      if marker == 0xC0 {
        return Some(VNil);
      } else if marker == 0xC2 {
        return Some(VBool(false));
      } else if marker == 0xC3 {
        return Some(VBool(true));
      } else if 0xCC <= marker <= 0xCF {
        value := ReadUnsigned(Width(marker - 0xCC));
      } else if 0xD0 <= marker <= 0xD3 {
        value := ReadSigned(Width(marker - 0xD0));
      } else if 0xD9 <= marker <= 0xDB {
        var length := ReadField(Width(marker - 0xD9));
        if length.None? {
          return None;
        }
        value := ReadString(length.value);
      } else if marker == 0xDC || marker == 0xDD {
        var length := ReadField(if marker == 0xDC then 2 else 4);
        if length.None? {
          return None;
        }
        value := ReadArray(length.value, depth + 1);
      } else if marker == 0xDE || marker == 0xDF {
        var length := ReadField(if marker == 0xDE then 2 else 4);
        if length.None? {
          return None;
        }
        value := ReadMap(length.value, depth + 1);
      } else {
        return None;
      }
    }

    method ReadString(length: nat) returns (value: Option<Value>)
      requires Valid()
      modifies this`pos
      ensures Valid() && pos >= old(pos) && Found(TakeString(old(Remaining()), length), value)
    {
      if length > MAX_STRING_BYTES || length > |payload| - pos {
        return None;
      }
      var text := payload[pos..pos + length];
      assert Remaining()[..length] == text;
      pos := pos + length;
      return Some(VStr(text));
    }

    method ReadArray(length: nat, depth: nat) returns (value: Option<Value>)
      requires Valid()
      modifies this`pos
      ensures Valid() && pos >= old(pos) && Found(ParseArray(old(Remaining()), length, depth), value)
      decreases |payload| - pos, 2
    {
      hide Parse, CollapseItems;
      if length > MAX_ELEMENTS || length > |payload| - pos {
        return None;
      }
      ghost var before := Remaining();
      var values: seq<Value> := [];
      ghost var done: seq<Node> := [];
      for index := 0 to length
        invariant Valid() && pos >= old(pos)
        invariant values == CollapseItems(TextOf, done)
        invariant ParseItems(before, length, depth)
                == PrependItems(done, ParseItems(Remaining(), length - index, depth))
      {
        ghost var first := Parse(Remaining(), depth);
        var element := Read(depth);
        if element.None? {
          return None;
        }
        ItemCollected(TextOf, done, first.node, ParseItems(Remaining(), length - index - 1, depth));
        done := done + [first.node];
        values := values + [element.value];
      }
      assert done + [] == done;
      return Some(VArr(values));
    }

    method ReadMap(length: nat, depth: nat) returns (value: Option<Value>)
      requires Valid()
      modifies this`pos
      ensures Valid() && pos >= old(pos) && Found(ParseMap(old(Remaining()), length, depth), value)
      decreases |payload| - pos, 2
    {
      hide Parse, Collapse, CollapseItems, ParseItems, FromBigEndian, TakeString, TakeUInt, TakeInt;
      if length > MAX_ELEMENTS || length > (|payload| - pos) / 2 {
        return None;
      }
      ghost var before := Remaining();
      var values: map<Data, Value> := map[];
      ghost var done: seq<Entry> := [];
      for index := 0 to length
        invariant Valid() && pos >= old(pos)
        invariant values == CollapseEntries(TextOf, done)
        invariant ParseEntries(before, length, depth)
                == PrependEntries(done, ParseEntries(Remaining(), length - index, depth))
      {
        ghost var first := Parse(Remaining(), depth);
        var key := Read(depth);
        if key.None? {
          return None;
        }
        KeyCollapse(first.node);
        if !key.value.VStr? {
          return None;
        }
        ghost var second := Parse(Remaining(), depth);
        var member := Read(depth);
        if member.None? {
          return None;
        }
        ghost var entry := Entry(first.node, second.node);
        EntryCollected(TextOf, done, entry, ParseEntries(Remaining(), length - index - 1, depth));
        done := done + [entry];
        values := values[key.value.text := member.value];
      }
      MapCollapse(TextOf, done);
      assert done + [] == done;
      return Some(VMap(values));
    }
  }

  method DecodeMessagePack(payload: Data) returns (value: Option<Value>)
    ensures value == match Parse(payload, 0)
                     case Bad => None
                     case Good(node, rest) => if rest == [] then Some(Collapse(TextOf, node)) else None
  {
    hide Parse, Collapse;
    var decoder := new Reader(payload);
    value := decoder.Read(0);
    if value.None? || decoder.pos != |payload| {
      return None;
    }
  }
}
