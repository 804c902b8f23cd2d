/**
 The DSP service's codec: an encoder that appends to a slice it returns and a
 decoder that returns the remainder it did not consume.
 */
module SliceCodec {
  import opened Bytes
  import opened MessagePack

  // ---------------------------------------------------------------- encoding

  // appendInteger, on its own
  function IntegerBytes(value: int64): (field: Data)
    ensures 1 <= |field| <= 9
  {
    if 0 <= value <= 0x7F then [value]
    else if -32 <= value < 0 then [0x100 + value]
    else if 0 <= value <= 0xFF then [0xCC, value]
    else if 0 <= value <= 0xFFFF then [0xCD] + BigEndian(value, 2)
    else if 0 <= value <= 0xFFFF_FFFF then [0xCE] + BigEndian(value, 4)
    else if 0 <= value then [0xCF] + BigEndian(value, 8)
    else if value >= -0x80 then [0xD0, value + 0x100]
    else if value >= -0x8000 then [0xD1] + BigEndian(value + 0x1_0000, 2)
    else if value >= -0x8000_0000 then [0xD2] + BigEndian(value + 0x1_0000_0000, 4)
    else [0xD3] + BigEndian(value + 0x1_0000_0000_0000_0000, 8)
  }

  function StringHeader(length: nat): (header: Data)
    ensures 1 <= |header| <= 5
  {
    if length <= 31 then [0xA0 + length]
    else if length <= 0xFF then [0xD9, length]
    else if length <= 0xFFFF then [0xDA] + BigEndian(length, 2)
    else [0xDB] + BigEndian(length % 0x1_0000_0000, 4)
  }

  function BinaryHeader(length: nat): Option<Data> {
    if length <= 0xFF then Some([0xC4, length])
    else if length <= 0xFFFF then Some([0xC5] + BigEndian(length, 2))
    else None
  }

  function ArrayHeader(length: nat): Option<Data> {
    if length <= 15 then Some([0x90 + length])
    else if length <= 0xFFFF then Some([0xDC] + BigEndian(length, 2))
    else None
  }

  function MapHeader(length: nat): Option<Data> {
    if length <= 15 then Some([0x80 + length])
    else if length <= 0xFFFF then Some([0xDE] + BigEndian(length, 2))
    else None
  }

  // The bytes of a tree, or nothing when the encoder reports an error.
  function Encode(n: Node): Option<Data>
    decreases n
  {
    match n
    case Nil => Some([0xC0])
    case Bool(b) => Some([if b then 0xC3 else 0xC2])
    case Str(text) => Some(StringHeader(|text|) + text)
    case Bin(bytes) => Joined(BinaryHeader(|bytes|), Some(bytes))
    case Int(i) => Some(IntegerBytes(i))
    case UInt(u) => if u > MAX_INT64 then None else Some(IntegerBytes(u))
    case Float(bits) => Some([0xCB] + BigEndian(bits, 8))
    case Arr(items) => Joined(ArrayHeader(|items|), EncodeItems(items))
    case Map(entries) => Joined(MapHeader(|entries|), EncodeEntries(entries))
  }

  function EncodeItems(items: seq<Node>): Option<Data>
    decreases items
  {
    if items == [] then Some([]) else Joined(Encode(items[0]), EncodeItems(items[1..]))
  }

  // Keys are written as strings.
  function EncodeEntries(entries: seq<Entry>): Option<Data>
    decreases entries
  {
    assert entries != [] ==> (entries decreases to entries[0]);
    if entries == [] then Some([])
    else Joined(Joined(Encode(entries[0].key), Encode(entries[0].value)), EncodeEntries(entries[1..]))
  }

  function Appended(out: Data, field: Option<Data>): Option<Data> {
    Joined(Some(out), field)
  }

  // appendValue
  method AppendValue(out: Data, n: Node) returns (r: Option<Data>)
    ensures r == Appended(out, Encode(n))
    decreases n
  {
    match n {
      case Nil => return Some(out + [0xC0]);
      case Bool(b) => return Some(out + [if b then 0xC3 else 0xC2]);
      case Str(text) => return Some(out + (StringHeader(|text|) + text));
      case Bin(bytes) =>
        if |bytes| <= 0xFF {
          return Some(out + ([0xC4, |bytes|] + bytes));
        } else if |bytes| <= 0xFFFF {
          return Some(out + ([0xC5] + BigEndian(|bytes|, 2) + bytes));
        }
        return None;
      case Int(i) => return Some(out + IntegerBytes(i));
      case UInt(u) =>
        if u > MAX_INT64 {
          return None;
        }
        return Some(out + IntegerBytes(u));
      case Float(bits) => return Some(out + ([0xCB] + BigEndian(bits, 8)));
      case Arr(items) => r := AppendArray(out, items);
      case Map(entries) => r := AppendMap(out, entries);
    }
  }

  // appendArray
  method AppendArray(out: Data, items: seq<Node>) returns (r: Option<Data>)
    ensures r == Appended(out, Joined(ArrayHeader(|items|), EncodeItems(items)))
    decreases items, 1
  {
    var header := ArrayHeader(|items|);
    if header.None? {
      return None;
    }
    var acc := out + header.value;
    for i := 0 to |items|
      invariant Appended(acc, EncodeItems(items[i..])) == Appended(out + header.value, EncodeItems(items))
    {
      assert items[i..][0] == items[i] && items[i..][1..] == items[i + 1..];
      var next := AppendValue(acc, items[i]);
      if next.None? {
        return None;
      }
      JoinedIsAssociative(Some(acc), Encode(items[i]), EncodeItems(items[i + 1..]));
      acc := next.value;
    }
    JoinedIsAssociative(Some(out), header, EncodeItems(items));
    assert acc + [] == acc;
    return Some(acc);
  }

  // appendMap, over the map's entries in the order the runtime chose
  method AppendMap(out: Data, entries: seq<Entry>) returns (r: Option<Data>)
    ensures r == Appended(out, Joined(MapHeader(|entries|), EncodeEntries(entries)))
    decreases entries, 1
  {
    var header := MapHeader(|entries|);
    if header.None? {
      return None;
    }
    var acc := out + header.value;
    for i := 0 to |entries|
      invariant Appended(acc, EncodeEntries(entries[i..])) == Appended(out + header.value, EncodeEntries(entries))
    {
      assert entries[i..][0] == entries[i] && entries[i..][1..] == entries[i + 1..];
      assert (entries decreases to entries[i]);
      var keyed := AppendValue(acc, entries[i].key);
      if keyed.None? {
        return None;
      }
      JoinedIsAssociative(Some(acc), Encode(entries[i].key), Encode(entries[i].value));
      var next := AppendValue(keyed.value, entries[i].value);
      if next.None? {
        return None;
      }
      JoinedIsAssociative(Some(acc), Joined(Encode(entries[i].key), Encode(entries[i].value)),
                          EncodeEntries(entries[i + 1..]));
      acc := next.value;
    }
    JoinedIsAssociative(Some(out), header, EncodeEntries(entries));
    assert acc + [] == acc;
    return Some(acc);
  }

  // ---------------------------------------------------------------- decoding

  // decodeLength
  function TakeLength(payload: Data, width: nat): (f: Field)
    ensures f.Field? ==> |f.rest| + width == |payload|
  {
    var f := TakeUnsigned(payload, width);
    if f.Field? && f.value > MAX_INT then NoField else f
  }

  function TakeBinary(payload: Data, width: nat): (p: Parsed)
    ensures p.Good? ==> |p.rest| <= |payload| && p.node.Bin?
  {
    var f := TakeLength(payload, width);
    if f.NoField? || |f.rest| < f.value then Bad
    else Good(Bin(f.rest[..f.value]), f.rest[f.value..])
  }

  // The tree decodeValue finds at the front of a payload, before maps collapse.
  // `widen` takes a single-precision pattern to the double Go returns for it.
  function Parse(widen: uint32 -> uint64, payload: Data, depth: nat): (p: Parsed)
    ensures p.Good? ==> |p.rest| < |payload|
    decreases |payload|, 0
  {
    if depth > MAX_DEPTH || payload == [] then Bad else
      var tag: int, rest := payload[0], payload[1..];
      if tag <= 0x7F then Good(UInt(tag), rest)
      else if tag >= 0xE0 then Good(Int(tag - 0x100), rest)
      else if tag < 0x90 then ParseMap(widen, rest, tag - 0x80, depth + 1)
      else if tag < 0xA0 then ParseArray(widen, rest, tag - 0x90, depth + 1)
      else if tag < 0xC0 then TakeString(rest, tag - 0xA0)
      else if tag == 0xC0 then Good(Nil, rest)
      else if tag == 0xC2 then Good(Bool(false), rest)
      else if tag == 0xC3 then Good(Bool(true), rest)
      else if tag == 0xC4 then TakeBinary(rest, 1)
      else if tag == 0xC5 then TakeBinary(rest, 2)
      else if tag == 0xCA then
        var f := TakeUnsigned(rest, 4);
        if f.NoField? then Bad else
          Powers();
          FieldBound(rest[..4]);
          Good(Float(widen(f.value)), f.rest)
      else if tag == 0xCB then
        var f := TakeUnsigned(rest, 8);
        if f.NoField? then Bad else
          Powers();
          FieldBound(rest[..8]);
          Good(Float(f.value), f.rest)
      else if 0xCC <= tag <= 0xCF then TakeUInt(rest, Width(tag - 0xCC))
      else if 0xD0 <= tag <= 0xD3 then TakeInt(rest, Width(tag - 0xD0))
      else if 0xD9 <= tag <= 0xDB then
        var f := TakeLength(rest, Width(tag - 0xD9));
        if f.NoField? then Bad else TakeString(f.rest, f.value)
      else if tag == 0xDC || tag == 0xDD then
        var f := TakeLength(rest, if tag == 0xDD then 4 else 2);
        if f.NoField? then Bad else ParseArray(widen, f.rest, f.value, depth + 1)
      else if tag == 0xDE || tag == 0xDF then
        var f := TakeLength(rest, if tag == 0xDF then 4 else 2);
        if f.NoField? then Bad else ParseMap(widen, f.rest, f.value, depth + 1)
      else Bad
  }

  function ParseArray(widen: uint32 -> uint64, payload: Data, length: nat, depth: nat): (p: Parsed)
    ensures p.Good? ==> |p.rest| <= |payload|
    decreases |payload|, 2
  {
    if length > MAX_ELEMENTS || length > |payload| then Bad
    else
      match ParseItems(widen, payload, length, depth)
      case BadItems => Bad
      case GoodItems(items, rest) => Good(Arr(items), rest)
  }

  function ParseItems(widen: uint32 -> uint64, payload: Data, n: nat, depth: nat): (p: ParsedItems)
    ensures p.GoodItems? ==> |p.rest| <= |payload| && |p.items| == n
    decreases |payload|, 1
  {
    if n == 0 then GoodItems([], payload) else
      match Parse(widen, payload, depth)
      case Bad => BadItems
      case Good(first, remainder) =>
        match ParseItems(widen, remainder, n - 1, depth)
        case BadItems => BadItems
        case GoodItems(items, rest) => GoodItems([first] + items, rest)
  }

  function ParseMap(widen: uint32 -> uint64, payload: Data, length: nat, depth: nat): (p: Parsed)
    ensures p.Good? ==> |p.rest| <= |payload|
    decreases |payload|, 2
  {
    if length > MAX_ELEMENTS || length > |payload| / 2 then Bad
    else
      match ParseEntries(widen, payload, length, depth)
      case BadEntries => Bad
      case GoodEntries(entries, rest) => Good(Map(entries), rest)
  }

  function ParseEntries(widen: uint32 -> uint64, payload: Data, n: nat, depth: nat): (p: ParsedEntries)
    ensures p.GoodEntries? ==> |p.rest| <= |payload| && |p.entries| == n
    decreases |payload|, 1
  {
    if n == 0 then GoodEntries([], payload) else
      match Parse(widen, payload, depth)
      case Bad => BadEntries
      case Good(key, remainder) =>
        match Parse(widen, remainder, depth)
        case Bad => BadEntries
        case Good(value, next) =>
          match ParseEntries(widen, next, n - 1, depth)
          case BadEntries => BadEntries
          case GoodEntries(entries, rest) => GoodEntries([Entry(key, value)] + entries, rest)
  }

  // --------------------------------------------------- the decoder's own loops

  datatype Decoded = Failed | Decoded(value: Value, rest: Data)

  // What the decoder returns for what it parses.
  function Delivered(sprint: Value -> Data, p: Parsed): Decoded {
    match p
    case Bad => Failed
    case Good(node, rest) => Decoded(Collapse(sprint, node), rest)
  }

  // decodeUnsigned: the widths in use never overflow the accumulator.
  method DecodeUnsigned(payload: Data, width: nat) returns (f: Field)
    requires width <= 8
    ensures f == TakeUnsigned(payload, width)
    ensures f.Field? ==> f.value < Pow256(8)
  {
    if |payload| < width {
      return NoField;
    }
    var value: nat := 0;
    for i := 0 to width
      invariant value == FromBigEndian(payload[..i])
    {
      assert payload[..i + 1][..i] == payload[..i];
      var part: int := payload[i];
      value := value * 0x100 + part;
    }
    FieldBound(payload[..width]);
    PowersGrow(width, 8);
    return Field(value, payload[width..]);
  }

  // decodeValue
  method DecodeValue(widen: uint32 -> uint64, sprint: Value -> Data, payload: Data, depth: nat) returns (d: Decoded)
    ensures d == Delivered(sprint, Parse(widen, payload, depth))
    decreases |payload|, 0
  {
    hide ParseItems, ParseEntries, ParseArray, ParseMap, FromBigEndian, CollapseItems, CollapseEntries, Pow256;
    if depth > MAX_DEPTH || payload == [] {
      return Failed;
    }
    var tag: int, rest := payload[0], payload[1..];
    if tag <= 0x7F {
      return Decoded(VUInt(tag), rest);
    } else if tag >= 0xE0 {
      return Decoded(VInt(tag - 0x100), rest);
    } else if tag < 0x90 {
      d := DecodeMap(widen, sprint, rest, tag - 0x80, depth + 1);
      return;
    } else if tag < 0xA0 {
      d := DecodeArray(widen, sprint, rest, tag - 0x90, depth + 1);
      return;
    } else if tag < 0xC0 {
      return Delivered(sprint, TakeString(rest, tag - 0xA0));
    }
    match tag {
      case 0xC0 => return Decoded(VNil, rest);
      case 0xC2 => return Decoded(VBool(false), rest);
      case 0xC3 => return Decoded(VBool(true), rest);
      case 0xC4 => return Delivered(sprint, TakeBinary(rest, 1));
      case 0xC5 => return Delivered(sprint, TakeBinary(rest, 2));
      case 0xCA =>
        var f := DecodeUnsigned(rest, 4);
        if f.NoField? {
          return Failed;
        }
        Powers();
        FieldBound(rest[..4]);
        return Decoded(VFloat(widen(f.value)), f.rest);
      case 0xCB =>
        var f := DecodeUnsigned(rest, 8);
        if f.NoField? {
          return Failed;
        }
        Powers();
        return Decoded(VFloat(f.value), f.rest);
      case _ =>
    }
    if 0xCC <= tag <= 0xCF {
      var f := DecodeUnsigned(rest, Width(tag - 0xCC));
      if f.NoField? {
        return Failed;
      }
      Powers();
      return Decoded(VUInt(f.value), f.rest);
    } else if 0xD0 <= tag <= 0xD3 {
      var width := Width(tag - 0xD0);
      var f := DecodeUnsigned(rest, width);
      if f.NoField? {
        return Failed;
      }
      Powers();
      FieldBound(rest[..width]);
      return Decoded(VInt(Signed(f.value, width)), f.rest);
    } else if 0xD9 <= tag <= 0xDB {
      var f := DecodeUnsigned(rest, Width(tag - 0xD9));
      if f.NoField? || f.value > MAX_INT {
        return Failed;
      }
      return Delivered(sprint, TakeString(f.rest, f.value));
    } else if tag == 0xDC || tag == 0xDD {
      var f := DecodeUnsigned(rest, if tag == 0xDD then 4 else 2);
      if f.NoField? || f.value > MAX_INT {
        return Failed;
      }
      d := DecodeArray(widen, sprint, f.rest, f.value, depth + 1);
    } else if tag == 0xDE || tag == 0xDF {
      var f := DecodeUnsigned(rest, if tag == 0xDF then 4 else 2);
      if f.NoField? || f.value > MAX_INT {
        return Failed;
      }
      d := DecodeMap(widen, sprint, f.rest, f.value, depth + 1);
    } else {
      return Failed;
    }
  }

  // decodeArray
  method DecodeArray(widen: uint32 -> uint64, sprint: Value -> Data, payload: Data, length: nat, depth: nat)
    returns (d: Decoded)
    ensures d == Delivered(sprint, ParseArray(widen, payload, length, depth))
    decreases |payload|, 2
  {
    hide Parse, CollapseItems;
    if length > MAX_ELEMENTS || length > |payload| {
      return Failed;
    }
    var values: seq<Value>, rest := [], payload;
    ghost var done: seq<Node> := [];
    for index := 0 to length
      invariant |rest| <= |payload|
      invariant values == CollapseItems(sprint, done)
      invariant ParseItems(widen, payload, length, depth)
             == PrependItems(done, ParseItems(widen, rest, length - index, depth))
    {
      ghost var first := Parse(widen, rest, depth);
      var element := DecodeValue(widen, sprint, rest, depth);
      if element.Failed? {
        return Failed;
      }
      ItemCollected(sprint, done, first.node, ParseItems(widen, element.rest, length - index - 1, depth));
      done := done + [first.node];
      values := values + [element.value];
      rest := element.rest;
    }
    assert done + [] == done;
    return Decoded(VArr(values), rest);
  }

  // decodeMap
  method DecodeMap(widen: uint32 -> uint64, sprint: Value -> Data, payload: Data, length: nat, depth: nat)
    returns (d: Decoded)
    ensures d == Delivered(sprint, ParseMap(widen, payload, length, depth))
    decreases |payload|, 2
  {
    hide Parse, Collapse;
    if length > MAX_ELEMENTS || length > |payload| / 2 {
      return Failed;
    }
    var values: map<Data, Value>, rest := map[], payload;
    ghost var done: seq<Entry> := [];
    for index := 0 to length
      invariant |rest| <= |payload|
      invariant values == CollapseEntries(sprint, done)
      invariant ParseEntries(widen, payload, length, depth)
             == PrependEntries(done, ParseEntries(widen, rest, length - index, depth))
    {
      ghost var first := Parse(widen, rest, depth);
      var key := DecodeValue(widen, sprint, rest, depth);
      if key.Failed? {
        return Failed;
      }
      ghost var second := Parse(widen, key.rest, depth);
      var value := DecodeValue(widen, sprint, key.rest, depth);
      if value.Failed? {
        return Failed;
      }
      ghost var entry := Entry(first.node, second.node);
      EntryCollected(sprint, done, entry, ParseEntries(widen, value.rest, length - index - 1, depth));
      done := done + [entry];
      values := values[sprint(key.value) := value.value];
      rest := value.rest;
    }
    MapCollapse(sprint, done);
    assert done + [] == done;
    return Decoded(VMap(values), rest);
  }

  // decodeMessagePack
  method DecodeMessagePack(widen: uint32 -> uint64, sprint: Value -> Data, payload: Data) returns (value: Option<Value>)
    ensures value == match Parse(widen, payload, 0)
                     case Bad => None
                     case Good(node, rest) => if rest == [] then Some(Collapse(sprint, node)) else None
  {
    var d := DecodeValue(widen, sprint, payload, 0);
    if d.Failed? || |d.rest| != 0 {
      return None;
    }
    return Some(d.value);
  }
}
