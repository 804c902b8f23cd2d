/**
 The cursor codec round trip, what decoding costs, and canonicalisation:
 re-encoding whatever was accepted never grows and decodes to the same value.
 */
module CodecCanonical {
  import opened Bytes
  import opened MessagePack
  import opened CodecLaws
  import Slice = SliceCodec
  import Cursor = CursorCodec

  // -------------------------------------------------------- cursor round trip

  // p is the tree and its remainder if it fits; otherwise it is not the tree.
  ghost predicate Returns(p: Parsed, fits: bool, n: Node, rest: Data) {
    if fits then p == Good(n, rest) else !(p.Good? && p.node == n)
  }

  ghost predicate ReturnsItems(p: ParsedItems, fits: bool, items: seq<Node>, rest: Data) {
    if fits then p == GoodItems(items, rest) else !(p.GoodItems? && p.items == items)
  }

  ghost predicate ReturnsEntries(p: ParsedEntries, fits: bool, entries: seq<Entry>, rest: Data) {
    if fits then p == GoodEntries(entries, rest) else !(p.GoodEntries? && p.entries == entries)
  }

  lemma NotEmpty(whole: uint64 -> Option<int>, n: Node)
    requires Cursor.Encode(whole, n).Some?
    ensures |Cursor.Encode(whole, n).value| >= 1
  {
  }

  lemma {:induction false} ItemsAreLong(whole: uint64 -> Option<int>, items: seq<Node>)
    requires Cursor.EncodeItems(whole, items).Some?
    ensures |Cursor.EncodeItems(whole, items).value| >= |items|
  {
    if items != [] {
      ItemsAreLong(whole, items[1..]);
      NotEmpty(whole, items[0]);
    }
  }

  lemma {:induction false} EntriesAreLong(whole: uint64 -> Option<int>, entries: seq<Entry>)
    requires Cursor.EncodeEntries(whole, entries).Some?
    ensures |Cursor.EncodeEntries(whole, entries).value| >= 2 * |entries|
  {
    if entries != [] {
      EntriesAreLong(whole, entries[1..]);
      NotEmpty(whole, entries[0].key);
      NotEmpty(whole, entries[0].value);
    }
  }

  // A tree of shared types comes back iff it is within the limits; a list whose
  // length was truncated on the way out never does.
  lemma {:induction false} PlainRoundTrip(whole: uint64 -> Option<int>, n: Node, rest: Data, depth: nat)
    requires GoValue(n) && Plain(n) && Cursor.Encode(whole, n).Some?
    ensures Returns(Cursor.Parse(Cursor.Encode(whole, n).value + rest, depth), Fits(n, depth), Norm(n), rest)
    decreases n, 0
  {
    hide Cursor.Parse, Cursor.UnsignedBytes, Cursor.StringHeader, Cursor.EncodeItems, Cursor.EncodeEntries,
         FitsItems, FitsEntries, NormItems, NormEntries, GoItems, GoEntries, PlainItems, PlainEntries;
    if depth > MAX_DEPTH {
      TooDeep(Cursor.Encode(whole, n).value + rest, depth);
    } else {
      match n
      case Nil => TokenParses(0xC0, rest, depth);
      case Bool(b) => TokenParses(if b then 0xC3 else 0xC2, rest, depth);
      case UInt(u) => UnsignedParses(u, rest, depth);
      case Int(i) =>
        if i >= 0 {
          UnsignedParses(i, rest, depth);
        } else {
          NegativeParses(i, rest, depth);
        }
      case Str(text) => StringParses(text, rest, depth);
      case Arr(items) => CursorArrayRoundTrip(whole, items, rest, depth);
      case Map(entries) => CursorMapRoundTrip(whole, entries, rest, depth);
    }
  }

  // What the cursor encoder sends of a tree: a whole double goes out as an integer.
  function Carried(whole: uint64 -> Option<int>, n: Node): Node
    decreases n
  {
    match n
    case Float(bits) =>
      var integer := whole(bits);
      if integer.None? || integer.value < -Cursor.EXACT_INTEGER_LIMIT || integer.value > Cursor.EXACT_INTEGER_LIMIT
      then n
      else Int(integer.value)
    case Arr(items) => Arr(CarriedItems(whole, items))
    case Map(entries) => Map(CarriedEntries(whole, entries))
    case _ => n
  }

  function CarriedItems(whole: uint64 -> Option<int>, items: seq<Node>): (r: seq<Node>)
    ensures |r| == |items|
    decreases items
  {
    if items == [] then [] else [Carried(whole, items[0])] + CarriedItems(whole, items[1..])
  }

  function CarriedEntries(whole: uint64 -> Option<int>, entries: seq<Entry>): (r: seq<Entry>)
    ensures |r| == |entries|
    decreases entries
  {
    assert entries != [] ==> (entries decreases to entries[0]);
    if entries == [] then []
    else
      [Entry(Carried(whole, entries[0].key), Carried(whole, entries[0].value))] + CarriedEntries(whole, entries[1..])
  }

  // The tree sent is of shared types, encodes alike and is as large and as deep.
  ghost predicate Carries(whole: uint64 -> Option<int>, n: Node, sent: Node) {
    && Plain(sent) && GoValue(sent) && Cursor.Encode(whole, sent) == Cursor.Encode(whole, n)
    && forall depth :: Fits(sent, depth) == Fits(n, depth)
  }

  lemma {:induction false} DoublesTravelAsIntegers(whole: uint64 -> Option<int>, n: Node)
    requires GoValue(n) && Cursor.Encode(whole, n).Some?
    ensures Carries(whole, n, Carried(whole, n))
    decreases n, 0
  {
    hide Cursor.IntegerBytes, Cursor.UnsignedBytes, Cursor.StringHeader, Cursor.ArrayHeader, Cursor.MapHeader;
    match n
    case Arr(items) =>
      hide FitsItems, Cursor.EncodeItems, CarriedItems, PlainItems, GoItems;
      ItemsTravel(whole, items);
      var sent := CarriedItems(whole, items);
      assert Plain(Arr(sent)) && GoValue(Arr(sent));
      assert Cursor.Encode(whole, Arr(sent)) == Cursor.Encode(whole, n);
      forall depth ensures Fits(Arr(sent), depth) == Fits(n, depth) {
      }
    case Map(entries) =>
      hide FitsEntries, Cursor.EncodeEntries, CarriedEntries, PlainEntries, GoEntries;
      EntriesTravel(whole, entries);
      var sent := CarriedEntries(whole, entries);
      assert Plain(Map(sent)) && GoValue(Map(sent));
      assert Cursor.Encode(whole, Map(sent)) == Cursor.Encode(whole, n);
      forall depth ensures Fits(Map(sent), depth) == Fits(n, depth) {
      }
    case _ =>
  }

  lemma {:induction false} ItemsTravel(whole: uint64 -> Option<int>, items: seq<Node>)
    requires GoItems(items) && Cursor.EncodeItems(whole, items).Some?
    ensures var sent := CarriedItems(whole, items);
            && PlainItems(sent) && GoItems(sent)
            && Cursor.EncodeItems(whole, sent) == Cursor.EncodeItems(whole, items)
            && forall depth :: FitsItems(sent, depth) == FitsItems(items, depth)
    decreases items, 0
  {
    hide Cursor.Encode, Fits, Plain, GoValue, Carried;
    if items != [] {
      DoublesTravelAsIntegers(whole, items[0]);
      ItemsTravel(whole, items[1..]);
      var sent := CarriedItems(whole, items);
      assert sent[0] == Carried(whole, items[0]) && sent[1..] == CarriedItems(whole, items[1..]);
    }
  }

  lemma {:induction false} EntriesTravel(whole: uint64 -> Option<int>, entries: seq<Entry>)
    requires GoEntries(entries) && Cursor.EncodeEntries(whole, entries).Some?
    ensures var sent := CarriedEntries(whole, entries);
            && PlainEntries(sent) && GoEntries(sent)
            && Cursor.EncodeEntries(whole, sent) == Cursor.EncodeEntries(whole, entries)
            && forall depth :: FitsEntries(sent, depth) == FitsEntries(entries, depth)
    decreases entries, 0
  {
    hide Cursor.Encode, Fits, Plain, GoValue;
    if entries != [] {
      assert (entries decreases to entries[0]);
      DoublesTravelAsIntegers(whole, entries[0].key);
      DoublesTravelAsIntegers(whole, entries[0].value);
      EntriesTravel(whole, entries[1..]);
      var sent := CarriedEntries(whole, entries);
      assert sent[0] == Entry(Carried(whole, entries[0].key), Carried(whole, entries[0].value));
      assert sent[1..] == CarriedEntries(whole, entries[1..]);
    }
  }

  // Whatever the cursor encoder accepts comes back, whole doubles as integers and
  // integers retagged by sign, iff the tree is within the limits.
  lemma CursorRoundTrip(whole: uint64 -> Option<int>, n: Node, rest: Data, depth: nat)
    requires GoValue(n) && Cursor.Encode(whole, n).Some?
    ensures Returns(Cursor.Parse(Cursor.Encode(whole, n).value + rest, depth),
                    Fits(n, depth), Norm(Carried(whole, n)), rest)
  {
    hide Cursor.Encode, Cursor.Parse, Fits, Norm, Carried, GoValue, Plain;
    DoublesTravelAsIntegers(whole, n);
    PlainRoundTrip(whole, Carried(whole, n), rest, depth);
  }

  lemma TooDeep(payload: Data, depth: nat)
    requires depth > MAX_DEPTH
    ensures Cursor.Parse(payload, depth) == Bad
  {
  }

  lemma TokenParses(tag: byte, rest: Data, depth: nat)
    requires depth <= MAX_DEPTH && (tag == 0xC0 || tag == 0xC2 || tag == 0xC3)
    ensures Cursor.Parse([tag] + rest, depth) == Good(if tag == 0xC0 then Nil else Bool(tag == 0xC3), rest)
  {
    Tagged(tag, [], rest);
  }

  // A different announced length cannot yield the list that was written.
  lemma OtherLength(payload: Data, length: nat, depth: nat)
    ensures Cursor.ParseArray(payload, length, depth).Good? ==>
              var n := Cursor.ParseArray(payload, length, depth).node; n.Arr? && |n.items| == length
    ensures Cursor.ParseMap(payload, length, depth).Good? ==>
              var n := Cursor.ParseMap(payload, length, depth).node; n.Map? && |n.entries| == length
  {
  }

  lemma {:induction false} CursorArrayRoundTrip(whole: uint64 -> Option<int>, items: seq<Node>, rest: Data, depth: nat)
    requires depth <= MAX_DEPTH && GoItems(items) && PlainItems(items) && Cursor.Encode(whole, Arr(items)).Some?
    ensures Returns(Cursor.Parse(Cursor.Encode(whole, Arr(items)).value + rest, depth), Fits(Arr(items), depth),
                    Norm(Arr(items)), rest)
    decreases items, 1
  {
    hide Cursor.Parse, Cursor.EncodeItems, FitsItems, NormItems, GoItems, PlainItems, Cursor.ArrayHeader;
    var header, body := Cursor.ArrayHeader(|items|), Cursor.EncodeItems(whole, items).value;
    assert header + body + rest == header + (body + rest);
    ArrayHeaderParses(|items|, body + rest, depth);
    ItemsAreLong(whole, items);
    if |items| <= 0xFFFF {
      CursorItemsRoundTrip(whole, items, rest, depth + 1);
    } else {
      OtherLength(body + rest, |items| % 0x1_0000, depth + 1);
    }
  }

  lemma {:induction false} CursorItemsRoundTrip(whole: uint64 -> Option<int>, items: seq<Node>, rest: Data, depth: nat)
    requires GoItems(items) && PlainItems(items) && Cursor.EncodeItems(whole, items).Some?
    ensures ReturnsItems(Cursor.ParseItems(Cursor.EncodeItems(whole, items).value + rest, |items|, depth),
                         FitsItems(items, depth), NormItems(items), rest)
    decreases items, 0
  {
    hide Cursor.Parse, Cursor.Encode, Fits, Norm, GoValue, Plain;
    if items == [] {
      assert [] + rest == rest;
    } else {
      var first, others := Cursor.Encode(whole, items[0]).value, Cursor.EncodeItems(whole, items[1..]).value;
      assert first + others + rest == first + (others + rest);
      PlainRoundTrip(whole, items[0], others + rest, depth);
      CursorItemsRoundTrip(whole, items[1..], rest, depth);
      var p := Cursor.ParseItems(first + (others + rest), |items|, depth);
      if p.GoodItems? {
        assert NormItems(items)[0] == Norm(items[0]) && NormItems(items)[1..] == NormItems(items[1..]);
        assert p.items[0] == Cursor.Parse(first + (others + rest), depth).node;
        assert p.items == [p.items[0]] + p.items[1..];
      }
    }
  }

  lemma {:induction false} CursorMapRoundTrip(whole: uint64 -> Option<int>, entries: seq<Entry>, rest: Data, depth: nat)
    requires depth <= MAX_DEPTH && GoEntries(entries) && PlainEntries(entries)
            && Cursor.Encode(whole, Map(entries)).Some?
    ensures Returns(Cursor.Parse(Cursor.Encode(whole, Map(entries)).value + rest, depth), Fits(Map(entries), depth),
                    Norm(Map(entries)), rest)
    decreases entries, 1
  {
    hide Cursor.Parse, Cursor.EncodeEntries, FitsEntries, NormEntries, GoEntries, PlainEntries, Cursor.MapHeader;
    var header, body := Cursor.MapHeader(|entries|), Cursor.EncodeEntries(whole, entries).value;
    assert header + body + rest == header + (body + rest);
    MapHeaderParses(|entries|, body + rest, depth);
    EntriesAreLong(whole, entries);
    if |entries| <= 0xFFFF {
      CursorEntriesRoundTrip(whole, entries, rest, depth + 1);
    } else {
      OtherLength(body + rest, |entries| % 0x1_0000, depth + 1);
    }
  }

  lemma {:induction false} CursorEntriesRoundTrip(whole: uint64 -> Option<int>, entries: seq<Entry>, rest: Data,
                                                  depth: nat)
    requires GoEntries(entries) && PlainEntries(entries) && Cursor.EncodeEntries(whole, entries).Some?
    ensures ReturnsEntries(Cursor.ParseEntries(Cursor.EncodeEntries(whole, entries).value + rest, |entries|, depth),
                           FitsEntries(entries, depth), NormEntries(entries), rest)
    decreases entries, 0
  {
    hide Cursor.Parse, Cursor.Encode, Fits, GoValue, Plain;
    if entries == [] {
      assert [] + rest == rest;
    } else {
      assert (entries decreases to entries[0]);
      var key, value := Cursor.Encode(whole, entries[0].key).value, Cursor.Encode(whole, entries[0].value).value;
      var others := Cursor.EncodeEntries(whole, entries[1..]).value;
      var payload := key + (value + (others + rest));
      assert key + value + others + rest == payload;
      StringIsPlain(entries[0].key);
      PlainRoundTrip(whole, entries[0].key, value + (others + rest), depth);
      PlainRoundTrip(whole, entries[0].value, others + rest, depth);
      CursorEntriesRoundTrip(whole, entries[1..], rest, depth);
      var p := Cursor.ParseEntries(payload, |entries|, depth);
      if p.GoodEntries? {
        var normed := NormEntries(entries);
        assert normed[0] == Entry(Norm(entries[0].key), Norm(entries[0].value))
            && normed[1..] == NormEntries(entries[1..]);
        assert p.entries[0].key == Cursor.Parse(payload, depth).node;
        assert p.entries == [p.entries[0]] + p.entries[1..];
      }
    }
  }

  lemma StringIsPlain(n: Node)
    requires n.Str?
    ensures Plain(n)
  {
  }

  // ---------------------------------------------------------- cost of decoding

  ghost predicate Consumed(payload: Data, rest: Data, nodes: nat) {
    |rest| + nodes <= |payload| && rest == payload[|payload| - |rest|..]
  }

  // Decoding builds no more values than the bytes it consumes, and the
  // remainder it returns is the unread end of the payload.
  lemma {:induction false} SliceConsumes(widen: uint32 -> uint64, payload: Data, depth: nat)
    requires Slice.Parse(widen, payload, depth).Good?
    ensures var p := Slice.Parse(widen, payload, depth); Consumed(payload, p.rest, Nodes(p.node))
    decreases |payload|, 0
  {
    hide Slice.Parse, Consumed, Nodes;
    SliceNonEmpty(widen, payload, depth);
    var tag: int := payload[0];
    if 0x80 <= tag < 0xA0 || 0xDC <= tag <= 0xDF {
      var c := Container(widen, payload, depth);
      if c.isMap {
        SliceMapConsumes(widen, c.body, c.length, depth + 1);
      } else {
        SliceArrayConsumes(widen, c.body, c.length, depth + 1);
      }
      AfterTag(payload, c.body, Slice.Parse(widen, payload, depth));
    } else {
      SliceScalarConsumes(widen, payload, depth);
    }
  }

  lemma SliceNonEmpty(widen: uint32 -> uint64, payload: Data, depth: nat)
    requires Slice.Parse(widen, payload, depth).Good?
    ensures payload != []
  {
  }

  datatype Header = Header(isMap: bool, length: nat, body: Data)

  // The container header at the front of an accepted payload.
  lemma Container(widen: uint32 -> uint64, payload: Data, depth: nat) returns (c: Header)
    requires Slice.Parse(widen, payload, depth).Good? && payload != []
    requires 0x80 <= payload[0] < 0xA0 || 0xDC <= payload[0] <= 0xDF
    ensures |c.body| < |payload| && Consumed(payload[1..], c.body, 0)
    ensures Slice.Parse(widen, payload, depth)
         == if c.isMap then Slice.ParseMap(widen, c.body, c.length, depth + 1)
            else Slice.ParseArray(widen, c.body, c.length, depth + 1)
  {
    hide FromBigEndian, Slice.ParseArray, Slice.ParseMap, TakeUnsigned, Slice.TakeLength;
    var tag: int, rest := payload[0], payload[1..];
    if tag < 0x90 {
      c := Header(true, tag - 0x80, rest);
    } else if tag < 0xA0 {
      c := Header(false, tag - 0x90, rest);
    } else {
      var width := if tag == 0xDD || tag == 0xDF then 4 else 2;
      LengthConsumes(rest, width);
      c := Header(tag >= 0xDE, Slice.TakeLength(rest, width).value, Slice.TakeLength(rest, width).rest);
    }
  }

  lemma LengthConsumes(payload: Data, width: nat)
    requires Slice.TakeLength(payload, width).Field?
    ensures Consumed(payload, Slice.TakeLength(payload, width).rest, 0)
  {
  }

  lemma AfterTag(payload: Data, body: Data, p: Parsed)
    requires payload != [] && (body == payload[1..] || Consumed(payload[1..], body, 0))
    requires p.Good? && Consumed(body, p.rest, Nodes(p.node) - 1)
    ensures Consumed(payload, p.rest, Nodes(p.node))
  {
  }

  lemma SliceScalarConsumes(widen: uint32 -> uint64, payload: Data, depth: nat)
    requires Slice.Parse(widen, payload, depth).Good?
    requires !(0x80 <= payload[0] < 0xA0) && !(0xDC <= payload[0] <= 0xDF)
    ensures var p := Slice.Parse(widen, payload, depth); Consumed(payload, p.rest, Nodes(p.node))
  {
    hide FromBigEndian, Slice.ParseArray, Slice.ParseMap, Pow256, TakeUInt, TakeInt, TakeString, TakeUnsigned,
         Slice.TakeBinary, Slice.TakeLength, Consumed;
    var tag: int, rest := payload[0], payload[1..];
    if 0xA0 <= tag < 0xC0 {
      FieldsConsume(rest, 0, tag - 0xA0);
    } else if tag == 0xC4 || tag == 0xC5 {
      FieldsConsume(rest, tag - 0xC3, 0);
    } else if tag == 0xCA || tag == 0xCB {
      FieldsConsume(rest, if tag == 0xCA then 4 else 8, 0);
    } else if 0xCC <= tag <= 0xCF {
      FieldsConsume(rest, Width(tag - 0xCC), 0);
    } else if 0xD0 <= tag <= 0xD3 {
      FieldsConsume(rest, Width(tag - 0xD0), 0);
    } else if 0xD9 <= tag <= 0xDB {
      var width := Width(tag - 0xD9);
      FieldsConsume(rest, width, 0);
      var f := Slice.TakeLength(rest, width);
      FieldsConsume(f.rest, 0, f.value);
      AfterTag(payload, f.rest, Slice.Parse(widen, payload, depth));
      return;
    } else {
      NothingConsumed(rest);
    }
    AfterTag(payload, rest, Slice.Parse(widen, payload, depth));
  }

  lemma NothingConsumed(payload: Data)
    ensures Consumed(payload, payload, 0)
  {
  }

  lemma FieldsConsume(payload: Data, width: nat, length: nat)
    ensures TakeUnsigned(payload, width).Field? ==> Consumed(payload, TakeUnsigned(payload, width).rest, 0)
    ensures Slice.TakeLength(payload, width).Field? ==> Consumed(payload, Slice.TakeLength(payload, width).rest, 0)
    ensures TakeString(payload, length).Good? ==> Consumed(payload, TakeString(payload, length).rest, 0)
    ensures Slice.TakeBinary(payload, width).Good? ==> Consumed(payload, Slice.TakeBinary(payload, width).rest, 0)
    ensures IsWidth(width) && TakeUInt(payload, width).Good? ==> Consumed(payload, TakeUInt(payload, width).rest, 0)
    ensures IsWidth(width) && TakeInt(payload, width).Good? ==> Consumed(payload, TakeInt(payload, width).rest, 0)
  {
    hide FromBigEndian, Signed;
  }

  lemma {:induction false} SliceArrayConsumes(widen: uint32 -> uint64, payload: Data, length: nat, depth: nat)
    requires Slice.ParseArray(widen, payload, length, depth).Good?
    ensures var p := Slice.ParseArray(widen, payload, length, depth); Consumed(payload, p.rest, Nodes(p.node) - 1)
    decreases |payload|, 2
  {
    SliceItemsConsume(widen, payload, length, depth);
  }

  lemma {:induction false} SliceItemsConsume(widen: uint32 -> uint64, payload: Data, n: nat, depth: nat)
    requires Slice.ParseItems(widen, payload, n, depth).GoodItems?
    ensures var p := Slice.ParseItems(widen, payload, n, depth); Consumed(payload, p.rest, NodesOfItems(p.items))
    decreases |payload|, 1
  {
    hide Slice.Parse, Nodes;
    if n != 0 {
      SliceConsumes(widen, payload, depth);
      var first := Slice.Parse(widen, payload, depth);
      SliceItemsConsume(widen, first.rest, n - 1, depth);
      var p := Slice.ParseItems(widen, payload, n, depth);
      assert p.items[1..] == Slice.ParseItems(widen, first.rest, n - 1, depth).items;
    }
  }

  lemma {:induction false} SliceMapConsumes(widen: uint32 -> uint64, payload: Data, length: nat, depth: nat)
    requires Slice.ParseMap(widen, payload, length, depth).Good?
    ensures var p := Slice.ParseMap(widen, payload, length, depth); Consumed(payload, p.rest, Nodes(p.node) - 1)
    decreases |payload|, 2
  {
    SliceEntriesConsume(widen, payload, length, depth);
  }

  lemma {:induction false} SliceEntriesConsume(widen: uint32 -> uint64, payload: Data, n: nat, depth: nat)
    requires Slice.ParseEntries(widen, payload, n, depth).GoodEntries?
    ensures var p := Slice.ParseEntries(widen, payload, n, depth); Consumed(payload, p.rest, NodesOfEntries(p.entries))
    decreases |payload|, 1
  {
    hide Slice.Parse, Nodes;
    if n != 0 {
      SliceConsumes(widen, payload, depth);
      var key := Slice.Parse(widen, payload, depth);
      SliceConsumes(widen, key.rest, depth);
      var value := Slice.Parse(widen, key.rest, depth);
      SliceEntriesConsume(widen, value.rest, n - 1, depth);
      var p := Slice.ParseEntries(widen, payload, n, depth);
      assert p.entries[1..] == Slice.ParseEntries(widen, value.rest, n - 1, depth).entries;
    }
  }

  // ------------------------------------------- accepted trees, written again

  // An accepted tree is within the limits, and its own encoding is no longer
  // than the bytes it was read from.
  ghost predicate Compact(whole: uint64 -> Option<int>, payload: Data, rest: Data, n: Node, depth: nat) {
    && GoValue(n) && Plain(n) && Fits(n, depth)
    && Cursor.Encode(whole, n).Some? && |Cursor.Encode(whole, n).value| + |rest| <= |payload|
  }

  lemma {:induction false} AcceptedIsCompact(whole: uint64 -> Option<int>, payload: Data, depth: nat)
    requires Cursor.Parse(payload, depth).Good?
    ensures var p := Cursor.Parse(payload, depth); Compact(whole, payload, p.rest, p.node, depth)
    decreases |payload|, 0
  {
    hide FromBigEndian, Cursor.ParseArray, Cursor.ParseMap, Pow256, Compact, Cursor.Encode,
         TakeUInt, TakeInt, TakeString;
    var tag: int, rest := payload[0], payload[1..];
    if 0x80 <= tag < 0x90 {
      MapIsCompact(whole, payload, rest, tag - 0x80, depth);
    } else if 0x90 <= tag < 0xA0 {
      ArrayIsCompact(whole, payload, rest, tag - 0x90, depth);
    } else if tag == 0xDC || tag == 0xDD {
      var f := TakeUnsigned(rest, if tag == 0xDC then 2 else 4);
      ArrayIsCompact(whole, payload, f.rest, f.value, depth);
    } else if tag == 0xDE || tag == 0xDF {
      var f := TakeUnsigned(rest, if tag == 0xDE then 2 else 4);
      MapIsCompact(whole, payload, f.rest, f.value, depth);
    } else {
      ScalarIsCompact(whole, payload, depth);
    }
  }

  lemma UIntIsCompact(whole: uint64 -> Option<int>, payload: Data, width: nat, depth: nat)
    requires IsWidth(width) && payload != [] && depth <= MAX_DEPTH && TakeUInt(payload[1..], width).Good?
    ensures var p := TakeUInt(payload[1..], width); Compact(whole, payload, p.rest, p.node, depth)
  {
    hide FromBigEndian, BigEndian;
    Powers();
    FieldBound(payload[1..][..width]);
  }

  lemma IntIsCompact(whole: uint64 -> Option<int>, payload: Data, width: nat, depth: nat)
    requires IsWidth(width) && payload != [] && depth <= MAX_DEPTH && TakeInt(payload[1..], width).Good?
    ensures var p := TakeInt(payload[1..], width); Compact(whole, payload, p.rest, p.node, depth)
  {
    hide FromBigEndian, BigEndian;
    Powers();
    FieldBound(payload[1..][..width]);
  }

  // A string read with a header of `width` length bytes needs no longer one.
  lemma StringIsCompact(whole: uint64 -> Option<int>, payload: Data, width: nat, depth: nat)
    requires (width == 1 || width == 2 || width == 4) && payload != [] && depth <= MAX_DEPTH
    requires var f := TakeUnsigned(payload[1..], width); f.Field? && TakeString(f.rest, f.value).Good?
    ensures var f := TakeUnsigned(payload[1..], width);
            var p := TakeString(f.rest, f.value); Compact(whole, payload, p.rest, p.node, depth)
  {
    hide FromBigEndian, BigEndian;
    Powers();
    FieldBound(payload[1..][..width]);
  }

  lemma ScalarIsCompact(whole: uint64 -> Option<int>, payload: Data, depth: nat)
    requires Cursor.Parse(payload, depth).Good?
    requires !(0x80 <= payload[0] < 0xA0) && !(0xDC <= payload[0] <= 0xDF)
    ensures var p := Cursor.Parse(payload, depth); Compact(whole, payload, p.rest, p.node, depth)
  {
    hide FromBigEndian, Cursor.ParseArray, Cursor.ParseMap, Pow256, Compact, TakeUInt, TakeInt, TakeUnsigned;
    var tag: int, rest := payload[0], payload[1..];
    if 0xCC <= tag <= 0xCF {
      UIntIsCompact(whole, payload, Width(tag - 0xCC), depth);
    } else if 0xD0 <= tag <= 0xD3 {
      IntIsCompact(whole, payload, Width(tag - 0xD0), depth);
    } else if 0xD9 <= tag <= 0xDB {
      StringIsCompact(whole, payload, Width(tag - 0xD9), depth);
    } else {
      FixedIsCompact(whole, payload, depth);
    }
  }

  lemma FixedIsCompact(whole: uint64 -> Option<int>, payload: Data, depth: nat)
    requires Cursor.Parse(payload, depth).Good?
    requires payload[0] <= 0x7F || payload[0] >= 0xE0 || 0xA0 <= payload[0] <= 0xC3
    ensures var p := Cursor.Parse(payload, depth); Compact(whole, payload, p.rest, p.node, depth)
  {
    hide FromBigEndian, Cursor.ParseArray, Cursor.ParseMap, Pow256, TakeUInt, TakeInt, TakeUnsigned;
  }

  // `body` is what follows a container's header in `payload`.
  lemma {:induction false} ArrayIsCompact(whole: uint64 -> Option<int>, payload: Data, body: Data, length: nat,
                                          depth: nat)
    requires depth <= MAX_DEPTH && Cursor.ParseArray(body, length, depth + 1).Good?
    requires |body| + |Cursor.ArrayHeader(length)| <= |payload|
    ensures var p := Cursor.ParseArray(body, length, depth + 1); Compact(whole, payload, p.rest, p.node, depth)
    decreases |body|, 2
  {
    ItemsAreCompact(whole, body, length, depth + 1);
  }

  lemma {:induction false} ItemsAreCompact(whole: uint64 -> Option<int>, payload: Data, n: nat, depth: nat)
    requires Cursor.ParseItems(payload, n, depth).GoodItems?
    ensures var p := Cursor.ParseItems(payload, n, depth);
            && GoItems(p.items) && PlainItems(p.items) && FitsItems(p.items, depth)
            && Cursor.EncodeItems(whole, p.items).Some?
            && |Cursor.EncodeItems(whole, p.items).value| + |p.rest| <= |payload|
    decreases |payload|, 1
  {
    hide Cursor.Parse, Cursor.Encode, Fits, GoValue, Plain;
    if n != 0 {
      AcceptedIsCompact(whole, payload, depth);
      var first := Cursor.Parse(payload, depth);
      ItemsAreCompact(whole, first.rest, n - 1, depth);
      var p := Cursor.ParseItems(payload, n, depth);
      assert p.items[1..] == Cursor.ParseItems(first.rest, n - 1, depth).items;
    }
  }

  lemma {:induction false} MapIsCompact(whole: uint64 -> Option<int>, payload: Data, body: Data, length: nat,
                                        depth: nat)
    requires depth <= MAX_DEPTH && Cursor.ParseMap(body, length, depth + 1).Good?
    requires |body| + |Cursor.MapHeader(length)| <= |payload|
    ensures var p := Cursor.ParseMap(body, length, depth + 1); Compact(whole, payload, p.rest, p.node, depth)
    decreases |body|, 2
  {
    EntriesAreCompact(whole, body, length, depth + 1);
  }

  lemma {:induction false} EntriesAreCompact(whole: uint64 -> Option<int>, payload: Data, n: nat, depth: nat)
    requires Cursor.ParseEntries(payload, n, depth).GoodEntries?
    ensures var p := Cursor.ParseEntries(payload, n, depth);
            && GoEntries(p.entries) && PlainEntries(p.entries) && FitsEntries(p.entries, depth)
            && Cursor.EncodeEntries(whole, p.entries).Some?
            && |Cursor.EncodeEntries(whole, p.entries).value| + |p.rest| <= |payload|
    decreases |payload|, 1
  {
    hide Cursor.Parse, Cursor.Encode, Fits, GoValue, Plain;
    if n != 0 {
      AcceptedIsCompact(whole, payload, depth);
      var key := Cursor.Parse(payload, depth);
      AcceptedIsCompact(whole, key.rest, depth);
      var value := Cursor.Parse(key.rest, depth);
      EntriesAreCompact(whole, value.rest, n - 1, depth);
      var p := Cursor.ParseEntries(payload, n, depth);
      assert p.entries[1..] == Cursor.ParseEntries(value.rest, n - 1, depth).entries;
    }
  }
}
