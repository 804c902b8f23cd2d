/**
 What the two codecs owe each other and their callers: agreement of the
 decoders and of the encoders, and round trips with their exact limits.
 */
module CodecLaws {
  import opened Bytes
  import opened MessagePack
  import Slice = SliceCodec
  import Cursor = CursorCodec

  // ------------------------------------------------------- decoder agreement

  // The cursor decoder accepts exactly what the slice decoder accepts as a tree
  // of shared types, and finds the same tree and remainder.
  lemma {:induction false} DecodersAgree(widen: uint32 -> uint64, payload: Data, depth: nat)
    ensures Cursor.Parse(payload, depth)
         == var p := Slice.Parse(widen, payload, depth); if p.Good? && Plain(p.node) then p else Bad
    decreases |payload|, 0
  {
    hide Cursor.Parse, Slice.Parse;
    if depth > MAX_DEPTH || payload == [] {
      NothingToParse(widen, payload, depth);
    } else {
      var tag: int, rest := payload[0], payload[1..];
      if 0x80 <= tag < 0x90 {
        MapsAgree(widen, rest, tag - 0x80, depth + 1);
        ShortTagsAgree(widen, payload, depth);
      } else if 0x90 <= tag < 0xA0 {
        ArraysAgree(widen, rest, tag - 0x90, depth + 1);
        ShortTagsAgree(widen, payload, depth);
      } else if 0xDC <= tag <= 0xDF {
        var f := TakeUnsigned(rest, if tag == 0xDC || tag == 0xDE then 2 else 4);
        if f.Field? {
          ArraysAgree(widen, f.rest, f.value, depth + 1);
          MapsAgree(widen, f.rest, f.value, depth + 1);
        }
        LongTagsAgree(widen, payload, depth);
      } else {
        ScalarTagsAgree(widen, payload, depth);
      }
    }
  }

  ghost predicate Agree(widen: uint32 -> uint64, payload: Data, depth: nat) {
    var p := Slice.Parse(widen, payload, depth);
    Cursor.Parse(payload, depth) == if p.Good? && Plain(p.node) then p else Bad
  }

  lemma NothingToParse(widen: uint32 -> uint64, payload: Data, depth: nat)
    requires depth > MAX_DEPTH || payload == []
    ensures Agree(widen, payload, depth)
  {
  }

  lemma ScalarTagsAgree(widen: uint32 -> uint64, payload: Data, depth: nat)
    requires depth <= MAX_DEPTH && payload != []
    requires !(0x80 <= payload[0] < 0xA0) && !(0xDC <= payload[0] <= 0xDF)
    ensures Agree(widen, payload, depth)
  {
    hide FromBigEndian, TakeUInt, TakeInt, Slice.TakeBinary, TakeString, Pow256;
    var tag: int, rest := payload[0], payload[1..];
    if 0xD9 <= tag <= 0xDB {
      LengthsAgree(rest, Width(tag - 0xD9));
    }
  }

  // The int limit never decides: anything above it is above the string limit.
  lemma LengthsAgree(payload: Data, width: nat)
    ensures var f := TakeUnsigned(payload, width);
            var g := Slice.TakeLength(payload, width);
            (if f.NoField? then Bad else TakeString(f.rest, f.value))
            == (if g.NoField? then Bad else TakeString(g.rest, g.value))
  {
  }

  lemma ShortTagsAgree(widen: uint32 -> uint64, payload: Data, depth: nat)
    requires depth <= MAX_DEPTH && payload != [] && 0x80 <= payload[0] < 0xA0
    requires payload[0] < 0x90 ==>
               ContainersAgree(Cursor.ParseMap(payload[1..], payload[0] - 0x80, depth + 1),
                               Slice.ParseMap(widen, payload[1..], payload[0] - 0x80, depth + 1))
    requires payload[0] >= 0x90 ==>
               ContainersAgree(Cursor.ParseArray(payload[1..], payload[0] - 0x90, depth + 1),
                               Slice.ParseArray(widen, payload[1..], payload[0] - 0x90, depth + 1))
    ensures Agree(widen, payload, depth)
  {
    hide Cursor.ParseMap, Slice.ParseMap, Cursor.ParseArray, Slice.ParseArray;
  }

  ghost predicate ContainersAgree(c: Parsed, p: Parsed) {
    c == if p.Good? && Plain(p.node) then p else Bad
  }

  lemma LongTagsAgree(widen: uint32 -> uint64, payload: Data, depth: nat)
    requires depth <= MAX_DEPTH && payload != [] && 0xDC <= payload[0] <= 0xDF
    requires var f := TakeUnsigned(payload[1..], if payload[0] == 0xDC || payload[0] == 0xDE then 2 else 4);
             f.Field? ==>
               && ContainersAgree(Cursor.ParseMap(f.rest, f.value, depth + 1),
                                  Slice.ParseMap(widen, f.rest, f.value, depth + 1))
               && ContainersAgree(Cursor.ParseArray(f.rest, f.value, depth + 1),
                                  Slice.ParseArray(widen, f.rest, f.value, depth + 1))
               && (f.value > MAX_ELEMENTS ==>
                     && Slice.ParseMap(widen, f.rest, f.value, depth + 1) == Bad
                     && Slice.ParseArray(widen, f.rest, f.value, depth + 1) == Bad)
    ensures Agree(widen, payload, depth)
  {
    hide Cursor.ParseMap, Slice.ParseMap, Cursor.ParseArray, Slice.ParseArray, FromBigEndian;
  }

  lemma {:induction false} ArraysAgree(widen: uint32 -> uint64, payload: Data, length: nat, depth: nat)
    ensures Cursor.ParseArray(payload, length, depth)
         == var p := Slice.ParseArray(widen, payload, length, depth); if p.Good? && Plain(p.node) then p else Bad
    ensures length > MAX_ELEMENTS ==> Slice.ParseArray(widen, payload, length, depth) == Bad
    decreases |payload|, 2
  {
    if length <= MAX_ELEMENTS && length <= |payload| {
      ItemsAgree(widen, payload, length, depth);
    }
  }

  lemma {:induction false} ItemsAgree(widen: uint32 -> uint64, payload: Data, n: nat, depth: nat)
    ensures Cursor.ParseItems(payload, n, depth)
         == var p := Slice.ParseItems(widen, payload, n, depth);
            if p.GoodItems? && PlainItems(p.items) then p else BadItems
    decreases |payload|, 1
  {
    hide Cursor.Parse, Slice.Parse;
    if n != 0 {
      DecodersAgree(widen, payload, depth);
      var first := Slice.Parse(widen, payload, depth);
      if first.Good? {
        ItemsAgree(widen, first.rest, n - 1, depth);
        var p := Slice.ParseItems(widen, payload, n, depth);
        if p.GoodItems? {
          assert p.items[0] == first.node;
          assert p.items[1..] == Slice.ParseItems(widen, first.rest, n - 1, depth).items;
        }
      }
    }
  }

  lemma {:induction false} MapsAgree(widen: uint32 -> uint64, payload: Data, length: nat, depth: nat)
    ensures Cursor.ParseMap(payload, length, depth)
         == var p := Slice.ParseMap(widen, payload, length, depth); if p.Good? && Plain(p.node) then p else Bad
    ensures length > MAX_ELEMENTS ==> Slice.ParseMap(widen, payload, length, depth) == Bad
    decreases |payload|, 2
  {
    if length <= MAX_ELEMENTS && length <= |payload| / 2 {
      EntriesAgree(widen, payload, length, depth);
    }
  }

  lemma {:induction false} EntriesAgree(widen: uint32 -> uint64, payload: Data, n: nat, depth: nat)
    ensures Cursor.ParseEntries(payload, n, depth)
         == var p := Slice.ParseEntries(widen, payload, n, depth);
            if p.GoodEntries? && PlainEntries(p.entries) then p else BadEntries
    decreases |payload|, 1
  {
    hide Cursor.Parse, Slice.Parse;
    if n != 0 {
      DecodersAgree(widen, payload, depth);
      var key := Slice.Parse(widen, payload, depth);
      if key.Good? {
        DecodersAgree(widen, key.rest, depth);
        var value := Slice.Parse(widen, key.rest, depth);
        if value.Good? {
          EntriesAgree(widen, value.rest, n - 1, depth);
          var p := Slice.ParseEntries(widen, payload, n, depth);
          if p.GoodEntries? {
            assert p.entries[0] == Entry(key.node, value.node);
            assert p.entries[1..] == Slice.ParseEntries(widen, value.rest, n - 1, depth).entries;
          }
        }
      }
    }
  }

  lemma {:induction false} PlainEntriesAt(entries: seq<Entry>, i: nat)
    requires PlainEntries(entries) && i < |entries|
    ensures entries[i].key.Str? && Plain(entries[i].value) && PlainEntries(entries[..i])
  {
    if i > 0 {
      PlainEntriesAt(entries[1..], i - 1);
      assert entries[..i][1..] == entries[1..][..i - 1];
    }
  }

  lemma {:induction false} PlainItemsAt(items: seq<Node>, i: nat)
    requires PlainItems(items) && i < |items|
    ensures Plain(items[i]) && PlainItems(items[..i])
  {
    if i > 0 {
      PlainItemsAt(items[1..], i - 1);
      assert items[..i][1..] == items[1..][..i - 1];
    }
  }

  // Shared types collapse alike whatever fmt.Sprint does to other keys.
  lemma {:induction false} PlainCollapse(sprint: Value -> Data, n: Node)
    requires Lawful(sprint) && Plain(n)
    ensures Collapse(sprint, n) == Collapse(Cursor.TextOf, n)
    decreases n
  {
    match n
    case Arr(items) => PlainCollapseItems(sprint, items);
    case Map(entries) => PlainCollapseEntries(sprint, entries);
    case _ =>
  }

  lemma {:induction false} PlainCollapseItems(sprint: Value -> Data, items: seq<Node>)
    requires Lawful(sprint) && PlainItems(items)
    ensures CollapseItems(sprint, items) == CollapseItems(Cursor.TextOf, items)
    decreases items
  {
    if items != [] {
      PlainItemsAt(items, |items| - 1);
      PlainCollapseItems(sprint, items[..|items| - 1]);
      PlainCollapse(sprint, items[|items| - 1]);
    }
  }

  lemma {:induction false} PlainCollapseEntries(sprint: Value -> Data, entries: seq<Entry>)
    requires Lawful(sprint) && PlainEntries(entries)
    ensures CollapseEntries(sprint, entries) == CollapseEntries(Cursor.TextOf, entries)
    decreases entries
  {
    if entries != [] {
      var last := entries[|entries| - 1];
      assert (entries decreases to last);
      PlainEntriesAt(entries, |entries| - 1);
      PlainCollapseEntries(sprint, entries[..|entries| - 1]);
      PlainCollapse(sprint, last.value);
    }
  }

  // The value decodeMessagePack returns, in either service.
  function SliceDecodes(widen: uint32 -> uint64, sprint: Value -> Data, payload: Data): Option<Value> {
    match Slice.Parse(widen, payload, 0)
    case Bad => None
    case Good(node, rest) => if rest == [] then Some(Collapse(sprint, node)) else None
  }

  function CursorDecodes(payload: Data): Option<Value> {
    match Cursor.Parse(payload, 0)
    case Bad => None
    case Good(node, rest) => if rest == [] then Some(Collapse(Cursor.TextOf, node)) else None
  }

  // Whatever the cursor decoder accepts, the slice decoder accepts with the
  // same value; and a payload only the slice decoder accepts is exactly one
  // that carries a binary, a float or a key that is not a string.
  lemma AcceptedPayloadsAgree(widen: uint32 -> uint64, sprint: Value -> Data, payload: Data)
    requires Lawful(sprint)
    ensures CursorDecodes(payload).Some? ==> SliceDecodes(widen, sprint, payload) == CursorDecodes(payload)
    ensures SliceDecodes(widen, sprint, payload).Some? ==>
              (CursorDecodes(payload).Some? <==> Plain(Slice.Parse(widen, payload, 0).node))
  {
    hide Collapse;
    DecodersAgree(widen, payload, 0);
    var p := Slice.Parse(widen, payload, 0);
    if p.Good? && Plain(p.node) {
      PlainCollapse(sprint, p.node);
    }
  }

  // ------------------------------------------------------- encoder agreement

  lemma {:induction false} EncodersAgree(whole: uint64 -> Option<int>, n: Node)
    requires Plain(n)
    ensures Cursor.Encode(whole, n).Some?
    ensures Slice.Encode(n).Some? ==> Cursor.Encode(whole, n) == Slice.Encode(n)
    decreases n
  {
    match n
    case Arr(items) => ItemEncodersAgree(whole, items);
    case Map(entries) => EntryEncodersAgree(whole, entries);
    case _ =>
  }

  lemma {:induction false} ItemEncodersAgree(whole: uint64 -> Option<int>, items: seq<Node>)
    requires PlainItems(items)
    ensures Cursor.EncodeItems(whole, items).Some?
    ensures Slice.EncodeItems(items).Some? ==> Cursor.EncodeItems(whole, items) == Slice.EncodeItems(items)
    decreases items
  {
    if items != [] {
      EncodersAgree(whole, items[0]);
      ItemEncodersAgree(whole, items[1..]);
    }
  }

  lemma {:induction false} EntryEncodersAgree(whole: uint64 -> Option<int>, entries: seq<Entry>)
    requires PlainEntries(entries)
    ensures Cursor.EncodeEntries(whole, entries).Some?
    ensures Slice.EncodeEntries(entries).Some? ==> Cursor.EncodeEntries(whole, entries) == Slice.EncodeEntries(entries)
    decreases entries
  {
    if entries != [] {
      assert (entries decreases to entries[0]);
      EncodersAgree(whole, entries[0].value);
      EntryEncodersAgree(whole, entries[1..]);
    }
  }

  // -------------------------------------------------------- one value at a time

  lemma TakeWritten(v: nat, width: nat, rest: Data)
    requires v < Pow256(width)
    ensures TakeUnsigned(BigEndian(v, width) + rest, width) == Field(v, rest)
  {
    var p := BigEndian(v, width) + rest;
    FieldRoundTrip(v, width);
    assert p[..width] == BigEndian(v, width) && p[width..] == rest;
  }

  // A tag byte followed by a field.
  lemma Tagged(tag: byte, body: Data, rest: Data)
    ensures ([tag] + body + rest)[0] == tag && ([tag] + body + rest)[1..] == body + rest
    ensures ([tag] + rest)[0] == tag && ([tag] + rest)[1..] == rest
  {
  }

  lemma IntegersAgree(value: int64)
    ensures Cursor.IntegerBytes(value) == Slice.IntegerBytes(value)
  {
  }

  lemma UnsignedParses(value: uint64, rest: Data, depth: nat)
    requires depth <= MAX_DEPTH
    ensures Cursor.Parse(Cursor.UnsignedBytes(value) + rest, depth) == Good(UInt(value), rest)
  {
    hide BigEndian, FromBigEndian, Cursor.ParseArray, Cursor.ParseMap;
    Powers();
    if value <= 0x7F {
      Tagged(value, [], rest);
    } else if value <= 0xFF {
      ByteField(value);
      assert Cursor.UnsignedBytes(value) == [0xCC] + BigEndian(value, 1);
      Tagged(0xCC, BigEndian(value, 1), rest);
      TakeWritten(value, 1, rest);
    } else if value <= 0xFFFF {
      Tagged(0xCD, BigEndian(value, 2), rest);
      TakeWritten(value, 2, rest);
    } else if value <= 0xFFFF_FFFF {
      Tagged(0xCE, BigEndian(value, 4), rest);
      TakeWritten(value, 4, rest);
    } else {
      Tagged(0xCF, BigEndian(value, 8), rest);
      TakeWritten(value, 8, rest);
    }
  }

  lemma ByteField(v: byte)
    ensures BigEndian(v, 1) == [v]
  {
    assert BigEndian(0, 0) == [];
  }

  lemma NegativeParses(value: int64, rest: Data, depth: nat)
    requires depth <= MAX_DEPTH && value < 0
    ensures Cursor.Parse(Cursor.IntegerBytes(value) + rest, depth) == Good(Int(value), rest)
  {
    hide BigEndian, FromBigEndian, Cursor.ParseArray, Cursor.ParseMap, Pow256;
    Powers();
    if value >= -32 {
      Tagged(value + 0x100, [], rest);
    } else if value >= -0x80 {
      ByteField(value + 0x100);
      assert Cursor.IntegerBytes(value) == [0xD0] + BigEndian(value + 0x100, 1);
      Tagged(0xD0, BigEndian(value + 0x100, 1), rest);
      TakeWritten(value + 0x100, 1, rest);
    } else if value >= -0x8000 {
      Tagged(0xD1, BigEndian(value + 0x1_0000, 2), rest);
      TakeWritten(value + 0x1_0000, 2, rest);
    } else if value >= -0x8000_0000 {
      Tagged(0xD2, BigEndian(value + 0x1_0000_0000, 4), rest);
      TakeWritten(value + 0x1_0000_0000, 4, rest);
    } else {
      Tagged(0xD3, BigEndian(value + 0x1_0000_0000_0000_0000, 8), rest);
      TakeWritten(value + 0x1_0000_0000_0000_0000, 8, rest);
    }
  }

  lemma StringParses(text: Data, rest: Data, depth: nat)
    requires depth <= MAX_DEPTH && |text| <= MAX_INT
    ensures Cursor.Parse(Cursor.StringHeader(|text|) + text + rest, depth)
         == if |text| <= MAX_STRING_BYTES then Good(Str(text), rest) else Bad
  {
    hide BigEndian, FromBigEndian, Cursor.ParseArray, Cursor.ParseMap, Pow256;
    Powers();
    var length := |text|;
    assert (text + rest)[..length] == text && (text + rest)[length..] == rest;
    var p := Cursor.StringHeader(length) + text + rest;
    if length <= 31 {
      Tagged(0xA0 + length, text, rest);
    } else {
      var tag, width := if length <= 0xFF then 0xD9 else if length <= 0xFFFF then 0xDA else 0xDB,
                        if length <= 0xFF then 1 else if length <= 0xFFFF then 2 else 4;
      if length <= 0xFF {
        ByteField(length);
      }
      assert Cursor.StringHeader(length) == [tag] + BigEndian(length, width);
      assert p == [tag] + BigEndian(length, width) + (text + rest);
      Tagged(tag, BigEndian(length, width), text + rest);
      TakeWritten(length, width, text + rest);
    }
  }

  // A container header announces its length, truncated to sixteen bits.
  lemma ArrayHeaderParses(length: nat, body: Data, depth: nat)
    requires depth <= MAX_DEPTH
    ensures Cursor.Parse(Cursor.ArrayHeader(length) + body, depth)
         == Cursor.ParseArray(body, if length <= 15 then length else length % 0x1_0000, depth + 1)
  {
    hide BigEndian, FromBigEndian, Cursor.ParseArray, Cursor.ParseMap, Pow256;
    Powers();
    if length <= 15 {
      Tagged(0x90 + length, [], body);
    } else {
      Tagged(0xDC, BigEndian(length % 0x1_0000, 2), body);
      TakeWritten(length % 0x1_0000, 2, body);
    }
  }

  lemma MapHeaderParses(length: nat, body: Data, depth: nat)
    requires depth <= MAX_DEPTH
    ensures Cursor.Parse(Cursor.MapHeader(length) + body, depth)
         == Cursor.ParseMap(body, if length <= 15 then length else length % 0x1_0000, depth + 1)
  {
    hide BigEndian, FromBigEndian, Cursor.ParseArray, Cursor.ParseMap, Pow256;
    Powers();
    if length <= 15 {
      Tagged(0x80 + length, [], body);
    } else {
      Tagged(0xDE, BigEndian(length % 0x1_0000, 2), body);
      TakeWritten(length % 0x1_0000, 2, body);
    }
  }
}
