/**
 Round trips: encoding a tree and decoding the bytes in front of anything at
 all gives the tree back, exactly when it is within the decoders' limits.
 */
module CodecRoundTrip {
  import opened Bytes
  import opened MessagePack
  import opened CodecLaws
  import Slice = SliceCodec
  import Cursor = CursorCodec

  // --------------------------------------------------------------- slice codec

  lemma SliceIntegerParses(widen: uint32 -> uint64, value: int64, rest: Data, depth: nat)
    requires depth <= MAX_DEPTH
    ensures Slice.Parse(widen, Slice.IntegerBytes(value) + rest, depth)
         == Good(if value >= 0 then UInt(value) else Int(value), rest)
  {
    hide Cursor.Parse, Slice.Parse, Slice.IntegerBytes, Cursor.UnsignedBytes;
    IntegersAgree(value);
    DecodersAgree(widen, Slice.IntegerBytes(value) + rest, depth);
    if value >= 0 {
      UnsignedParses(value, rest, depth);
    } else {
      NegativeParses(value, rest, depth);
    }
  }

  lemma SliceStringParses(widen: uint32 -> uint64, text: Data, rest: Data, depth: nat)
    requires depth <= MAX_DEPTH && |text| <= MAX_INT
    ensures Slice.Parse(widen, Slice.StringHeader(|text|) + text + rest, depth)
         == if |text| <= MAX_STRING_BYTES then Good(Str(text), rest) else Bad
  {
    hide BigEndian, FromBigEndian, Slice.ParseArray, Slice.ParseMap, Pow256;
    Powers();
    var length := |text|;
    assert (text + rest)[..length] == text && (text + rest)[length..] == rest;
    var p := Slice.StringHeader(length) + text + rest;
    if length <= 31 {
      Tagged(0xA0 + length, text, rest);
    } else {
      var tag, width := if length <= 0xFF then 0xD9 else if length <= 0xFFFF then 0xDA else 0xDB,
                        if length <= 0xFF then 1 else if length <= 0xFFFF then 2 else 4;
      if length <= 0xFF {
        ByteField(length);
      }
      assert Slice.StringHeader(length) == [tag] + BigEndian(length, width);
      assert p == [tag] + BigEndian(length, width) + (text + rest);
      Tagged(tag, BigEndian(length, width), text + rest);
      TakeWritten(length, width, text + rest);
    }
  }

  lemma SliceBinaryParses(widen: uint32 -> uint64, bytes: Data, rest: Data, depth: nat)
    requires depth <= MAX_DEPTH && |bytes| <= 0xFFFF
    ensures Slice.Parse(widen, Slice.BinaryHeader(|bytes|).value + bytes + rest, depth) == Good(Bin(bytes), rest)
  {
    hide BigEndian, FromBigEndian, Slice.ParseArray, Slice.ParseMap, Pow256;
    Powers();
    var length := |bytes|;
    var tag, width := if length <= 0xFF then 0xC4 else 0xC5, if length <= 0xFF then 1 else 2;
    if length <= 0xFF {
      ByteField(length);
    }
    assert Slice.BinaryHeader(length).value == [tag] + BigEndian(length, width);
    assert Slice.BinaryHeader(length).value + bytes + rest == [tag] + BigEndian(length, width) + (bytes + rest);
    Tagged(tag, BigEndian(length, width), bytes + rest);
    TakeWritten(length, width, bytes + rest);
    assert (bytes + rest)[..length] == bytes && (bytes + rest)[length..] == rest;
  }

  lemma SliceFloatParses(widen: uint32 -> uint64, bits: uint64, rest: Data, depth: nat)
    requires depth <= MAX_DEPTH
    ensures Slice.Parse(widen, [0xCB] + BigEndian(bits, 8) + rest, depth) == Good(Float(bits), rest)
  {
    hide BigEndian, FromBigEndian, Slice.ParseArray, Slice.ParseMap, Pow256;
    Powers();
    Tagged(0xCB, BigEndian(bits, 8), rest);
    TakeWritten(bits, 8, rest);
  }

  lemma SliceArrayHeaderParses(widen: uint32 -> uint64, length: nat, body: Data, depth: nat)
    requires depth <= MAX_DEPTH && length <= 0xFFFF
    ensures Slice.Parse(widen, Slice.ArrayHeader(length).value + body, depth)
         == Slice.ParseArray(widen, body, length, depth + 1)
  {
    hide BigEndian, FromBigEndian, Slice.ParseArray, Slice.ParseMap, Pow256;
    Powers();
    if length <= 15 {
      Tagged(0x90 + length, [], body);
    } else {
      Tagged(0xDC, BigEndian(length, 2), body);
      TakeWritten(length, 2, body);
    }
  }

  lemma SliceMapHeaderParses(widen: uint32 -> uint64, length: nat, body: Data, depth: nat)
    requires depth <= MAX_DEPTH && length <= 0xFFFF
    ensures Slice.Parse(widen, Slice.MapHeader(length).value + body, depth)
         == Slice.ParseMap(widen, body, length, depth + 1)
  {
    hide BigEndian, FromBigEndian, Slice.ParseArray, Slice.ParseMap, Pow256;
    Powers();
    if length <= 15 {
      Tagged(0x80 + length, [], body);
    } else {
      Tagged(0xDE, BigEndian(length, 2), body);
      TakeWritten(length, 2, body);
    }
  }

  // Every tree takes at least one byte, so a count never exceeds its payload.
  lemma {:induction false} SliceItemsAreLong(items: seq<Node>)
    requires Slice.EncodeItems(items).Some?
    ensures |Slice.EncodeItems(items).value| >= |items|
  {
    if items != [] {
      SliceItemsAreLong(items[1..]);
      SliceNotEmpty(items[0]);
    }
  }

  lemma {:induction false} SliceEntriesAreLong(entries: seq<Entry>)
    requires Slice.EncodeEntries(entries).Some?
    ensures |Slice.EncodeEntries(entries).value| >= 2 * |entries|
  {
    if entries != [] {
      SliceEntriesAreLong(entries[1..]);
      SliceNotEmpty(entries[0].key);
      SliceNotEmpty(entries[0].value);
    }
  }

  lemma SliceNotEmpty(n: Node)
    requires Slice.Encode(n).Some?
    ensures |Slice.Encode(n).value| >= 1
  {
  }

  // Decoding an encoded tree with anything behind it returns the tree, its
  // integers retagged, and exactly what was behind it: if and only if the tree
  // is within the limits. Otherwise decoding fails.
  lemma {:induction false} SliceRoundTrip(widen: uint32 -> uint64, n: Node, rest: Data, depth: nat)
    requires GoValue(n) && Slice.Encode(n).Some?
    ensures Slice.Parse(widen, Slice.Encode(n).value + rest, depth)
            == if Fits(n, depth) then Good(Norm(n), rest) else Bad
    decreases n, 0
  {
    hide Slice.Parse, Slice.IntegerBytes, Slice.StringHeader, Slice.EncodeItems, Slice.EncodeEntries,
         FitsItems, FitsEntries, NormItems, NormEntries, GoItems, GoEntries;
    if depth > MAX_DEPTH {
      SliceTooDeep(widen, Slice.Encode(n).value + rest, depth);
    } else {
      match n
      case Nil => SliceTokenParses(widen, 0xC0, rest, depth);
      case Bool(b) => SliceTokenParses(widen, if b then 0xC3 else 0xC2, rest, depth);
      case UInt(u) => SliceIntegerParses(widen, u, rest, depth);
      case Int(i) => SliceIntegerParses(widen, i, rest, depth);
      case Float(bits) => SliceFloatParses(widen, bits, rest, depth);
      case Bin(bytes) => SliceBinaryParses(widen, bytes, rest, depth);
      case Str(text) => SliceStringParses(widen, text, rest, depth);
      case Arr(items) => SliceArrayRoundTrip(widen, items, rest, depth);
      case Map(entries) => SliceMapRoundTrip(widen, entries, rest, depth);
    }
  }

  lemma SliceTooDeep(widen: uint32 -> uint64, payload: Data, depth: nat)
    requires depth > MAX_DEPTH
    ensures Slice.Parse(widen, payload, depth) == Bad
  {
  }

  lemma SliceTokenParses(widen: uint32 -> uint64, tag: byte, rest: Data, depth: nat)
    requires depth <= MAX_DEPTH && (tag == 0xC0 || tag == 0xC2 || tag == 0xC3)
    ensures Slice.Parse(widen, [tag] + rest, depth) == Good(if tag == 0xC0 then Nil else Bool(tag == 0xC3), rest)
  {
    Tagged(tag, [], rest);
  }

  lemma {:induction false} SliceArrayRoundTrip(widen: uint32 -> uint64, items: seq<Node>, rest: Data, depth: nat)
    requires depth <= MAX_DEPTH && GoItems(items) && Slice.Encode(Arr(items)).Some?
    ensures Slice.Parse(widen, Slice.Encode(Arr(items)).value + rest, depth)
         == if Fits(Arr(items), depth) then Good(Norm(Arr(items)), rest) else Bad
    decreases items, 1
  {
    hide Slice.Parse, Slice.EncodeItems, FitsItems, NormItems, GoItems, Slice.ArrayHeader;
    var header, body := Slice.ArrayHeader(|items|).value, Slice.EncodeItems(items).value;
    assert header + body + rest == header + (body + rest);
    ShortHeader(|items|);
    SliceArrayHeaderParses(widen, |items|, body + rest, depth);
    SliceItemsAreLong(items);
    SliceItemsRoundTrip(widen, items, rest, depth + 1);
  }

  lemma ShortHeader(length: nat)
    ensures Slice.ArrayHeader(length).Some? <==> length <= 0xFFFF
    ensures Slice.MapHeader(length).Some? <==> length <= 0xFFFF
  {
  }

  lemma {:induction false} SliceItemsRoundTrip(widen: uint32 -> uint64, items: seq<Node>, rest: Data, depth: nat)
    requires GoItems(items) && Slice.EncodeItems(items).Some?
    ensures Slice.ParseItems(widen, Slice.EncodeItems(items).value + rest, |items|, depth)
         == if FitsItems(items, depth) then GoodItems(NormItems(items), rest) else BadItems
    decreases items, 0
  {
    hide Slice.Parse, Slice.Encode, Fits, Norm, GoValue;
    if items == [] {
      assert [] + rest == rest;
    } else {
      var first, others := Slice.Encode(items[0]).value, Slice.EncodeItems(items[1..]).value;
      assert first + others + rest == first + (others + rest);
      SliceRoundTrip(widen, items[0], others + rest, depth);
      SliceItemsRoundTrip(widen, items[1..], rest, depth);
    }
  }

  lemma {:induction false} SliceMapRoundTrip(widen: uint32 -> uint64, entries: seq<Entry>, rest: Data, depth: nat)
    requires depth <= MAX_DEPTH && GoEntries(entries) && Slice.Encode(Map(entries)).Some?
    ensures Slice.Parse(widen, Slice.Encode(Map(entries)).value + rest, depth)
         == if Fits(Map(entries), depth) then Good(Norm(Map(entries)), rest) else Bad
    decreases entries, 1
  {
    hide Slice.Parse, Slice.EncodeEntries, FitsEntries, NormEntries, GoEntries, Slice.MapHeader;
    var header, body := Slice.MapHeader(|entries|).value, Slice.EncodeEntries(entries).value;
    assert header + body + rest == header + (body + rest);
    ShortHeader(|entries|);
    SliceMapHeaderParses(widen, |entries|, body + rest, depth);
    SliceEntriesAreLong(entries);
    SliceEntriesRoundTrip(widen, entries, rest, depth + 1);
  }

  lemma {:induction false} SliceEntriesRoundTrip(widen: uint32 -> uint64, entries: seq<Entry>, rest: Data, depth: nat)
    requires GoEntries(entries) && Slice.EncodeEntries(entries).Some?
    ensures Slice.ParseEntries(widen, Slice.EncodeEntries(entries).value + rest, |entries|, depth)
         == if FitsEntries(entries, depth) then GoodEntries(NormEntries(entries), rest) else BadEntries
    decreases entries, 0
  {
    hide Slice.Parse, Slice.Encode, Fits, Norm, GoValue;
    if entries == [] {
      assert [] + rest == rest;
    } else {
      assert (entries decreases to entries[0]);
      var key, value := Slice.Encode(entries[0].key).value, Slice.Encode(entries[0].value).value;
      var others := Slice.EncodeEntries(entries[1..]).value;
      assert key + value + others + rest == key + (value + (others + rest));
      SliceRoundTrip(widen, entries[0].key, value + (others + rest), depth);
      SliceRoundTrip(widen, entries[0].value, others + rest, depth);
      SliceEntriesRoundTrip(widen, entries[1..], rest, depth);
    }
  }
}
