/**
 The wire format itself, tag by tag, as the decoder of the DSP service reads it.
 The other decoder agrees with it on every payload of shared types, and both
 encoders are tied to the decoders by the round trips.
 */
module CodecFormat {
  import opened Bytes
  import opened MessagePack
  import opened CodecLaws
  import opened CodecRoundTrip
  import Slice = SliceCodec
  import Cursor = CursorCodec

  // Big-endian fields have their most significant byte first.
  lemma {:induction false} MostSignificantFirst(v: nat, width: nat, k: nat)
    requires k < width
    ensures BigEndian(v, width)[k] == v / Pow256(width - 1 - k) % 0x100
  {
    if k < width - 1 {
      MostSignificantFirst(v / 0x100, width - 1, k);
      DivideTwice(v, Pow256(width - 2 - k));
    } else {
      assert Pow256(0) == 1 && v / 1 == v;
    }
  }

  lemma DivideTwice(v: nat, p: nat)
    requires p > 0
    ensures v / 0x100 / p == v / (0x100 * p)
  {
    var q, r := v / 0x100, v % 0x100;
    var outer, left := q / p, q % p;
    assert v == 0x100 * (outer * p + left) + r;
    assert v == outer * (0x100 * p) + (0x100 * left + r) by {
      assert 0x100 * (outer * p) == outer * (0x100 * p);
    }
    assert 0 <= 0x100 * left + r < 0x100 * p;
    QuotientIs(v, 0x100 * p, outer, 0x100 * left + r);
  }

  lemma QuotientIs(v: nat, d: nat, q: nat, r: nat)
    requires v == q * d + r && r < d
    ensures v / d == q
  {
    var e: int := v / d - q;
    assert v == (v / d) * d + v % d;
    assert e * d + v % d == r;
    assert (-e) * d == -(e * d);
    MultipleGrows(e, d);
    MultipleGrows(-e, d);
  }

  lemma MultipleGrows(e: int, d: nat)
    ensures e >= 1 ==> e * d >= d
  {
  }

  // Tags that are a value by themselves, and those that are refused whatever follows;
  // below depth 32 all are.
  lemma SingleByteTags(widen: uint32 -> uint64, tag: byte, rest: Data, depth: nat)
    ensures var p := Slice.Parse(widen, [tag] + rest, depth);
            if depth > 32 || tag in {0xC1, 0xC6, 0xC7, 0xC8, 0xC9, 0xD4, 0xD5, 0xD6, 0xD7, 0xD8} then p == Bad
            else
              && (tag <= 0x7F ==> p == Good(UInt(tag), rest))
              && (tag >= 0xE0 ==> p == Good(Int(tag - 256), rest))
              && (tag == 0xC0 ==> p == Good(Nil, rest))
              && (tag == 0xC2 || tag == 0xC3 ==> p == Good(Bool(tag == 0xC3), rest))
  {
    hide Slice.ParseArray, Slice.ParseMap, TakeString, TakeUInt, TakeInt, Slice.TakeBinary, Slice.TakeLength;
    Tagged(tag, [], rest);
  }

  // 0xcc to 0xcf are unsigned and 0xd0 to 0xd3 two's complement numbers of one, two,
  // four and eight bytes; 0xca is a single-precision pattern, widened, and 0xcb a double.
  lemma NumberTags(widen: uint32 -> uint64, v: uint64, k: nat, rest: Data, depth: nat)
    requires depth <= 32 && k < 4 && v < Pow256(Width(k))
    ensures Width(0) == 1 && Width(1) == 2 && Width(2) == 4 && Width(3) == 8
    ensures var field := BigEndian(v, Width(k));
            && Slice.Parse(widen, [0xCC + k] + field + rest, depth) == Good(UInt(v), rest)
            && (2 * v < Pow256(Width(k)) ==>
                  Slice.Parse(widen, [0xD0 + k] + field + rest, depth) == Good(Int(v), rest))
            && (2 * v >= Pow256(Width(k)) ==>
                  Slice.Parse(widen, [0xD0 + k] + field + rest, depth) == Good(Int(v - Pow256(Width(k))), rest))
            && (k == 2 ==> Slice.Parse(widen, [0xCA] + field + rest, depth) == Good(Float(widen(v)), rest))
            && (k == 3 ==> Slice.Parse(widen, [0xCB] + field + rest, depth) == Good(Float(v), rest))
  {
    hide BigEndian, FromBigEndian, Slice.ParseArray, Slice.ParseMap, Pow256, Slice.TakeBinary, TakeString;
    Powers();
    var field := BigEndian(v, Width(k));
    TakeWritten(v, Width(k), rest);
    Tagged(0xCC + k, field, rest);
    Tagged(0xD0 + k, field, rest);
    Tagged(0xCA, field, rest);
    Tagged(0xCB, field, rest);
  }

  // Texts of up to a mebibyte behind a tag with their length or a length field of one,
  // two or four bytes; binaries behind one of one or two bytes.
  lemma TextTags(widen: uint32 -> uint64, text: Data, k: nat, rest: Data, depth: nat)
    requires depth <= 32 && k < 3 && |text| < Pow256(Width(k)) && |text| <= MAX_INT
    ensures var fits := if |text| <= 1048576 then Good(Str(text), rest) else Bad;
            && (|text| < 32 ==> Slice.Parse(widen, [0xA0 + |text|] + text + rest, depth) == fits)
            && Slice.Parse(widen, [0xD9 + k] + BigEndian(|text|, Width(k)) + (text + rest), depth) == fits
            && (k < 2 ==> Slice.Parse(widen, [0xC4 + k] + BigEndian(|text|, Width(k)) + (text + rest), depth)
                          == Good(Bin(text), rest))
  {
    hide BigEndian, FromBigEndian, Slice.ParseArray, Slice.ParseMap, Pow256, TakeUInt, TakeInt;
    Powers();
    var body := text + rest;
    assert body[..|text|] == text && body[|text|..] == rest;
    TakeWritten(|text|, Width(k), body);
    Tagged(0xA0 + if |text| < 32 then |text| else 0, text, rest);
    Tagged(0xD9 + k, BigEndian(|text|, Width(k)), body);
    Tagged(0xC4 + k, BigEndian(|text|, Width(k)), body);
  }

  // Lists and maps announce their length in the tag or in a field of two or four bytes,
  // and read the same behind each.
  lemma ContainerTags(widen: uint32 -> uint64, length: nat, body: Data, depth: nat)
    requires depth <= 32 && length < 0x1_0000
    ensures var list := Slice.Parse(widen, [0xDC] + BigEndian(length, 2) + body, depth);
            && list == Slice.Parse(widen, [0xDD] + BigEndian(length, 4) + body, depth)
            && (length <= 15 ==> list == Slice.Parse(widen, [0x90 + length] + body, depth))
            && (list.Good? ==> list.node.Arr? && |list.node.items| == length <= 4096)
    ensures var table := Slice.Parse(widen, [0xDE] + BigEndian(length, 2) + body, depth);
            && table == Slice.Parse(widen, [0xDF] + BigEndian(length, 4) + body, depth)
            && (length <= 15 ==> table == Slice.Parse(widen, [0x80 + length] + body, depth))
            && (table.Good? ==> table.node.Map? && |table.node.entries| == length <= 4096)
  {
    hide BigEndian, FromBigEndian, Slice.ParseItems, Slice.ParseEntries, Pow256, TakeUInt, TakeInt, TakeString,
         Slice.TakeBinary;
    Powers();
    TakeWritten(length, 2, body);
    TakeWritten(length, 4, body);
    Tagged(0xDC, BigEndian(length, 2), body);
    Tagged(0xDD, BigEndian(length, 4), body);
    Tagged(0xDE, BigEndian(length, 2), body);
    Tagged(0xDF, BigEndian(length, 4), body);
    if length <= 15 {
      Tagged(0x90 + length, [], body);
      Tagged(0x80 + length, [], body);
    }
  }

  // A list of nothing but nils goes through up to 4096 of them, and so does a map of
  // as many nils under empty names.
  function Nils(n: nat): (items: seq<Node>)
    ensures |items| == n
  {
    seq(n, _ => Nil)
  }

  function Blanks(n: nat): (entries: seq<Entry>)
    ensures |entries| == n
  {
    seq(n, _ => Entry(Str([]), Nil))
  }

  lemma {:induction false} NilsGo(n: nat, depth: nat)
    requires depth <= 32
    ensures GoItems(Nils(n)) && FitsItems(Nils(n), depth) && Slice.EncodeItems(Nils(n)).Some?
  {
    if n > 0 {
      assert Nils(n)[1..] == Nils(n - 1);
      NilsGo(n - 1, depth);
    }
  }

  lemma {:induction false} BlanksGo(n: nat, depth: nat)
    requires depth <= 32
    ensures GoEntries(Blanks(n)) && FitsEntries(Blanks(n), depth) && Slice.EncodeEntries(Blanks(n)).Some?
  {
    if n > 0 {
      assert Blanks(n)[1..] == Blanks(n - 1);
      BlanksGo(n - 1, depth);
      var key, value := Str([]), Nil;
      assert Blanks(n)[0] == Entry(key, value);
      assert GoValue(key) && GoValue(value) && Fits(key, depth) && Fits(value, depth);
      assert Slice.Encode(key).Some? && Slice.Encode(value).Some?;
    }
  }

  lemma ElementLimit(widen: uint32 -> uint64, n: nat, rest: Data)
    requires n <= 0xFFFF
    ensures Slice.Encode(Arr(Nils(n))).Some? && Slice.Encode(Map(Blanks(n))).Some?
    ensures Slice.Parse(widen, Slice.Encode(Arr(Nils(n))).value + rest, 0).Good? <==> n <= 4096
    ensures Slice.Parse(widen, Slice.Encode(Map(Blanks(n))).value + rest, 0).Good? <==> n <= 4096
  {
    hide Slice.Parse, Slice.EncodeItems, Slice.EncodeEntries, GoItems, GoEntries, FitsItems, FitsEntries, Norm;
    NilsGo(n, 1);
    BlanksGo(n, 1);
    ShortHeader(n);
    SliceRoundTrip(widen, Arr(Nils(n)), rest, 0);
    SliceRoundTrip(widen, Map(Blanks(n)), rest, 0);
  }

  // The other encoder takes the doubles that are whole numbers up to 2^53, as integers.
  lemma WholeDoubles(whole: uint64 -> Option<int>, bits: uint64)
    ensures Cursor.Encode(whole, Float(bits)).Some? <==>
              whole(bits).Some? && -9007199254740992 <= whole(bits).value <= 9007199254740992
    ensures Cursor.Encode(whole, Float(bits)).Some? ==>
              Cursor.Encode(whole, Float(bits)) == Cursor.Encode(whole, Int(whole(bits).value))
  {
  }

  // An encoding with anything behind it is refused as a whole payload.
  lemma TrailingBytesAreRefused(widen: uint32 -> uint64, n: Node, rest: Data)
    requires GoValue(n) && Fits(n, 0) && Slice.Encode(n).Some?
    ensures var p := Slice.Parse(widen, Slice.Encode(n).value + rest, 0);
            p == Good(Norm(n), rest) && (p.rest == [] <==> rest == [])
  {
    SliceRoundTrip(widen, n, rest, 0);
  }
}
