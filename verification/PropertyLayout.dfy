/**
 A finished Set byte by byte: the words and fields it leaves in the area, and that
 it leaves every other byte alone.
 */
module PropertyLayout {
  import opened Bytes
  import opened PropertyTable
  import opened PropertyMap
  import opened PropertyCrash

  // Which tables are adopted, by the words of their bytes.
  ghost predicate EntriesInside(s: Table, count: nat)
    requires count <= 248
  {
    forall i: nat :: i < count ==> 1024 <= Word(s, 32 + 4 * i) % 0x100_0000 <= 32640
  }

  lemma AcceptedIff(s: Table)
    ensures Accepts(s) <==>
              && Word(s, 8) == 0x504F5250 && Word(s, 12) == 0x45434F76
              && Word(s, 0) <= 248 && EntriesInside(s, Word(s, 0))
  {
    hide Word;
    assert forall i: nat :: i < MAX_RECORDS ==> RecordOffset(s, i) == Word(s, 32 + 4 * i) % 0x100_0000;
    if Count(s) <= 248 && EntriesInside(s, Count(s)) {
      forall i: nat | i < Count(s)
        ensures INFO_START <= RecordOffset(s, i) <= AREA_SIZE - INFO_SIZE
      {
        assert 1024 <= Word(s, 32 + 4 * i) % 0x100_0000 <= 32640;
      }
    }
    if Accepts(s) {
      forall i: nat | i < Count(s)
        ensures 1024 <= Word(s, 32 + 4 * i) % 0x100_0000 <= 32640
      {
        assert INFO_START <= RecordOffset(s, i) <= AREA_SIZE - INFO_SIZE;
      }
    }
  }

  // Which record a name is found in: the first counted one that carries it.
  lemma {:induction false} FoundIsFirst(s: Table, name: Data, i: nat)
    requires Accepts(s) && i <= Count(s)
    ensures match FindFrom(s, name, i)
            case None => forall j: nat :: i <= j < Count(s) ==> RecordName(s, RecordOffset(s, j)) != name
            case Some(off) =>
              exists j: nat :: i <= j < Count(s) && off == RecordOffset(s, j) && RecordName(s, off) == name
                               && forall k: nat :: i <= k < j ==> RecordName(s, RecordOffset(s, k)) != name
    decreases Count(s) - i
  {
    hide RecordName;
    if i < Count(s) && RecordName(s, RecordOffset(s, i)) != name {
      FoundIsFirst(s, name, i + 1);
    }
  }

  // The record serial has the length of the value in its top byte and a generation two
  // further on in the rest; the value is padded with zeros, and the serial of the area
  // is one further on, wrapping.
  ghost predicate Rewritten(s: Table, t: Table, off: nat, value: Data)
    requires 1024 <= off <= 32640 && |value| < 92
  {
    && Word(t, off + 32) == |value| * 0x100_0000 + (Word(s, off + 32) % 0x100_0000 + 2) % 0x100_0000
    && t[off + 36..off + 128] == value + Zeros(92 - |value|)
    && Word(t, 4) == (Word(s, 4) + 1) % 0x1_0000_0000
  }

  // Nothing else has changed.
  ghost predicate SparedByUpdate(s: Table, t: Table, off: nat)
    requires 1024 <= off <= 32640
  {
    t[..4] == s[..4] && t[8..off + 32] == s[8..off + 32] && t[off + 128..] == s[off + 128..]
  }

  lemma UpdateLayout(s: Table, off: nat, value: Data)
    requires 1024 <= off <= 32640 && |value| < 92
    ensures var t := Apply(s, ValueStores(s, off, value));
            Rewritten(s, t, off, value) && SparedByUpdate(s, t, off)
  {
    hide Apply, Mixed, Word;
    var all := ValueStores(s, off, value);
    var t := Apply(s, all);
    assert all[..|all|] == all;
    SerialDuringUpdate(s, off, value, |all|);
    ValueArea(s, off, value, |all|);
    MixedAtEnd(s[off + 36..off + 128], value, |all|);
    LastStoreWins(s, all, |all| - 1, |all|, SERIAL_OFFSET, Next(Word(s, SERIAL_OFFSET)));
    ApplyFrame(s, all, 0, 4);
    ApplyFrame(s, all, 8, off + 32);
    ApplyFrame(s, all, off + 128, AREA_SIZE);
    WholeSlices(s, t, off);
  }

  lemma WholeSlices(s: Table, t: Table, off: nat)
    requires off + 128 <= AREA_SIZE
    ensures s[0..4] == s[..4] && t[0..4] == t[..4]
    ensures s[off + 128..AREA_SIZE] == s[off + 128..] && t[off + 128..AREA_SIZE] == t[off + 128..]
  {
  }

  lemma MixedAtEnd(before: Data, value: Data, k: nat)
    requires |before| == 92 && |value| < 92 && k == 95 + |value|
    ensures Mixed(before, value, k) == value + Zeros(92 - |value|)
  {
  }

  // A fresh record: its name padded with zeros, and a serial that starts from zero.
  lemma NameLayout(s: Table, off: nat, name: Data)
    requires 1024 <= off <= 32640 && |name| < 32
    ensures var t := Apply(s, NameStores(off, name));
            && t[off..off + 32] == name + Zeros(32 - |name|) && Word(t, off + 32) == 0
            && t[..off] == s[..off] && t[off + 128..] == s[off + 128..]
  {
    hide Apply;
    var cleared := Apply(s, Copy(off, Zeros(INFO_SIZE)));
    ApplyAppend(s, Copy(off, Zeros(INFO_SIZE)), Copy(off, name));
    ApplyCopy(s, off, Zeros(INFO_SIZE));
    ApplyCopy(cleared, off, name);
    var t := Apply(s, NameStores(off, name));
    assert t == cleared[..off] + name + cleared[off + |name|..];
    assert forall x :: off + |name| <= x < off + 128 ==> t[x] == 0;
  }

  // The count is one more, the new entry of the table of contents has the length of the
  // name in its top byte over the place of the record.
  ghost predicate Entered(s: Table, t: Table, c: nat, name: Data)
    requires c < 248 && |name| < 32
  {
    && Word(t, 0) == c + 1
    && Word(t, 32 + 4 * c) == |name| * 0x100_0000 + (1024 + 128 * c)
    && t[1024 + 128 * c..1024 + 128 * c + 32] == name + Zeros(32 - |name|)
  }

  ghost predicate SparedByAppend(s: Table, t: Table, c: nat)
    requires c < 248
  {
    && t[8..32 + 4 * c] == s[8..32 + 4 * c]
    && t[36 + 4 * c..1024 + 128 * c] == s[36 + 4 * c..1024 + 128 * c]
    && t[1152 + 128 * c..] == s[1152 + 128 * c..]
  }

  // The two words that publish a record change nothing else.
  lemma PublishingWords(r: Table, c: nat, name: Data)
    requires c < 248 && |name| < 32
    ensures var t := Apply(r, PublishStores(c, name));
            && Word(t, 0) == c + 1 && Word(t, 32 + 4 * c) == |name| * 0x100_0000 + (1024 + 128 * c)
            && t[4..32 + 4 * c] == r[4..32 + 4 * c] && t[36 + 4 * c..] == r[36 + 4 * c..]
  {
    hide Apply, Word;
    var stores := PublishStores(c, name);
    var t := Apply(r, stores);
    assert stores[..2] == stores;
    LastStoreWins(r, stores, 0, 2, 32 + 4 * c, TocEntry(c, name));
    LastStoreWins(r, stores, 1, 2, 0, c + 1);
    ApplyFrame(r, stores, 4, 32 + 4 * c);
    ApplyFrame(r, stores, 36 + 4 * c, AREA_SIZE);
    assert t[36 + 4 * c..AREA_SIZE] == t[36 + 4 * c..] && r[36 + 4 * c..AREA_SIZE] == r[36 + 4 * c..];
  }

  // The record filled in, before it is published.
  lemma RecordLayout(s: Table, c: nat, name: Data, value: Data)
    requires c < 248 && |name| < 32 && |value| < 92
    ensures var off := 1024 + 128 * c;
            var t := Apply(s, RecordStores(s, off, name, value));
            && t[off..off + 32] == name + Zeros(32 - |name|)
            && Word(t, off + 32) == |value| * 0x100_0000 + 2
            && t[off + 36..off + 128] == value + Zeros(92 - |value|)
            && Word(t, 4) == (Word(s, 4) + 1) % 0x1_0000_0000
            && t[8..off] == s[8..off] && t[off + 128..] == s[off + 128..]
  {
    hide Apply, NameStores, ValueStores, Word;
    var off := 1024 + 128 * c;
    var named := Apply(s, NameStores(off, name));
    NameLayout(s, off, name);
    UpdateLayout(named, off, value);
    var t := Apply(named, ValueStores(named, off, value));
    ApplyAppend(s, NameStores(off, name), ValueStores(named, off, value));
    SubSlice(t, named, 8, off + 32, off, off + 32);
    SubSlice(t, named, 8, off + 32, 8, off);
    assert named[0..off] == s[0..off];
    SubSlice(named, s, 0, off, 8, off);
    SubSlice(named, s, 0, off, 4, 8);
    WordFrame(named, 4, s, 4);
  }

  lemma AppendLayout(s: Table, c: nat, name: Data, value: Data)
    requires c < 248 && |name| < 32 && |value| < 92
    ensures var t := Apply(s, AppendStores(s, c, name, value));
            && Entered(s, t, c, name) && SparedByAppend(s, t, c)
            && Word(t, 1056 + 128 * c) == |value| * 0x100_0000 + 2
            && t[1060 + 128 * c..1152 + 128 * c] == value + Zeros(92 - |value|)
            && Word(t, 4) == (Word(s, 4) + 1) % 0x1_0000_0000
  {
    hide Apply, RecordStores, PublishStores, Word;
    var off := 1024 + 128 * c;
    var filled := Apply(s, RecordStores(s, off, name, value));
    RecordLayout(s, c, name, value);
    PublishingWords(filled, c, name);
    var t := Apply(filled, PublishStores(c, name));
    ApplyAppend(s, RecordStores(s, off, name, value), PublishStores(c, name));
    assert t[36 + 4 * c..AREA_SIZE] == filled[36 + 4 * c..AREA_SIZE];
    SubSlice(t, filled, 36 + 4 * c, AREA_SIZE, off, off + 32);
    SubSlice(t, filled, 36 + 4 * c, AREA_SIZE, off + 32, off + 36);
    WordFrame(t, off + 32, filled, off + 32);
    SubSlice(t, filled, 36 + 4 * c, AREA_SIZE, off + 36, off + 128);
    SubSlice(t, filled, 4, 32 + 4 * c, 4, 8);
    WordFrame(t, 4, filled, 4);
    AppendSpares(s, filled, t, c);
  }

  lemma AppendSpares(s: Table, filled: Table, t: Table, c: nat)
    requires c < 248
    requires t[4..32 + 4 * c] == filled[4..32 + 4 * c] && t[36 + 4 * c..] == filled[36 + 4 * c..]
    requires filled[8..1024 + 128 * c] == s[8..1024 + 128 * c] && filled[1152 + 128 * c..] == s[1152 + 128 * c..]
    ensures SparedByAppend(s, t, c)
  {
    var off := 1024 + 128 * c;
    assert t[36 + 4 * c..AREA_SIZE] == filled[36 + 4 * c..AREA_SIZE];
    SubSlice(t, filled, 4, 32 + 4 * c, 8, 32 + 4 * c);
    SubSlice(filled, s, 8, off, 8, 32 + 4 * c);
    SubSlice(t, filled, 36 + 4 * c, AREA_SIZE, 36 + 4 * c, off);
    SubSlice(filled, s, 8, off, 36 + 4 * c, off);
    SubSlice(t, filled, 36 + 4 * c, AREA_SIZE, off + 128, AREA_SIZE);
  }

  // When Set stores, and every byte it leaves: a known name's record is rewritten where
  // the name was first found, a new one is entered after the last; anything else leaves
  // the area alone.
  lemma FinishedSet(s: Table, name: Data, value: Data)
    requires Accepts(s)
    ensures SetOutcome(s, name, value) == Stored <==>
              1 <= |name| <= 31 && |value| <= 91 && (Find(s, name).Some? || Word(s, 0) < 248)
    ensures var t := Apply(s, SetStores(s, name, value));
            if SetOutcome(s, name, value) != Stored then t == s
            else
              match Find(s, name)
              case Some(off) => Rewritten(s, t, off, value) && SparedByUpdate(s, t, off)
              case None =>
                var c := Word(s, 0);
                && Entered(s, t, c, name) && SparedByAppend(s, t, c)
                && Word(t, 1056 + 128 * c) == |value| * 0x100_0000 + 2
                && t[1060 + 128 * c..1152 + 128 * c] == value + Zeros(92 - |value|)
                && Word(t, 4) == (Word(s, 4) + 1) % 0x1_0000_0000
  {
    hide Apply, ValueStores, AppendStores, Rewritten, SparedByUpdate, Entered, SparedByAppend, FindFrom, Word;
    ApplyNothing(s);
    if SetOutcome(s, name, value) == Stored {
      match Find(s, name)
      case Some(off) => UpdateLayout(s, off, value);
      case None => AppendLayout(s, Count(s), name, value);
    }
  }
}
