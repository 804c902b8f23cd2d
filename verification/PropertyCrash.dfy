/**
 Refinement of the area to a map over every run, and store-by-store crash
 consistency: the effect of every prefix of Set's stores.
 */
module PropertyCrash {
  import opened Bytes
  import opened PropertyTable
  import opened PropertyMap

  lemma PublishedFields(serial: uint32, length: nat)
    requires length < VALUE_MAX
    ensures Published(serial, length) / GENERATIONS == length
    ensures Published(serial, length) % GENERATIONS == (serial % GENERATIONS + 2) % GENERATIONS
  {
  }

  lemma RaisedLength(serial: uint32)
    ensures Raised(serial) / GENERATIONS == serial / GENERATIONS
  {
  }

  // ------------------------------------------------------- updating a record

  lemma UpdateCrash(s: Table, i: nat, value: Data, k: nat)
    requires Canonical(s) && i < Count(s) && |value| < VALUE_MAX
    requires k <= |ValueStores(s, Slot(i), value)|
    ensures var t := Apply(s, ValueStores(s, Slot(i), value)[..k]);
            && Canonical(t) && NameAt(t, i) == NameAt(s, i)
            && Contents(t) == Contents(s)[NameAt(s, i) := ValueAt(t, i)]
  {
    var all := ValueStores(s, Slot(i), value);
    var t := Apply(s, all[..k]);
    assert GoodRecord(s, i);
    UpdateFrame(s, i, value, k);
    SerialDuringUpdate(s, Slot(i), value, k);
    PublishedFields(SerialAt(s, i), |value|);
    RaisedLength(SerialAt(s, i));
    UpdatedTable(s, t, i);
  }

  lemma UpdateComplete(s: Table, off: nat, value: Data)
    requires INFO_START <= off <= AREA_SIZE - INFO_SIZE && |value| < VALUE_MAX
    ensures RecordContent(Apply(s, ValueStores(s, off, value)), off) == Some(value)
  {
    var all := ValueStores(s, off, value);
    assert all[..|all|] == all;
    SerialDuringUpdate(s, off, value, |all|);
    PublishedFields(RecordSerial(s, off), |value|);
    UpdateValue(s, off, value);
  }

  lemma UpdateValue(s: Table, off: nat, value: Data)
    requires INFO_START <= off <= AREA_SIZE - INFO_SIZE && |value| < VALUE_MAX
    ensures var at := off + RECORD_VALUE;
            Apply(s, ValueStores(s, off, value))[at..at + |value|] == value
  {
    hide Apply;
    var all := ValueStores(s, off, value);
    var at := off + RECORD_VALUE;
    var front, tail := all[..1 + VALUE_MAX], all[1 + VALUE_MAX + |value|..];
    var copy := Copy(at, value);
    assert all == front + copy + tail;
    ApplyAppend(s, front + copy, tail);
    ApplyAppend(s, front, copy);
    ApplyCopy(Apply(s, front), at, value);
    ApplyFrame(Apply(s, front + copy), tail, at, at + |value|);
  }

  // ------------------------------------------- reading an interrupted update

  // One byte of the old value after k stores of an update: as it was until it is
  // zeroed, and zero until the new value's byte, if there is one, is copied.
  function MixedByte(before: byte, value: Data, j: nat, k: nat): byte {
    if k <= 1 + j then before
    else if j < |value| && k > 1 + VALUE_MAX + j then value[j]
    else 0
  }

  // What reads back in the meantime: as many bytes as the old value had.
  function Mixed(before: Data, value: Data, k: nat): (bytes: Data)
    ensures |bytes| == |before|
  {
    seq(|before|, j requires 0 <= j < |before| => MixedByte(before[j], value, j, k))
  }

  lemma LastByteWins(s: Table, stores: seq<Store>, j: nat, k: nat, at: nat, b: byte)
    requires j < k <= |stores| && at < AREA_SIZE && stores[j] == StoreByte(at, b)
    requires forall i :: j < i < k ==> Outside(stores[i], at, at + 1)
    ensures Apply(s, stores[..k])[at] == b
  {
    var head, tail := stores[..j + 1], stores[j + 1..k];
    assert stores[..k] == head + tail;
    ApplyAppend(s, head, tail);
    var t := Apply(s, head);
    assert head[..j] == stores[..j] && t == ApplyOne(Apply(s, stores[..j]), StoreByte(at, b));
    ApplyFrame(t, tail, at, at + 1);
    assert Apply(t, tail)[at..at + 1][0] == t[at..at + 1][0];
  }

  lemma ValueByte(s: Table, off: nat, value: Data, k: nat, j: nat)
    requires INFO_START <= off <= AREA_SIZE - INFO_SIZE && |value| < VALUE_MAX && j < VALUE_MAX
    requires k <= |ValueStores(s, off, value)|
    ensures var at := off + RECORD_VALUE + j;
            Apply(s, ValueStores(s, off, value)[..k])[at] == MixedByte(s[at], value, j, k)
  {
    hide Apply;
    var all := ValueStores(s, off, value);
    var at := off + RECORD_VALUE + j;
    if k <= 1 + j {
      ApplyFrame(s, all[..k], at, at + 1);
      assert Apply(s, all[..k])[at..at + 1][0] == s[at..at + 1][0];
    } else if j < |value| && k > 1 + VALUE_MAX + j {
      LastByteWins(s, all, 1 + VALUE_MAX + j, k, at, value[j]);
    } else {
      LastByteWins(s, all, 1 + j, k, at, 0);
    }
  }

  lemma ValueArea(s: Table, off: nat, value: Data, k: nat)
    requires INFO_START <= off <= AREA_SIZE - INFO_SIZE && |value| < VALUE_MAX
    requires k <= |ValueStores(s, off, value)|
    ensures var at := off + RECORD_VALUE;
            Apply(s, ValueStores(s, off, value)[..k])[at..at + VALUE_MAX] == Mixed(s[at..at + VALUE_MAX], value, k)
  {
    hide Apply, ValueStores, MixedByte;
    var at := off + RECORD_VALUE;
    var t := Apply(s, ValueStores(s, off, value)[..k]);
    var area, before := t[at..at + VALUE_MAX], s[at..at + VALUE_MAX];
    forall j | 0 <= j < VALUE_MAX
      ensures area[j] == MixedByte(before[j], value, j, k)
    {
      ValueByte(s, off, value, k, j);
    }
  }

  // Get during an update that stops after k stores.
  lemma UpdateReads(s: Table, i: nat, value: Data, k: nat)
    requires i < MAX_RECORDS && SerialAt(s, i) / GENERATIONS < VALUE_MAX && |value| < VALUE_MAX
    requires k <= |ValueStores(s, Slot(i), value)|
    ensures var all := ValueStores(s, Slot(i), value);
            RecordContent(Apply(s, all[..k]), Slot(i))
            == Some(if k < |all| - 1 then Mixed(ValueAt(s, i), value, k) else value)
  {
    hide Apply, RecordSerial, Raised, Published, Mixed;
    var all := ValueStores(s, Slot(i), value);
    hide ValueStores;
    var t := Apply(s, all[..k]);
    var at := Slot(i) + RECORD_VALUE;
    SerialDuringUpdate(s, Slot(i), value, k);
    PublishedFields(SerialAt(s, i), |value|);
    RaisedLength(SerialAt(s, i));
    ValueArea(s, Slot(i), value, k);
    var length := RecordSerial(t, Slot(i)) / GENERATIONS;
    assert t[at..at + length] == t[at..at + VALUE_MAX][..length];
    MixedPrefix(s[at..at + VALUE_MAX], value, k, length);
    if k < |all| - 1 {
      assert s[at..at + VALUE_MAX][..length] == ValueAt(s, i);
    }
  }

  lemma MixedPrefix(before: Data, value: Data, k: nat, length: nat)
    requires length <= |before| == VALUE_MAX && |value| < VALUE_MAX
    ensures Mixed(before, value, k)[..length] == Mixed(before[..length], value, k)
    ensures length == |value| && k >= 1 + VALUE_MAX + |value| ==> Mixed(before, value, k)[..length] == value
  {
  }

  // ------------------------------------------------------ appending a record

  lemma TrimPadded(name: Data, n: nat)
    requires NulFree(name) && n > 0
    ensures TrimNul(name + Zeros(n)) == name
  {
    var padded := name + Zeros(n);
    assert padded[|name|] == 0;
    assert forall i :: 0 <= i < |name| ==> padded[i] == name[i];
    assert FirstZero(padded) == |name|;
  }

  // Filling slot c touches nothing but that slot and the area serial.
  lemma FillFrame(s: Table, c: nat, name: Data, value: Data, k: nat)
    requires c < MAX_RECORDS && |name| < NAME_MAX && |value| < VALUE_MAX
    requires k <= |RecordStores(s, Slot(c), name, value)|
    ensures var t := Apply(s, RecordStores(s, Slot(c), name, value)[..k]);
            && Word(t, COUNT_OFFSET) == Word(s, COUNT_OFFSET)
            && s[MAGIC_OFFSET..Slot(c)] == t[MAGIC_OFFSET..Slot(c)]
  {
    hide Apply, FirstZero, Word;
    var stores := RecordStores(s, Slot(c), name, value)[..k];
    ApplyFrame(s, stores, COUNT_OFFSET, COUNT_OFFSET + 4);
    WordFrame(s, COUNT_OFFSET, Apply(s, stores), COUNT_OFFSET);
    ApplyFrame(s, stores, MAGIC_OFFSET, Slot(c));
  }

  lemma RecordsBelow(s: Table, t: Table, c: nat)
    requires c <= MAX_RECORDS
    requires s[MAGIC_OFFSET..TOC_OFFSET + 4 * c] == t[MAGIC_OFFSET..TOC_OFFSET + 4 * c]
    requires s[INFO_START..Slot(c)] == t[INFO_START..Slot(c)]
    ensures SameHeader(s, t)
    ensures forall j: nat :: j < c ==> SameRecord(s, t, j)
  {
    HeaderSlice(s, t, TOC_OFFSET + 4 * c);
    forall j: nat | j < c
      ensures SameRecord(s, t, j)
    {
      SubSlice(s, t, MAGIC_OFFSET, TOC_OFFSET + 4 * c, TOC_OFFSET + 4 * j, TOC_OFFSET + 4 * j + 4);
      SubSlice(s, t, INFO_START, Slot(c), Slot(j), Slot(j) + INFO_SIZE);
    }
  }

  // The filled slot holds the name and the value, with a clean serial.
  lemma FilledSlot(s: Table, c: nat, name: Data, value: Data)
    requires c < MAX_RECORDS && |name| < NAME_MAX && NulFree(name) && |value| < VALUE_MAX
    ensures var t := Apply(s, RecordStores(s, Slot(c), name, value));
            && NameAt(t, c) == name && RecordContent(t, Slot(c)) == Some(value)
            && SerialAt(t, c) % 2 == 0 && SerialAt(t, c) / GENERATIONS == |value|
  {
    hide Apply, ValueStores, NameStores, Published, RecordName, RecordContent, Word;
    var off := Slot(c);
    var named := Apply(s, NameStores(off, name));
    FreshName(s, off, name);
    var storing := ValueStores(named, off, value);
    assert storing[..|storing|] == storing;
    ApplyAppend(s, NameStores(off, name), storing);
    UpdateFrame(named, c, value, |storing|);
    NameReads(named, Apply(named, storing), c);
    UpdateComplete(named, off, value);
    SerialDuringUpdate(named, off, value, |storing|);
    PublishedParity(0, |value|);
    PublishedFields(0, |value|);
  }

  lemma PublishedParity(serial: uint32, length: nat)
    requires length < VALUE_MAX
    ensures Published(serial, length) % 2 == serial % 2
  {
  }

  lemma FreshName(s: Table, off: nat, name: Data)
    requires INFO_START <= off <= AREA_SIZE - INFO_SIZE && |name| < NAME_MAX && NulFree(name)
    ensures var named := Apply(s, NameStores(off, name));
            RecordName(named, off) == name && RecordSerial(named, off) == 0
  {
    hide Apply, FirstZero, TrimNul;
    var cleared := Apply(s, Copy(off, Zeros(INFO_SIZE)));
    ApplyAppend(s, Copy(off, Zeros(INFO_SIZE)), Copy(off, name));
    ApplyCopy(s, off, Zeros(INFO_SIZE));
    ApplyCopy(cleared, off, name);
    var named := Apply(s, NameStores(off, name));
    assert named == cleared[..off] + name + cleared[off + |name|..];
    assert forall x :: off + |name| <= x < off + INFO_SIZE ==> named[x] == 0;
    assert named[off..off + NAME_MAX] == name + Zeros(NAME_MAX - |name|);
    TrimPadded(name, NAME_MAX - |name|);
  }

  // Stopped before its count store, an append has changed no record.
  lemma AppendCrash(s: Table, name: Data, value: Data, k: nat)
    requires Canonical(s) && Count(s) < MAX_RECORDS && |name| < NAME_MAX && |value| < VALUE_MAX
    requires k < |AppendStores(s, Count(s), name, value)|
    ensures var t := Apply(s, AppendStores(s, Count(s), name, value)[..k]);
            && Canonical(t) && Count(t) == Count(s) && Contents(t) == Contents(s)
            && forall j: nat :: j < Count(s) ==> SameRecord(s, t, j)
  {
    hide Apply, RecordStores, Word;
    var c := Count(s);
    var filling := RecordStores(s, Slot(c), name, value);
    var all := AppendStores(s, c, name, value);
    var t := Apply(s, all[..k]);
    if k <= |filling| {
      assert all[..k] == filling[..k];
      FillFrame(s, c, name, value, k);
      SubSlice(s, t, MAGIC_OFFSET, Slot(c), MAGIC_OFFSET, TOC_OFFSET + 4 * c);
      SubSlice(s, t, MAGIC_OFFSET, Slot(c), INFO_START, Slot(c));
    } else {
      assert all[..k] == filling + [all[|filling|]];
      IndexedBelow(s, c, name, value);
    }
    RecordsBelow(s, t, c);
    IntactTable(s, t);
  }

  // The table-of-contents store of record c leaves the records below it alone.
  lemma IndexedBelow(s: Table, c: nat, name: Data, value: Data)
    requires c < MAX_RECORDS && |name| < NAME_MAX && |value| < VALUE_MAX
    ensures var t := Apply(s, RecordStores(s, Slot(c), name, value) + [PublishStores(c, name)[0]]);
            && Word(t, COUNT_OFFSET) == Word(s, COUNT_OFFSET)
            && s[MAGIC_OFFSET..TOC_OFFSET + 4 * c] == t[MAGIC_OFFSET..TOC_OFFSET + 4 * c]
            && s[INFO_START..Slot(c)] == t[INFO_START..Slot(c)]
  {
    hide Apply, Word;
    var filling := RecordStores(s, Slot(c), name, value);
    var stores := filling + [PublishStores(c, name)[0]];
    ApplyFrame(s, stores, COUNT_OFFSET, COUNT_OFFSET + 4);
    WordFrame(s, COUNT_OFFSET, Apply(s, stores), COUNT_OFFSET);
    ApplyFrame(s, stores, MAGIC_OFFSET, TOC_OFFSET + 4 * c);
    ApplyFrame(s, stores, INFO_START, Slot(c));
  }

  // The completed append.
  lemma AppendComplete(s: Table, name: Data, value: Data)
    requires Canonical(s) && Count(s) < MAX_RECORDS
    requires 1 <= |name| < NAME_MAX && NulFree(name) && |value| < VALUE_MAX
    requires name !in Contents(s)
    ensures var t := Apply(s, AppendStores(s, Count(s), name, value));
            && Canonical(t) && Count(t) == Count(s) + 1
            && Contents(t) == Contents(s)[name := value]
            && SerialAt(t, Count(s)) % 2 == 0
            && forall j: nat :: j < Count(s) ==> SameRecord(s, t, j)
  {
    hide Apply, RecordStores, Word, NameAt, ValueAt, SerialAt, SameRecord, RecordName;
    var c := Count(s);
    var filling := RecordStores(s, Slot(c), name, value);
    var publishing := PublishStores(c, name);
    var t := Apply(s, AppendStores(s, c, name, value));
    PublishedRecord(s, c, name, value);
    RecordsBelow(s, t, c);
    forall j: nat | j < Count(t)
      ensures GoodRecord(t, j) && NameAt(t, j) == if j < c then NameAt(s, j) else name
    {
      if j < c {
        assert GoodRecord(s, j);
        SameRecordReads(s, t, j);
      }
    }
    forall j: nat | j < Count(t) ensures INFO_START <= RecordOffset(t, j) <= AREA_SIZE - INFO_SIZE {
      assert GoodRecord(t, j);
    }
    ContentsUpToEntries(s, c);
    SameContents(s, t, c);
  }

  // The two publishing stores index and count the record, and nothing else.
  lemma PublishedIndex(s: Table, c: nat, name: Data, value: Data)
    requires c < MAX_RECORDS && |name| < NAME_MAX && |value| < VALUE_MAX
    ensures var filled := Apply(s, RecordStores(s, Slot(c), name, value));
            var t := Apply(s, AppendStores(s, c, name, value));
            && Count(t) == c + 1 && RecordOffset(t, c) == Slot(c)
            && s[MAGIC_OFFSET..TOC_OFFSET + 4 * c] == t[MAGIC_OFFSET..TOC_OFFSET + 4 * c]
            && s[INFO_START..Slot(c)] == t[INFO_START..Slot(c)]
            && filled[Slot(c)..Slot(c) + INFO_SIZE] == t[Slot(c)..Slot(c) + INFO_SIZE]
  {
    hide Apply, RecordStores, Word, RecordName, RecordContent;
    var filling := RecordStores(s, Slot(c), name, value);
    var publishing := PublishStores(c, name);
    var all := filling + publishing;
    assert all[..|all|] == all;
    ApplyAppend(s, filling, publishing);
    LastStoreWins(s, all, |all| - 1, |all|, COUNT_OFFSET, c + 1);
    LastStoreWins(s, all, |all| - 2, |all|, TOC_OFFSET + 4 * c, TocEntry(c, name));
    ApplyFrame(Apply(s, filling), publishing, Slot(c), Slot(c) + INFO_SIZE);
    IndexedBelow(s, c, name, value);
    var indexed := filling + [publishing[0]];
    assert all == indexed + publishing[1..];
    ApplyAppend(s, indexed, publishing[1..]);
    ApplyFrame(Apply(s, indexed), publishing[1..], MAGIC_OFFSET, TOC_OFFSET + 4 * c);
    ApplyFrame(Apply(s, indexed), publishing[1..], INFO_START, Slot(c));
  }

  lemma PublishedRecord(s: Table, c: nat, name: Data, value: Data)
    requires c < MAX_RECORDS
    requires 1 <= |name| < NAME_MAX && NulFree(name) && |value| < VALUE_MAX
    ensures var t := Apply(s, AppendStores(s, c, name, value));
            && Count(t) == c + 1 && GoodRecord(t, c)
            && NameAt(t, c) == name && ValueAt(t, c) == value && SerialAt(t, c) % 2 == 0
            && s[MAGIC_OFFSET..TOC_OFFSET + 4 * c] == t[MAGIC_OFFSET..TOC_OFFSET + 4 * c]
            && s[INFO_START..Slot(c)] == t[INFO_START..Slot(c)]
  {
    hide Apply, RecordStores, AppendStores, Word, RecordName, RecordContent;
    PublishedIndex(s, c, name, value);
    FilledSlot(s, c, name, value);
    SlotReads(Apply(s, RecordStores(s, Slot(c), name, value)), Apply(s, AppendStores(s, c, name, value)), c);
  }

  lemma AppendAccepted(s: Table, name: Data, value: Data)
    requires Accepts(s) && Count(s) < MAX_RECORDS && |name| < NAME_MAX && |value| < VALUE_MAX
    ensures Accepts(Apply(s, AppendStores(s, Count(s), name, value)))
  {
    hide Apply, AppendStores, Word, GoodRecord;
    var c := Count(s);
    var t := Apply(s, AppendStores(s, c, name, value));
    PublishedIndex(s, c, name, value);
    RecordsBelow(s, t, c);
    forall j: nat | j < Count(t) ensures INFO_START <= RecordOffset(t, j) <= AREA_SIZE - INFO_SIZE {
      if j < c {
        SameRecordReads(s, t, j);
      }
    }
  }

  lemma SlotReads(s: Table, t: Table, i: nat)
    requires i < MAX_RECORDS && s[Slot(i)..Slot(i) + INFO_SIZE] == t[Slot(i)..Slot(i) + INFO_SIZE]
    ensures NameAt(s, i) == NameAt(t, i) && SerialAt(s, i) == SerialAt(t, i)
    ensures RecordContent(s, Slot(i)) == RecordContent(t, Slot(i))
  {
    RecordReads(s, t, Slot(i));
  }

  // --------------------------------------------------------------- theorems

  // What Set means on the map, capacity and size limits included.
  function MapOutcome(m: map<Data, Data>, name: Data, value: Data): Outcome {
    if name == [] || |name| >= NAME_MAX then BadName
    else if |value| >= VALUE_MAX then BadValue
    else if name !in m && |m| >= MAX_RECORDS then Full
    else Stored
  }

  function MapSet(m: map<Data, Data>, name: Data, value: Data): map<Data, Data> {
    if MapOutcome(m, name, value) == Stored then m[name := value] else m
  }

  lemma UpdateRefinesMap(s: Table, name: Data, value: Data, off: nat)
    requires Canonical(s) && Find(s, name) == Some(off) && |value| < VALUE_MAX
    ensures var t := Apply(s, ValueStores(s, off, value));
            Canonical(t) && Contents(t) == Contents(s)[name := value]
  {
    hide Apply, ValueStores, NameAt, ValueAt, RecordContent, Find;
    LookupIsContents(s, name);
    var i: nat :| i < Count(s) && NameAt(s, i) == name && off == Slot(i);
    var all := ValueStores(s, off, value);
    assert all[..|all|] == all;
    UpdateCrash(s, i, value, |all|);
    UpdateComplete(s, off, value);
    ValueAtIs(Apply(s, all), i, value);
  }

  // Set refines the map operation.
  lemma SetRefinesMap(s: Table, name: Data, value: Data)
    requires Canonical(s) && NulFree(name)
    ensures SetOutcome(s, name, value) == MapOutcome(Contents(s), name, value)
    ensures var t := Apply(s, SetStores(s, name, value));
            Canonical(t) && Contents(t) == MapSet(Contents(s), name, value)
  {
    hide Apply, ValueStores, AppendStores, NameAt, ValueAt, Find, Word, GoodRecord;
    LookupIsContents(s, name);
    ContentsSize(s, Count(s));
    ApplyNothing(s);
    if SetOutcome(s, name, value) == Stored {
      match Find(s, name)
      case Some(off) => UpdateRefinesMap(s, name, value, off);
      case None => AppendComplete(s, name, value);
    }
  }

  lemma ValueAtIs(s: Table, i: nat, value: Data)
    requires i < MAX_RECORDS && RecordContent(s, Slot(i)) == Some(value)
    ensures ValueAt(s, i) == value
  {
  }

  // ------------------------------------------------------- adopted tables

  // A table with the header and the index of an accepted one is accepted.
  lemma IndexAccepted(s: Table, t: Table)
    requires Accepts(s) && Count(t) == Count(s)
    requires s[MAGIC_OFFSET..TOC_OFFSET + 4 * Count(s)] == t[MAGIC_OFFSET..TOC_OFFSET + 4 * Count(s)]
    ensures Accepts(t)
    ensures forall j: nat :: j < Count(s) ==> RecordOffset(t, j) == RecordOffset(s, j)
  {
    hide Word;
    var hi := TOC_OFFSET + 4 * Count(s);
    HeaderSlice(s, t, hi);
    forall j: nat | j < Count(s)
      ensures RecordOffset(t, j) == RecordOffset(s, j)
    {
      SubSlice(s, t, MAGIC_OFFSET, hi, TOC_OFFSET + 4 * j, TOC_OFFSET + 4 * j + 4);
      WordFrame(s, TOC_OFFSET + 4 * j, t, TOC_OFFSET + 4 * j);
    }
  }

  // The first byte of the record Set writes: the one found, or the first free slot.
  ghost function Target(s: Table, name: Data): (off: nat)
    requires Accepts(s) && (Find(s, name).Some? || Count(s) < MAX_RECORDS)
    ensures INFO_START <= off <= AREA_SIZE - INFO_SIZE
  {
    match Find(s, name)
    case Some(off) => off
    case None => Slot(Count(s))
  }

  // On whatever table the daemon has adopted, a stopped update leaves an accepted
  // table, with the same index and with nothing changed but the record it writes.
  lemma UpdateKeepsIndex(s: Table, off: nat, value: Data, k: nat)
    requires Accepts(s) && INFO_START <= off <= AREA_SIZE - INFO_SIZE && |value| < VALUE_MAX
    requires k <= |ValueStores(s, off, value)|
    ensures var t := Apply(s, ValueStores(s, off, value)[..k]);
            && Accepts(t) && Count(t) == Count(s)
            && (forall j: nat :: j < Count(s) ==> RecordOffset(t, j) == RecordOffset(s, j))
            && s[INFO_START..off] == t[INFO_START..off]
            && s[off + INFO_SIZE..AREA_SIZE] == t[off + INFO_SIZE..AREA_SIZE]
  {
    hide Apply, Word;
    var stores := ValueStores(s, off, value)[..k];
    var t := Apply(s, stores);
    ApplyFrame(s, stores, COUNT_OFFSET, COUNT_OFFSET + 4);
    WordFrame(s, COUNT_OFFSET, t, COUNT_OFFSET);
    ApplyFrame(s, stores, MAGIC_OFFSET, TOC_OFFSET + 4 * Count(s));
    ApplyFrame(s, stores, INFO_START, off);
    ApplyFrame(s, stores, off + INFO_SIZE, AREA_SIZE);
    IndexAccepted(s, t);
  }

  // So does a stopped append, up to the store of the new count.
  lemma AppendKeepsIndex(s: Table, name: Data, value: Data, k: nat)
    requires Accepts(s) && Count(s) < MAX_RECORDS && |name| < NAME_MAX && |value| < VALUE_MAX
    requires k < |AppendStores(s, Count(s), name, value)|
    ensures var t := Apply(s, AppendStores(s, Count(s), name, value)[..k]);
            && Accepts(t) && Count(t) == Count(s)
            && forall j: nat :: j < Count(s) ==> RecordOffset(t, j) == RecordOffset(s, j)
  {
    hide Apply, RecordStores, Word;
    var c := Count(s);
    var filling := RecordStores(s, Slot(c), name, value);
    var all := AppendStores(s, c, name, value);
    var t := Apply(s, all[..k]);
    if k <= |filling| {
      assert all[..k] == filling[..k];
      FillFrame(s, c, name, value, k);
      SubSlice(s, t, MAGIC_OFFSET, Slot(c), MAGIC_OFFSET, TOC_OFFSET + 4 * c);
    } else {
      assert all[..k] == filling + [all[|filling|]];
      IndexedBelow(s, c, name, value);
    }
    IndexAccepted(s, t);
  }

  // Stopping Set after any store, on any table a daemon can have adopted and for
  // any name and value, leaves a table the next daemon adopts.
  lemma SetStaysAccepted(s: Table, name: Data, value: Data, k: nat)
    requires Accepts(s) && k <= |SetStores(s, name, value)|
    ensures Accepts(Apply(s, SetStores(s, name, value)[..k]))
  {
    hide Apply, ValueStores, AppendStores, Find, Word;
    var all := SetStores(s, name, value);
    assert k == |all| ==> all[..k] == all;
    if SetOutcome(s, name, value) != Stored {
      ApplyNothing(s);
    } else {
      match Find(s, name)
      case Some(off) => UpdateKeepsIndex(s, off, value, k);
      case None =>
        if k < |all| {
          AppendKeepsIndex(s, name, value, k);
        } else {
          AppendAccepted(s, name, value);
        }
    }
  }

  // Nor does it touch, in the record area, a byte outside the record it writes, so
  // a record apart from that one keeps its name, its serial and its value.
  lemma SetSparesRecordsApart(s: Table, name: Data, value: Data, k: nat, at: nat)
    requires Accepts(s) && SetOutcome(s, name, value) == Stored && k <= |SetStores(s, name, value)|
    requires INFO_START <= at <= AREA_SIZE - INFO_SIZE
    requires at + INFO_SIZE <= Target(s, name) || Target(s, name) + INFO_SIZE <= at
    ensures var t := Apply(s, SetStores(s, name, value)[..k]);
            && RecordName(t, at) == RecordName(s, at) && RecordSerial(t, at) == RecordSerial(s, at)
            && RecordContent(t, at) == RecordContent(s, at)
  {
    hide Apply, Find, ValueStores, AppendStores, RecordName, RecordSerial, RecordContent;
    var t := Apply(s, SetStores(s, name, value)[..k]);
    match Find(s, name) {
      case Some(off) => UpdateKeepsIndex(s, off, value, k);
      case None => AppendTouchesItsSlot(s, Count(s), name, value, k);
    }
    var off := Target(s, name);
    if at + INFO_SIZE <= off {
      SubSlice(s, t, INFO_START, off, at, at + INFO_SIZE);
    } else {
      SubSlice(s, t, off + INFO_SIZE, AREA_SIZE, at, at + INFO_SIZE);
    }
    RecordReads(s, t, at);
  }

  lemma AppendTouchesItsSlot(s: Table, c: nat, name: Data, value: Data, k: nat)
    requires c < MAX_RECORDS && |name| < NAME_MAX && |value| < VALUE_MAX
    requires k <= |AppendStores(s, c, name, value)|
    ensures var t := Apply(s, AppendStores(s, c, name, value)[..k]);
            && s[INFO_START..Slot(c)] == t[INFO_START..Slot(c)]
            && s[Slot(c) + INFO_SIZE..AREA_SIZE] == t[Slot(c) + INFO_SIZE..AREA_SIZE]
  {
    hide Apply, FirstZero, Word;
    var stores := AppendStores(s, c, name, value)[..k];
    ApplyFrame(s, stores, INFO_START, Slot(c));
    ApplyFrame(s, stores, Slot(c) + INFO_SIZE, AREA_SIZE);
  }

  lemma RecordReads(s: Table, t: Table, at: nat)
    requires at + INFO_SIZE <= AREA_SIZE && s[at..at + INFO_SIZE] == t[at..at + INFO_SIZE]
    ensures RecordName(s, at) == RecordName(t, at) && RecordSerial(s, at) == RecordSerial(t, at)
    ensures RecordContent(s, at) == RecordContent(t, at)
  {
    hide Word, FirstZero;
    SubSlice(s, t, at, at + INFO_SIZE, at, at + NAME_MAX);
    SubSlice(s, t, at, at + INFO_SIZE, at + RECORD_SERIAL, at + RECORD_SERIAL + 4);
    WordFrame(s, at + RECORD_SERIAL, t, at + RECORD_SERIAL);
    var length := RecordSerial(s, at) / GENERATIONS;
    if length <= VALUE_MAX {
      SubSlice(s, t, at, at + INFO_SIZE, at + RECORD_VALUE, at + RECORD_VALUE + length);
    }
  }

  // What a name reads as when k of the n stores of a successful Set are done.
  function DuringSet(before: Option<Data>, value: Data, k: nat, n: nat): Option<Data> {
    match before
    case None => if k < n then None else Some(value)
    case Some(bytes) => Some(if k + 1 < n then Mixed(bytes, value, k) else value)
  }

  // A good record's content is its value.
  lemma FoundReads(s: Table, i: nat)
    requires Canonical(s) && i < Count(s)
    ensures SerialAt(s, i) / GENERATIONS < VALUE_MAX
    ensures NameAt(s, i) in Contents(s) && Contents(s)[NameAt(s, i)] == ValueAt(s, i)
  {
    assert GoodRecord(s, i);
    ContentsUpToEntries(s, Count(s));
  }

  // What a stop after k stores of Set leaves behind on a canonical table: every
  // other name reads as before; a new name is absent until the last store and wholly
  // present after it; a known name reads as the mixture stored so far until its new
  // value is published; and the table is again one on which Set refines the map.
  ghost predicate Consistent(s: Table, name: Data, value: Data, k: nat)
    requires Accepts(s) && k <= |SetStores(s, name, value)|
  {
    var t := Apply(s, SetStores(s, name, value)[..k]);
    && Canonical(t)
    && (forall n :: n != name ==> Lookup(t, n) == Lookup(s, n))
    && (SetOutcome(s, name, value) != Stored ==> t == s)
    && (SetOutcome(s, name, value) == Stored ==>
          Lookup(t, name) == DuringSet(Lookup(s, name), value, k, |SetStores(s, name, value)|))
  }

  // Crash consistency: the daemon dies after k of Set's stores and another adopts
  // the table, whatever it was; and what it reads is consistent if this daemon, or
  // one before it that crashed, has written the table.
  lemma SetCrashConsistent(s: Table, name: Data, value: Data, k: nat)
    requires Accepts(s) && k <= |SetStores(s, name, value)|
    ensures Accepts(Apply(s, SetStores(s, name, value)[..k]))
    ensures Canonical(s) && NulFree(name) ==> Consistent(s, name, value, k)
  {
    hide Apply, SetStores, Canonical, Consistent;
    SetStaysAccepted(s, name, value, k);
    if Canonical(s) && NulFree(name) {
      CanonicalCrash(s, name, value, k);
    }
  }

  lemma CanonicalCrash(s: Table, name: Data, value: Data, k: nat)
    requires Canonical(s) && NulFree(name) && k <= |SetStores(s, name, value)|
    ensures Consistent(s, name, value, k)
  {
    hide Apply, ValueStores, AppendStores, NameAt, ValueAt, Find, Lookup, Word, GoodRecord, Mixed;
    var all := SetStores(s, name, value);
    var t := Apply(s, all[..k]);
    LookupIsContents(s, name);
    SetRefinesMap(s, name, value);
    assert k == |all| ==> all[..k] == all;
    if SetOutcome(s, name, value) != Stored {
      assert all[..k] == [];
      ApplyNothing(s);
    } else {
      match Find(s, name) {
        case Some(off) =>
          var i: nat :| i < Count(s) && NameAt(s, i) == name && off == Slot(i);
          FoundReads(s, i);
          UpdateCrash(s, i, value, k);
          UpdateReads(s, i, value, k);
          ValueAtIs(t, i, if k < |all| - 1 then Mixed(ValueAt(s, i), value, k) else value);
        case None =>
          if k < |all| {
            AppendCrash(s, name, value, k);
          }
      }
    }
    forall n ensures Lookup(t, n) == (if n in Contents(t) then Some(Contents(t)[n]) else None)
    {
      LookupIsContents(t, n);
    }
    forall n ensures Lookup(s, n) == (if n in Contents(s) then Some(Contents(s)[n]) else None)
    {
      LookupIsContents(s, n);
    }
  }

  lemma ApplyNothing(s: Table)
    ensures Apply(s, []) == s
  {
  }

  // A name with an embedded NUL can be stored but never found again.
  lemma FoundNamesAreNulFree(s: Table, name: Data, i: nat)
    requires Accepts(s) && i <= Count(s) && !NulFree(name)
    ensures FindFrom(s, name, i) == None
    decreases Count(s) - i
  {
    if i < Count(s) {
      FoundNamesAreNulFree(s, name, i + 1);
    }
  }

  // Exactly the NUL-free names read back what was just stored under them.
  lemma StoredReadsBackIffNulFree(s: Table, name: Data, value: Data)
    requires Canonical(s) && SetOutcome(s, name, value) == Stored
    ensures var t := Apply(s, SetStores(s, name, value));
            Accepts(t) && (Lookup(t, name) == Some(value) <==> NulFree(name))
  {
    var t := Apply(s, SetStores(s, name, value));
    if NulFree(name) {
      SetRefinesMap(s, name, value);
      LookupIsContents(t, name);
    } else {
      FoundNamesAreNulFree(s, name, 0);
      AppendAccepted(s, name, value);
      FoundNamesAreNulFree(t, name, 0);
    }
  }

  // A crash inside format leaves a table that is either rejected or empty:
  // the garbage that made the daemon reformat is never adopted.
  lemma FormatCrash(s: Table, k: nat)
    requires !Accepts(s) && k <= |FormatStores()|
    ensures var t := Apply(s, FormatStores()[..k]); Accepts(t) ==> Count(t) == 0
  {
    hide Apply;
    var all := FormatStores();
    var t := Apply(s, all[..k]);
    if k == 0 {
      assert all[..0] == [];
      ApplyNothing(s);
    } else if k <= AREA_SIZE {
      assert all[..k] == Copy(0, Zeros(k));
      ApplyCopy(s, 0, Zeros(k));
      assert t[0] == 0;
      assert k < 4 || (t[1] == 0 && t[2] == 0 && t[3] == 0);
    } else {
      FormatTail(s, k - AREA_SIZE);
    }
  }

  lemma FormatTail(s: Table, n: nat)
    requires 1 <= n <= 4
    ensures Count(Apply(s, FormatStores()[..AREA_SIZE + n])) == 0
  {
    hide Apply;
    var all := FormatStores();
    LastStoreWins(s, all, AREA_SIZE, AREA_SIZE + n, COUNT_OFFSET, 0);
  }

  // ------------------------------------------------------------ whole runs

  datatype Request = Request(name: Data, value: Data)

  // The table after a run of requests, each cut short after `kept` stores
  // (a request whose `kept` covers all of its stores completed).
  ghost predicate Runs(s: Table, requests: seq<Request>, kept: seq<nat>, t: Table)
    decreases |requests|
  {
    if requests == [] then kept == [] && t == s
    else
      && |kept| == |requests| && Accepts(s)
      && var all := SetStores(s, requests[0].name, requests[0].value);
      && kept[0] <= |all|
      && Runs(Apply(s, all[..kept[0]]), requests[1..], kept[1..], t)
  }

  function MapRun(m: map<Data, Data>, requests: seq<Request>): map<Data, Data>
    decreases |requests|
  {
    if requests == [] then m else MapRun(MapSet(m, requests[0].name, requests[0].value), requests[1..])
  }

  // Every run from an accepted table, interrupted anywhere any number of times,
  // leaves an accepted one; and from a table of this daemon's, with NUL-free names,
  // a well-formed one on which names never asked for keep their value.
  lemma {:induction false} RunsStayAccepted(s: Table, requests: seq<Request>, kept: seq<nat>, t: Table)
    requires Accepts(s) && Runs(s, requests, kept, t)
    ensures Accepts(t)
    ensures Canonical(s) && (forall r :: r in requests ==> NulFree(r.name)) ==>
              && Canonical(t)
              && forall n :: (forall r :: r in requests ==> r.name != n) ==> Lookup(t, n) == Lookup(s, n)
    decreases |requests|
  {
    hide Apply, SetStores, Canonical, Lookup;
    if requests != [] {
      var first := requests[0];
      var all := SetStores(s, first.name, first.value);
      assert first in requests;
      SetCrashConsistent(s, first.name, first.value, kept[0]);
      RunsStayAccepted(Apply(s, all[..kept[0]]), requests[1..], kept[1..], t);
    }
  }

  ghost predicate Completed(s: Table, requests: seq<Request>, t: Table)
    decreases |requests|
  {
    if requests == [] then t == s
    else Accepts(s) && Completed(Apply(s, SetStores(s, requests[0].name, requests[0].value)), requests[1..], t)
  }

  // An uninterrupted run from a formatted area agrees with the finite map.
  lemma {:induction false} CompletedRunIsMap(s: Table, requests: seq<Request>, t: Table, name: Data)
    requires Canonical(s) && Completed(s, requests, t)
    requires forall r :: r in requests ==> NulFree(r.name)
    ensures Canonical(t) && Contents(t) == MapRun(Contents(s), requests)
    ensures var m := MapRun(Contents(s), requests);
            Lookup(t, name) == if name in m then Some(m[name]) else None
    decreases |requests|
  {
    hide Apply, SetStores, Lookup;
    if requests == [] {
      LookupIsContents(t, name);
    } else {
      assert requests[0] in requests;
      SetRefinesMap(s, requests[0].name, requests[0].value);
      CompletedRunIsMap(Apply(s, SetStores(s, requests[0].name, requests[0].value)), requests[1..], t, name);
    }
  }
}
