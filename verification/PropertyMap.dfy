/**
 The table a formatted area evolves into is a finite map: what Get returns, what
 Set changes, and what a crash after any single store leaves behind.
 */
module PropertyMap {
  import opened Bytes
  import opened PropertyTable

  function NameAt(s: Table, i: nat): Data
    requires i < MAX_RECORDS
  {
    RecordName(s, Slot(i))
  }

  function SerialAt(s: Table, i: nat): uint32
    requires i < MAX_RECORDS
  {
    RecordSerial(s, Slot(i))
  }

  function ValueAt(s: Table, i: nat): Data
    requires i < MAX_RECORDS
  {
    match RecordContent(s, Slot(i))
    case Some(v) => v
    case None => []
  }

  // Record i is laid out, named and sized as Set leaves it.
  ghost predicate GoodRecord(s: Table, i: nat)
    requires i < MAX_RECORDS
  {
    && RecordOffset(s, i) == Slot(i)
    && 1 <= |NameAt(s, i)| < NAME_MAX
    && SerialAt(s, i) / GENERATIONS < VALUE_MAX
  }

  // Every table this daemon can have written, crashes included.
  ghost predicate Canonical(s: Table) {
    && Accepts(s)
    && (forall i: nat :: i < Count(s) ==> GoodRecord(s, i))
    && (forall i: nat, j: nat :: i < j < Count(s) ==> NameAt(s, i) != NameAt(s, j))
  }

  ghost function ContentsUpTo(s: Table, n: nat): map<Data, Data>
    requires n <= MAX_RECORDS
  {
    if n == 0 then map[] else ContentsUpTo(s, n - 1)[NameAt(s, n - 1) := ValueAt(s, n - 1)]
  }

  // The finite map the counted records represent.
  ghost function Contents(s: Table): map<Data, Data>
    requires Accepts(s)
  {
    ContentsUpTo(s, Count(s))
  }

  lemma {:induction false} ContentsUpToEntries(s: Table, n: nat)
    requires n <= MAX_RECORDS
    requires forall i: nat, j: nat :: i < j < n ==> NameAt(s, i) != NameAt(s, j)
    ensures forall i: nat :: i < n ==>
              NameAt(s, i) in ContentsUpTo(s, n) && ContentsUpTo(s, n)[NameAt(s, i)] == ValueAt(s, i)
    ensures forall name :: name in ContentsUpTo(s, n) ==> exists i: nat :: i < n && NameAt(s, i) == name
  {
    hide NameAt, ValueAt, FirstZero, Word;
    if n != 0 {
      ContentsUpToEntries(s, n - 1);
      forall name | name in ContentsUpTo(s, n)
        ensures exists i: nat :: i < n && NameAt(s, i) == name
      {
        if name != NameAt(s, n - 1) {
          assert name in ContentsUpTo(s, n - 1);
          var i: nat :| i < n - 1 && NameAt(s, i) == name;
        }
      }
    }
  }

  lemma {:induction false} ContentsSize(s: Table, n: nat)
    requires n <= MAX_RECORDS
    requires forall i: nat, j: nat :: i < j < n ==> NameAt(s, i) != NameAt(s, j)
    ensures |ContentsUpTo(s, n)| == n
  {
    hide NameAt, ValueAt;
    if n != 0 {
      ContentsSize(s, n - 1);
      ContentsUpToEntries(s, n - 1);
      assert NameAt(s, n - 1) !in ContentsUpTo(s, n - 1);
    }
  }

  lemma {:induction false} FindFromLocates(s: Table, name: Data, i: nat)
    requires Canonical(s) && i <= Count(s)
    ensures match FindFrom(s, name, i)
            case None => forall j: nat :: i <= j < Count(s) ==> NameAt(s, j) != name
            case Some(off) => exists j: nat :: i <= j < Count(s) && NameAt(s, j) == name && off == Slot(j)
    decreases Count(s) - i
  {
    if i < Count(s) {
      assert GoodRecord(s, i);
      if NameAt(s, i) != name {
        FindFromLocates(s, name, i + 1);
      }
    }
  }

  // Get reads the map.
  lemma LookupIsContents(s: Table, name: Data)
    requires Canonical(s)
    ensures Lookup(s, name) == if name in Contents(s) then Some(Contents(s)[name]) else None
    ensures Find(s, name).Some? <==> name in Contents(s)
    ensures Find(s, name).Some? ==>
              exists i: nat :: i < Count(s) && NameAt(s, i) == name && Find(s, name) == Some(Slot(i))
  {
    hide ContentsUpTo, FindFrom;
    FindFromLocates(s, name, 0);
    ContentsUpToEntries(s, Count(s));
    match Find(s, name)
    case None =>
    case Some(off) =>
      var i: nat :| i < Count(s) && NameAt(s, i) == name && off == Slot(i);
      assert GoodRecord(s, i);
  }

  // ------------------------------------------------------------------ framing

  // s and t agree on the whole of record i.
  ghost predicate SameRecord(s: Table, t: Table, i: nat)
    requires i < MAX_RECORDS
  {
    && s[TOC_OFFSET + 4 * i..TOC_OFFSET + 4 * i + 4] == t[TOC_OFFSET + 4 * i..TOC_OFFSET + 4 * i + 4]
    && s[Slot(i)..Slot(i) + INFO_SIZE] == t[Slot(i)..Slot(i) + INFO_SIZE]
  }

  lemma SubSlice(s: Data, t: Data, lo: nat, hi: nat, a: nat, b: nat)
    requires lo <= a <= b <= hi <= |s| && hi <= |t|
    requires s[lo..hi] == t[lo..hi]
    ensures s[a..b] == t[a..b]
  {
    forall k | a <= k < b ensures s[k] == t[k] {
      assert s[lo..hi][k - lo] == t[lo..hi][k - lo];
    }
  }

  lemma SameRecordReads(s: Table, t: Table, i: nat)
    requires i < MAX_RECORDS && SameRecord(s, t, i)
    ensures RecordOffset(s, i) == RecordOffset(t, i)
    ensures NameAt(s, i) == NameAt(t, i)
    ensures SerialAt(s, i) == SerialAt(t, i)
    ensures ValueAt(s, i) == ValueAt(t, i)
    ensures GoodRecord(s, i) == GoodRecord(t, i)
  {
    hide Word, FirstZero;
    var off := Slot(i);
    WordFrame(s, TOC_OFFSET + 4 * i, t, TOC_OFFSET + 4 * i);
    SubSlice(s, t, off, off + INFO_SIZE, off, off + NAME_MAX);
    SubSlice(s, t, off, off + INFO_SIZE, off + RECORD_SERIAL, off + RECORD_SERIAL + 4);
    WordFrame(s, off + RECORD_SERIAL, t, off + RECORD_SERIAL);
    var length := SerialAt(s, i) / GENERATIONS;
    if length <= VALUE_MAX {
      SubSlice(s, t, off, off + INFO_SIZE, off + RECORD_VALUE, off + RECORD_VALUE + length);
    }
  }

  ghost predicate SameHeader(s: Table, t: Table) {
    && Word(s, MAGIC_OFFSET) == Word(t, MAGIC_OFFSET)
    && Word(s, VERSION_OFFSET) == Word(t, VERSION_OFFSET)
  }

  lemma {:induction false} SameContents(s: Table, t: Table, n: nat)
    requires n <= MAX_RECORDS
    requires forall i: nat :: i < n ==> SameRecord(s, t, i)
    ensures ContentsUpTo(s, n) == ContentsUpTo(t, n)
  {
    hide NameAt, ValueAt, SameRecord;
    if n != 0 {
      SameContents(s, t, n - 1);
      SameRecordReads(s, t, n - 1);
    }
  }

  // t holds at least the records of s, each intact: uncounted bytes may differ.
  lemma IntactTable(s: Table, t: Table)
    requires Canonical(s) && SameHeader(s, t) && Count(t) == Count(s)
    requires forall i: nat :: i < Count(s) ==> SameRecord(s, t, i)
    ensures Canonical(t) && Contents(t) == Contents(s)
  {
    forall i: nat | i < Count(t)
      ensures GoodRecord(t, i) && NameAt(t, i) == NameAt(s, i)
    {
      SameRecordReads(s, t, i);
    }
    assert forall i: nat :: i < Count(t) ==> INFO_START <= RecordOffset(t, i) <= AREA_SIZE - INFO_SIZE by {
      forall i: nat | i < Count(t) ensures INFO_START <= RecordOffset(t, i) <= AREA_SIZE - INFO_SIZE {
        assert GoodRecord(t, i);
      }
    }
    SameContents(s, t, Count(s));
  }

  // s and t agree on record i except for its serial and value.
  ghost predicate SameName(s: Table, t: Table, i: nat)
    requires i < MAX_RECORDS
  {
    && s[TOC_OFFSET + 4 * i..TOC_OFFSET + 4 * i + 4] == t[TOC_OFFSET + 4 * i..TOC_OFFSET + 4 * i + 4]
    && s[Slot(i)..Slot(i) + NAME_MAX] == t[Slot(i)..Slot(i) + NAME_MAX]
  }

  lemma {:induction false} ContentsWithOneUpdate(s: Table, t: Table, i: nat, n: nat)
    requires i < n <= MAX_RECORDS
    requires forall j: nat :: j < n && j != i ==> SameRecord(s, t, j)
    requires NameAt(s, i) == NameAt(t, i)
    requires forall j: nat :: j < n && j != i ==> NameAt(s, j) != NameAt(s, i)
    ensures ContentsUpTo(t, n) == ContentsUpTo(s, n)[NameAt(s, i) := ValueAt(t, i)]
  {
    hide NameAt, ValueAt, SameRecord;
    if i < n - 1 {
      ContentsWithOneUpdate(s, t, i, n - 1);
      SameRecordReads(s, t, n - 1);
    } else {
      SameContents(s, t, n - 1);
    }
  }

  lemma UpdatedTable(s: Table, t: Table, i: nat)
    requires Canonical(s) && SameHeader(s, t) && Count(t) == Count(s) && i < Count(s)
    requires forall j: nat :: j < Count(s) && j != i ==> SameRecord(s, t, j)
    requires SameName(s, t, i) && SerialAt(t, i) / GENERATIONS < VALUE_MAX
    ensures Canonical(t) && NameAt(t, i) == NameAt(s, i)
    ensures Contents(t) == Contents(s)[NameAt(s, i) := ValueAt(t, i)]
  {
    hide NameAt, ValueAt, SerialAt, SameRecord, SameName, Word;
    forall j: nat | j < Count(t)
      ensures GoodRecord(t, j) && NameAt(t, j) == NameAt(s, j)
    {
      assert GoodRecord(s, j);
      if j != i {
        SameRecordReads(s, t, j);
      } else {
        NameReads(s, t, i);
      }
    }
    forall j: nat | j < Count(t) ensures INFO_START <= RecordOffset(t, j) <= AREA_SIZE - INFO_SIZE {
      assert GoodRecord(t, j);
    }
    ContentsWithOneUpdate(s, t, i, Count(s));
  }

  lemma NameReads(s: Table, t: Table, i: nat)
    requires i < MAX_RECORDS && SameName(s, t, i)
    ensures NameAt(s, i) == NameAt(t, i) && RecordOffset(s, i) == RecordOffset(t, i)
  {
    WordFrame(s, TOC_OFFSET + 4 * i, t, TOC_OFFSET + 4 * i);
  }

  // -------------------------------------------------- one store after another

  // The last store to a word is the one a later reader sees.
  lemma LastStoreWins(s: Table, stores: seq<Store>, j: nat, k: nat, at: nat, w: uint32)
    requires j < k <= |stores| && at + 4 <= AREA_SIZE && stores[j] == StoreWord(at, w)
    requires forall i :: j < i < k ==> Outside(stores[i], at, at + 4)
    ensures Word(Apply(s, stores[..k]), at) == w
  {
    var head, tail := stores[..j + 1], stores[j + 1..k];
    assert stores[..k] == head + tail;
    ApplyAppend(s, head, tail);
    var t := Apply(s, head[..j]);
    assert Apply(s, head) == ApplyOne(t, StoreWord(at, w));
    WordOfPutWord(t, at, w);
    ApplyFrame(Apply(s, head), tail, at, at + 4);
    WordFrame(Apply(s, head), at, Apply(s, stores[..k]), at);
  }

  // The record serial through an update: untouched, then dirty, then published.
  lemma SerialDuringUpdate(s: Table, off: nat, value: Data, k: nat)
    requires INFO_START <= off <= AREA_SIZE - INFO_SIZE && |value| < VALUE_MAX
    requires k <= |ValueStores(s, off, value)|
    ensures var all := ValueStores(s, off, value);
            RecordSerial(Apply(s, all[..k]), off) ==
            if k == 0 then RecordSerial(s, off)
            else if k < |all| - 1 then Raised(RecordSerial(s, off))
            else Published(RecordSerial(s, off), |value|)
  {
    var all := ValueStores(s, off, value);
    if k == 0 {
      assert all[..0] == [];
    } else if k < |all| - 1 {
      LastStoreWins(s, all, 0, k, off + RECORD_SERIAL, Raised(RecordSerial(s, off)));
    } else {
      LastStoreWins(s, all, |all| - 2, k, off + RECORD_SERIAL, Published(RecordSerial(s, off), |value|));
    }
  }

  // An update touches only its own serial and value, and the area serial.
  lemma UpdateFrame(s: Table, i: nat, value: Data, k: nat)
    requires i < MAX_RECORDS && |value| < VALUE_MAX && k <= |ValueStores(s, Slot(i), value)|
    ensures var t := Apply(s, ValueStores(s, Slot(i), value)[..k]);
            && SameHeader(s, t) && Count(t) == Count(s) && SameName(s, t, i)
            && forall j: nat :: j < MAX_RECORDS && j != i ==> SameRecord(s, t, j)
  {
    var stores := ValueStores(s, Slot(i), value)[..k];
    var t := Apply(s, stores);
    var lo, hi := Slot(i) + RECORD_SERIAL, Slot(i) + INFO_SIZE;
    assert forall x :: 0 <= x < |stores| ==>
      && Outside(stores[x], COUNT_OFFSET, COUNT_OFFSET + 4)
      && Outside(stores[x], MAGIC_OFFSET, lo)
      && Outside(stores[x], hi, AREA_SIZE);
    ApplyFrame(s, stores, COUNT_OFFSET, COUNT_OFFSET + 4);
    WordFrame(s, COUNT_OFFSET, t, COUNT_OFFSET);
    ApplyFrame(s, stores, MAGIC_OFFSET, lo);
    ApplyFrame(s, stores, hi, AREA_SIZE);
    HeaderSlice(s, t, lo);
    RecordsAround(s, t, i);
  }

  lemma RecordsAround(s: Table, t: Table, i: nat)
    requires i < MAX_RECORDS
    requires s[MAGIC_OFFSET..Slot(i) + RECORD_SERIAL] == t[MAGIC_OFFSET..Slot(i) + RECORD_SERIAL]
    requires s[Slot(i) + INFO_SIZE..AREA_SIZE] == t[Slot(i) + INFO_SIZE..AREA_SIZE]
    ensures SameName(s, t, i)
    ensures forall j: nat :: j < MAX_RECORDS && j != i ==> SameRecord(s, t, j)
  {
    var lo, hi := Slot(i) + RECORD_SERIAL, Slot(i) + INFO_SIZE;
    SubSlice(s, t, MAGIC_OFFSET, lo, TOC_OFFSET + 4 * i, TOC_OFFSET + 4 * i + 4);
    SubSlice(s, t, MAGIC_OFFSET, lo, Slot(i), Slot(i) + NAME_MAX);
    forall j: nat | j < MAX_RECORDS && j != i
      ensures SameRecord(s, t, j)
    {
      SubSlice(s, t, MAGIC_OFFSET, lo, TOC_OFFSET + 4 * j, TOC_OFFSET + 4 * j + 4);
      if j < i {
        SubSlice(s, t, MAGIC_OFFSET, lo, Slot(j), Slot(j) + INFO_SIZE);
      } else {
        SubSlice(s, t, hi, AREA_SIZE, Slot(j), Slot(j) + INFO_SIZE);
      }
    }
  }

  lemma HeaderSlice(s: Table, t: Table, hi: nat)
    requires VERSION_OFFSET + 4 <= hi <= AREA_SIZE && s[MAGIC_OFFSET..hi] == t[MAGIC_OFFSET..hi]
    ensures SameHeader(s, t)
  {
    SubSlice(s, t, MAGIC_OFFSET, hi, MAGIC_OFFSET, MAGIC_OFFSET + 4);
    SubSlice(s, t, MAGIC_OFFSET, hi, VERSION_OFFSET, VERSION_OFFSET + 4);
    WordFrame(s, MAGIC_OFFSET, t, MAGIC_OFFSET);
    WordFrame(s, VERSION_OFFSET, t, VERSION_OFFSET);
  }
}
