/**
 Readers in other processes walk the mapping without any lock while the daemon
 stores into it. A run of the daemon is a trace of single stores; a reader
 samples the memory at points of that trace of its own choosing.
 */
module PropertyReader {
  import opened Bytes
  import opened PropertyTable
  import opened PropertyArea
  import opened PropertyMap
  import opened PropertyCrash

  // The daemon part-way through one Set: `k` of its stores are in memory.
  datatype Writer = Writer(base: Table, name: Data, value: Data, k: nat)

  ghost predicate EvenSerials(s: Table) {
    forall i: nat :: i < Count(s) && i < MAX_RECORDS ==> SerialAt(s, i) % 2 == 0
  }

  // No interrupted update anywhere: true of a formatted table.
  ghost predicate Sound(w: Writer) {
    && Canonical(w.base) && EvenSerials(w.base) && NulFree(w.name)
    && w.k <= |SetStores(w.base, w.name, w.value)|
  }

  ghost function Program(w: Writer): seq<Store>
    requires Sound(w)
  {
    SetStores(w.base, w.name, w.value)
  }

  ghost function Memory(w: Writer): Table
    requires Sound(w)
  {
    Apply(w.base, Program(w)[..w.k])
  }

  // One store, or the start of the next request.
  ghost predicate Step(w: Writer, w': Writer)
    requires Sound(w)
  {
    if w.k < |Program(w)| then w' == w.(k := w.k + 1)
    else w' == Writer(Memory(w), w'.name, w'.value, 0) && NulFree(w'.name)
  }

  lemma MemoryIsCanonical(w: Writer)
    requires Sound(w)
    ensures Canonical(Memory(w))
  {
    CanonicalCrash(w.base, w.name, w.value, w.k);
  }

  lemma CompletedSerialsAreEven(s: Table, name: Data, value: Data)
    requires Canonical(s) && EvenSerials(s) && NulFree(name)
    ensures EvenSerials(Apply(s, SetStores(s, name, value)))
  {
    hide Apply, ValueStores, AppendStores, NameAt, SerialAt, Find, Word, GoodRecord, SameRecord;
    var t := Apply(s, SetStores(s, name, value));
    ApplyNothing(s);
    LookupIsContents(s, name);
    if SetOutcome(s, name, value) == Stored {
      match Find(s, name)
      case Some(off) =>
        var i: nat :| i < Count(s) && NameAt(s, i) == name && off == Slot(i);
        UpdatedSerial(s, i, value);
        forall j: nat | j < Count(t) && j < MAX_RECORDS ensures SerialAt(t, j) % 2 == 0 {
          if j != i {
            SameRecordReads(s, t, j);
          }
        }
      case None =>
        AppendComplete(s, name, value);
        forall j: nat | j < Count(t) && j < MAX_RECORDS ensures SerialAt(t, j) % 2 == 0 {
          if j < Count(s) {
            SameRecordReads(s, t, j);
          }
        }
    }
  }

  lemma UpdatedSerial(s: Table, i: nat, value: Data)
    requires i < MAX_RECORDS && |value| < VALUE_MAX
    ensures var t := Apply(s, ValueStores(s, Slot(i), value));
            && SerialAt(t, i) == Published(SerialAt(s, i), |value|)
            && SerialAt(t, i) % 2 == SerialAt(s, i) % 2
            && Count(t) == Count(s)
            && forall j: nat :: j < MAX_RECORDS && j != i ==> SameRecord(s, t, j)
  {
    var all := ValueStores(s, Slot(i), value);
    assert all[..|all|] == all;
    SerialDuringUpdate(s, Slot(i), value, |all|);
    UpdateFrame(s, i, value, |all|);
    PublishedParity(SerialAt(s, i), |value|);
  }

  lemma StepIsSound(w: Writer, w': Writer)
    requires Sound(w) && Step(w, w')
    ensures Sound(w')
  {
    if w.k == |Program(w)| {
      assert Program(w)[..w.k] == Program(w);
      MemoryIsCanonical(w);
      CompletedSerialsAreEven(w.base, w.name, w.value);
    }
  }

  // ------------------------------------------------- one record, one store

  // The step is the store that publishes a new value of record i.
  ghost predicate Publishes(w: Writer, w': Writer, i: nat)
    requires Sound(w)
  {
    && w.k < |Program(w)| && w' == w.(k := w.k + 1)
    && Program(w)[w.k].StoreWord? && Program(w)[w.k].at == Slot(i) + RECORD_SERIAL
    && Program(w)[w.k].w % 2 == 0
  }

  // Each store of the daemon leaves record i alone, raises its dirty bit,
  // works under it, or publishes.
  ghost predicate RecordMoves(m: Table, m': Table, i: nat, publishes: bool)
    requires i < MAX_RECORDS
  {
    var serial, serial' := SerialAt(m, i), SerialAt(m', i);
    && SameName(m, m', i)
    && (publishes ==>
          && serial % 2 == 1 && serial' % 2 == 0
          && serial' % GENERATIONS == (serial % GENERATIONS + 1) % GENERATIONS)
    && (!publishes ==> || SameRecord(m, m', i)
                       || (serial % 2 == 0 && serial' == serial + 1)
                       || (serial % 2 == 1 && serial' == serial))
  }

  lemma RaiseThenPublish(serial: uint32, length: nat)
    requires serial % 2 == 0 && length < VALUE_MAX
    ensures Raised(serial) == serial + 1 && Published(serial, length) % 2 == 0
    ensures Published(serial, length) % GENERATIONS == (Raised(serial) % GENERATIONS + 1) % GENERATIONS
  {
    PublishedFields(serial, length);
    PublishedParity(serial, length);
    assert (serial + 1) % GENERATIONS == serial % GENERATIONS + 1;
  }

  lemma UpdateStoreMovesRecord(s: Table, i: nat, value: Data, k: nat)
    requires i < MAX_RECORDS && |value| < VALUE_MAX && SerialAt(s, i) % 2 == 0
    requires k < |ValueStores(s, Slot(i), value)|
    ensures var all := ValueStores(s, Slot(i), value);
            RecordMoves(Apply(s, all[..k]), Apply(s, all[..k + 1]), i, k == |all| - 2)
  {
    hide Word, Apply, Raised, Published, ValueStores;
    var all := ValueStores(s, Slot(i), value);
    var m, m' := Apply(s, all[..k]), Apply(s, all[..k + 1]);
    UpdateFrame(s, i, value, k);
    UpdateFrame(s, i, value, k + 1);
    SerialDuringUpdate(s, Slot(i), value, k);
    SerialDuringUpdate(s, Slot(i), value, k + 1);
    RaiseThenPublish(SerialAt(s, i), |value|);
    if k == |all| - 1 {
      LastStoreMissesRecord(s, i, value);
    }
  }

  lemma LastStoreMissesRecord(s: Table, i: nat, value: Data)
    requires i < MAX_RECORDS && |value| < VALUE_MAX
    ensures var all := ValueStores(s, Slot(i), value);
            SameRecord(Apply(s, all[..|all| - 1]), Apply(s, all[..|all|]), i)
  {
    hide Apply;
    var all := ValueStores(s, Slot(i), value);
    var k := |all| - 1;
    assert all[..k + 1] == all[..k] + [all[k]];
    ApplyAppend(s, all[..k], [all[k]]);
    ApplyFrame(Apply(s, all[..k]), [all[k]], TOC_OFFSET, AREA_SIZE);
    SubSlice(Apply(s, all[..k]), Apply(s, all[..k + 1]), TOC_OFFSET, AREA_SIZE, TOC_OFFSET + 4 * i,
             TOC_OFFSET + 4 * i + 4);
    SubSlice(Apply(s, all[..k]), Apply(s, all[..k + 1]), TOC_OFFSET, AREA_SIZE, Slot(i), Slot(i) + INFO_SIZE);
  }

  lemma BothSame(s: Table, m: Table, m': Table, i: nat)
    requires i < MAX_RECORDS && SameRecord(s, m, i) && SameRecord(s, m', i)
    ensures RecordMoves(m, m', i, false)
  {
    SubSlice(m, m', Slot(i), Slot(i) + INFO_SIZE, Slot(i), Slot(i) + NAME_MAX);
  }

  lemma UpdateElsewhere(s: Table, i: nat, j: nat, value: Data, k: nat)
    requires i < MAX_RECORDS && j < MAX_RECORDS && i != j && |value| < VALUE_MAX
    requires k < |ValueStores(s, Slot(j), value)|
    ensures var all := ValueStores(s, Slot(j), value);
            && RecordMoves(Apply(s, all[..k]), Apply(s, all[..k + 1]), i, false)
            && (all[k].StoreWord? ==> all[k].at != Slot(i) + RECORD_SERIAL)
            && Count(Apply(s, all[..k])) == Count(s) == Count(Apply(s, all[..k + 1]))
  {
    hide Apply, RecordMoves, SameRecord;
    var all := ValueStores(s, Slot(j), value);
    UpdateFrame(s, j, value, k);
    UpdateFrame(s, j, value, k + 1);
    assert SameRecord(s, Apply(s, all[..k]), i);
    assert SameRecord(s, Apply(s, all[..k + 1]), i);
    BothSame(s, Apply(s, all[..k]), Apply(s, all[..k + 1]), i);
  }

  lemma AppendMissesSerials(s: Table, i: nat, c: nat, name: Data, value: Data, k: nat)
    requires i < c < MAX_RECORDS && |name| < NAME_MAX && |value| < VALUE_MAX
    requires k < |AppendStores(s, c, name, value)|
    ensures var st := AppendStores(s, c, name, value)[k];
            st.StoreWord? ==> st.at != Slot(i) + RECORD_SERIAL
  {
    hide Apply;
  }

  lemma AppendElsewhere(s: Table, i: nat, name: Data, value: Data, k: nat)
    requires Canonical(s) && i < Count(s) < MAX_RECORDS
    requires 1 <= |name| < NAME_MAX && NulFree(name) && |value| < VALUE_MAX && name !in Contents(s)
    requires k < |AppendStores(s, Count(s), name, value)|
    ensures var all := AppendStores(s, Count(s), name, value);
            && RecordMoves(Apply(s, all[..k]), Apply(s, all[..k + 1]), i, false)
            && Count(Apply(s, all[..k])) == Count(s) <= Count(Apply(s, all[..k + 1]))
  {
    hide Apply, RecordMoves, SameRecord, AppendStores, Contents, NameAt, Word, GoodRecord;
    var all := AppendStores(s, Count(s), name, value);
    AppendCrash(s, name, value, k);
    if k + 1 < |all| {
      AppendCrash(s, name, value, k + 1);
    } else {
      assert all[..k + 1] == all;
      AppendComplete(s, name, value);
    }
    assert SameRecord(s, Apply(s, all[..k]), i);
    assert SameRecord(s, Apply(s, all[..k + 1]), i);
    BothSame(s, Apply(s, all[..k]), Apply(s, all[..k + 1]), i);
  }

  // What one step of the daemon can do to a counted record.
  lemma StepMovesRecord(w: Writer, w': Writer, i: nat)
    requires Sound(w) && Step(w, w') && Sound(w')
    requires i < Count(Memory(w)) <= MAX_RECORDS
    ensures RecordMoves(Memory(w), Memory(w'), i, Publishes(w, w', i))
    ensures Count(Memory(w)) <= Count(Memory(w'))
  {
    hide Apply, ValueStores, AppendStores, NameAt, SerialAt, Word, GoodRecord, RecordMoves, SameRecord;
    if w.k == |Program(w)| {
      assert Program(w')[..0] == [];
      ApplyNothing(w'.base);
      assert Memory(w') == Memory(w);
      StutterMoves(Memory(w), i);
    } else {
      StoreMovesRecord(w, i);
    }
  }

  lemma StutterMoves(m: Table, i: nat)
    requires i < MAX_RECORDS
    ensures RecordMoves(m, m, i, false)
  {
  }

  lemma StoreMovesRecord(w: Writer, i: nat)
    requires Sound(w) && w.k < |Program(w)|
    requires i < Count(Memory(w)) <= MAX_RECORDS
    ensures var w' := w.(k := w.k + 1);
            RecordMoves(Memory(w), Memory(w'), i, Publishes(w, w', i)) && Count(Memory(w)) <= Count(Memory(w'))
  {
    hide Apply, ValueStores, AppendStores, NameAt, Word, GoodRecord, Find, RecordMoves, SameRecord;
    LookupIsContents(w.base, w.name);
    match Find(w.base, w.name)
    case Some(off) =>
      var j: nat :| j < Count(w.base) && NameAt(w.base, j) == w.name && off == Slot(j);
      UpdateFrame(w.base, j, w.value, w.k);
      UpdateFrame(w.base, j, w.value, w.k + 1);
      if j == i {
        UpdateStoreMovesRecord(w.base, i, w.value, w.k);
        PublishingStore(w.base, i, w.value, w.k);
      } else {
        UpdateElsewhere(w.base, i, j, w.value, w.k);
      }
    case None =>
      AppendCrash(w.base, w.name, w.value, w.k);
      AppendElsewhere(w.base, i, w.name, w.value, w.k);
      AppendMissesSerials(w.base, i, Count(w.base), w.name, w.value, w.k);
  }

  lemma PublishingStore(s: Table, i: nat, value: Data, k: nat)
    requires i < MAX_RECORDS && |value| < VALUE_MAX && SerialAt(s, i) % 2 == 0
    requires k < |ValueStores(s, Slot(i), value)|
    ensures var all := ValueStores(s, Slot(i), value);
            (all[k].StoreWord? && all[k].at == Slot(i) + RECORD_SERIAL && all[k].w % 2 == 0) == (k == |all| - 2)
  {
    RaiseThenPublish(SerialAt(s, i), |value|);
  }

  // ------------------------------------------------------------- whole runs

  // A run of the daemon from a table with no interrupted update.
  ghost predicate Behaviour(tr: seq<Writer>) {
    && tr != [] && Sound(tr[0])
    && forall t {:trigger tr[t]} :: 0 <= t < |tr| - 1 && Sound(tr[t]) ==> Step(tr[t], tr[t + 1])
  }

  lemma {:induction false} BehaviourIsSound(tr: seq<Writer>, t: nat)
    requires Behaviour(tr) && t < |tr|
    ensures Sound(tr[t]) && Canonical(Memory(tr[t]))
    ensures t > 0 ==> Sound(tr[t - 1]) && Step(tr[t - 1], tr[t])
  {
    hide Sound, Step, Memory, Canonical;
    if t > 0 {
      BehaviourIsSound(tr, t - 1);
      StepIsSound(tr[t - 1], tr[t]);
    }
    MemoryIsCanonical(tr[t]);
  }

  // A formatted area is the empty map, any first request starts a run from it,
  // and every run goes on: with the next store, or with any next request.
  lemma RunsStartFormatted(name: Data, value: Data)
    requires NulFree(name)
    ensures Canonical(Formatted()) && Contents(Formatted()) == map[]
    ensures Behaviour([Writer(Formatted(), name, value, 0)])
  {
    FormattedIsAccepted();
  }

  lemma RunsGoOn(tr: seq<Writer>, name: Data, value: Data)
    requires Behaviour(tr) && NulFree(name)
    ensures exists next ::
              && Behaviour(tr + [next])
              && (next.k > 0 || (next.name == name && next.value == value))
  {
    hide Sound, Memory, Program, SetStores;
    var n := |tr| - 1;
    BehaviourIsSound(tr, n);
    var w := tr[n];
    var next := if w.k < |Program(w)| then w.(k := w.k + 1) else Writer(Memory(w), name, value, 0);
    assert Step(w, next);
    var longer := tr + [next];
    forall t {:trigger longer[t]} | 0 <= t < |longer| - 1 && Sound(longer[t])
      ensures Step(longer[t], longer[t + 1])
    {
      if t < n {
        assert longer[t] == tr[t] && longer[t + 1] == tr[t + 1];
      }
    }
  }

  // The memory a reader sees at point t of the run.
  ghost function At(tr: seq<Writer>, t: nat): (m: Table)
    requires Behaviour(tr) && t < |tr|
    ensures Canonical(m) && Count(m) <= MAX_RECORDS
  {
    BehaviourIsSound(tr, t);
    Memory(tr[t])
  }

  // How many updates of record i are published between points a and b.
  ghost function Updates(tr: seq<Writer>, a: nat, b: nat, i: nat): nat
    requires Behaviour(tr) && a <= b < |tr|
    decreases b
  {
    if a == b then 0 else
      BehaviourIsSound(tr, b - 1);
      Updates(tr, a, b - 1, i) + if Publishes(tr[b - 1], tr[b], i) then 1 else 0
  }

  lemma OneMove(tr: seq<Writer>, t: nat, i: nat)
    requires Behaviour(tr) && t + 1 < |tr| && i < Count(At(tr, t))
    ensures Sound(tr[t]) && RecordMoves(At(tr, t), At(tr, t + 1), i, Publishes(tr[t], tr[t + 1], i))
    ensures i < Count(At(tr, t + 1))
  {
    BehaviourIsSound(tr, t);
    BehaviourIsSound(tr, t + 1);
    StepMovesRecord(tr[t], tr[t + 1], i);
  }

  // A reader that walks `count` records finds each one whole, and keeps finding it:
  // the index entry and the name never change once the record is counted.
  lemma {:induction false} WalkerMeetsWholeRecords(tr: seq<Writer>, a: nat, b: nat, i: nat)
    requires Behaviour(tr) && a <= b < |tr| && i < Count(At(tr, a))
    ensures i < Count(At(tr, b)) && GoodRecord(At(tr, b), i)
    ensures SameName(At(tr, a), At(tr, b), i)
    decreases b
  {
    hide Word, Count, NameAt, SerialAt, GoodRecord, Memory, Sound, Step, Publishes, At, SameRecord;
    if a < b {
      WalkerMeetsWholeRecords(tr, a, b - 1, i);
      OneMove(tr, b - 1, i);
    }
    assert GoodRecord(At(tr, b), i);
  }

  // Where the record's serial stands b - a stores after a clean sample.
  ghost predicate Advanced(s: Table, t: Table, i: nat, n: nat)
    requires i < MAX_RECORDS
  {
    var g, g' := SerialAt(s, i) % GENERATIONS, SerialAt(t, i) % GENERATIONS;
    if SerialAt(t, i) % 2 == 0 then g' == (g + 2 * n) % GENERATIONS && (n == 0 ==> SameRecord(s, t, i))
    else g' == (g + 2 * n) % GENERATIONS + 1
  }

  lemma AdvanceOne(s: Table, m: Table, m': Table, i: nat, n: nat, publishes: bool)
    requires i < MAX_RECORDS && SerialAt(s, i) % 2 == 0
    requires Advanced(s, m, i, n) && RecordMoves(m, m', i, publishes)
    ensures Advanced(s, m', i, if publishes then n + 1 else n)
  {
    hide SerialAt, SameName, NameAt, SameRecord;
    var g := SerialAt(s, i) % GENERATIONS;
    if publishes {
      NextGeneration(g, n, SerialAt(m, i) % GENERATIONS, SerialAt(m', i) % GENERATIONS);
    } else if SameRecord(m, m', i) {
      SameRecordReads(m, m', i);
      SameRecordTwice(s, m, m', i);
    } else if SerialAt(m, i) % 2 == 0 {
      DirtyGeneration(SerialAt(m, i));
    }
  }

  lemma NextGeneration(g: nat, n: nat, dirty: nat, clean: nat)
    requires dirty == (g + 2 * n) % GENERATIONS + 1 && clean == (dirty + 1) % GENERATIONS
    ensures clean == (g + 2 * (n + 1)) % GENERATIONS
  {
    var x := g + 2 * n;
    var q, r := x / GENERATIONS, x % GENERATIONS;
    assert x + 2 == q * GENERATIONS + (r + 2);
    if r + 2 < GENERATIONS {
      Remainder(q, r + 2);
    } else {
      Remainder(q + 1, r + 2 - GENERATIONS);
    }
  }

  lemma DirtyGeneration(serial: nat)
    requires serial % 2 == 0
    ensures (serial + 1) % GENERATIONS == serial % GENERATIONS + 1
  {
    var q, r := serial / GENERATIONS, serial % GENERATIONS;
    assert serial == q * GENERATIONS + r;
    assert r % 2 == 0 && r + 1 < GENERATIONS;
    Remainder(q, r + 1);
  }

  lemma Remainder(q: nat, r: nat)
    requires r < GENERATIONS
    ensures (q * GENERATIONS + r) % GENERATIONS == r
  {
  }

  lemma SameRecordTwice(s: Table, m: Table, m': Table, i: nat)
    requires i < MAX_RECORDS && SameRecord(m, m', i)
    ensures SameRecord(s, m, i) ==> SameRecord(s, m', i)
  {
  }

  lemma {:induction false} RecordAdvances(tr: seq<Writer>, a: nat, b: nat, i: nat)
    requires Behaviour(tr) && a <= b < |tr| && i < Count(At(tr, a)) && SerialAt(At(tr, a), i) % 2 == 0
    ensures i < Count(At(tr, b)) && Advanced(At(tr, a), At(tr, b), i, Updates(tr, a, b, i))
    decreases b
  {
    hide Canonical, Word, Count, NameAt, SerialAt, GoodRecord, Memory, Sound, Step, Publishes, At, Advanced,
         RecordMoves;
    if a == b {
      NotAdvanced(At(tr, a), i);
    } else {
      RecordAdvances(tr, a, b - 1, i);
      OneMove(tr, b - 1, i);
      AdvanceOne(At(tr, a), At(tr, b - 1), At(tr, b), i, Updates(tr, a, b - 1, i), Publishes(tr[b - 1], tr[b], i));
    }
  }

  lemma NotAdvanced(s: Table, i: nat)
    requires i < MAX_RECORDS && SerialAt(s, i) % 2 == 0
    ensures Advanced(s, s, i, 0)
  {
  }

  // Only publishing clears the dirty bit.
  lemma {:induction false} DirtyUntilPublished(tr: seq<Writer>, a: nat, b: nat, i: nat)
    requires Behaviour(tr) && a <= b < |tr| && i < Count(At(tr, a)) && SerialAt(At(tr, a), i) % 2 == 1
    requires Updates(tr, a, b, i) == 0
    ensures i < Count(At(tr, b)) && SerialAt(At(tr, b), i) % 2 == 1
    decreases b
  {
    hide Canonical, Word, Count, NameAt, SerialAt, GoodRecord, Memory, Sound, Step, Publishes, At, SameRecord, SameName;
    if a < b {
      DirtyUntilPublished(tr, a, b - 1, i);
      OneMove(tr, b - 1, i);
      if SameRecord(At(tr, b - 1), At(tr, b), i) {
        SameRecordReads(At(tr, b - 1), At(tr, b), i);
      }
    }
  }

  lemma {:induction false} UpdatesSplit(tr: seq<Writer>, a: nat, t: nat, b: nat, i: nat)
    requires Behaviour(tr) && a <= t <= b < |tr|
    ensures Updates(tr, a, b, i) == Updates(tr, a, t, i) + Updates(tr, t, b, i)
    decreases b
  {
    hide Sound, Step, Memory, Canonical, Publishes, At;
    if t < b {
      UpdatesSplit(tr, a, t, b - 1, i);
    }
  }

  // Two equal clean samples less than half a generation cycle apart bracket a
  // stretch in which the record did not change at all.
  lemma CleanSamplesBracket(tr: seq<Writer>, a: nat, b: nat, i: nat, t: nat)
    requires Behaviour(tr) && a <= t <= b < |tr| && i < Count(At(tr, a)) && i < Count(At(tr, b))
    requires SerialAt(At(tr, a), i) == SerialAt(At(tr, b), i) && SerialAt(At(tr, a), i) % 2 == 0
    requires 2 * Updates(tr, a, b, i) < GENERATIONS
    ensures SameRecord(At(tr, a), At(tr, t), i)
  {
    hide Canonical, Word, Count, NameAt, SerialAt, GoodRecord, Memory, Sound, Step, Publishes, At, SameRecord,
         SameName, RecordMoves, Updates;
    RecordAdvances(tr, a, b, i);
    RecordAdvances(tr, a, t, i);
    UpdatesSplit(tr, a, t, b, i);
    var g, n := SerialAt(At(tr, a), i) % GENERATIONS, Updates(tr, a, b, i);
    assert g == (g + 2 * n) % GENERATIONS;
    assert n == 0;
    if SerialAt(At(tr, t), i) % 2 == 1 {
      DirtyUntilPublished(tr, t, b, i);
    }
  }

  lemma SameByte(s: Table, t: Table, i: nat, j: nat)
    requires i < MAX_RECORDS && SameRecord(s, t, i) && j < VALUE_MAX
    ensures s[Slot(i) + RECORD_VALUE + j] == t[Slot(i) + RECORD_VALUE + j]
  {
    assert s[Slot(i)..Slot(i) + INFO_SIZE][RECORD_VALUE + j] == t[Slot(i)..Slot(i) + INFO_SIZE][RECORD_VALUE + j];
  }

  lemma WholeValue(s: Table, i: nat, copied: Data)
    requires Canonical(s) && i < Count(s) && |copied| == SerialAt(s, i) / GENERATIONS < VALUE_MAX
    requires forall j :: 0 <= j < |copied| ==> copied[j] == s[Slot(i) + RECORD_VALUE + j]
    ensures copied == ValueAt(s, i) && Lookup(s, NameAt(s, i)) == Some(copied)
  {
    hide NameAt, Word, Lookup;
    assert copied == s[Slot(i) + RECORD_VALUE..Slot(i) + RECORD_VALUE + |copied|];
    LookupIsContents(s, NameAt(s, i));
    ContentsUpToEntries(s, Count(s));
  }

  // Torn-read freedom. The reader samples record i's serial at `a` and at `b`
  // and copies byte j at times[j], in whatever order, in between.
  lemma TornReadsAreDetected(tr: seq<Writer>, a: nat, b: nat, i: nat, times: seq<nat>, copied: Data)
    requires Behaviour(tr) && a <= b < |tr| && i < Count(At(tr, a)) && i < Count(At(tr, b))
    requires SerialAt(At(tr, a), i) == SerialAt(At(tr, b), i) && SerialAt(At(tr, a), i) % 2 == 0
    requires 2 * Updates(tr, a, b, i) < GENERATIONS
    requires |copied| == |times| == SerialAt(At(tr, a), i) / GENERATIONS
    requires forall j :: 0 <= j < |times| ==> a <= times[j] <= b
    requires forall j :: 0 <= j < |times| && j < VALUE_MAX ==> copied[j] == At(tr, times[j])[Slot(i) + RECORD_VALUE + j]
    ensures copied == ValueAt(At(tr, a), i) == ValueAt(At(tr, b), i)
    ensures Lookup(At(tr, a), NameAt(At(tr, a), i)) == Some(copied)
  {
    hide Word, Count, NameAt, Memory, Sound, Step, Publishes, At, SameName, RecordMoves, Updates, Lookup;
    var s := At(tr, a);
    assert GoodRecord(s, i);
    forall j | 0 <= j < |times|
      ensures copied[j] == s[Slot(i) + RECORD_VALUE + j]
    {
      CleanSamplesBracket(tr, a, b, i, times[j]);
      SameByte(s, At(tr, times[j]), i, j);
    }
    WholeValue(s, i, copied);
    CleanSamplesBracket(tr, a, b, i, b);
    SameRecordReads(s, At(tr, b), i);
  }

  // ------------------------------------------- where the protocol's limits are

  // Record i after a list of completed updates.
  function Updated(s: Table, i: nat, values: seq<Data>): Table
    requires i < MAX_RECORDS && forall v :: v in values ==> |v| < VALUE_MAX
    decreases |values|
  {
    if values == [] then s
    else
      var front := values[..|values| - 1];
      assert forall v :: v in front ==> v in values;
      Apply(Updated(s, i, front), ValueStores(Updated(s, i, front), Slot(i), values[|values| - 1]))
  }

  lemma {:induction false} UpdatedSerials(s: Table, i: nat, values: seq<Data>)
    requires i < MAX_RECORDS && forall v :: v in values ==> |v| < VALUE_MAX
    ensures SerialAt(Updated(s, i, values), i) % GENERATIONS
            == (SerialAt(s, i) % GENERATIONS + 2 * |values|) % GENERATIONS
    ensures SerialAt(Updated(s, i, values), i) % 2 == SerialAt(s, i) % 2
    ensures values != [] ==> SerialAt(Updated(s, i, values), i) / GENERATIONS == |values[|values| - 1]|
    decreases |values|
  {
    hide Word, SerialAt, ValueStores, Apply, SameRecord, Published;
    if values != [] {
      var n := |values| - 1;
      var front := values[..n];
      assert forall v :: v in front ==> v in values;
      UpdatedSerials(s, i, front);
      UpdatedSerial(Updated(s, i, front), i, values[n]);
      PublishedFields(SerialAt(Updated(s, i, front), i), |values[n]|);
      CycleStep(SerialAt(s, i), n);
    }
  }

  lemma CycleStep(g: nat, n: nat)
    ensures ((g % GENERATIONS + 2 * n) % GENERATIONS + 2) % GENERATIONS == (g % GENERATIONS + 2 * (n + 1)) % GENERATIONS
  {
  }

  // The bound on updates between the samples is exact: two clean samples agree
  // across n > 0 completed updates iff n is a multiple of 2^23 and the last
  // value has the length of the first, whatever its bytes are.
  lemma SamplesAgreeAcrossUpdatesIff(s: Table, i: nat, values: seq<Data>)
    requires i < MAX_RECORDS && values != [] && forall v :: v in values ==> |v| < VALUE_MAX
    ensures SerialAt(Updated(s, i, values), i) == SerialAt(s, i)
       <==> 2 * |values| % GENERATIONS == 0 && |values[|values| - 1]| == SerialAt(s, i) / GENERATIONS
  {
    hide Word, Updated, SerialAt;
    UpdatedSerials(s, i, values);
    WholeCycles(SerialAt(s, i) % GENERATIONS, 2 * |values|);
  }

  lemma WholeCycles(g: nat, n: nat)
    requires g < GENERATIONS
    ensures (g + n) % GENERATIONS == g <==> n % GENERATIONS == 0
  {
  }

  // An update of a clean record cut short after k stores leaves it dirty, for
  // good, iff the crash fell between the raising and the publishing store: a
  // later update adds two and keeps the odd parity, so no reader accepts the
  // record again.
  lemma InterruptedRecordStaysDirtyIff(s: Table, i: nat, value: Data, k: nat, later: seq<Data>)
    requires i < MAX_RECORDS && SerialAt(s, i) % 2 == 0 && |value| < VALUE_MAX
    requires k <= |ValueStores(s, Slot(i), value)| && forall v :: v in later ==> |v| < VALUE_MAX
    ensures var all := ValueStores(s, Slot(i), value);
            SerialAt(Updated(Apply(s, all[..k]), i, later), i) % 2 == 1 <==> 1 <= k < |all| - 1
  {
    var all := ValueStores(s, Slot(i), value);
    SerialDuringUpdate(s, Slot(i), value, k);
    UpdatedSerials(Apply(s, all[..k]), i, later);
    PublishedParity(SerialAt(s, i), |value|);
  }
}
