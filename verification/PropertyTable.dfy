/**
 The layout of the Android property area and the value-level meaning of the
 daemon's operations on it: what a reader finds in the bytes, and which stores
 an update issues, in program order.
 */
module PropertyTable {
  import opened Bytes

  const AREA_SIZE: nat := 32768
  const INFO_START: nat := 1024
  const INFO_SIZE: nat := 128
  const MAX_RECORDS: nat := (AREA_SIZE - INFO_START) / INFO_SIZE

  const COUNT_OFFSET: nat := 0
  const SERIAL_OFFSET: nat := 4
  const MAGIC_OFFSET: nat := 8
  const VERSION_OFFSET: nat := 12
  const TOC_OFFSET: nat := 32
  const AREA_MAGIC: uint32 := 0x504F5250
  const AREA_VERSION: uint32 := 0x45434F76

  const NAME_MAX: nat := 32
  const VALUE_MAX: nat := 92
  const RECORD_SERIAL: nat := 32
  const RECORD_VALUE: nat := 36
  // generationMask + 1: the serial's top byte starts here.
  const GENERATIONS: nat := 0x100_0000

  type Table = s: Data | |s| == AREA_SIZE witness seq(AREA_SIZE, _ => 0)

  // ---------------------------------------------------------------- reading

  function Count(s: Table): uint32 {
    Word(s, COUNT_OFFSET)
  }

  function RecordOffset(s: Table, i: nat): (off: nat)
    requires i < MAX_RECORDS
    ensures off < GENERATIONS
  {
    Word(s, TOC_OFFSET + 4 * i) % GENERATIONS
  }

  // What valid() demands of the bytes a restarted daemon finds.
  ghost predicate Accepts(s: Table) {
    && Word(s, MAGIC_OFFSET) == AREA_MAGIC
    && Word(s, VERSION_OFFSET) == AREA_VERSION
    && Count(s) <= MAX_RECORDS
    && forall i: nat :: i < Count(s) ==> INFO_START <= RecordOffset(s, i) <= AREA_SIZE - INFO_SIZE
  }

  function TrimNul(raw: Data): Data {
    raw[..FirstZero(raw)]
  }

  ghost predicate NulFree(s: Data) {
    forall i :: 0 <= i < |s| ==> s[i] != 0
  }

  function RecordName(s: Table, off: nat): Data
    requires off + INFO_SIZE <= AREA_SIZE
  {
    TrimNul(s[off..off + NAME_MAX])
  }

  function RecordSerial(s: Table, off: nat): uint32
    requires off + INFO_SIZE <= AREA_SIZE
  {
    Word(s, off + RECORD_SERIAL)
  }

  // The bytes Get returns for a record, or nothing when its length field lies.
  function RecordContent(s: Table, off: nat): Option<Data>
    requires off + INFO_SIZE <= AREA_SIZE
  {
    var length := RecordSerial(s, off) / GENERATIONS;
    if length > VALUE_MAX then None
    else Some(s[off + RECORD_VALUE..off + RECORD_VALUE + length])
  }

  // The first counted record that carries the name.
  ghost function FindFrom(s: Table, name: Data, i: nat): (found: Option<nat>)
    requires Accepts(s) && i <= Count(s)
    ensures found.Some? ==> INFO_START <= found.value <= AREA_SIZE - INFO_SIZE
    decreases Count(s) - i
  {
    if i == Count(s) then None
    else if RecordName(s, RecordOffset(s, i)) == name then Some(RecordOffset(s, i))
    else FindFrom(s, name, i + 1)
  }

  ghost function Find(s: Table, name: Data): (found: Option<nat>)
    requires Accepts(s)
    ensures found.Some? ==> INFO_START <= found.value <= AREA_SIZE - INFO_SIZE
  {
    FindFrom(s, name, 0)
  }

  ghost function Lookup(s: Table, name: Data): Option<Data>
    requires Accepts(s)
  {
    match Find(s, name)
    case None => None
    case Some(off) => RecordContent(s, off)
  }

  // ---------------------------------------------------------------- storing

  // One store as the other processes mapping the area can observe it.
  datatype RawStore = StoreByte(at: nat, b: byte) | StoreWord(at: nat, w: uint32)

  predicate InArea(st: RawStore) {
    match st
    case StoreByte(at, _) => at < AREA_SIZE
    case StoreWord(at, _) => at + 4 <= AREA_SIZE
  }

  type Store = st: RawStore | InArea(st) witness StoreByte(0, 0)

  function ApplyOne(s: Table, st: Store): Table {
    match st
    case StoreByte(at, b) => s[at := b]
    case StoreWord(at, w) => PutWord(s, at, w)
  }

  function Apply(s: Table, stores: seq<Store>): Table {
    if stores == [] then s
    else ApplyOne(Apply(s, stores[..|stores| - 1]), stores[|stores| - 1])
  }

  // Go's copy, and the zeroing loops, byte by byte in address order.
  function Copy(at: nat, bytes: Data): (stores: seq<Store>)
    requires at + |bytes| <= AREA_SIZE
    ensures |stores| == |bytes|
    ensures forall i :: 0 <= i < |bytes| ==> stores[i] == StoreByte(at + i, bytes[i])
  {
    seq(|bytes|, i requires 0 <= i < |bytes| => var st: Store := StoreByte(at + i, bytes[i]); st)
  }

  function Raised(serial: uint32): (dirty: uint32)
    ensures dirty % 2 == 1
  {
    if serial % 2 == 0 then serial + 1 else serial
  }

  function Published(serial: uint32, length: nat): (clean: uint32)
    requires length < VALUE_MAX
  {
    length * GENERATIONS + (serial % GENERATIONS + 2) % GENERATIONS
  }

  // uint32 increment
  function Next(w: uint32): uint32 {
    if w == 0xFFFF_FFFF then 0 else w + 1
  }

  // writeValue, as the stores it issues.
  function ValueStores(s: Table, off: nat, value: Data): (stores: seq<Store>)
    requires off + INFO_SIZE <= AREA_SIZE && |value| < VALUE_MAX
    ensures |stores| == 3 + VALUE_MAX + |value|
  {
    var serial := RecordSerial(s, off);
    var raise: Store := StoreWord(off + RECORD_SERIAL, Raised(serial));
    var publish: Store := StoreWord(off + RECORD_SERIAL, Published(serial, |value|));
    var bump: Store := StoreWord(SERIAL_OFFSET, Next(Word(s, SERIAL_OFFSET)));
    [raise] + Copy(off + RECORD_VALUE, Zeros(VALUE_MAX)) + Copy(off + RECORD_VALUE, value) + [publish] + [bump]
  }

  function Slot(i: nat): nat {
    INFO_START + i * INFO_SIZE
  }

  // Everything Set stores into a fresh slot before its value.
  function NameStores(off: nat, name: Data): (stores: seq<Store>)
    requires off + INFO_SIZE <= AREA_SIZE && |name| < NAME_MAX
  {
    Copy(off, Zeros(INFO_SIZE)) + Copy(off, name)
  }

  // The record a fresh slot holds once its name and value are in place.
  function RecordStores(s: Table, off: nat, name: Data, value: Data): (stores: seq<Store>)
    requires off + INFO_SIZE <= AREA_SIZE && |name| < NAME_MAX && |value| < VALUE_MAX
  {
    NameStores(off, name) + ValueStores(Apply(s, NameStores(off, name)), off, value)
  }

  function TocEntry(index: nat, name: Data): uint32
    requires index < MAX_RECORDS && |name| < NAME_MAX
  {
    |name| * GENERATIONS + Slot(index)
  }

  // The two stores that publish record `index`.
  function PublishStores(index: nat, name: Data): (stores: seq<Store>)
    requires index < MAX_RECORDS && |name| < NAME_MAX
  {
    var toc: Store := StoreWord(TOC_OFFSET + 4 * index, TocEntry(index, name));
    var count: Store := StoreWord(COUNT_OFFSET, index + 1);
    [toc, count]
  }

  // Set's stores for a name the table does not hold yet.
  function AppendStores(s: Table, index: nat, name: Data, value: Data): seq<Store>
    requires index < MAX_RECORDS && |name| < NAME_MAX && |value| < VALUE_MAX
  {
    RecordStores(s, Slot(index), name, value) + PublishStores(index, name)
  }

  datatype Outcome = Stored | BadName | BadValue | Full

  ghost function SetOutcome(s: Table, name: Data, value: Data): Outcome
    requires Accepts(s)
  {
    if name == [] || |name| >= NAME_MAX then BadName
    else if |value| >= VALUE_MAX then BadValue
    else if Find(s, name).None? && Count(s) >= MAX_RECORDS then Full
    else Stored
  }

  // Set, as the stores it issues in program order.
  ghost function SetStores(s: Table, name: Data, value: Data): seq<Store>
    requires Accepts(s)
  {
    if SetOutcome(s, name, value) != Stored then []
    else match Find(s, name)
      case Some(off) => ValueStores(s, off, value)
      case None => AppendStores(s, Count(s), name, value)
  }

  // -------------------------------------------------- what stores leave behind

  lemma {:induction false} ApplyAppend(s: Table, a: seq<Store>, b: seq<Store>)
    ensures Apply(s, a + b) == Apply(Apply(s, a), b)
  {
    if b == [] {
      assert a + b == a;
    } else {
      var front := b[..|b| - 1];
      assert (a + b)[..|a + b| - 1] == a + front;
      ApplyAppend(s, a, front);
    }
  }

  lemma {:induction false} ApplyCopy(s: Table, at: nat, bytes: Data)
    requires at + |bytes| <= AREA_SIZE
    ensures Apply(s, Copy(at, bytes)) == s[..at] + bytes + s[at + |bytes|..]
  {
    if bytes == [] {
      assert s[..at] + bytes + s[at + |bytes|..] == s;
    } else {
      var n := |bytes| - 1;
      assert Copy(at, bytes)[..n] == Copy(at, bytes[..n]);
      ApplyCopy(s, at, bytes[..n]);
      var t := s[..at] + bytes[..n] + s[at + n..];
      assert t[at + n := bytes[n]] == s[..at] + bytes + s[at + |bytes|..];
    }
  }

  predicate Outside(st: Store, lo: nat, hi: nat) {
    match st
    case StoreByte(at, _) => at < lo || hi <= at
    case StoreWord(at, _) => at + 4 <= lo || hi <= at
  }

  // Stores that miss a region leave it alone.
  lemma {:induction false} ApplyFrame(s: Table, stores: seq<Store>, lo: nat, hi: nat)
    requires lo <= hi <= AREA_SIZE
    requires forall i :: 0 <= i < |stores| ==> Outside(stores[i], lo, hi)
    ensures Apply(s, stores)[lo..hi] == s[lo..hi]
  {
    if stores != [] {
      var n := |stores| - 1;
      ApplyFrame(s, stores[..n], lo, hi);
      var t := Apply(s, stores[..n]);
      assert forall x :: lo <= x < hi ==> ApplyOne(t, stores[n])[x] == t[x];
      assert ApplyOne(t, stores[n])[lo..hi] == t[lo..hi];
    }
  }

  lemma ApplyTwo(s: Table, stores: seq<Store>)
    requires |stores| == 2
    ensures Apply(s, stores) == ApplyOne(ApplyOne(s, stores[0]), stores[1])
  {
    assert stores[..1][..0] == [];
    assert Apply(s, stores[..1]) == ApplyOne(Apply(s, []), stores[0]);
  }

  // The value stores one phase at a time.
  lemma ValueStoresInSteps(s: Table, off: nat, value: Data)
    requires off + INFO_SIZE <= AREA_SIZE && |value| < VALUE_MAX
    ensures var all := ValueStores(s, off, value);
            var raised := ApplyOne(s, all[0]);
            var cleared := Apply(raised, Copy(off + RECORD_VALUE, Zeros(VALUE_MAX)));
            var copied := Apply(cleared, Copy(off + RECORD_VALUE, value));
            var published := ApplyOne(copied, all[|all| - 2]);
            && Apply(s, all[..|all| - 2]) == copied
            && Apply(s, all[..|all| - 1]) == published
            && Apply(s, all) == ApplyOne(published, all[|all| - 1])
  {
    var all := ValueStores(s, off, value);
    var zeros := Copy(off + RECORD_VALUE, Zeros(VALUE_MAX));
    var copy := Copy(off + RECORD_VALUE, value);
    assert all[..|all| - 1][..|all| - 2] == all[..|all| - 2] == [all[0]] + zeros + copy;
    ApplyAppend(s, [all[0]] + zeros, copy);
    ApplyAppend(s, [all[0]], zeros);
    assert [all[0]][..0] == [];
    assert Apply(s, [all[0]]) == ApplyOne(Apply(s, []), all[0]);
  }

  // Nothing before its own store touches the area serial.
  lemma AreaSerialUntouched(s: Table, off: nat, value: Data)
    requires off + INFO_SIZE <= AREA_SIZE && |value| < VALUE_MAX
    ensures var all := ValueStores(s, off, value);
            Word(Apply(s, all[..|all| - 1]), SERIAL_OFFSET) == Word(s, SERIAL_OFFSET)
  {
    var all := ValueStores(s, off, value);
    ApplyFrame(s, all[..|all| - 1], SERIAL_OFFSET, SERIAL_OFFSET + 4);
    WordFrame(Apply(s, all[..|all| - 1]), SERIAL_OFFSET, s, SERIAL_OFFSET);
  }

  // format, as the stores it issues: magic and version come last.
  function FormatStores(): seq<Store> {
    var count: Store := StoreWord(COUNT_OFFSET, 0);
    var serial: Store := StoreWord(SERIAL_OFFSET, 0);
    var magic: Store := StoreWord(MAGIC_OFFSET, AREA_MAGIC);
    var version: Store := StoreWord(VERSION_OFFSET, AREA_VERSION);
    Copy(0, Zeros(AREA_SIZE)) + [count, serial, magic, version]
  }
}
