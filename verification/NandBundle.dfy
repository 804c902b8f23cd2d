/**
 Rebuilding the vendor's NAND image with replaced file systems: sizes and
 checksums are rewritten in the table, the payloads follow, the trailer is dropped.
 */
module NandBundle {
  import opened Bytes
  import opened NandImage

  const NAMES: seq<string> := ["block0", "pre-bootloader", "post-bootloader", "tz_en",
                               "bootimgs", "bootimgs_B", "rootfs", "app", "bsl"]
  const TABLE_SIZE: nat := 640
  const ERASE_BYTES: nat := 131072
  const MAX_SAFE_INTEGER: nat := 0x1F_FFFF_FFFF_FFFF
  const APP: nat := 7

  // Bytes whose number fits the size field of a descriptor.
  type Payload = p: Data | |p| <= MAX_UINT64

  // One round of the rewrite loop: the vendor's payload and the one that goes out.
  datatype Choice = Choice(name: string, original: Data, payload: Payload, dataType: nat)

  function Ascii(data: Data): (text: string)
    ensures |text| == |data|
  {
    seq(|data|, i requires 0 <= i < |data| => (data[i] % 0x80) as char)
  }

  function Choose(vendor: Data, replacements: map<string, Data>, crc: Checksum, index: nat, source: nat): Option<Choice>
    requires |vendor| >= TABLE_SIZE && index < |NAMES|
  {
    var entry := Entry(vendor, index);
    var end := FirstZero(entry);
    if end >= 16 || Ascii(entry[..end]) != NAMES[index] then None
    else
      var name := NAMES[index];
      var size := Long(entry, 16);
      if size == 0 || size > MAX_SAFE_INTEGER || source + size > |vendor| then None
      else
        var original := vendor[source..source + size];
        var payload := if name in replacements then replacements[name] else original;
        if crc(original) != Word(entry, 24) || (Word(entry, 48) == 0 && |payload| > Word(entry, 44) * ERASE_BYTES)
           || |payload| > MAX_UINT64 then None
        else Some(Choice(name, original, payload, Word(entry, 48)))
  }

  // The rounds from one index on, reading the vendor's payloads from an offset.
  function Plan(vendor: Data, replacements: map<string, Data>, crc: Checksum, index: nat, source: nat)
    : (plan: Option<seq<Choice>>)
    requires |vendor| >= TABLE_SIZE && index <= |NAMES|
    ensures plan.Some? ==> |plan.value| == |NAMES| - index
    decreases |NAMES| - index
  {
    if index == |NAMES| then Some([])
    else
      var c := Choose(vendor, replacements, crc, index, source);
      if c.None? then None
      else
        var rest := Plan(vendor, replacements, crc, index + 1, source + |c.value.original|);
        if rest.None? then None else Some([c.value] + rest.value)
  }

  function PutLong(s: Data, at: nat, w: uint64): (t: Data)
    requires at + 8 <= |s|
    ensures |t| == |s|
  {
    PutWord(PutWord(s, at, w % 0x1_0000_0000), at + 4, w / 0x1_0000_0000)
  }

  // The size and the checksum of one descriptor, rewritten in place.
  function PutFields(table: Data, index: nat, payload: Payload, crc: Checksum): (t: Data)
    requires |table| == TABLE_SIZE && index < |NAMES|
    ensures |t| == TABLE_SIZE
  {
    var at := FIXED_HEADER_SIZE + index * RECORD_SIZE;
    PutWord(PutLong(table, at + 16, |payload|), at + 24, crc(payload))
  }

  function TableAfter(table: Data, plan: seq<Choice>, rounds: nat, crc: Checksum): (t: Data)
    requires |table| == TABLE_SIZE && rounds <= |plan| <= |NAMES|
    ensures |t| == TABLE_SIZE
  {
    if rounds == 0 then table
    else PutFields(TableAfter(table, plan, rounds - 1, crc), rounds - 1, plan[rounds - 1].payload, crc)
  }

  function Payloads(plan: seq<Choice>): Data {
    if plan == [] then [] else plan[0].payload + Payloads(plan[1..])
  }

  function Changed(plan: seq<Choice>): seq<string> {
    if plan == [] then []
    else (if plan[0].payload != plan[0].original then [plan[0].name] else []) + Changed(plan[1..])
  }

  predicate VendorHeader(vendor: Data) {
    && |vendor| >= TABLE_SIZE && Word(vendor, 0) == IMAGE_MAGIC
    && Word(vendor, 12) == 2048 && Word(vendor, 20) == 64 && Word(vendor, 24) == 2048 && Word(vendor, 28) == |NAMES|
  }

  // The bundle, when every assertion of the script holds.
  function Rebuild(vendor: Data, replacements: map<string, Data>, crc: Checksum): Option<Data> {
    if !VendorHeader(vendor) then None
    else
      match Plan(vendor, replacements, crc, 0, TABLE_SIZE)
      case None => None
      case Some(plan) =>
        if Changed(plan) != ["rootfs", "bsl"] || plan[APP].dataType != 1 then None
        else Some(TableAfter(vendor[..TABLE_SIZE], plan, |NAMES|, crc) + Payloads(plan))
  }

  lemma PlanOnwards(vendor: Data, replacements: map<string, Data>, crc: Checksum, index: nat, source: nat)
    requires |vendor| >= TABLE_SIZE && index <= |NAMES|
    ensures var plan := Plan(vendor, replacements, crc, index, source);
            if index == |NAMES| then plan == Some([])
            else
              var c := Choose(vendor, replacements, crc, index, source);
              if c.None? then plan == None
              else
                var rest := Plan(vendor, replacements, crc, index + 1, source + |c.value.original|);
                plan == if rest.None? then None else Some([c.value] + rest.value)
  {
    hide Choose, Ascii, Entry, Word, Long, FirstZero;
  }

  // ------------------------------------------------------------------ the script

  method WriteWord(table: array<byte>, at: nat, w: uint32)
    requires at + 4 <= table.Length
    modifies table
    ensures table[..] == PutWord(old(table[..]), at, w)
  {
    table[at] := ByteOf(w, 0);
    table[at + 1] := ByteOf(w, 1);
    table[at + 2] := ByteOf(w, 2);
    table[at + 3] := ByteOf(w, 3);
  }

  method WriteFields(table: array<byte>, index: nat, payload: Payload, crc: Checksum)
    requires table.Length == TABLE_SIZE && index < |NAMES|
    modifies table
    ensures table[..] == PutFields(old(table[..]), index, payload, crc)
  {
    hide PutWord;
    var at := FIXED_HEADER_SIZE + index * RECORD_SIZE;
    WriteWord(table, at + 16, |payload| % 0x1_0000_0000);
    WriteWord(table, at + 20, |payload| / 0x1_0000_0000);
    WriteWord(table, at + 24, crc(payload));
  }

  // One round of the loop: the assertions about one descriptor.
  method ChoosePayload(vendor: Data, replacements: map<string, Data>, crc: Checksum, index: nat, source: nat)
    returns (choice: Option<Choice>)
    requires |vendor| >= TABLE_SIZE && index < |NAMES|
    ensures choice == Choose(vendor, replacements, crc, index, source)
  {
    hide Word, FirstZero, Ascii, Entry, Long;
    var descriptor := Entry(vendor, index);
    var nameEnd := FirstZero(descriptor);
    if nameEnd >= 16 {
      return None;
    }
    var name := Ascii(descriptor[..nameEnd]);
    if name != NAMES[index] {
      return None;
    }
    var size := Long(descriptor, 16);
    if size == 0 || size > MAX_SAFE_INTEGER || source + size > |vendor| {
      return None;
    }
    var original := vendor[source..source + size];
    if crc(original) != Word(descriptor, 24) {
      return None;
    }
    var payload := if name in replacements then replacements[name] else original;
    var capacity := Word(descriptor, 44) * ERASE_BYTES;
    if Word(descriptor, 48) == 0 && |payload| > capacity {
      return None;
    }
    // A size over 64 bits cannot be written to the descriptor.
    if |payload| > MAX_UINT64 {
      return None;
    }
    return Some(Choice(name, original, payload, Word(descriptor, 48)));
  }

  // The rewrite loop: the table is rewritten in place while two offsets move on.
  method BuildBundle(vendor: Data, replacements: map<string, Data>, crc: Checksum) returns (bundle: Option<Data>)
    ensures bundle == Rebuild(vendor, replacements, crc)
  {
    hide Choose, Word, PutFields, Payloads, Changed, TableAfter, Plan;
    if !VendorHeader(vendor) {
      return None;
    }
    var table := new byte[TABLE_SIZE](i requires 0 <= i < TABLE_SIZE => vendor[i]);
    assert table[..] == vendor[..TABLE_SIZE];
    var plan: seq<Choice> := [];
    var source: nat, output: nat := TABLE_SIZE, TABLE_SIZE;
    NothingPlanned(Plan(vendor, replacements, crc, 0, source));
    TableSteps(vendor[..TABLE_SIZE], [], 0, crc);
    for index := 0 to |NAMES|
      invariant |plan| == index
      invariant Plan(vendor, replacements, crc, 0, TABLE_SIZE)
             == PrependPlan(plan, Plan(vendor, replacements, crc, index, source))
      invariant table[..] == TableAfter(vendor[..TABLE_SIZE], plan, index, crc)
      invariant output == TABLE_SIZE + |Payloads(plan)|
    {
      var choice := ChoosePayload(vendor, replacements, crc, index, source);
      if choice.None? {
        PlanOnwards(vendor, replacements, crc, index, source);
        return None;
      }
      var c := choice.value;
      WriteFields(table, index, c.payload, crc);
      PlanOnwards(vendor, replacements, crc, index, source);
      PlanAppends(plan, c, Plan(vendor, replacements, crc, index + 1, source + |c.original|));
      TableExtends(vendor[..TABLE_SIZE], plan, c, index, crc);
      plan := plan + [c];
      TableSteps(vendor[..TABLE_SIZE], plan, index + 1, crc);
      source := source + |c.original|;
      output := output + |c.payload|;
    }
    assert plan + [] == plan;
    PlanOnwards(vendor, replacements, crc, |NAMES|, source);
    if Changed(plan) != ["rootfs", "bsl"] || plan[APP].dataType != 1 {
      return None;
    }
    var image := table[..] + Payloads(plan);
    assert |image| == output;
    return Some(image);
  }

  lemma TableSteps(table: Data, plan: seq<Choice>, rounds: nat, crc: Checksum)
    requires |table| == TABLE_SIZE && rounds <= |plan| <= |NAMES|
    ensures TableAfter(table, plan, rounds, crc)
            == if rounds == 0 then table
               else PutFields(TableAfter(table, plan, rounds - 1, crc), rounds - 1, plan[rounds - 1].payload, crc)
  {
    hide PutFields;
  }

  ghost function PrependPlan(plan: seq<Choice>, rest: Option<seq<Choice>>): Option<seq<Choice>> {
    match rest
    case None => None
    case Some(more) => Some(plan + more)
  }

  lemma NothingPlanned(rest: Option<seq<Choice>>)
    ensures PrependPlan([], rest) == rest && |Payloads([])| == 0
  {
    if rest.Some? {
      assert [] + rest.value == rest.value;
    }
  }

  lemma PlanAppends(plan: seq<Choice>, c: Choice, rest: Option<seq<Choice>>)
    ensures rest.None? ==> PrependPlan(plan + [c], rest) == None
    ensures rest.Some? ==> PrependPlan(plan + [c], rest) == PrependPlan(plan, Some([c] + rest.value))
    ensures |Payloads(plan + [c])| == |Payloads(plan)| + |c.payload|
  {
    if rest.Some? {
      assert plan + ([c] + rest.value) == plan + [c] + rest.value;
    }
    PayloadsAppend(plan, c);
  }

  lemma {:induction false} PayloadsAppend(plan: seq<Choice>, c: Choice)
    ensures Payloads(plan + [c]) == Payloads(plan) + c.payload
  {
    if plan == [] {
      assert [c][1..] == [] && [] + [c] == [c];
    } else {
      assert (plan + [c])[1..] == plan[1..] + [c];
      PayloadsAppend(plan[1..], c);
    }
  }

  lemma {:induction false} TableExtends(table: Data, plan: seq<Choice>, c: Choice, rounds: nat, crc: Checksum)
    requires |table| == TABLE_SIZE && rounds <= |plan| < |NAMES|
    ensures TableAfter(table, plan + [c], rounds, crc) == TableAfter(table, plan, rounds, crc)
  {
    if rounds > 0 {
      TableExtends(table, plan, c, rounds - 1, crc);
    }
  }

  // ------------------------------------------------------------------ the rewritten table

  lemma LongOfPutLong(s: Data, at: nat, w: uint64)
    requires at + 8 <= |s|
    ensures Long(PutLong(s, at, w), at) == w
  {
    hide Word, PutWord;
    var low, high := w % 0x1_0000_0000, w / 0x1_0000_0000;
    var first := PutWord(s, at, low);
    WordOfPutWord(s, at, low);
    WordOfPutWord(first, at + 4, high);
    PutWordElsewhere(first, at + 4, high);
    WordFrame(PutLong(s, at, w), at, first, at);
  }

  lemma PutWordElsewhere(s: Data, at: nat, w: uint32)
    requires at + 4 <= |s|
    ensures forall x :: 0 <= x < |s| && !(at <= x < at + 4) ==> PutWord(s, at, w)[x] == s[x]
    ensures forall lo, hi :: 0 <= lo <= hi <= at ==> PutWord(s, at, w)[lo..hi] == s[lo..hi]
  {
  }

  // Two descriptors alike but for size and checksum, which are those of a payload.
  predicate Rewritten(entry: Data, entry': Data, payload: Data, crc: Checksum)
    requires |entry| == |entry'| == RECORD_SIZE
  {
    && (forall x :: 0 <= x < RECORD_SIZE && !(16 <= x < 28) ==> entry'[x] == entry[x])
    && Long(entry', 16) == |payload| && Word(entry', 24) == crc(payload)
  }

  lemma FieldsRewrite(table: Data, index: nat, payload: Payload, crc: Checksum)
    requires |table| == TABLE_SIZE && index < |NAMES|
    ensures var t := PutFields(table, index, payload, crc);
            && t[..FIXED_HEADER_SIZE] == table[..FIXED_HEADER_SIZE]
            && Rewritten(Entry(table, index), Entry(t, index), payload, crc)
            && forall j :: 0 <= j < |NAMES| && j != index ==> Entry(t, j) == Entry(table, j)
  {
    var t := PutFields(table, index, payload, crc);
    hide PutFields, Word, Long;
    hide Entry;
    FieldsElsewhere(table, index, payload, crc);
    FieldsWritten(table, index, payload, crc);
    EntriesElsewhere(table, t, index);
    EntryFields(t, index);
  }

  lemma EntryFields(t: Data, index: nat)
    requires |t| == TABLE_SIZE && index < |NAMES|
    ensures var at := FIXED_HEADER_SIZE + index * RECORD_SIZE;
            Long(Entry(t, index), 16) == Long(t, at + 16) && Word(Entry(t, index), 24) == Word(t, at + 24)
  {
    hide Word, Long;
    var at := FIXED_HEADER_SIZE + index * RECORD_SIZE;
    SliceOfSlice(t, at, at + RECORD_SIZE, 16, 24);
    LongAt(t, at + 16, Entry(t, index), 16);
    SliceOfSlice(t, at, at + RECORD_SIZE, 24, 28);
    WordFrame(t, at + 24, Entry(t, index), 24);
  }

  lemma EntriesElsewhere(table: Data, t: Data, index: nat)
    requires |table| == |t| == TABLE_SIZE && index < |NAMES|
    requires var at := FIXED_HEADER_SIZE + index * RECORD_SIZE;
             forall x :: 0 <= x < TABLE_SIZE && !(at + 16 <= x < at + 28) ==> t[x] == table[x]
    ensures t[..FIXED_HEADER_SIZE] == table[..FIXED_HEADER_SIZE]
    ensures forall j :: 0 <= j < |NAMES| && j != index ==> Entry(t, j) == Entry(table, j)
    ensures forall x :: 0 <= x < RECORD_SIZE && !(16 <= x < 28) ==> Entry(t, index)[x] == Entry(table, index)[x]
  {
    forall j | 0 <= j < |NAMES| && j != index
      ensures Entry(t, j) == Entry(table, j)
    {
      var at := FIXED_HEADER_SIZE + j * RECORD_SIZE;
      assert forall x :: at <= x < at + RECORD_SIZE ==> t[x] == table[x];
    }
  }

  lemma FieldsElsewhere(table: Data, index: nat, payload: Payload, crc: Checksum)
    requires |table| == TABLE_SIZE && index < |NAMES|
    ensures var at := FIXED_HEADER_SIZE + index * RECORD_SIZE;
            forall x :: 0 <= x < TABLE_SIZE && !(at + 16 <= x < at + 28) ==>
              PutFields(table, index, payload, crc)[x] == table[x]
  {
    hide PutWord;
    var at := FIXED_HEADER_SIZE + index * RECORD_SIZE;
    var low, high := |payload| % 0x1_0000_0000, |payload| / 0x1_0000_0000;
    var t1 := PutWord(table, at + 16, low);
    var t2 := PutWord(t1, at + 20, high);
    PutWordElsewhere(table, at + 16, low);
    PutWordElsewhere(t1, at + 20, high);
    PutWordElsewhere(t2, at + 24, crc(payload));
  }

  lemma FieldsWritten(table: Data, index: nat, payload: Payload, crc: Checksum)
    requires |table| == TABLE_SIZE && index < |NAMES|
    ensures var t, at := PutFields(table, index, payload, crc), FIXED_HEADER_SIZE + index * RECORD_SIZE;
            Long(t, at + 16) == |payload| && Word(t, at + 24) == crc(payload)
  {
    hide PutWord, PutLong, Word, Long;
    var at := FIXED_HEADER_SIZE + index * RECORD_SIZE;
    var t2 := PutLong(table, at + 16, |payload|);
    var t := PutWord(t2, at + 24, crc(payload));
    PutWordElsewhere(t2, at + 24, crc(payload));
    assert t[at + 16..at + 24] == t2[at + 16..at + 24];
    WordOfPutWord(t2, at + 24, crc(payload));
    LongOfPutLong(table, at + 16, |payload|);
    LongAt(t2, at + 16, t, at + 16);
  }

  lemma SliceOfSlice(s: Data, a: nat, b: nat, c: nat, d: nat)
    requires a <= b <= |s| && c <= d <= b - a
    ensures s[a..b][c..d] == s[a + c..a + d]
  {
    var inner, outer := s[a..b][c..d], s[a + c..a + d];
    forall i | 0 <= i < d - c
      ensures inner[i] == outer[i]
    {
      assert inner[i] == s[a..b][c + i] == s[a + (c + i)];
    }
  }

  lemma LongAt(s: Data, at: nat, t: Data, at': nat)
    requires at + 8 <= |s| && at' + 8 <= |t|
    requires s[at..at + 8] == t[at'..at' + 8]
    ensures Long(s, at) == Long(t, at')
  {
    hide Word;
    assert s[at..at + 4] == s[at..at + 8][..4] == t[at'..at' + 8][..4] == t[at'..at' + 4];
    assert s[at + 4..at + 8] == s[at..at + 8][4..] == t[at'..at' + 8][4..] == t[at' + 4..at' + 8];
    WordFrame(s, at, t, at');
    WordFrame(s, at + 4, t, at' + 4);
  }

  lemma {:induction false} TableRewritten(table: Data, plan: seq<Choice>, rounds: nat, crc: Checksum)
    requires |table| == TABLE_SIZE && rounds <= |plan| == |NAMES|
    ensures var t := TableAfter(table, plan, rounds, crc);
            && t[..FIXED_HEADER_SIZE] == table[..FIXED_HEADER_SIZE]
            && (forall j :: 0 <= j < rounds ==> Rewritten(Entry(table, j), Entry(t, j), plan[j].payload, crc))
            && (forall j :: rounds <= j < |NAMES| ==> Entry(t, j) == Entry(table, j))
  {
    hide PutFields, Rewritten, Entry;
    if rounds > 0 {
      TableRewritten(table, plan, rounds - 1, crc);
      FieldsRewrite(TableAfter(table, plan, rounds - 1, crc), rounds - 1, plan[rounds - 1].payload, crc);
    }
  }

  // What the rewritten descriptor reads as.
  lemma RewrittenReads(entry: Data, entry': Data, payload: Data, crc: Checksum, g: Geometry)
    requires |entry| == |entry'| == RECORD_SIZE && Rewritten(entry, entry', payload, crc)
    requires ReadDescriptor(entry, g).Some?
    ensures ReadDescriptor(entry', g)
            == Some(ReadDescriptor(entry, g).value.(stored := |payload|, crc32 := crc(payload)))
  {
    hide CString, Allocate, Word, Long;
    assert entry'[..16] == entry[..16] && entry'[56..] == entry[56..];
    forall at | at in {28, 32, 36, 40, 44, 48, 52}
      ensures Word(entry', at) == Word(entry, at)
    {
      assert entry'[at..at + 4] == entry[at..at + 4];
      WordFrame(entry', at, entry, at);
    }
  }

  // ------------------------------------------------------------------ acceptance

  // A payload the parser takes wherever its descriptor and its bytes agree.
  predicate Acceptable(payload: Data) {
    payload != [] && Superblock(payload).Some?
  }

  // The records of a rebuilt image, against the vendor's.
  predicate Alike(vendor: seq<Record>, rebuilt: seq<Record>, plan: seq<Choice>, crc: Checksum) {
    && |vendor| == |rebuilt| == |plan|
    && forall k :: 0 <= k < |plan| ==>
         rebuilt[k].descriptor
         == vendor[k].descriptor.(stored := |plan[k].payload|, crc32 := crc(plan[k].payload))
  }

  ghost predicate AllAcceptable(plan: seq<Choice>) {
    forall k :: 0 <= k < |plan| ==> Acceptable(plan[k].payload)
  }

  // Payloads that are not replaced are the vendor's, and acceptable like them.
  ghost predicate Spared(plan: seq<Choice>, replacements: map<string, Data>) {
    forall k :: 0 <= k < |plan| && plan[k].name !in replacements ==>
      plan[k].payload == plan[k].original && Acceptable(plan[k].payload)
  }

  ghost predicate EntriesRewritten(vendor: Data, image: Data, index: nat, plan: seq<Choice>, crc: Checksum)
    requires |vendor| >= TABLE_SIZE && |image| >= TABLE_SIZE && index + |plan| == |NAMES|
  {
    forall k :: 0 <= k < |plan| ==>
      Rewritten(Entry(vendor, index + k), Entry(image, index + k), plan[k].payload, crc)
  }

  lemma EntriesOnwards(vendor: Data, image: Data, index: nat, plan: seq<Choice>, crc: Checksum)
    requires |vendor| >= TABLE_SIZE && |image| >= TABLE_SIZE && index + |plan| == |NAMES| && plan != []
    requires EntriesRewritten(vendor, image, index, plan, crc)
    ensures Rewritten(Entry(vendor, index), Entry(image, index), plan[0].payload, crc)
    ensures EntriesRewritten(vendor, image, index + 1, plan[1..], crc)
  {
    hide Rewritten, Entry;
    var rest := plan[1..];
    assert Rewritten(Entry(vendor, index + 0), Entry(image, index + 0), plan[0].payload, crc);
    forall k | 0 <= k < |rest|
      ensures Rewritten(Entry(vendor, index + 1 + k), Entry(image, index + 1 + k), rest[k].payload, crc)
    {
      assert rest[k] == plan[k + 1] && index + 1 + k == index + (k + 1);
    }
  }

  lemma PlansGrow(c: Choice, rest: seq<Choice>, replacements: map<string, Data>)
    ensures AllAcceptable([c] + rest) <==> Acceptable(c.payload) && AllAcceptable(rest)
    ensures Spared(rest, replacements) && (c.name !in replacements ==> c.payload == c.original && Acceptable(c.payload))
            ==> Spared([c] + rest, replacements)
  {
    hide Acceptable;
    var plan := [c] + rest;
    assert plan[0] == c;
    assert forall k :: 0 <= k < |rest| ==> rest[k] == plan[k + 1];
    assert forall k :: 0 < k < |plan| ==> plan[k] == rest[k - 1];
  }

  lemma AlikeGrows(v: Record, vs: seq<Record>, r: Record, rs: seq<Record>, c: Choice, plan: seq<Choice>, crc: Checksum)
    requires Alike(vs, rs, plan, crc)
    requires r.descriptor == v.descriptor.(stored := |c.payload|, crc32 := crc(c.payload))
    ensures Alike([v] + vs, [r] + rs, [c] + plan, crc)
  {
  }

  // The payloads not replaced are the vendor's, and acceptable like them.
  lemma RoundAgrees(vendor: Data, image: Data, replacements: map<string, Data>, crc: Checksum, g: Geometry,
                    index: nat, source: nat, cursor: nat)
    requires |vendor| >= TABLE_SIZE && |image| >= TABLE_SIZE && index < |NAMES|
    requires Measured(g) && g.eraseBytes == ERASE_BYTES
    requires Choose(vendor, replacements, crc, index, source).Some?
    requires ReadDescriptor(Entry(vendor, index), g).Some?
    requires TakePayload(vendor, crc, ReadDescriptor(Entry(vendor, index), g).value, source).Some?
    requires var payload := Choose(vendor, replacements, crc, index, source).value.payload;
             && Rewritten(Entry(vendor, index), Entry(image, index), payload, crc)
             && cursor + |payload| <= |image| && image[cursor..cursor + |payload|] == payload
    ensures var c := Choose(vendor, replacements, crc, index, source).value;
            var d := ReadDescriptor(Entry(vendor, index), g).value;
            var d' := d.(stored := |c.payload|, crc32 := crc(c.payload));
            && |c.original| == d.stored
            && ReadDescriptor(Entry(image, index), g) == Some(d')
            && (TakePayload(image, crc, d', cursor).Some? <==> Acceptable(c.payload))
            && (c.name !in replacements ==> c.payload == c.original && Acceptable(c.payload))
  {
    hide FirstZero, CString, Superblock, Rewritten, Entry, Long, Word;
    var c := Choose(vendor, replacements, crc, index, source).value;
    RewrittenReads(Entry(vendor, index), Entry(image, index), c.payload, crc, g);
    var entry := Entry(vendor, index);
    AllocationIsExact(Word(entry, 40), Word(entry, 44), g);
  }

  lemma PlanStep(vendor: Data, replacements: map<string, Data>, crc: Checksum, index: nat, source: nat)
    requires |vendor| >= TABLE_SIZE && index <= |NAMES|
    requires Plan(vendor, replacements, crc, index, source).Some?
    ensures var plan := Plan(vendor, replacements, crc, index, source);
            if index == |NAMES| then plan == Some([])
            else
              var c := Choose(vendor, replacements, crc, index, source);
              c.Some? && plan.value[0] == c.value
              && Plan(vendor, replacements, crc, index + 1, source + |c.value.original|) == Some(plan.value[1..])
  {
    hide Choose, Plan;
    PlanOnwards(vendor, replacements, crc, index, source);
  }

  lemma ScanStep(image: Data, crc: Checksum, g: Geometry, index: nat, cursor: nat, names: set<Data>)
    requires |image| >= TABLE_SIZE && index <= |NAMES| && cursor <= |image|
    ensures var scan := Scan(image, crc, g, index, |NAMES|, cursor, names);
            if index == |NAMES| then scan == Some([])
            else
              var d := ReadDescriptor(Entry(image, index), g);
              if d.None? || d.value.name in names then scan == None
              else
                var record := TakePayload(image, crc, d.value, cursor);
                if record.None? then scan == None
                else
                  && cursor + d.value.stored <= |image|
                  && var rest := Scan(image, crc, g, index + 1, |NAMES|, cursor + d.value.stored,
                                      names + {d.value.name});
                     scan == if rest.None? then None else Some([record.value] + rest.value)
  {
    hide ReadDescriptor, Entry;
  }

  lemma {:induction false} RoundsAgree(vendor: Data, image: Data, replacements: map<string, Data>, crc: Checksum,
                                       g: Geometry, index: nat, source: nat, cursor: nat, names: set<Data>)
    requires |vendor| >= TABLE_SIZE && |image| >= TABLE_SIZE && index <= |NAMES|
    requires Measured(g) && g.eraseBytes == ERASE_BYTES
    requires source <= |vendor| && cursor <= |image|
    requires Plan(vendor, replacements, crc, index, source).Some?
    requires Scan(vendor, crc, g, index, |NAMES|, source, names).Some?
    requires var plan := Plan(vendor, replacements, crc, index, source).value;
             image[cursor..] == Payloads(plan) && EntriesRewritten(vendor, image, index, plan, crc)
    ensures var plan := Plan(vendor, replacements, crc, index, source).value;
            var scan := Scan(image, crc, g, index, |NAMES|, cursor, names);
            && (scan.Some? <==> AllAcceptable(plan))
            && (scan.Some? ==> Alike(Scan(vendor, crc, g, index, |NAMES|, source, names).value, scan.value, plan, crc))
            && Spared(plan, replacements)
    decreases |NAMES| - index
  {
    hide Choose, ReadDescriptor, TakePayload, Rewritten, Entry, Acceptable, EntriesRewritten, Stored, Payloads,
         Measured;
    hide Scan, Plan;
    PlanStep(vendor, replacements, crc, index, source);
    ScanStep(vendor, crc, g, index, source, names);
    ScanStep(image, crc, g, index, cursor, names);
    var plan := Plan(vendor, replacements, crc, index, source).value;
    if index < |NAMES| {
      hide AllAcceptable, Spared, Alike;
      var c := Choose(vendor, replacements, crc, index, source).value;
      var d := ReadDescriptor(Entry(vendor, index), g).value;
      var rest := plan[1..];
      assert plan == [c] + rest;
      PayloadsSplit(image, cursor, plan);
      EntriesOnwards(vendor, image, index, plan, crc);
      RoundAgrees(vendor, image, replacements, crc, g, index, source, cursor);
      PayloadWithin(vendor, crc, d, source);
      RoundsAgree(vendor, image, replacements, crc, g, index + 1, source + d.stored, cursor + |c.payload|,
                  names + {d.name});
      PlansGrow(c, rest, replacements);
      var d' := d.(stored := |c.payload|, crc32 := crc(c.payload));
      if AllAcceptable(plan) {
        PayloadWithin(image, crc, d', cursor);
        AlikeGrows(TakePayload(vendor, crc, d, source).value,
                   Scan(vendor, crc, g, index + 1, |NAMES|, source + d.stored, names + {d.name}).value,
                   TakePayload(image, crc, d', cursor).value,
                   Scan(image, crc, g, index + 1, |NAMES|, cursor + d'.stored, names + {d.name}).value, c, rest, crc);
      }
    }
  }

  lemma PayloadsSplit(image: Data, cursor: nat, plan: seq<Choice>)
    requires cursor <= |image| && plan != [] && image[cursor..] == Payloads(plan)
    ensures var n := |plan[0].payload|;
            cursor + n <= |image| && image[cursor..cursor + n] == plan[0].payload
            && image[cursor + n..] == Payloads(plan[1..])
  {
    var n := |plan[0].payload|;
    assert image[cursor..cursor + n] == image[cursor..][..n];
    assert image[cursor + n..] == image[cursor..][n..];
  }

  // ------------------------------------------------------------------ the theorems

  // What the two images share before the record loop.
  lemma SameHeader(vendor: Data, image: Data)
    requires |vendor| >= TABLE_SIZE && |image| >= TABLE_SIZE
    requires image[..FIXED_HEADER_SIZE] == vendor[..FIXED_HEADER_SIZE]
    ensures ReadGeometry(image) == ReadGeometry(vendor)
    ensures Word(image, 0) == Word(vendor, 0) && Word(image, 28) == Word(vendor, 28)
    ensures image[35..FIXED_HEADER_SIZE] == vendor[35..FIXED_HEADER_SIZE]
    ensures ParseVersion(image, 4) == ParseVersion(vendor, 4) && image[32] == vendor[32]
            && image[33..35] == vendor[33..35]
  {
    hide Word, Multiply;
    forall at | at in {0, 4, 8, 12, 16, 20, 24, 28}
      ensures Word(image, at) == Word(vendor, at)
    {
      SliceOfSlice(image, 0, FIXED_HEADER_SIZE, at, at + 4);
      SliceOfSlice(vendor, 0, FIXED_HEADER_SIZE, at, at + 4);
      WordFrame(image, at, vendor, at);
    }
    SliceOfSlice(image, 0, FIXED_HEADER_SIZE, 35, 64);
    SliceOfSlice(vendor, 0, FIXED_HEADER_SIZE, 35, 64);
    SliceOfSlice(image, 0, FIXED_HEADER_SIZE, 33, 35);
    SliceOfSlice(vendor, 0, FIXED_HEADER_SIZE, 33, 35);
    assert image[32] == image[..FIXED_HEADER_SIZE][32] == vendor[..FIXED_HEADER_SIZE][32] == vendor[32];
  }

  // The rebuilt image, taken apart.
  lemma RebuiltParts(vendor: Data, replacements: map<string, Data>, crc: Checksum)
    requires Rebuild(vendor, replacements, crc).Some?
    ensures var image := Rebuild(vendor, replacements, crc).value;
            var plan := Plan(vendor, replacements, crc, 0, TABLE_SIZE).value;
            && |image| == TABLE_SIZE + |Payloads(plan)| && image[TABLE_SIZE..] == Payloads(plan)
            && image[..FIXED_HEADER_SIZE] == vendor[..FIXED_HEADER_SIZE]
            && EntriesRewritten(vendor, image, 0, plan, crc)
  {
    hide Plan, Payloads, Rewritten, TableAfter;
    var image := Rebuild(vendor, replacements, crc).value;
    var plan := Plan(vendor, replacements, crc, 0, TABLE_SIZE).value;
    var bare := vendor[..TABLE_SIZE];
    var table := TableAfter(bare, plan, |NAMES|, crc);
    TableRewritten(bare, plan, |NAMES|, crc);
    assert image == table + Payloads(plan);
    SliceOfSlice(vendor, 0, TABLE_SIZE, 0, FIXED_HEADER_SIZE);
    SliceOfSlice(image, 0, TABLE_SIZE, 0, FIXED_HEADER_SIZE);
    assert image[0..TABLE_SIZE] == table && vendor[0..TABLE_SIZE] == bare;
    forall k | 0 <= k < |plan|
      ensures Rewritten(Entry(vendor, 0 + k), Entry(image, 0 + k), plan[k].payload, crc)
    {
      SliceOfSlice(vendor, 0, TABLE_SIZE, FIXED_HEADER_SIZE + k * RECORD_SIZE,
                   FIXED_HEADER_SIZE + (k + 1) * RECORD_SIZE);
      SliceOfSlice(image, 0, TABLE_SIZE, FIXED_HEADER_SIZE + k * RECORD_SIZE,
                   FIXED_HEADER_SIZE + (k + 1) * RECORD_SIZE);
    }
  }

  // Each round is for the name at its place, with the replacement where there is one.
  ghost predicate Filled(plan: seq<Choice>, index: nat, replacements: map<string, Data>)
    requires index + |plan| == |NAMES|
  {
    forall k :: 0 <= k < |plan| ==> FilledAt(plan[k], index + k, replacements)
  }

  predicate FilledAt(c: Choice, index: nat, replacements: map<string, Data>)
    requires index < |NAMES|
  {
    c.name == NAMES[index] && c.payload == if c.name in replacements then replacements[c.name] else c.original
  }

  lemma ChosenPayload(vendor: Data, replacements: map<string, Data>, crc: Checksum, index: nat, source: nat)
    requires |vendor| >= TABLE_SIZE && index < |NAMES| && Choose(vendor, replacements, crc, index, source).Some?
    ensures FilledAt(Choose(vendor, replacements, crc, index, source).value, index, replacements)
  {
    hide FirstZero, Ascii, Entry, Word, Long;
  }

  lemma {:induction false} PlanIsFilled(vendor: Data, replacements: map<string, Data>, crc: Checksum, index: nat,
                                        source: nat)
    requires |vendor| >= TABLE_SIZE && index <= |NAMES|
    requires Plan(vendor, replacements, crc, index, source).Some?
    ensures Filled(Plan(vendor, replacements, crc, index, source).value, index, replacements)
    decreases |NAMES| - index
  {
    hide Plan, Choose, FilledAt;
    PlanStep(vendor, replacements, crc, index, source);
    if index < |NAMES| {
      var plan := Plan(vendor, replacements, crc, index, source).value;
      var c := Choose(vendor, replacements, crc, index, source).value;
      ChosenPayload(vendor, replacements, crc, index, source);
      PlanIsFilled(vendor, replacements, crc, index + 1, source + |c.original|);
      forall k | 0 <= k < |plan|
        ensures FilledAt(plan[k], index + k, replacements)
      {
        if k > 0 {
          assert plan[k] == plan[1..][k - 1] && index + 1 + (k - 1) == index + k;
        }
      }
    }
  }

  ghost predicate ReplacementsAcceptable(replacements: map<string, Data>) {
    forall k :: 0 <= k < |NAMES| && NAMES[k] in replacements ==> Acceptable(replacements[NAMES[k]])
  }

  lemma AcceptableIff(plan: seq<Choice>, replacements: map<string, Data>)
    requires |plan| == |NAMES| && Filled(plan, 0, replacements) && Spared(plan, replacements)
    ensures AllAcceptable(plan) <==> ReplacementsAcceptable(replacements)
  {
    hide Acceptable;
    assert forall k :: 0 <= k < |plan| ==> FilledAt(plan[k], 0 + k, replacements);
    assert forall k :: 0 <= k < |plan| ==> plan[k].name == NAMES[k];
    if AllAcceptable(plan) {
      forall k | 0 <= k < |NAMES| && NAMES[k] in replacements
        ensures Acceptable(replacements[NAMES[k]])
      {
        assert Acceptable(plan[k].payload);
      }
    }
    if ReplacementsAcceptable(replacements) {
      forall k | 0 <= k < |plan|
        ensures Acceptable(plan[k].payload)
      {
        assert NAMES[k] in replacements ==> Acceptable(replacements[NAMES[k]]);
      }
    }
  }

  lemma ChosenOriginal(vendor: Data, replacements: map<string, Data>, crc: Checksum, g: Geometry, index: nat,
                       source: nat)
    requires |vendor| >= TABLE_SIZE && index < |NAMES|
    requires Choose(vendor, replacements, crc, index, source).Some? && ReadDescriptor(Entry(vendor, index), g).Some?
    ensures var c := Choose(vendor, replacements, crc, index, source).value;
            var d := ReadDescriptor(Entry(vendor, index), g).value;
            source + d.stored <= |vendor| && c.original == vendor[source..source + d.stored]
  {
    hide FirstZero, CString, Allocate, Word;
  }

  // The original of each round is the payload the parser finds for that record.
  lemma {:induction false} OriginalsAreInspected(vendor: Data, replacements: map<string, Data>, crc: Checksum,
                                                 g: Geometry,
                                                 index: nat, source: nat, names: set<Data>)
    requires |vendor| >= TABLE_SIZE && index <= |NAMES| && source <= |vendor|
    requires Plan(vendor, replacements, crc, index, source).Some?
    requires Scan(vendor, crc, g, index, |NAMES|, source, names).Some?
    ensures var plan := Plan(vendor, replacements, crc, index, source).value;
            var records := Scan(vendor, crc, g, index, |NAMES|, source, names).value;
            |records| == |plan| && forall k :: 0 <= k < |plan| ==> PayloadOf(vendor, records[k], plan[k].original)
    decreases |NAMES| - index
  {
    hide Plan, Scan, Choose, ReadDescriptor, TakePayload, Entry, Stored, Ascii, Superblock;
    PlanStep(vendor, replacements, crc, index, source);
    ScanStep(vendor, crc, g, index, source, names);
    if index < |NAMES| {
      var plan := Plan(vendor, replacements, crc, index, source).value;
      var records := Scan(vendor, crc, g, index, |NAMES|, source, names).value;
      var d := ReadDescriptor(Entry(vendor, index), g).value;
      ChosenOriginal(vendor, replacements, crc, g, index, source);
      PayloadWithin(vendor, crc, d, source);
      OriginalsAreInspected(vendor, replacements, crc, g, index + 1, source + d.stored, names + {d.name});
      assert forall k :: 1 <= k < |plan| ==> plan[k] == plan[1..][k - 1] && records[k] == records[1..][k - 1];
    }
  }

  // The bytes a record stands for.
  predicate PayloadOf(image: Data, record: Record, payload: Data) {
    && record.payloadOffset + record.descriptor.stored <= |image|
    && image[record.payloadOffset..record.payloadOffset + record.descriptor.stored] == payload
  }

  // Payloads written one after the other lie where the sizes put them, up to the end.
  lemma {:induction false} PayloadsLie(image: Data, cursor: nat, plan: seq<Choice>, records: seq<Record>)
    requires cursor <= |image| && image[cursor..] == Payloads(plan) && |records| == |plan|
    requires forall k :: 0 <= k < |plan| ==> records[k].descriptor.stored == |plan[k].payload|
    requires Tiles(records, cursor)
    ensures forall k :: 0 <= k < |plan| ==> PayloadOf(image, records[k], plan[k].payload)
    ensures cursor + Stored(records) == |image|
    decreases |plan|
  {
    hide Tiles;
    if plan == [] {
      assert |image[cursor..]| == 0;
    } else {
      PayloadsSplit(image, cursor, plan);
      TilesFrom(records, cursor);
      PayloadsLie(image, cursor + |plan[0].payload|, plan[1..], records[1..]);
      assert forall k :: 1 <= k < |plan| ==> plan[k] == plan[1..][k - 1] && records[k] == records[1..][k - 1];
    }
  }

  lemma TilesFrom(records: seq<Record>, start: nat)
    requires records != [] && Tiles(records, start)
    ensures records[0].payloadOffset == start && Tiles(records[1..], start + records[0].descriptor.stored)
  {
    assert records[..0] == [];
    var rest := records[1..];
    forall i | 0 <= i < |rest|
      ensures rest[i].payloadOffset == start + records[0].descriptor.stored + Stored(rest[..i])
    {
      assert rest[i] == records[i + 1];
      assert records[..i + 1][1..] == rest[..i];
    }
  }

  // The parser takes the rebuilt image exactly when it is not too long and every
  // replacement is non-empty and carries a sound superblock or none.  That it
  // fits its allocation has been checked on the way, and needs nothing more.
  lemma RebuiltIsAcceptedIff(vendor: Data, replacements: map<string, Data>, crc: Checksum)
    requires Inspect(vendor, crc).Some? && Rebuild(vendor, replacements, crc).Some?
    ensures var image := Rebuild(vendor, replacements, crc).value;
            Inspect(image, crc).Some?
            <==> |image| <= MAX_INT64 && ReplacementsAcceptable(replacements)
  {
    hide Plan, Scan, Word, Acceptable, EntriesRewritten, StartsWithZip, ParseVersion, Stored, Payloads;
    hide Filled, Spared, AllAcceptable, Alike, Measured, ReplacementsAcceptable;
    var image := Rebuild(vendor, replacements, crc).value;
    var plan := Plan(vendor, replacements, crc, 0, TABLE_SIZE).value;
    RebuiltParts(vendor, replacements, crc);
    SameHeader(vendor, image);
    var g := ReadGeometry(vendor).value;
    GeometryIsMeasured(vendor);
    VendorErase(vendor);
    RoundsAgree(vendor, image, replacements, crc, g, 0, TABLE_SIZE, TABLE_SIZE, {});
    PlanIsFilled(vendor, replacements, crc, 0, TABLE_SIZE);
    AcceptableIff(plan, replacements);
  }

  lemma VendorErase(vendor: Data)
    requires VendorHeader(vendor) && ReadGeometry(vendor).Some?
    ensures ReadGeometry(vendor).value.eraseBytes == ERASE_BYTES
  {
    hide Word;
  }

  // Nothing but sizes and checksums changes: every record keeps its name, version,
  // types and allocation, stands for the payload chosen for it, byte for byte the
  // vendor's where none was supplied, and the payloads tile the file to its end.
  lemma RebuiltMeansTheSame(vendor: Data, replacements: map<string, Data>, crc: Checksum)
    requires Inspect(vendor, crc).Some? && Rebuild(vendor, replacements, crc).Some?
    requires Inspect(Rebuild(vendor, replacements, crc).value, crc).Some?
    ensures var image := Rebuild(vendor, replacements, crc).value;
            var v, b := Inspect(vendor, crc).value, Inspect(image, crc).value;
            && b.geometry == v.geometry && b.version == v.version && b.ddrType == v.ddrType
            && b.ddrChannels == v.ddrChannels && b.cpuType == v.cpuType
            && |b.records| == |v.records| == |NAMES|
            && (forall k :: 0 <= k < |NAMES| ==>
                  SameRecord(vendor, v.records[k], image, b.records[k], replacements, NAMES[k]))
            && Tiles(b.records, TABLE_SIZE) && b.payloadEnd == |image| && b.trailerBytes == 0
  {
    hide Plan, Scan, Word, Acceptable, EntriesRewritten, StartsWithZip, ParseVersion, Stored, Payloads, Tiles,
         PayloadOf;
    hide Spared, AllAcceptable, Measured, ReadDescriptor, TakePayload;
    var image := Rebuild(vendor, replacements, crc).value;
    var plan := Plan(vendor, replacements, crc, 0, TABLE_SIZE).value;
    var v, b := Inspect(vendor, crc).value, Inspect(image, crc).value;
    RebuiltParts(vendor, replacements, crc);
    SameHeader(vendor, image);
    var g := ReadGeometry(vendor).value;
    GeometryIsMeasured(vendor);
    VendorErase(vendor);
    RoundsAgree(vendor, image, replacements, crc, g, 0, TABLE_SIZE, TABLE_SIZE, {});
    PlanIsFilled(vendor, replacements, crc, 0, TABLE_SIZE);
    OriginalsAreInspected(vendor, replacements, crc, g, 0, TABLE_SIZE, {});
    ScanTiles(image, crc, g, 0, |NAMES|, TABLE_SIZE, {});
    PayloadsLie(image, TABLE_SIZE, plan, b.records);
    forall k | 0 <= k < |NAMES|
      ensures SameRecord(vendor, v.records[k], image, b.records[k], replacements, NAMES[k])
    {
      assert FilledAt(plan[k], 0 + k, replacements);
      assert PayloadOf(image, b.records[k], plan[k].payload) && PayloadOf(vendor, v.records[k], plan[k].original);
      SameWhenAlike(vendor, v.records[k], image, b.records[k], replacements, plan[k]);
    }
  }

  predicate SameRecord(vendor: Data, v: Record, image: Data, b: Record, replacements: map<string, Data>, name: string) {
    && b.descriptor == v.descriptor.(stored := b.descriptor.stored, crc32 := b.descriptor.crc32)
    && if name in replacements then PayloadOf(image, b, replacements[name])
       else
         var at, size := v.payloadOffset, v.descriptor.stored;
         at + size <= |vendor| && PayloadOf(image, b, vendor[at..at + size])
  }

  lemma SameWhenAlike(vendor: Data, v: Record, image: Data, b: Record, replacements: map<string, Data>, c: Choice)
    requires b.descriptor == v.descriptor.(stored := b.descriptor.stored, crc32 := b.descriptor.crc32)
    requires PayloadOf(image, b, c.payload) && PayloadOf(vendor, v, c.original)
    requires c.payload == if c.name in replacements then replacements[c.name] else c.original
    ensures SameRecord(vendor, v, image, b, replacements, c.name)
  {
  }
}
