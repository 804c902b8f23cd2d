/**
 What the NAND inspector accepts and what it reports, said of the bytes of the
 file: offsets into header and table, and the payloads one after the other.
 */
module NandLaws {
  import opened Bytes
  import opened NandImage

  // ------------------------------------------------------------------ words

  // Least significant byte first.
  function LittleEndian(bytes: Data): nat {
    if bytes == [] then 0
    else
      var low: int := bytes[0];
      low + 0x100 * LittleEndian(bytes[1..])
  }

  lemma OneMoreByte(bytes: Data)
    requires bytes != []
    ensures LittleEndian(bytes) == bytes[0] as int + 0x100 * LittleEndian(bytes[1..])
  {
  }

  lemma WordIsLittleEndian(s: Data, at: nat)
    requires at + 4 <= |s|
    ensures Word(s, at) == LittleEndian(s[at..at + 4])
  {
    HalfIsLittleEndian(s, at + 2);
    OneMoreByte(s[at..at + 4]);
    assert s[at..at + 4][1..] == s[at + 1..at + 4];
    OneMoreByte(s[at + 1..at + 4]);
    assert s[at + 1..at + 4][1..] == s[at + 2..at + 4];
  }

  lemma HalfIsLittleEndian(s: Data, at: nat)
    requires at + 2 <= |s|
    ensures Half(s, at) == LittleEndian(s[at..at + 2])
  {
    var h := s[at..at + 2];
    OneMoreByte(h);
    OneMoreByte(h[1..]);
    assert h[1..][1..] == [] && LittleEndian([]) == 0;
  }

  lemma LongIsLittleEndian(s: Data, at: nat)
    requires at + 8 <= |s|
    ensures Long(s, at) == LittleEndian(s[at..at + 8])
  {
    hide Word;
    WordIsLittleEndian(s, at);
    WordIsLittleEndian(s, at + 4);
    var low, high := s[at..at + 4], s[at + 4..at + 8];
    assert s[at..at + 8] == low + high;
    FourMoreBytes(low, high);
  }

  lemma FourMoreBytes(low: Data, high: Data)
    requires |low| == 4
    ensures LittleEndian(low + high) == LittleEndian(low) + 0x1_0000_0000 * LittleEndian(high)
  {
    HigherBytes(low, high);
  }

  function Power(n: nat): nat {
    if n == 0 then 1 else 0x100 * Power(n - 1)
  }

  lemma {:induction false} HigherBytes(low: Data, high: Data)
    ensures LittleEndian(low + high) == LittleEndian(low) + Power(|low|) * LittleEndian(high)
  {
    if low == [] {
      assert low + high == high;
    } else {
      assert (low + high)[1..] == low[1..] + high;
      HigherBytes(low[1..], high);
    }
  }

  // ------------------------------------------------------------------ strings

  // A fixed-width field holds a text: printable, not empty, then zeros only.
  predicate IsText(field: Data, text: Data) {
    && 0 < |text| < |field| && field == text + Zeros(|field| - |text|)
    && forall i :: 0 <= i < |text| ==> 32 <= text[i] <= 126
  }

  lemma CStringIff(field: Data, text: Data)
    ensures CString(field) == Some(text) <==> IsText(field, text)
  {
    var end := FirstZero(field);
    if CString(field) == Some(text) {
      assert field[end..] == Zeros(|field| - end);
      assert field == field[..end] + field[end..];
    }
    if IsText(field, text) {
      assert field[|text|] == 0 && forall i :: 0 <= i < |text| ==> field[i] == text[i];
      assert end == |text| && field[..end] == text;
      assert field[end..] == Zeros(|field| - |text|);
    }
  }

  // Two fields of one width hold the same text only if they are the same bytes.
  lemma SameTextSameField(a: Data, b: Data)
    requires |a| == |b| && CString(a).Some? && CString(b).Some?
    ensures CString(a) == CString(b) <==> a == b
  {
    CStringIff(a, CString(a).value);
    CStringIff(b, CString(b).value);
  }

  // ------------------------------------------------------------------ superblocks

  predicate BlockSize(n: nat) {
    n in {4096, 8192, 16384, 32768, 65536, 131072, 262144, 524288, 1048576}
  }

  // A payload that starts like a SquashFS file system has a sound superblock.
  predicate SoundFileSystem(payload: Data) {
    |payload| >= 96 && Word(payload, 0) == 0x73717368 ==>
      && Half(payload, 28) == 4 && Half(payload, 30) == 0
      && 96 <= Long(payload, 40) <= |payload|
      && BlockSize(Word(payload, 12))
  }

  lemma {:induction false} PowersOfTwo(n: nat)
    requires n <= 1048576
    ensures PowerOfTwo(n) <==>
              n in {1, 2, 4, 8, 16, 32, 64, 128, 256, 512, 1024, 2048} || BlockSize(n)
  {
    if n > 1 {
      PowersOfTwo(n / 2);
    }
  }

  lemma SuperblockIff(payload: Data)
    ensures Superblock(payload).Some? <==> SoundFileSystem(payload)
  {
    if |payload| >= 96 && Word(payload, 12) <= 1048576 {
      PowersOfTwo(Word(payload, 12));
    }
  }

  // ------------------------------------------------------------------ the table

  // Descriptor i starts here, and its fields at fixed distances.
  function At(i: nat): nat {
    64 + 64 * i
  }

  function NameField(image: Data, i: nat): Data
    requires At(i + 1) <= |image|
  {
    image[At(i)..At(i) + 16]
  }

  function StoredAt(image: Data, i: nat): nat
    requires At(i + 1) <= |image|
  {
    Long(image, At(i) + 16)
  }

  // The file holds a header and the table it announces.
  predicate Tabled(image: Data) {
    |image| >= 64 && At(Word(image, 28)) <= |image|
  }

  // Payload i follows the table and the payloads before it.
  function OffsetAt(image: Data, i: nat): nat
    requires Tabled(image) && i <= Word(image, 28)
  {
    if i == 0 then At(Word(image, 28)) else OffsetAt(image, i - 1) + StoredAt(image, i - 1)
  }

  // The device has as many bytes as fit 64 bits, and some.
  predicate GeometrySound(image: Data)
    requires |image| >= 64
  {
    && Word(image, 12) > 0 && Word(image, 20) > 0 && Word(image, 24) > 0
    && Word(image, 12) * Word(image, 20) * Word(image, 24) <= 0xFFFF_FFFF_FFFF_FFFF
  }

  predicate HeaderSound(image: Data) {
    && 64 <= |image| <= 0x7FFF_FFFF_FFFF_FFFF
    && Word(image, 0) == 0xd2ada3f1
    && (forall k :: 35 <= k < 64 ==> image[k] == 0)
    && GeometrySound(image)
    && 1 <= Word(image, 28) <= 1024 && Tabled(image)
  }

  predicate Readable(image: Data, i: nat) {
    HeaderSound(image) && i < Word(image, 28)
  }

  // The payload lies within the file.
  predicate Inside(image: Data, i: nat)
    requires Readable(image, i)
  {
    StoredAt(image, i) > 0 && OffsetAt(image, i) + StoredAt(image, i) <= |image|
  }

  function Payload(image: Data, i: nat): Data
    requires Readable(image, i) && Inside(image, i)
  {
    image[OffsetAt(image, i)..OffsetAt(image, i) + StoredAt(image, i)]
  }

  // The fields of descriptor i: blocks on the device, types of 0 to 2, nothing in the
  // reserved bytes, no more blocks reserved than allocated.
  predicate FieldsSound(image: Data, i: nat)
    requires Readable(image, i)
  {
    var at := At(i);
    && CString(NameField(image, i)).Some?
    && Word(image, at + 44) > 0 && Word(image, at + 40) + Word(image, at + 44) <= Word(image, 24)
    && Word(image, at + 48) <= 2 && Word(image, at + 52) <= 2
    && (forall k :: at + 56 <= k < at + 64 ==> image[k] == 0)
    && Word(image, at + 36) <= Word(image, at + 44)
  }

  // A normal payload fits the blocks it is allocated.
  predicate FitsBlocks(image: Data, i: nat)
    requires Readable(image, i)
  {
    Word(image, At(i) + 48) == 0 ==>
      StoredAt(image, i) <= Word(image, At(i) + 44) * (Word(image, 12) * Word(image, 20))
  }

  predicate ChecksumHolds(image: Data, crc: Checksum, i: nat)
    requires Readable(image, i) && Inside(image, i)
  {
    crc(Payload(image, i)) == Word(image, At(i) + 24)
  }

  predicate RecordSound(image: Data, crc: Checksum, i: nat)
    requires Readable(image, i)
  {
    && FieldsSound(image, i) && Inside(image, i) && FitsBlocks(image, i)
    && ChecksumHolds(image, crc, i) && SoundFileSystem(Payload(image, i))
  }

  // ------------------------------------------------------------------ reading entries

  lemma EntryWord(image: Data, i: nat, k: nat)
    requires At(i + 1) <= |image| && k + 4 <= 64
    ensures Word(Entry(image, i), k) == Word(image, At(i) + k)
  {
    var entry := Entry(image, i);
    assert forall j :: 0 <= j < 64 ==> entry[j] == image[At(i) + j];
  }

  lemma EntryFields(image: Data, i: nat)
    requires At(i + 1) <= |image|
    ensures var entry, at := Entry(image, i), At(i);
            && entry[..16] == NameField(image, i)
            && Long(entry, 16) == StoredAt(image, i)
            && Word(entry, 24) == Word(image, at + 24)
            && ParseVersion(entry, 28) == ParseVersion(image, at + 28)
            && Word(entry, 36) == Word(image, at + 36)
            && Word(entry, 40) == Word(image, at + 40) && Word(entry, 44) == Word(image, at + 44)
            && Word(entry, 48) == Word(image, at + 48) && Word(entry, 52) == Word(image, at + 52)
            && (AllZero(entry[56..]) <==> forall k :: at + 56 <= k < at + 64 ==> image[k] == 0)
  {
    hide Word;
    var entry, at := Entry(image, i), At(i);
    assert forall j :: 0 <= j < 64 ==> entry[j] == image[at + j];
    EntryWord(image, i, 16);
    EntryWord(image, i, 20);
    EntryWord(image, i, 24);
    EntryWord(image, i, 28);
    EntryWord(image, i, 32);
    EntryWord(image, i, 36);
    EntryWord(image, i, 40);
    EntryWord(image, i, 44);
    EntryWord(image, i, 48);
    EntryWord(image, i, 52);
    ZeroTail(image, entry, at);
  }

  lemma ZeroTail(image: Data, entry: Data, at: nat)
    requires |entry| == 64 && at + 64 <= |image| && forall j :: 0 <= j < 64 ==> entry[j] == image[at + j]
    ensures AllZero(entry[56..]) <==> forall k :: at + 56 <= k < at + 64 ==> image[k] == 0
  {
    if AllZero(entry[56..]) {
      forall k | at + 56 <= k < at + 64
        ensures image[k] == 0
      {
        assert entry[56..][k - at - 56] == entry[k - at];
      }
    }
  }

  // ------------------------------------------------------------------ geometry

  ghost predicate GeometryOf(g: Geometry, image: Data)
    requires |image| >= 64
  {
    && g.pageBytes == Word(image, 12) && g.oobBytes == Word(image, 16)
    && g.pagesPerBlock == Word(image, 20) && g.blocks == Word(image, 24)
    && g.eraseBytes == Word(image, 12) * Word(image, 20) && g.dataBytes == g.eraseBytes * Word(image, 24)
  }

  lemma GeometryIff(image: Data)
    requires |image| >= 64
    ensures ReadGeometry(image).Some? <==> GeometrySound(image)
    ensures ReadGeometry(image).Some? ==> GeometryOf(ReadGeometry(image).value, image)
  {
    hide Multiply, Word;
    var page: int, pages: int, blocks: int := Word(image, 12), Word(image, 20), Word(image, 24);
    if page > 0 && pages > 0 && blocks > 0 {
      ProductFits(page, pages);
      MultiplyIsExact(page, pages);
      MultiplyIsExact(page * pages, blocks);
    }
  }

  lemma ProductFits(a: nat, b: nat)
    requires a <= 0xFFFF_FFFF && b <= 0xFFFF_FFFF
    ensures 0 <= a * b <= 0xFFFF_FFFF_FFFF_FFFF
  {
    var rest := 0xFFFF_FFFF - a;
    assert 0 <= rest * b && a * b + rest * b == 0xFFFF_FFFF * b;
  }

  // ------------------------------------------------------------------ records

  // What is reported of descriptor i and its payload.
  ghost predicate Describes(d: Descriptor, image: Data, i: nat)
    requires Readable(image, i)
  {
    var at := At(i);
    var erase := Word(image, 12) * Word(image, 20);
    && IsText(NameField(image, i), d.name)
    && d.stored == StoredAt(image, i) && d.crc32 == Word(image, at + 24)
    && d.version.minor == Word(image, at + 28) && d.version.major == Word(image, at + 32)
    && d.reservedBlocks == Word(image, at + 36)
    && d.dataType == Word(image, at + 48) && d.partitionType == Word(image, at + 52)
    && d.allocation.startBlock == Word(image, at + 40) && d.allocation.blocks == Word(image, at + 44)
    && d.allocation.startByte == Word(image, at + 40) * erase && d.allocation.bytes == Word(image, at + 44) * erase
    && d.allocation.endExclusive == d.allocation.startByte + d.allocation.bytes
  }

  // What is reported of the file system a payload starts with.
  ghost predicate DescribesFileSystem(found: Option<SquashFS>, payload: Data) {
    && (found.Some? <==> |payload| >= 96 && Word(payload, 0) == 0x73717368)
    && (found.Some? ==>
          && found.value.inodes == Word(payload, 4) && found.value.blockBytes == Word(payload, 12)
          && found.value.compression == Half(payload, 20)
          && found.value.major == 4 && found.value.minor == 0
          && found.value.bytesUsed == Long(payload, 40))
  }

  ghost predicate Records(record: Record, image: Data, i: nat)
    requires Readable(image, i) && Inside(image, i)
  {
    && Describes(record.descriptor, image, i)
    && record.payloadOffset == OffsetAt(image, i)
    && DescribesFileSystem(record.squashfs, Payload(image, i))
  }

  lemma DescriptorIff(image: Data, g: Geometry, i: nat)
    requires Readable(image, i) && GeometryOf(g, image)
    ensures ReadDescriptor(Entry(image, i), g).Some? <==> FieldsSound(image, i)
    ensures FieldsSound(image, i) ==>
              var d := ReadDescriptor(Entry(image, i), g).value;
              && Describes(d, image, i)
              && CString(NameField(image, i)) == Some(d.name) && d.stored == StoredAt(image, i)
  {
    hide Word, CString, IsText, Allocate, AllZero;
    var at := At(i);
    EntryFields(image, i);
    assert ParseVersion(image, at + 28) == Version(Word(image, at + 28), Word(image, at + 32));
    AllocationIsExact(Word(image, at + 40), Word(image, at + 44), g);
    AllocationKeepsBlocks(Word(image, at + 40), Word(image, at + 44), g);
    var name := CString(NameField(image, i));
    if name.Some? {
      CStringIff(NameField(image, i), name.value);
    }
  }

  lemma AllocationKeepsBlocks(start: uint32, blocks: uint32, g: Geometry)
    ensures var region := Allocate(start, blocks, g);
            region.Some? ==> region.value.startBlock == start && region.value.blocks == blocks
  {
  }

  lemma PayloadIff(image: Data, crc: Checksum, d: Descriptor, i: nat)
    requires Readable(image, i) && FieldsSound(image, i) && Describes(d, image, i)
    ensures var taken := TakePayload(image, crc, d, OffsetAt(image, i));
            && (taken.Some? <==> RecordSound(image, crc, i))
            && (taken.Some? ==> taken.value.descriptor == d && Records(taken.value, image, i))
  {
    hide Word, Long, Half, CString, IsText, FieldsSound, OffsetAt, NameField, Superblock, DescribesFileSystem,
         SoundFileSystem;
    if Inside(image, i) {
      SuperblockIff(Payload(image, i));
      SuperblockReads(Payload(image, i));
    }
  }

  lemma SuperblockReads(payload: Data)
    ensures var found := Superblock(payload);
            found.Some? ==> DescribesFileSystem(found.value, payload)
  {
    hide PowerOfTwo;
  }

  // ------------------------------------------------------------------ the table as a whole

  ghost predicate RecordsSound(image: Data, crc: Checksum, i: nat)
    requires HeaderSound(image)
  {
    forall k :: i <= k < Word(image, 28) ==> RecordSound(image, crc, k)
  }

  ghost predicate NamesApart(image: Data, i: nat)
    requires HeaderSound(image)
  {
    forall j, k :: i <= j < k < Word(image, 28) ==> NameField(image, j) != NameField(image, k)
  }

  // From record i on none has a name met before.
  ghost predicate NamesNew(image: Data, i: nat, names: set<Data>)
    requires HeaderSound(image)
  {
    forall k :: i <= k < Word(image, 28) ==>
      CString(NameField(image, k)).Some? && CString(NameField(image, k)).value !in names
  }

  // Records that start with number i include record k.
  ghost predicate RecordedAt(records: seq<Record>, image: Data, i: nat, k: nat)
    requires HeaderSound(image) && i <= k < Word(image, 28) && k - i < |records|
  {
    Inside(image, k) && Records(records[k - i], image, k)
  }

  ghost predicate AllRecorded(records: seq<Record>, image: Data, i: nat)
    requires HeaderSound(image)
  {
    && i + |records| == Word(image, 28)
    && forall k :: i <= k < Word(image, 28) ==> RecordedAt(records, image, i, k)
  }

  // A later name is another one exactly if its field is another one.
  lemma OtherName(image: Data, i: nat, k: nat, name: Data)
    requires HeaderSound(image) && i < k < Word(image, 28)
    requires CString(NameField(image, i)) == Some(name) && CString(NameField(image, k)).Some?
    ensures NameField(image, i) == NameField(image, k) <==> CString(NameField(image, k)).value == name
  {
    hide CString, Word;
    SameTextSameField(NameField(image, i), NameField(image, k));
  }

  lemma NamesShrink(image: Data, i: nat, names: set<Data>, name: Data)
    requires Readable(image, i) && CString(NameField(image, i)) == Some(name) && name !in names
    requires NamesApart(image, i) && NamesNew(image, i, names)
    ensures NamesApart(image, i + 1) && NamesNew(image, i + 1, names + {name})
  {
    hide CString, NameField, Word, GeometrySound;
    forall k | i + 1 <= k < Word(image, 28)
      ensures CString(NameField(image, k)).Some? && CString(NameField(image, k)).value !in names + {name}
    {
      OtherName(image, i, k, name);
    }
  }

  lemma NamesGrow(image: Data, i: nat, names: set<Data>, name: Data)
    requires Readable(image, i) && CString(NameField(image, i)) == Some(name) && name !in names
    requires NamesApart(image, i + 1) && NamesNew(image, i + 1, names + {name})
    ensures NamesApart(image, i) && NamesNew(image, i, names)
  {
    hide CString, NameField, Word, GeometrySound;
    forall j, k | i <= j < k < Word(image, 28)
      ensures NameField(image, j) != NameField(image, k)
    {
      if j == i {
        OtherName(image, i, k, name);
      }
    }
  }

  lemma NamesStep(image: Data, i: nat, names: set<Data>, name: Data)
    requires Readable(image, i) && CString(NameField(image, i)) == Some(name) && name !in names
    ensures NamesApart(image, i) && NamesNew(image, i, names)
            <==> NamesApart(image, i + 1) && NamesNew(image, i + 1, names + {name})
  {
    hide CString, NameField, NamesApart, NamesNew, Word, GeometrySound;
    if NamesApart(image, i) && NamesNew(image, i, names) {
      NamesShrink(image, i, names, name);
    }
    if NamesApart(image, i + 1) && NamesNew(image, i + 1, names + {name}) {
      NamesGrow(image, i, names, name);
    }
  }

  lemma SoundHasName(image: Data, crc: Checksum, i: nat)
    requires HeaderSound(image) && RecordsSound(image, crc, i)
    ensures NamesNew(image, i, {})
  {
    forall k | i <= k < Word(image, 28)
      ensures CString(NameField(image, k)).Some?
    {
      assert RecordSound(image, crc, k);
    }
  }

  lemma RecordsStep(image: Data, crc: Checksum, i: nat)
    requires Readable(image, i)
    ensures RecordsSound(image, crc, i) <==> RecordSound(image, crc, i) && RecordsSound(image, crc, i + 1)
  {
    hide RecordSound;
  }

  lemma RecordedStep(records: seq<Record>, image: Data, i: nat)
    requires Readable(image, i) && records != [] && Inside(image, i) && Records(records[0], image, i)
    requires AllRecorded(records[1..], image, i + 1)
    ensures AllRecorded(records, image, i)
  {
    hide Records, Inside, GeometrySound, Word;
    var rest := records[1..];
    forall k | i <= k < Word(image, 28)
      ensures RecordedAt(records, image, i, k)
    {
      if k > i {
        assert RecordedAt(rest, image, i + 1, k);
        assert records[k - i] == rest[k - (i + 1)];
      }
    }
  }

  // The scan of the table succeeds exactly when every record left is sound and no name
  // comes twice, and then it reports what the bytes say.
  lemma {:induction false} ScanIff(image: Data, crc: Checksum, g: Geometry, i: nat, names: set<Data>)
    requires HeaderSound(image) && GeometryOf(g, image) && i <= Word(image, 28) && OffsetAt(image, i) <= |image|
    ensures var found := Scan(image, crc, g, i, Word(image, 28), OffsetAt(image, i), names);
            && (found.Some? <==>
                  RecordsSound(image, crc, i) && NamesApart(image, i) && NamesNew(image, i, names))
            && (found.Some? ==>
                  && AllRecorded(found.value, image, i)
                  && OffsetAt(image, i) + Stored(found.value) == OffsetAt(image, Word(image, 28)))
    decreases Word(image, 28) - i
  {
    hide ReadDescriptor, TakePayload, Entry, NameField, CString, Word, StoredAt, GeometryOf, NamesApart, NamesNew,
         RecordsSound, AllRecorded, FieldsSound, FitsBlocks, ChecksumHolds, SoundFileSystem, Describes,
         DescribesFileSystem, IsText, GeometrySound;
    var count := Word(image, 28);
    if i == count {
      NothingLeft(image, crc, names);
    } else {
      DescriptorIff(image, g, i);
      RecordsStep(image, crc, i);
      if FieldsSound(image, i) {
        var d := ReadDescriptor(Entry(image, i), g).value;
        if d.name in names {
          NameTaken(image, i, names, d.name);
        } else {
          PayloadIff(image, crc, d, i);
          NamesStep(image, i, names, d.name);
          if RecordSound(image, crc, i) {
            ScanIff(image, crc, g, i + 1, names + {d.name});
            var found := Scan(image, crc, g, i, count, OffsetAt(image, i), names);
            if found.Some? {
              RecordedStep(found.value, image, i);
            }
          }
        }
      }
    }
  }

  lemma NothingLeft(image: Data, crc: Checksum, names: set<Data>)
    requires HeaderSound(image)
    ensures var count := Word(image, 28);
            && RecordsSound(image, crc, count) && NamesApart(image, count) && NamesNew(image, count, names)
            && AllRecorded([], image, count) && Stored([]) == 0
  {
  }

  lemma NameTaken(image: Data, i: nat, names: set<Data>, name: Data)
    requires Readable(image, i) && CString(NameField(image, i)) == Some(name) && name in names
    ensures !NamesNew(image, i, names)
  {
  }

  // ------------------------------------------------------------------ images

  predicate AllSound(image: Data, crc: Checksum)
    requires HeaderSound(image)
  {
    forall i :: 0 <= i < Word(image, 28) ==> RecordSound(image, crc, i)
  }

  predicate AllApart(image: Data)
    requires HeaderSound(image)
  {
    forall i, j :: 0 <= i < j < Word(image, 28) ==> NameField(image, i) != NameField(image, j)
  }

  // A file is accepted exactly when its header is sound, every record is sound, its
  // payload and checksum included, and no name comes twice.
  lemma AcceptedIff(image: Data, crc: Checksum)
    ensures Inspect(image, crc).Some? <==> HeaderSound(image) && AllSound(image, crc) && AllApart(image)
  {
    hide Word, RecordSound, NameField, Scan, StartsWithZip, ReadGeometry, GeometrySound, GeometryOf;
    HeaderIff(image);
    if HeaderSound(image) {
      assert OffsetAt(image, 0) == At(Word(image, 28));
      ScanIff(image, crc, ReadGeometry(image).value, 0, {});
      if AllSound(image, crc) {
        SoundHasName(image, crc, 0);
      }
    }
  }

  lemma HeaderIff(image: Data)
    ensures HeaderSound(image) <==>
              && FIXED_HEADER_SIZE <= |image| <= MAX_INT64 && Word(image, 0) == IMAGE_MAGIC
              && AllZero(image[35..FIXED_HEADER_SIZE]) && ReadGeometry(image).Some?
              && 1 <= Word(image, 28) <= MAX_RECORDS && At(Word(image, 28)) <= |image|
    ensures HeaderSound(image) ==> GeometryOf(ReadGeometry(image).value, image)
  {
    hide Word, ReadGeometry, GeometrySound, GeometryOf;
    if |image| >= 64 {
      GeometryIff(image);
      if AllZero(image[35..64]) {
        assert forall k :: 35 <= k < 64 ==> image[k] == image[35..64][k - 35];
      }
    }
  }

  // One payload whose checksum is another, or one normal payload larger than its blocks,
  // and the whole file is refused.
  lemma BadPayloadIsRefused(image: Data, crc: Checksum, i: nat)
    requires Readable(image, i) && Inside(image, i)
    requires crc(Payload(image, i)) != Word(image, 64 + 64 * i + 24)
             || (Word(image, 64 + 64 * i + 48) == 0
                 && StoredAt(image, i) > Word(image, 64 + 64 * i + 44) * (Word(image, 12) * Word(image, 20)))
    ensures Inspect(image, crc).None?
  {
    hide Word, Inspect, OffsetAt, GeometrySound, FieldsSound, SoundFileSystem, AllApart;
    AcceptedIff(image, crc);
    assert !RecordSound(image, crc, i);
  }

  // An accepted file's records, and what follows the last payload.
  lemma ScanFromStart(image: Data, crc: Checksum)
    requires Inspect(image, crc).Some?
    ensures HeaderSound(image) && GeometryOf(Inspect(image, crc).value.geometry, image)
    ensures AllRecorded(Inspect(image, crc).value.records, image, 0)
    ensures Inspect(image, crc).value.payloadEnd == OffsetAt(image, Word(image, 28))
  {
    hide Word, RecordsSound, NamesApart, NamesNew, Scan, ReadGeometry, GeometrySound, GeometryOf, AllRecorded,
         StartsWithZip, Stored;
    HeaderIff(image);
    assert OffsetAt(image, 0) == At(Word(image, 28));
    ScanIff(image, crc, ReadGeometry(image).value, 0, {});
  }

  // What is reported of an accepted file is what its bytes say.
  lemma ReportIsFaithful(image: Data, crc: Checksum)
    requires Inspect(image, crc).Some?
    ensures HeaderSound(image)
    ensures var found := Inspect(image, crc).value;
            && GeometryOf(found.geometry, image)
            && found.version.minor == Word(image, 4) && found.version.major == Word(image, 8)
            && found.ddrType < 16 && 16 * found.ddrChannels + found.ddrType == image[32] as int
            && found.cpuType == [image[33], image[34]]
            && AllRecorded(found.records, image, 0)
            && found.payloadEnd == OffsetAt(image, Word(image, 28))
            && found.payloadEnd + found.trailerBytes == |image|
            && (found.trailerIsZip <==> |image| >= found.payloadEnd + 4
                                        && image[found.payloadEnd..found.payloadEnd + 4] == [0x50, 0x4B, 3, 4])
  {
    hide Word, Scan, ReadGeometry, GeometrySound, GeometryOf, AllRecorded, StartsWithZip, Stored, HeaderSound,
         OffsetAt;
    ScanFromStart(image, crc);
    ZipAt(image, Inspect(image, crc).value.payloadEnd);
    assert image[33..35] == [image[33], image[34]];
  }

  lemma ZipAt(image: Data, end: nat)
    requires end <= |image|
    ensures StartsWithZip(image[end..]) <==> |image| >= end + 4 && image[end..end + 4] == [0x50, 0x4B, 3, 4]
  {
    assert |image| >= end + 4 ==> image[end..][..4] == image[end..end + 4];
  }
}
