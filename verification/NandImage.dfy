/**
 The unified NAND image: a fixed header, a table of 64-byte descriptors, the
 payloads one after the other, and whatever trails them.
 */
module NandImage {
  import opened Bytes

  const IMAGE_MAGIC: uint32 := 0xd2ada3f1
  const FIXED_HEADER_SIZE: nat := 64
  const RECORD_SIZE: nat := 64
  const MAX_RECORDS: nat := 1024
  const SQUASHFS_MAGIC: uint32 := 0x73717368
  const SQUASHFS_HEADER_SIZE: nat := 96
  const MAX_UINT64: nat := 0xFFFF_FFFF_FFFF_FFFF
  const MAX_INT64: nat := 0x7FFF_FFFF_FFFF_FFFF

  // The checksum of a payload; nothing is assumed about it.
  type Checksum = Data -> uint32

  datatype Geometry = Geometry(pageBytes: nat, oobBytes: nat, pagesPerBlock: nat, blocks: nat,
                               eraseBytes: nat, dataBytes: nat)

  datatype Version = Version(minor: uint32, major: uint32)

  datatype Allocation = Allocation(startBlock: nat, blocks: nat, startByte: nat, endExclusive: nat, bytes: nat)

  datatype SquashFS = SquashFS(bytesUsed: nat, inodes: nat, blockBytes: nat, compression: nat, major: nat, minor: nat)

  // A descriptor by itself, and a record with the payload that goes with it.
  datatype Descriptor = Descriptor(name: Data, stored: nat, crc32: uint32, version: Version, reservedBlocks: nat,
                                   dataType: nat, partitionType: nat, allocation: Allocation)

  datatype Record = Record(descriptor: Descriptor, payloadOffset: nat, squashfs: Option<SquashFS>)

  datatype Image = Image(geometry: Geometry, version: Version, ddrType: nat, ddrChannels: nat, cpuType: Data,
                         records: seq<Record>, payloadEnd: nat, trailerBytes: nat, trailerIsZip: bool)

  // ------------------------------------------------------------------ words

  function Half(s: Data, at: nat): nat
    requires at + 2 <= |s|
  {
    var b0: int, b1: int := s[at], s[at + 1];
    b0 + 0x100 * b1
  }

  // littleEndian.Uint64
  function Long(s: Data, at: nat): (w: uint64)
    requires at + 8 <= |s|
  {
    Word(s, at) + 0x1_0000_0000 * Word(s, at + 4)
  }

  // What a 64-bit register keeps of a number.
  function Wrap(n: nat): uint64 {
    n % 0x1_0000_0000_0000_0000
  }

  function ParseVersion(data: Data, at: nat): Version
    requires at + 8 <= |data|
  {
    Version(Word(data, at), Word(data, at + 4))
  }

  // ------------------------------------------------------------------ arithmetic

  // multiply
  function Multiply(a: uint64, b: uint64): Option<uint64> {
    if b != 0 && a > MAX_UINT64 / b then None else Some(Wrap(a * b))
  }

  // A product is refused exactly when it does not fit, so an accepted one is exact.
  lemma MultiplyIsExact(a: uint64, b: uint64)
    ensures Multiply(a, b) == if a * b > MAX_UINT64 then None else Some(a * b)
  {
    if b != 0 {
      QuotientBound(a, b);
    }
  }

  lemma QuotientBound(a: nat, b: nat)
    requires b > 0
    ensures a > MAX_UINT64 / b <==> a * b > MAX_UINT64
  {
    var q, r := MAX_UINT64 / b, MAX_UINT64 % b;
    assert MAX_UINT64 == q * b + r;
    if a > q {
      assert a * b >= (q + 1) * b;
    } else {
      assert a * b <= q * b;
    }
  }

  // allocation
  function Allocate(start: uint32, blocks: uint32, g: Geometry): Option<Allocation> {
    if blocks == 0 || start > g.blocks || blocks > g.blocks - start then None
    else
      var offset := Wrap(start * g.eraseBytes);
      var length := Wrap(blocks * g.eraseBytes);
      Some(Allocation(start, blocks, offset, Wrap(offset + length), length))
  }

  // The geometry inspectImage builds: its products have been checked.
  predicate Measured(g: Geometry) {
    && g.eraseBytes == g.pageBytes * g.pagesPerBlock
    && g.dataBytes == g.eraseBytes * g.blocks <= MAX_UINT64
  }

  // On a measured device no allocation wraps, and none leaves the device.
  lemma AllocationIsExact(start: uint32, blocks: uint32, g: Geometry)
    requires Measured(g)
    ensures Allocate(start, blocks, g).Some? <==> blocks > 0 && start + blocks <= g.blocks
    ensures Allocate(start, blocks, g).Some? ==>
              var region := Allocate(start, blocks, g).value;
              && region.startByte == start * g.eraseBytes && region.bytes == blocks * g.eraseBytes
              && region.endExclusive == region.startByte + region.bytes <= g.dataBytes
  {
    hide Wrap;
    if blocks > 0 && start + blocks <= g.blocks {
      var offset, length := start * g.eraseBytes, blocks * g.eraseBytes;
      Scaled(start, blocks, g.blocks, g.eraseBytes);
      assert 0 <= offset && 0 <= length && offset + length <= g.dataBytes;
      NoWrap(offset);
      NoWrap(length);
      NoWrap(offset + length);
    }
  }

  lemma Scaled(a: nat, b: nat, c: nat, k: nat)
    requires a + b <= c
    ensures 0 <= a * k && 0 <= b * k && a * k + b * k <= c * k == k * c
  {
    assert a * k + b * k == (a + b) * k;
    assert (a + b) * k <= c * k;
  }

  lemma NoWrap(n: nat)
    requires n <= MAX_UINT64
    ensures Wrap(n) == n
  {
  }

  // ------------------------------------------------------------------ strings

  predicate AllZero(data: Data) {
    forall i :: 0 <= i < |data| ==> data[i] == 0
  }

  predicate Printable(data: Data) {
    forall i :: 0 <= i < |data| ==> 0x20 <= data[i] <= 0x7e
  }

  // cString, where an empty string is not allowed.
  function CString(data: Data): Option<Data> {
    var end := FirstZero(data);
    if end == |data| || end == 0 || !Printable(data[..end]) || !AllZero(data[end..]) then None
    else Some(data[..end])
  }

  method IsAllZero(data: Data) returns (zero: bool)
    ensures zero <==> AllZero(data)
  {
    for i := 0 to |data|
      invariant forall k :: 0 <= k < i ==> data[k] == 0
    {
      if data[i] != 0 {
        return false;
      }
    }
    return true;
  }

  method ReadCString(data: Data) returns (text: Option<Data>)
    ensures text == CString(data)
  {
    var end := FirstZero(data);
    if end == |data| || end == 0 {
      return None;
    }
    for i := 0 to end
      invariant forall k :: 0 <= k < i ==> 0x20 <= data[..end][k] <= 0x7e
    {
      if data[i] < 0x20 || data[i] > 0x7e {
        assert !(0x20 <= data[..end][i] <= 0x7e);
        return None;
      }
    }
    var padding := IsAllZero(data[end..]);
    return if padding then Some(data[..end]) else None;
  }

  // ------------------------------------------------------------------ superblocks

  predicate PowerOfTwo(n: nat) {
    n == 1 || (n > 0 && n % 2 == 0 && PowerOfTwo(n / 2))
  }

  // inspectSquashFS on a payload: no file system, a sound superblock, or an error.
  function Superblock(payload: Data): Option<Option<SquashFS>> {
    if |payload| < SQUASHFS_HEADER_SIZE || Word(payload, 0) != SQUASHFS_MAGIC then Some(None)
    else
      var fs := SquashFS(Long(payload, 40), Word(payload, 4), Word(payload, 12),
                         Half(payload, 20), Half(payload, 28), Half(payload, 30));
      if fs.major != 4 || fs.minor != 0 || fs.bytesUsed < SQUASHFS_HEADER_SIZE || fs.bytesUsed > |payload|
         || fs.blockBytes < 4096 || fs.blockBytes > 1048576 || !PowerOfTwo(fs.blockBytes) then None
      else Some(Some(fs))
  }

  // ------------------------------------------------------------------ records

  function ReadDescriptor(entry: Data, g: Geometry): Option<Descriptor>
    requires |entry| == RECORD_SIZE
  {
    match CString(entry[..16])
    case None => None
    case Some(name) =>
      match Allocate(Word(entry, 40), Word(entry, 44), g)
      case None => None
      case Some(region) =>
        var d := Descriptor(name, Long(entry, 16), Word(entry, 24), ParseVersion(entry, 28), Word(entry, 36),
                            Word(entry, 48), Word(entry, 52), region);
        if d.dataType > 2 || d.partitionType > 2 || !AllZero(entry[56..]) || d.reservedBlocks > region.blocks then None
        else Some(d)
  }

  // The payload a descriptor promises, at the cursor.
  function TakePayload(image: Data, crc: Checksum, d: Descriptor, cursor: nat): Option<Record> {
    if d.stored == 0 || cursor > |image| || d.stored > |image| - cursor then None
    else if d.dataType == 0 && d.stored > d.allocation.bytes then None
    else
      var payload := image[cursor..cursor + d.stored];
      if crc(payload) != d.crc32 then None
      else
        match Superblock(payload)
        case None => None
        case Some(fs) => Some(Record(d, cursor, fs))
  }

  function Entry(image: Data, index: nat): (entry: Data)
    requires FIXED_HEADER_SIZE + (index + 1) * RECORD_SIZE <= |image|
    ensures |entry| == RECORD_SIZE
  {
    image[FIXED_HEADER_SIZE + index * RECORD_SIZE..FIXED_HEADER_SIZE + (index + 1) * RECORD_SIZE]
  }

  // The record loop of inspectImage, from one index on.
  function Scan(image: Data, crc: Checksum, g: Geometry, index: nat, count: nat, cursor: nat, names: set<Data>)
    : (records: Option<seq<Record>>)
    requires index <= count && FIXED_HEADER_SIZE + count * RECORD_SIZE <= |image| && cursor <= |image|
    ensures records.Some? ==> cursor + Stored(records.value) <= |image|
    decreases count - index
  {
    if index == count then Some([])
    else
      match ReadDescriptor(Entry(image, index), g)
      case None => None
      case Some(d) =>
        if d.name in names then None
        else
          match TakePayload(image, crc, d, cursor)
          case None => None
          case Some(record) =>
            assert cursor + d.stored <= |image| && record.descriptor == d;
            match Scan(image, crc, g, index + 1, count, cursor + d.stored, names + {d.name})
            case None => None
            case Some(rest) => Some([record] + rest)
  }

  function Stored(records: seq<Record>): nat {
    if records == [] then 0 else records[0].descriptor.stored + Stored(records[1..])
  }

  function ReadGeometry(header: Data): Option<Geometry>
    requires |header| >= FIXED_HEADER_SIZE
  {
    var page, oob, pages, blocks := Word(header, 12), Word(header, 16), Word(header, 20), Word(header, 24);
    if page == 0 || pages == 0 || blocks == 0 then None
    else
      match Multiply(page, pages)
      case None => None
      case Some(erase) =>
        match Multiply(erase, blocks)
        case None => None
        case Some(data) => Some(Geometry(page, oob, pages, blocks, erase, data))
  }

  function StartsWithZip(data: Data): bool {
    |data| >= 4 && data[..4] == [0x50, 0x4B, 3, 4]
  }

  // inspectImage on the bytes of a file.
  function Inspect(image: Data, crc: Checksum): Option<Image> {
    if |image| > MAX_INT64 || |image| < FIXED_HEADER_SIZE || Word(image, 0) != IMAGE_MAGIC
       || !AllZero(image[35..FIXED_HEADER_SIZE]) then None
    else
      match ReadGeometry(image)
      case None => None
      case Some(g) =>
        var count := Word(image, 28);
        var start := FIXED_HEADER_SIZE + count * RECORD_SIZE;
        if count == 0 || count > MAX_RECORDS || start > |image| then None
        else
          match Scan(image, crc, g, 0, count, start, {})
          case None => None
          case Some(records) =>
            var end := start + Stored(records);
            var ddr: int := image[32];
            Some(Image(g, ParseVersion(image, 4), ddr % 16, ddr / 16, image[33..35], records, end,
                       |image| - end, StartsWithZip(image[end..])))
  }

  // inspectSquashFS, reading at an offset of the image.
  method InspectSquashFS(image: Data, offset: nat, limit: nat) returns (found: Option<Option<SquashFS>>)
    requires offset + limit <= |image|
    ensures found == Superblock(image[offset..offset + limit])
  {
    if limit < SQUASHFS_HEADER_SIZE {
      return Some(None);
    }
    var header := image[offset..offset + SQUASHFS_HEADER_SIZE];
    ghost var payload := image[offset..offset + limit];
    assert header == payload[..SQUASHFS_HEADER_SIZE];
    if Word(header, 0) != SQUASHFS_MAGIC {
      return Some(None);
    }
    var fs := SquashFS(Long(header, 40), Word(header, 4), Word(header, 12),
                       Half(header, 20), Half(header, 28), Half(header, 30));
    if fs.major != 4 || fs.minor != 0 || fs.bytesUsed < SQUASHFS_HEADER_SIZE || fs.bytesUsed > limit
       || fs.blockBytes < 4096 || fs.blockBytes > 1048576 || !PowerOfTwo(fs.blockBytes) {
      return None;
    }
    return Some(Some(fs));
  }

  // The body of the record loop.
  method InspectRecord(image: Data, crc: Checksum, g: Geometry, index: nat, cursor: nat)
    returns (record: Option<Record>)
    requires FIXED_HEADER_SIZE + (index + 1) * RECORD_SIZE <= |image| && cursor <= |image|
    ensures match ReadDescriptor(Entry(image, index), g)
            case None => record.None?
            case Some(d) => record == TakePayload(image, crc, d, cursor)
  {
    hide PowerOfTwo, Allocate, Superblock;
    var entry := Entry(image, index);
    var name := ReadCString(entry[..16]);
    if name.None? {
      return None;
    }
    var stored := Long(entry, 16);
    if stored == 0 || cursor > |image| || stored > |image| - cursor {
      return None;
    }
    var region := Allocate(Word(entry, 40), Word(entry, 44), g);
    if region.None? {
      return None;
    }
    var dataType, partitionType, reservedBlocks := Word(entry, 48), Word(entry, 52), Word(entry, 36);
    var clear := IsAllZero(entry[56..]);
    if dataType > 2 || partitionType > 2 || !clear || reservedBlocks > region.value.blocks {
      return None;
    }
    if dataType == 0 && stored > region.value.bytes {
      return None;
    }
    var expected := Word(entry, 24);
    if crc(image[cursor..cursor + stored]) != expected {
      return None;
    }
    var fs := InspectSquashFS(image, cursor, stored);
    if fs.None? {
      return None;
    }
    var d := Descriptor(name.value, stored, expected, ParseVersion(entry, 28), reservedBlocks,
                        dataType, partitionType, region.value);
    return Some(Record(d, cursor, fs.value));
  }

  // inspectImage, with its moving cursor and its set of names.
  method InspectImage(image: Data, crc: Checksum) returns (inspected: Option<Image>)
    ensures inspected == Inspect(image, crc)
  {
    hide ReadDescriptor, TakePayload, Entry, StartsWithZip, Scan, ReadGeometry, Word, Stored;
    if |image| > MAX_INT64 || |image| < FIXED_HEADER_SIZE || Word(image, 0) != IMAGE_MAGIC {
      return None;
    }
    var clear := IsAllZero(image[35..FIXED_HEADER_SIZE]);
    if !clear {
      return None;
    }
    var geometry := ReadGeometry(image);
    if geometry.None? {
      return None;
    }
    var g := geometry.value;
    var count := Word(image, 28);
    var start := FIXED_HEADER_SIZE + count * RECORD_SIZE;
    if count == 0 || count > MAX_RECORDS || start > |image| {
      return None;
    }
    var records := ScanRecords(image, crc, g, count);
    if records.None? {
      return None;
    }
    var cursor := records.value.1;
    var ddr: int := image[32];
    return Some(Image(g, ParseVersion(image, 4), ddr % 16, ddr / 16, image[33..35], records.value.0, cursor,
                      |image| - cursor, StartsWithZip(image[cursor..])));
  }

  // The record loop: the records, and the cursor after the last payload.
  method ScanRecords(image: Data, crc: Checksum, g: Geometry, count: nat) returns (found: Option<(seq<Record>, nat)>)
    requires FIXED_HEADER_SIZE + count * RECORD_SIZE <= |image|
    ensures var start := FIXED_HEADER_SIZE + count * RECORD_SIZE;
            found == match Scan(image, crc, g, 0, count, start, {})
                     case None => None
                     case Some(records) => Some((records, start + Stored(records)))
  {
    hide ReadDescriptor, TakePayload, Entry, Stored;
    var cursor := FIXED_HEADER_SIZE + count * RECORD_SIZE;
    ghost var start := cursor;
    var records: seq<Record> := [];
    var names: set<Data> := {};
    NothingStored();
    PrependNothing(Scan(image, crc, g, 0, count, start, {}));
    for index := 0 to count
      invariant start <= cursor <= |image| && cursor == start + Stored(records)
      invariant Scan(image, crc, g, 0, count, start, {})
             == Prepend(records, Scan(image, crc, g, index, count, cursor, names))
    {
      var record := InspectRecord(image, crc, g, index, cursor);
      if record.None? {
        return None;
      }
      var d := ReadDescriptor(Entry(image, index), g).value;
      PayloadWithin(image, crc, d, cursor);
      if d.name in names {
        return None;
      }
      ghost var rest := Scan(image, crc, g, index + 1, count, cursor + d.stored, names + {d.name});
      assert rest.Some? ==> records + ([record.value] + rest.value) == records + [record.value] + rest.value;
      StoredAppend(records, record.value);
      names := names + {d.name};
      records := records + [record.value];
      cursor := cursor + d.stored;
    }
    assert records + [] == records;
    return Some((records, cursor));
  }

  ghost function Prepend(records: seq<Record>, rest: Option<seq<Record>>): Option<seq<Record>> {
    match rest
    case None => None
    case Some(more) => Some(records + more)
  }

  lemma PrependNothing(rest: Option<seq<Record>>)
    ensures Prepend([], rest) == rest
  {
    if rest.Some? {
      assert [] + rest.value == rest.value;
    }
  }

  lemma NothingStored()
    ensures Stored([]) == 0
  {
  }

  lemma StoredAppend(records: seq<Record>, record: Record)
    ensures Stored(records + [record]) == Stored(records) + record.descriptor.stored
  {
    StoredSplits(records + [record], |records|);
    assert (records + [record])[..|records|] == records && (records + [record])[|records|..] == [record];
    assert [record][1..] == [];
  }

  // ------------------------------------------------------------------ laws

  lemma GeometryIsMeasured(header: Data)
    requires |header| >= FIXED_HEADER_SIZE && ReadGeometry(header).Some?
    ensures Measured(ReadGeometry(header).value)
  {
    hide Multiply, Word;
    var page, pages, blocks := Word(header, 12), Word(header, 20), Word(header, 24);
    MultiplyIsExact(page, pages);
    MultiplyIsExact(Multiply(page, pages).value, blocks);
  }

  // The payload of record i of a scan.
  ghost predicate Tiles(records: seq<Record>, start: nat) {
    forall i :: 0 <= i < |records| ==> records[i].payloadOffset == start + Stored(records[..i])
  }

  lemma {:induction false} StoredSplits(records: seq<Record>, i: nat)
    requires i <= |records|
    ensures Stored(records) == Stored(records[..i]) + Stored(records[i..])
  {
    if i == 0 {
      assert records[..0] == [] && records[0..] == records;
    } else {
      StoredSplits(records[1..], i - 1);
      assert records[..i][1..] == records[1..][..i - 1];
      assert records[1..][i - 1..] == records[i..];
    }
  }

  // A scan succeeds exactly when every descriptor and every payload is in order
  // and no name comes twice; its records then tile the bytes from the cursor on,
  // without running over the end.
  lemma {:induction false} ScanTiles(image: Data, crc: Checksum, g: Geometry, index: nat, count: nat, cursor: nat,
                                     names: set<Data>)
    requires index <= count && FIXED_HEADER_SIZE + count * RECORD_SIZE <= |image| && cursor <= |image|
    requires Scan(image, crc, g, index, count, cursor, names).Some?
    ensures var records := Scan(image, crc, g, index, count, cursor, names).value;
            && |records| == count - index
            && Tiles(records, cursor)
            && (forall i :: 0 <= i < |records| ==>
                  Some(records[i].descriptor) == ReadDescriptor(Entry(image, index + i), g)
                  && TakePayload(image, crc, records[i].descriptor, records[i].payloadOffset) == Some(records[i])
                  && records[i].descriptor.name !in names)
            && (forall i, j :: 0 <= i < j < |records| ==> records[i].descriptor.name != records[j].descriptor.name)
    decreases count - index
  {
    hide ReadDescriptor, TakePayload, Entry, Stored;
    if index < count {
      var records := Scan(image, crc, g, index, count, cursor, names).value;
      var d := ReadDescriptor(Entry(image, index), g).value;
      PayloadWithin(image, crc, d, cursor);
      ScanTiles(image, crc, g, index + 1, count, cursor + d.stored, names + {d.name});
      var rest := records[1..];
      assert forall i :: 1 <= i < |records| ==> records[i] == rest[i - 1];
      TilesOnwards(records, cursor);
    }
  }

  lemma TilesOnwards(records: seq<Record>, start: nat)
    requires records != [] && records[0].payloadOffset == start
    requires Tiles(records[1..], start + records[0].descriptor.stored)
    ensures Tiles(records, start)
  {
    var rest := records[1..];
    forall i | 0 <= i < |records|
      ensures records[i].payloadOffset == start + Stored(records[..i])
    {
      if i > 0 {
        assert rest[i - 1] == records[i];
        assert records[..i][1..] == rest[..i - 1];
      }
    }
  }

  lemma PayloadWithin(image: Data, crc: Checksum, d: Descriptor, cursor: nat)
    requires TakePayload(image, crc, d, cursor).Some?
    ensures TakePayload(image, crc, d, cursor).value.descriptor == d
    ensures TakePayload(image, crc, d, cursor).value.payloadOffset == cursor && cursor + d.stored <= |image|
  {
  }
}
