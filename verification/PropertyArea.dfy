/**
 The property daemon's `area`: a mapped byte array updated in place. Every
 mutator is tied, store by store, to the value-level operations of
 PropertyTable. System calls (mmap, futex wakes, the socket) are parameters or
 left out; the mutex is implicit, as each method runs under it.
 */
module PropertyArea {
  import opened Bytes
  import opened PropertyTable
  import opened PropertyCrash

  // The only command the donor's setter sends, and the size of its message.
  const SET_COMMAND: uint32 := 1
  const MESSAGE_SIZE: nat := 4 + NAME_MAX + VALUE_MAX

  // A formatted area: zero bytes, then magic and version.
  function Formatted(): Table {
    PutWord(PutWord(Zeros(AREA_SIZE), MAGIC_OFFSET, AREA_MAGIC), VERSION_OFFSET, AREA_VERSION)
  }

  lemma PutZeroWord(n: nat, at: nat)
    requires at + 4 <= n
    ensures PutWord(Zeros(n), at, 0) == Zeros(n)
  {
    assert ByteOf(0, 3) == ByteOf(0, 2) == ByteOf(0, 1) == ByteOf(0, 0) == 0;
  }

  lemma FormattedIsAccepted()
    ensures Accepts(Formatted()) && Count(Formatted()) == 0
  {
    WordOfPutWord(Zeros(AREA_SIZE), MAGIC_OFFSET, AREA_MAGIC);
    var s := PutWord(Zeros(AREA_SIZE), MAGIC_OFFSET, AREA_MAGIC);
    WordOfPutWord(s, VERSION_OFFSET, AREA_VERSION);
    WordFrame(s, MAGIC_OFFSET, Formatted(), MAGIC_OFFSET);
    WordFrame(Zeros(AREA_SIZE), COUNT_OFFSET, Formatted(), COUNT_OFFSET);
  }

  class Area {
    const data: array<byte>
    // Every store issued so far, in order: what another process can observe.
    ghost var stores: seq<Store>

    ghost predicate Mapped() {
      data.Length == AREA_SIZE
    }

    // createArea: adopt the table already in the mapping, or format it.
    constructor (mapped: array<byte>)
      requires mapped.Length == AREA_SIZE
      modifies mapped
      ensures data == mapped && Mapped()
      ensures Accepts(mapped[..])
      ensures old(Accepts(mapped[..])) ==> mapped[..] == old(mapped[..])
      ensures !old(Accepts(mapped[..])) ==> mapped[..] == Formatted()
    {
      data := mapped;
      stores := [];
      new;
      var good := Valid();
      if !good {
        Format();
        FormattedIsAccepted();
      }
    }

    // binary.LittleEndian.PutUint32
    method PutUint32(at: nat, w: uint32)
      requires Mapped() && at + 4 <= AREA_SIZE
      modifies data, `stores
      ensures data[..] == ApplyOne(old(data[..]), StoreWord(at, w))
      ensures stores == old(stores) + [StoreWord(at, w)]
    {
      data[at] := ByteOf(w, 0);
      data[at + 1] := ByteOf(w, 1);
      data[at + 2] := ByteOf(w, 2);
      data[at + 3] := ByteOf(w, 3);
      stores := stores + [StoreWord(at, w)];
    }

    // binary.LittleEndian.Uint32
    method Uint32(at: nat) returns (w: uint32)
      requires Mapped() && at + 4 <= AREA_SIZE
      ensures w == Word(data[..], at)
    {
      var b0: int, b1: int, b2: int, b3: int := data[at], data[at + 1], data[at + 2], data[at + 3];
      w := b0 + 0x100 * b1 + 0x1_0000 * b2 + 0x100_0000 * b3;
    }

    // Go's copy into the mapping.
    method CopyBytes(at: nat, bytes: Data)
      requires Mapped() && at + |bytes| <= AREA_SIZE
      modifies data, `stores
      ensures data[..] == Apply(old(data[..]), Copy(at, bytes))
      ensures stores == old(stores) + Copy(at, bytes)
    {
      ghost var before: Table := data[..];
      for i := 0 to |bytes|
        invariant data[..] == before[..at] + bytes[..i] + before[at + i..]
        invariant stores == old(stores) + Copy(at, bytes[..i])
      {
        data[at + i] := bytes[i];
        stores := stores + [StoreByte(at + i, bytes[i])];
        assert Copy(at, bytes[..i + 1]) == Copy(at, bytes[..i]) + [StoreByte(at + i, bytes[i])];
      }
      assert bytes[..|bytes|] == bytes;
      ApplyCopy(before, at, bytes);
    }

    // The zeroing loops of format, writeValue and Set.
    method Clear(at: nat, n: nat)
      requires Mapped() && at + n <= AREA_SIZE
      modifies data, `stores
      ensures data[..] == Apply(old(data[..]), Copy(at, Zeros(n)))
      ensures stores == old(stores) + Copy(at, Zeros(n))
    {
      ghost var before: Table := data[..];
      for i := 0 to n
        invariant data[..] == before[..at] + Zeros(i) + before[at + i..]
        invariant stores == old(stores) + Copy(at, Zeros(i))
      {
        data[at + i] := 0;
        stores := stores + [StoreByte(at + i, 0)];
        assert Copy(at, Zeros(i + 1)) == Copy(at, Zeros(i)) + [StoreByte(at + i, 0)];
      }
      ApplyCopy(before, at, Zeros(n));
    }

    // valid: reports whether the mapping already holds a table.
    method Valid() returns (good: bool)
      requires Mapped()
      ensures good == Accepts(data[..])
    {
      var magic := Uint32(MAGIC_OFFSET);
      if magic != AREA_MAGIC {
        return false;
      }
      var version := Uint32(VERSION_OFFSET);
      if version != AREA_VERSION {
        return false;
      }
      var count := Uint32(COUNT_OFFSET);
      if count > MAX_RECORDS {
        return false;
      }
      for i := 0 to count
        invariant forall j: nat :: j < i ==> INFO_START <= RecordOffset(data[..], j) <= AREA_SIZE - INFO_SIZE
      {
        var offset := ReadOffset(i);
        if offset < INFO_START || offset + INFO_SIZE > AREA_SIZE {
          return false;
        }
      }
      return true;
    }

    // recordOffset
    method ReadOffset(index: nat) returns (offset: nat)
      requires Mapped() && index < MAX_RECORDS
      ensures offset == RecordOffset(data[..], index)
    {
      var entry := Uint32(TOC_OFFSET + index * 4);
      offset := entry % GENERATIONS;
    }

    // recordName
    method ReadName(offset: nat) returns (name: Data)
      requires Mapped() && offset + INFO_SIZE <= AREA_SIZE
      ensures name == RecordName(data[..], offset)
    {
      var field: Data := data[offset..offset + NAME_MAX];
      assert field == data[..][offset..offset + NAME_MAX];
      for i := 0 to NAME_MAX
        invariant forall j :: 0 <= j < i ==> field[j] != 0
      {
        if field[i] == 0 {
          return field[..i];
        }
      }
      return field;
    }

    method Format()
      requires Mapped()
      modifies data, `stores
      ensures data[..] == Formatted()
      ensures stores == old(stores) + FormatStores()
    {
      ghost var log := stores;
      ghost var before: Table := data[..];
      Clear(0, AREA_SIZE);
      ApplyCopy(before, 0, Zeros(AREA_SIZE));
      assert data[..] == Zeros(AREA_SIZE);
      PutUint32(COUNT_OFFSET, 0);
      PutZeroWord(AREA_SIZE, COUNT_OFFSET);
      PutUint32(SERIAL_OFFSET, 0);
      PutZeroWord(AREA_SIZE, SERIAL_OFFSET);
      PutUint32(MAGIC_OFFSET, AREA_MAGIC);
      PutUint32(VERSION_OFFSET, AREA_VERSION);
      assert stores == log + FormatStores();
    }

    method FindRecord(name: Data) returns (offset: nat, found: bool)
      requires Mapped() && Accepts(data[..])
      ensures Find(data[..], name) == if found then Some(offset) else None
    {
      var i := 0;
      var count := Uint32(COUNT_OFFSET);
      while i < count
        invariant i <= count == Count(data[..])
        invariant Find(data[..], name) == FindFrom(data[..], name, i)
      {
        offset := ReadOffset(i);
        var candidate := ReadName(offset);
        if candidate == name {
          return offset, true;
        }
        i := i + 1;
      }
      return 0, false;
    }

    method WriteValue(offset: nat, value: Data)
      requires Mapped() && offset + INFO_SIZE <= AREA_SIZE && |value| < VALUE_MAX
      modifies data, `stores
      ensures data[..] == Apply(old(data[..]), ValueStores(old(data[..]), offset, value))
      ensures stores == old(stores) + ValueStores(old(data[..]), offset, value)
    {
      hide PutWord, Word, Apply, FirstZero;
      ghost var s, log := data[..], stores;
      ghost var all := ValueStores(s, offset, value);
      ghost var zeros, copy := Copy(offset + RECORD_VALUE, Zeros(VALUE_MAX)), Copy(offset + RECORD_VALUE, value);
      ValueStoresInSteps(s, offset, value);
      AreaSerialUntouched(s, offset, value);
      var serial := Uint32(offset + RECORD_SERIAL);
      var generation := serial % GENERATIONS;
      PutUint32(offset + RECORD_SERIAL, if serial % 2 == 0 then serial + 1 else serial);
      assert data[..] == ApplyOne(s, all[0]);
      Clear(offset + RECORD_VALUE, VALUE_MAX);
      assert stores == log + ([all[0]] + zeros);
      CopyBytes(offset + RECORD_VALUE, value);
      assert stores == log + ([all[0]] + zeros + copy);
      assert data[..] == Apply(s, all[..|all| - 2]);
      PutUint32(offset + RECORD_SERIAL, |value| * GENERATIONS + (generation + 2) % GENERATIONS);
      assert stores == log + ([all[0]] + zeros + copy + [all[|all| - 2]]);
      assert data[..] == Apply(s, all[..|all| - 1]);
      var areaSerial := Uint32(SERIAL_OFFSET);
      PutUint32(SERIAL_OFFSET, if areaSerial == 0xFFFF_FFFF then 0 else areaSerial + 1);
      assert stores == log + ([all[0]] + zeros + copy + [all[|all| - 2]] + [all[|all| - 1]]);
    }

    // The tail of Set: fill the first uncounted slot, then publish it.
    method Append(index: nat, name: Data, value: Data)
      requires Mapped() && index < MAX_RECORDS && |name| < NAME_MAX && |value| < VALUE_MAX
      modifies data, `stores
      ensures data[..] == Apply(old(data[..]), AppendStores(old(data[..]), index, name, value))
      ensures stores == old(stores) + AppendStores(old(data[..]), index, name, value)
    {
      hide PutWord, Word, Apply, FirstZero;
      ghost var s, log := data[..], stores;
      var offset := INFO_START + index * INFO_SIZE;
      Clear(offset, INFO_SIZE);
      CopyBytes(offset, name);
      ghost var naming := NameStores(offset, name);
      assert stores == log + naming;
      ApplyAppend(s, Copy(offset, Zeros(INFO_SIZE)), Copy(offset, name));
      ghost var named := data[..];
      WriteValue(offset, value);
      ghost var recording := RecordStores(s, offset, name, value);
      assert stores == log + recording;
      ApplyAppend(s, naming, ValueStores(named, offset, value));
      ghost var recorded := data[..];
      PutUint32(TOC_OFFSET + index * 4, |name| * GENERATIONS + offset);
      PutUint32(COUNT_OFFSET, index + 1);
      ghost var publishing := PublishStores(index, name);
      assert stores == log + (recording + publishing);
      ApplyAppend(s, recording, publishing);
      ApplyTwo(recorded, publishing);
    }

    // Set: data and stores advance by exactly SetStores, whatever the outcome.
    method Set(name: Data, value: Data) returns (outcome: Outcome)
      requires Mapped() && Accepts(data[..])
      modifies data, `stores
      ensures outcome == SetOutcome(old(data[..]), name, value)
      ensures data[..] == Apply(old(data[..]), SetStores(old(data[..]), name, value))
      ensures stores == old(stores) + SetStores(old(data[..]), name, value)
      // The table stays accepted, so that the next call is as safe as this one.
      ensures Accepts(data[..])
    {
      ghost var s, all := data[..], SetStores(data[..], name, value);
      assert all[..|all|] == all;
      SetStaysAccepted(s, name, value, |all|);
      if name == [] || |name| >= NAME_MAX {
        return BadName;
      }
      if |value| >= VALUE_MAX {
        return BadValue;
      }
      var existing, found := FindRecord(name);
      if found {
        WriteValue(existing, value);
        return Stored;
      }
      var index := Uint32(COUNT_OFFSET);
      if index >= MAX_RECORDS {
        return Full;
      }
      Append(index, name, value);
      return Stored;
    }

    method Get(name: Data) returns (value: Option<Data>)
      requires Mapped() && Accepts(data[..])
      ensures value == Lookup(data[..], name)
    {
      var offset, found := FindRecord(name);
      if !found {
        return None;
      }
      var serial := Uint32(offset + RECORD_SERIAL);
      var length := serial / GENERATIONS;
      if length > VALUE_MAX {
        return None;
      }
      value := Some(data[offset + RECORD_VALUE..offset + RECORD_VALUE + length]);
    }
  }
}
