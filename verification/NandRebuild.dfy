/**
 When the script that rebuilds the NAND image succeeds, said of the vendor's bytes
 and of the two file systems supplied.
 */
module NandRebuild {
  import opened Bytes
  import opened NandImage
  import opened NandBundle
  import opened NandLaws

  // The header of the one image the script knows: nine records on 2048 blocks of 64
  // pages of 2048 bytes.
  predicate KnownHeader(vendor: Data) {
    && |vendor| >= 640 && Word(vendor, 0) == 0xd2ada3f1
    && Word(vendor, 12) == 2048 && Word(vendor, 20) == 64 && Word(vendor, 24) == 2048 && Word(vendor, 28) == 9
  }

  // A zero-terminated name in a descriptor; the script looks at seven bits of each byte.
  predicate Names(entry: Data, name: string) {
    && |name| < 16 <= |entry| && entry[|name|] == 0
    && forall k :: 0 <= k < |name| ==> entry[k] != 0 && entry[k] % 128 == name[k] as int
  }

  // Record i is the one expected and its payload is whole.
  predicate KnownRecord(vendor: Data, crc: Checksum, i: nat)
    requires KnownHeader(vendor) && i < 9
  {
    && Names(vendor[At(i)..At(i) + 64], NAMES[i])
    && 0 < StoredAt(vendor, i) <= 0x1F_FFFF_FFFF_FFFF
    && OffsetAt(vendor, i) + StoredAt(vendor, i) <= |vendor|
    && crc(Original(vendor, i)) == Word(vendor, At(i) + 24)
  }

  function Original(vendor: Data, i: nat): Data
    requires KnownHeader(vendor) && i < 9
    requires OffsetAt(vendor, i) + StoredAt(vendor, i) <= |vendor|
  {
    vendor[OffsetAt(vendor, i)..OffsetAt(vendor, i) + StoredAt(vendor, i)]
  }

  // The payload that goes out as record i: the one supplied under its name, if any.
  function Outgoing(vendor: Data, replacements: map<string, Data>, i: nat): Data
    requires KnownHeader(vendor) && i < 9
    requires OffsetAt(vendor, i) + StoredAt(vendor, i) <= |vendor|
  {
    if NAMES[i] in replacements then replacements[NAMES[i]] else Original(vendor, i)
  }

  // What goes out fits its blocks, if it is normal data, and its size field.
  predicate OutgoingFits(vendor: Data, replacements: map<string, Data>, i: nat)
    requires KnownHeader(vendor) && i < 9
    requires OffsetAt(vendor, i) + StoredAt(vendor, i) <= |vendor|
  {
    var size := |Outgoing(vendor, replacements, i)|;
    && (Word(vendor, At(i) + 48) == 0 ==> size <= Word(vendor, At(i) + 44) * 131072)
    && size <= 0xFFFF_FFFF_FFFF_FFFF
  }

  predicate Goes(vendor: Data, replacements: map<string, Data>, crc: Checksum, i: nat)
    requires KnownHeader(vendor) && i < 9
  {
    KnownRecord(vendor, crc, i) && OutgoingFits(vendor, replacements, i)
  }

  predicate Differs(vendor: Data, replacements: map<string, Data>, i: nat)
    requires KnownHeader(vendor) && i < 9
    requires OffsetAt(vendor, i) + StoredAt(vendor, i) <= |vendor|
  {
    Outgoing(vendor, replacements, i) != Original(vendor, i)
  }

  // ------------------------------------------------------------------ one round

  lemma NamesIff(entry: Data, name: string)
    requires |entry| >= 16 && forall k :: 0 <= k < |name| ==> name[k] != '\0'
    ensures var end := FirstZero(entry);
            Names(entry, name) <==> end < 16 && Ascii(entry[..end]) == name
  {
    var end := FirstZero(entry);
    if end < 16 && Ascii(entry[..end]) == name {
      forall k | 0 <= k < |name|
        ensures entry[k] % 128 == name[k] as int
      {
        assert Ascii(entry[..end])[k] == name[k];
      }
    }
    if Names(entry, name) {
      assert end == |name|;
      forall k | 0 <= k < |name|
        ensures Ascii(entry[..end])[k] == name[k]
      {
      }
    }
  }

  lemma NamesArePlain(i: nat)
    requires i < 9
    ensures forall k :: 0 <= k < |NAMES[i]| ==> NAMES[i][k] != '\0'
  {
  }

  lemma EntryReads(vendor: Data, i: nat)
    requires KnownHeader(vendor) && i < 9
    ensures var entry := Entry(vendor, i);
            && entry == vendor[At(i)..At(i) + 64]
            && Long(entry, 16) == StoredAt(vendor, i) && Word(entry, 24) == Word(vendor, At(i) + 24)
            && Word(entry, 44) == Word(vendor, At(i) + 44) && Word(entry, 48) == Word(vendor, At(i) + 48)
  {
    hide Word, Long;
    NandLaws.EntryFields(vendor, i);
  }

  lemma NameMatches(vendor: Data, i: nat)
    requires KnownHeader(vendor) && i < 9
    ensures var entry := Entry(vendor, i);
            Names(vendor[At(i)..At(i) + 64], NAMES[i])
            <==> FirstZero(entry) < 16 && Ascii(entry[..FirstZero(entry)]) == NAMES[i]
  {
    hide Word, FirstZero, Ascii, Names;
    EntryReads(vendor, i);
    NamesArePlain(i);
    NamesIff(Entry(vendor, i), NAMES[i]);
  }

  lemma ChooseIff(vendor: Data, replacements: map<string, Data>, crc: Checksum, i: nat)
    requires KnownHeader(vendor) && i < 9
    ensures var c := Choose(vendor, replacements, crc, i, OffsetAt(vendor, i));
            && (c.Some? <==> Goes(vendor, replacements, crc, i))
            && (c.Some? ==> c.value == Choice(NAMES[i], Original(vendor, i), Outgoing(vendor, replacements, i),
                                              Word(vendor, At(i) + 48)))
  {
    hide Word, Long, StoredAt, FirstZero, Ascii, Names, OffsetAt, Entry;
    EntryReads(vendor, i);
    NameMatches(vendor, i);
  }

  // ------------------------------------------------------------------ all rounds

  ghost predicate GoesFrom(vendor: Data, replacements: map<string, Data>, crc: Checksum, i: nat)
    requires KnownHeader(vendor)
  {
    forall k :: i <= k < 9 ==> Goes(vendor, replacements, crc, k)
  }

  // The choices of the rounds from one on.
  ghost predicate Chosen(plan: seq<Choice>, vendor: Data, replacements: map<string, Data>, crc: Checksum, i: nat)
    requires KnownHeader(vendor)
  {
    && i + |plan| == 9
    && forall k :: i <= k < 9 ==>
         && Goes(vendor, replacements, crc, k)
         && plan[k - i] == Choice(NAMES[k], Original(vendor, k), Outgoing(vendor, replacements, k),
                                  Word(vendor, At(k) + 48))
  }

  lemma ChosenStep(plan: seq<Choice>, vendor: Data, replacements: map<string, Data>, crc: Checksum, i: nat)
    requires KnownHeader(vendor) && i < 9 && plan != [] && Goes(vendor, replacements, crc, i)
    requires plan[0] == Choice(NAMES[i], Original(vendor, i), Outgoing(vendor, replacements, i),
                               Word(vendor, At(i) + 48))
    requires Chosen(plan[1..], vendor, replacements, crc, i + 1)
    ensures Chosen(plan, vendor, replacements, crc, i)
  {
    hide Word, Names, OutgoingFits, Original, Outgoing, OffsetAt, StoredAt;
    forall k | i <= k < 9
      ensures Goes(vendor, replacements, crc, k)
              && plan[k - i] == Choice(NAMES[k], Original(vendor, k), Outgoing(vendor, replacements, k),
                                       Word(vendor, At(k) + 48))
    {
      if k > i {
        assert plan[k - i] == plan[1..][k - (i + 1)];
      }
    }
  }

  lemma {:induction false} PlanIff(vendor: Data, replacements: map<string, Data>, crc: Checksum, i: nat)
    requires KnownHeader(vendor) && i <= 9
    ensures var plan := Plan(vendor, replacements, crc, i, OffsetAt(vendor, i));
            && (plan.Some? <==> GoesFrom(vendor, replacements, crc, i))
            && (plan.Some? ==> Chosen(plan.value, vendor, replacements, crc, i))
    decreases 9 - i
  {
    hide Word, Goes, Original, Outgoing, Choose, Plan, Chosen, StoredAt, KnownRecord;
    PlanOnwards(vendor, replacements, crc, i, OffsetAt(vendor, i));
    if i == 9 {
      NothingChosen(vendor, replacements, crc);
    } else {
      ChooseIff(vendor, replacements, crc, i);
      if Goes(vendor, replacements, crc, i) {
        NextOffset(vendor, replacements, crc, i);
        PlanIff(vendor, replacements, crc, i + 1);
        var plan := Plan(vendor, replacements, crc, i, OffsetAt(vendor, i));
        if plan.Some? {
          ChosenStep(plan.value, vendor, replacements, crc, i);
        }
      }
    }
  }

  lemma NothingChosen(vendor: Data, replacements: map<string, Data>, crc: Checksum)
    requires KnownHeader(vendor)
    ensures Chosen([], vendor, replacements, crc, 9)
  {
  }

  lemma NextOffset(vendor: Data, replacements: map<string, Data>, crc: Checksum, i: nat)
    requires KnownHeader(vendor) && i < 9 && Goes(vendor, replacements, crc, i)
    ensures OffsetAt(vendor, i) + StoredAt(vendor, i) <= |vendor|
    ensures OffsetAt(vendor, i) + |Original(vendor, i)| == OffsetAt(vendor, i + 1)
  {
    hide Word, StoredAt;
  }

  // ------------------------------------------------------------------ what may differ

  lemma {:induction false} ChangedIff(plan: seq<Choice>, name: string)
    ensures name in Changed(plan) <==>
              exists c <- plan :: c.name == name && c.payload != c.original
  {
    if plan != [] {
      ChangedIff(plan[1..], name);
      assert plan == [plan[0]] + plan[1..];
    }
  }

  lemma {:induction false} ChangedSplits(plan: seq<Choice>, k: nat)
    requires k <= |plan|
    ensures Changed(plan) == Changed(plan[..k]) + Changed(plan[k..])
  {
    if k == 0 {
      assert plan[..0] == [] && plan[0..] == plan;
    } else {
      var first, rest := plan[0], plan[1..];
      ChangedSplits(rest, k - 1);
      assert plan[..k][0] == first && plan[..k][1..] == rest[..k - 1] && rest[k - 1..] == plan[k..];
    }
  }

  lemma {:induction false} NothingChanged(plan: seq<Choice>)
    requires forall c <- plan :: c.payload == c.original
    ensures Changed(plan) == []
  {
    if plan != [] {
      NothingChanged(plan[1..]);
    }
  }

  lemma OneChanged(c: Choice)
    ensures Changed([c]) == if c.payload != c.original then [c.name] else []
  {
    assert [c][1..] == [] && Changed([]) == [];
  }

  // Exactly two of nine differ: the one at six and the one at eight.
  lemma ChangedAre(plan: seq<Choice>)
    requires |plan| == 9 && forall k :: 0 <= k < 9 ==> plan[k].name == NAMES[k]
    ensures Changed(plan) == ["rootfs", "bsl"] <==>
              forall k :: 0 <= k < 9 ==> (plan[k].payload != plan[k].original <==> k == 6 || k == 8)
  {
    hide Changed;
    if Changed(plan) == ["rootfs", "bsl"] {
      forall k | 0 <= k < 9
        ensures plan[k].payload != plan[k].original <==> k == 6 || k == 8
      {
        ChangedIff(plan, NAMES[k]);
        NamesDiffer(plan, k);
        assert NAMES[k] in Changed(plan) <==> NAMES[k] == "rootfs" || NAMES[k] == "bsl";
      }
    }
    if forall k :: 0 <= k < 9 ==> (plan[k].payload != plan[k].original <==> k == 6 || k == 8) {
      TwoChanged(plan);
    }
  }

  lemma NamesDiffer(plan: seq<Choice>, k: nat)
    requires |plan| == 9 && k < 9 && forall j :: 0 <= j < 9 ==> plan[j].name == NAMES[j]
    ensures forall c <- plan :: c.name == NAMES[k] ==> c == plan[k]
    ensures NAMES[k] == "rootfs" <==> k == 6
    ensures NAMES[k] == "bsl" <==> k == 8
  {
    forall i, j | 0 <= i < j < 9
      ensures NAMES[i] != NAMES[j]
    {
      AllApart(i, j);
    }
  }

  lemma AllApart(i: nat, j: nat)
    requires i < j < 9
    ensures NAMES[i] != NAMES[j]
  {
  }

  lemma TwoChanged(plan: seq<Choice>)
    requires |plan| == 9 && forall k :: 0 <= k < 9 ==> plan[k].name == NAMES[k]
    requires forall k :: 0 <= k < 9 ==> (plan[k].payload != plan[k].original <==> k == 6 || k == 8)
    ensures Changed(plan) == ["rootfs", "bsl"]
  {
    hide Changed;
    var end := plan[6..];
    ChangedSplits(plan, 6);
    NothingChanged(plan[..6]);
    ChangedSplits(end, 1);
    ChangedSplits(end[1..], 1);
    assert end[..1] == [plan[6]] && end[1..][..1] == [plan[7]] && end[1..][1..] == [plan[8]];
    OneChanged(plan[6]);
    OneChanged(plan[7]);
    OneChanged(plan[8]);
  }

  // ------------------------------------------------------------------ the script

  // The script succeeds exactly on the known header with nine known records whose
  // checksums hold, when what goes out fits, differs from the vendor's in rootfs and
  // bsl and nowhere else, and the app record is of type one.
  lemma RebuildSucceedsIff(vendor: Data, replacements: map<string, Data>, crc: Checksum)
    ensures Rebuild(vendor, replacements, crc).Some? <==>
              && KnownHeader(vendor)
              && (forall k :: 0 <= k < 9 ==>
                    && Goes(vendor, replacements, crc, k)
                    && (Differs(vendor, replacements, k) <==> k == 6 || k == 8))
              && Word(vendor, At(7) + 48) == 1
  {
    hide Word, Goes, Original, Outgoing, Plan, Changed, TableAfter, Payloads;
    if KnownHeader(vendor) {
      assert OffsetAt(vendor, 0) == 640;
      PlanIff(vendor, replacements, crc, 0);
      var plan := Plan(vendor, replacements, crc, 0, 640);
      if plan.Some? {
        ChangedAre(plan.value);
      }
    }
  }
}
