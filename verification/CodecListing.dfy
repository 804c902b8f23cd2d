/**
 A decoded map has forgotten the order and the duplicates of its entries. Any
 tree an encoder could be handed for the same value is no longer than the tree
 the value came from.
 */
module CodecListing {
  import opened Bytes
  import opened MessagePack
  import opened CodecLaws
  import opened CodecCanonical
  import Cursor = CursorCodec

  // A Go map lists every key once, in some order.
  ghost predicate Distinct(n: Node)
    decreases n
  {
    match n
    case Arr(items) => DistinctItems(items)
    case Map(entries) => DistinctEntries(entries)
    case _ => true
  }

  ghost predicate DistinctItems(items: seq<Node>)
    decreases items
  {
    items == [] || (DistinctItems(items[..|items| - 1]) && Distinct(items[|items| - 1]))
  }

  ghost predicate DistinctEntries(entries: seq<Entry>)
    decreases entries
  {
    entries == [] ||
    var last := entries[|entries| - 1];
    assert (entries decreases to last);
    && DistinctEntries(entries[..|entries| - 1])
    && Distinct(last.value)
    && forall i :: 0 <= i < |entries| - 1 ==> entries[i].key != last.key
  }

  // Entries with string keys, less those under one key.
  function Without(entries: seq<Entry>, key: Node): (r: seq<Entry>)
    ensures |r| <= |entries|
  {
    if entries == [] then []
    else
      var front, last := Without(entries[..|entries| - 1], key), entries[|entries| - 1];
      if last.key == key then front else front + [last]
  }

  // ---------------------------------------------------- appending to a list

  lemma {:induction false} EntryAppended(whole: uint64 -> Option<int>, entries: seq<Entry>, last: Entry)
    ensures PlainEntries(entries + [last]) <==> PlainEntries(entries) && last.key.Str? && Plain(last.value)
    ensures Cursor.EncodeEntries(whole, entries + [last])
         == Joined(Cursor.EncodeEntries(whole, entries),
                   Joined(Cursor.Encode(whole, last.key), Cursor.Encode(whole, last.value)))
    ensures NodesOfEntries(entries + [last]) == NodesOfEntries(entries) + Nodes(last.key) + Nodes(last.value)
  {
    hide Plain, Nodes, Cursor.Encode;
    var all := entries + [last];
    var field := Joined(Cursor.Encode(whole, last.key), Cursor.Encode(whole, last.value));
    if entries == [] {
      assert all[1..] == [];
      assert field.Some? ==> field.value + [] == field.value && [] + field.value == field.value;
    } else {
      assert all[0] == entries[0] && all[1..] == entries[1..] + [last];
      EntryAppended(whole, entries[1..], last);
      var first := Joined(Cursor.Encode(whole, entries[0].key), Cursor.Encode(whole, entries[0].value));
      JoinedIsAssociative(first, Cursor.EncodeEntries(whole, entries[1..]), field);
    }
  }

  lemma {:induction false} FitsAppended(entries: seq<Entry>, last: Entry, depth: nat)
    ensures FitsEntries(entries + [last], depth)
            <==> FitsEntries(entries, depth) && Fits(last.key, depth) && Fits(last.value, depth)
  {
    hide Fits;
    var all := entries + [last];
    if entries == [] {
      assert all[1..] == [];
    } else {
      assert all[0] == entries[0] && all[1..] == entries[1..] + [last];
      FitsAppended(entries[1..], last, depth);
    }
  }

  lemma FrontAndLast(entries: seq<Entry>)
    requires entries != []
    ensures entries == entries[..|entries| - 1] + [entries[|entries| - 1]]
  {
  }

  // The encoded size of an entry list.
  function Size(whole: uint64 -> Option<int>, entries: seq<Entry>): nat {
    var bytes := Cursor.EncodeEntries(whole, entries);
    if bytes.Some? then |bytes.value| else 0
  }

  function EntrySize(whole: uint64 -> Option<int>, e: Entry): nat {
    var bytes := Joined(Cursor.Encode(whole, e.key), Cursor.Encode(whole, e.value));
    if bytes.Some? then |bytes.value| else 0
  }

  lemma SizeAppended(whole: uint64 -> Option<int>, entries: seq<Entry>, last: Entry)
    requires PlainEntries(entries) && last.key.Str? && Plain(last.value)
    ensures Size(whole, entries + [last]) == Size(whole, entries) + EntrySize(whole, last)
  {
    hide Plain, Cursor.Encode, Cursor.EncodeEntries;
    EntryAppended(whole, entries, last);
    EntryEncodersAgree(whole, entries);
    EncodersAgree(whole, last.key) by { StringIsPlain(last.key); }
    EncodersAgree(whole, last.value);
  }

  // ------------------------------------------------- dropping a key from a list

  lemma {:induction false} WithoutIsSmaller(whole: uint64 -> Option<int>, entries: seq<Entry>, key: Node)
    requires PlainEntries(entries)
    ensures PlainEntries(Without(entries, key))
    ensures Size(whole, Without(entries, key)) <= Size(whole, entries)
    ensures NodesOfEntries(Without(entries, key)) <= NodesOfEntries(entries)
  {
    hide Plain, Nodes, Cursor.Encode, Size, EntrySize;
    if entries != [] {
      var n := |entries| - 1;
      FrontAndLast(entries);
      PlainEntriesAt(entries, n);
      WithoutIsSmaller(whole, entries[..n], key);
      SizeAppended(whole, entries[..n], entries[n]);
      EntryAppended(whole, entries[..n], entries[n]);
      if entries[n].key != key {
        SizeAppended(whole, Without(entries[..n], key), entries[n]);
        EntryAppended(whole, Without(entries[..n], key), entries[n]);
      }
    }
  }

  lemma {:induction false} WithoutFits(entries: seq<Entry>, key: Node, depth: nat)
    requires FitsEntries(entries, depth)
    ensures FitsEntries(Without(entries, key), depth)
  {
    hide Fits;
    if entries != [] {
      var n := |entries| - 1;
      FrontAndLast(entries);
      FitsAppended(entries[..n], entries[n], depth);
      WithoutFits(entries[..n], key, depth);
      if entries[n].key != key {
        FitsAppended(Without(entries[..n], key), entries[n], depth);
      }
    }
  }

  // On maps, dropping the key is dropping the member.
  lemma {:induction false} WithoutCollapses(entries: seq<Entry>, text: Data)
    requires PlainEntries(entries)
    ensures CollapseEntries(Cursor.TextOf, Without(entries, Str(text)))
            == CollapseEntries(Cursor.TextOf, entries) - {text}
  {
    hide Plain, Collapse, Cursor.TextOf, CollapseEntries;
    if entries == [] {
      EmptyMap();
    } else {
      var n := |entries| - 1;
      FrontAndLast(entries);
      PlainEntriesAt(entries, n);
      WithoutCollapses(entries[..n], text);
      CollapseAppended(entries[..n], entries[n]);
      LessOne(CollapseEntries(Cursor.TextOf, entries[..n]), entries[n].key.text,
              Collapse(Cursor.TextOf, entries[n].value), text);
      if entries[n].key != Str(text) {
        CollapseAppended(Without(entries[..n], Str(text)), entries[n]);
      }
    }
  }

  lemma EmptyMap()
    ensures CollapseEntries(Cursor.TextOf, []) == map[]
  {
  }

  lemma LessOne(m: map<Data, Value>, key: Data, value: Value, text: Data)
    ensures m[key := value] - {text} == if key == text then m - {text} else (m - {text})[key := value]
  {
  }

  // A string-keyed entry overwrites the member under its own text.
  lemma CollapseAppended(entries: seq<Entry>, last: Entry)
    requires last.key.Str?
    ensures CollapseEntries(Cursor.TextOf, entries + [last])
         == CollapseEntries(Cursor.TextOf, entries)[last.key.text := Collapse(Cursor.TextOf, last.value)]
  {
    EntryCollected(Cursor.TextOf, entries, last, BadEntries);
    Cursor.KeyCollapse(last.key);
  }

  lemma {:induction false} WithoutAbsent(entries: seq<Entry>, key: Node)
    requires forall i :: 0 <= i < |entries| ==> entries[i].key != key
    ensures Without(entries, key) == entries
  {
    if entries != [] {
      FrontAndLast(entries);
      WithoutAbsent(entries[..|entries| - 1], key);
    }
  }

  lemma {:induction false} WithoutKeys(entries: seq<Entry>, key: Node)
    ensures forall e :: e in Without(entries, key) ==> e in entries && e.key != key
  {
    if entries != [] {
      WithoutKeys(entries[..|entries| - 1], key);
    }
  }

  lemma {:induction false} WithoutIsDistinct(entries: seq<Entry>, key: Node)
    requires DistinctEntries(entries)
    ensures DistinctEntries(Without(entries, key))
  {
    hide Distinct;
    if entries != [] {
      var n := |entries| - 1;
      WithoutIsDistinct(entries[..n], key);
      if entries[n].key != key {
        var front := Without(entries[..n], key);
        WithoutKeys(entries[..n], key);
        var all := front + [entries[n]];
        assert all[..|all| - 1] == front;
        forall i | 0 <= i < |all| - 1 ensures all[i].key != entries[n].key {
          assert all[i] in front;
          assert all[i] in entries[..n];
        }
      }
    }
  }

  // A list with distinct keys loses exactly the entry that carried the key.
  lemma {:induction false} DroppedEntry(whole: uint64 -> Option<int>, entries: seq<Entry>, j: nat)
    requires PlainEntries(entries) && DistinctEntries(entries) && j < |entries|
    ensures Size(whole, entries) == Size(whole, Without(entries, entries[j].key)) + EntrySize(whole, entries[j])
    ensures |Without(entries, entries[j].key)| == |entries| - 1
    ensures forall depth ::
              && FitsEntries(Without(entries, entries[j].key), depth)
              && Fits(entries[j].key, depth) && Fits(entries[j].value, depth)
              ==> FitsEntries(entries, depth)
  {
    hide Plain, Cursor.Encode, Size, EntrySize, Distinct, Fits;
    var n := |entries| - 1;
    var key := entries[j].key;
    FrontAndLast(entries);
    PlainEntriesAt(entries, n);
    SizeAppended(whole, entries[..n], entries[n]);
    forall depth
      ensures FitsEntries(entries, depth)
              <==> FitsEntries(entries[..n], depth) && Fits(entries[n].key, depth) && Fits(entries[n].value, depth)
    {
      FitsAppended(entries[..n], entries[n], depth);
    }
    if j == n {
      WithoutAbsent(entries[..n], key);
    } else {
      DroppedEntry(whole, entries[..n], j);
      var front := Without(entries[..n], key);
      WithoutIsSmaller(whole, entries[..n], key);
      SizeAppended(whole, front, entries[n]);
      forall depth
        ensures FitsEntries(front + [entries[n]], depth)
                <==> FitsEntries(front, depth) && Fits(entries[n].key, depth) && Fits(entries[n].value, depth)
      {
        FitsAppended(front, entries[n], depth);
      }
    }
  }

  // ------------------------------------------------------- equal values, sizes

  lemma {:induction false} CollapsedItemAt(items: seq<Node>, i: nat)
    requires i < |items|
    ensures CollapseItems(Cursor.TextOf, items)[i] == Collapse(Cursor.TextOf, items[i])
  {
    hide Collapse;
    if i < |items| - 1 {
      CollapsedItemAt(items[..|items| - 1], i);
    }
  }

  // Where a distinct listing keeps a member.
  lemma {:induction false} ListedAt(entries: seq<Entry>, text: Data) returns (j: nat)
    requires PlainEntries(entries) && DistinctEntries(entries) && text in CollapseEntries(Cursor.TextOf, entries)
    ensures j < |entries| && entries[j].key == Str(text)
    ensures Collapse(Cursor.TextOf, entries[j].value) == CollapseEntries(Cursor.TextOf, entries)[text]
  {
    hide Plain, Collapse, Distinct, Cursor.TextOf;
    var n := |entries| - 1;
    FrontAndLast(entries);
    PlainEntriesAt(entries, n);
    CollapseAppended(entries[..n], entries[n]);
    if entries[n].key.text == text {
      j := n;
    } else {
      j := ListedAt(entries[..n], text);
    }
  }

  // Two trees with the same value: the one that lists every key once is no
  // longer and no deeper than the other.
  lemma {:induction false} ListingIsNoLonger(whole: uint64 -> Option<int>, t: Node, w: Node)
    requires Plain(t) && Distinct(t) && Plain(w)
    requires Collapse(Cursor.TextOf, t) == Collapse(Cursor.TextOf, w)
    ensures Cursor.Encode(whole, t).Some? && Cursor.Encode(whole, w).Some?
    ensures |Cursor.Encode(whole, t).value| <= |Cursor.Encode(whole, w).value|
    ensures forall depth :: Fits(w, depth) ==> Fits(t, depth)
    decreases Nodes(w), 0
  {
    hide Cursor.EncodeItems, Cursor.EncodeEntries, FitsItems, FitsEntries, PlainItems, PlainEntries, CollapseItems,
         CollapseEntries, DistinctItems, DistinctEntries, NodesOfItems, NodesOfEntries;
    EncodersAgree(whole, t);
    EncodersAgree(whole, w);
    match t
    case Arr(items) => ItemListingIsNoLonger(whole, items, w.items);
    case Map(entries) => EntryListingIsNoLonger(whole, entries, w.entries);
    case _ => assert t == w;
  }

  lemma {:induction false} ItemListingIsNoLonger(whole: uint64 -> Option<int>, t: seq<Node>, w: seq<Node>)
    requires PlainItems(t) && DistinctItems(t) && PlainItems(w)
    requires CollapseItems(Cursor.TextOf, t) == CollapseItems(Cursor.TextOf, w)
    ensures |t| == |w| && Cursor.EncodeItems(whole, t).Some? && Cursor.EncodeItems(whole, w).Some?
    ensures |Cursor.EncodeItems(whole, t).value| <= |Cursor.EncodeItems(whole, w).value|
    ensures forall depth :: FitsItems(w, depth) ==> FitsItems(t, depth)
    decreases NodesOfItems(w), 1
  {
    hide Cursor.Encode, Fits, Plain, Collapse, Distinct, Nodes;
    if t != [] {
      CollapsedItemAt(t, 0);
      CollapsedItemAt(w, 0);
      DistinctItemsSplit(t);
      CollapsedTail(t);
      CollapsedTail(w);
      ListingIsNoLonger(whole, t[0], w[0]);
      ItemListingIsNoLonger(whole, t[1..], w[1..]);
    }
  }

  lemma {:induction false} DistinctItemsSplit(items: seq<Node>)
    requires DistinctItems(items) && items != []
    ensures Distinct(items[0]) && DistinctItems(items[1..])
  {
    hide Distinct;
    var n := |items| - 1;
    if n > 0 {
      DistinctItemsSplit(items[..n]);
      assert items[1..][..n - 1] == items[..n][1..];
    }
  }

  lemma CollapsedTail(items: seq<Node>)
    requires items != []
    ensures CollapseItems(Cursor.TextOf, items[1..]) == CollapseItems(Cursor.TextOf, items)[1..]
  {
    hide Collapse, CollapseItems;
    var tail := CollapseItems(Cursor.TextOf, items[1..]);
    forall i | 0 <= i < |tail| ensures tail[i] == CollapseItems(Cursor.TextOf, items)[i + 1] {
      CollapsedItemAt(items[1..], i);
      CollapsedItemAt(items, i + 1);
    }
  }

  lemma {:induction false} EntryListingIsNoLonger(whole: uint64 -> Option<int>, t: seq<Entry>, w: seq<Entry>)
    requires PlainEntries(t) && DistinctEntries(t) && PlainEntries(w)
    requires CollapseEntries(Cursor.TextOf, t) == CollapseEntries(Cursor.TextOf, w)
    ensures |t| <= |w| && Size(whole, t) <= Size(whole, w)
    ensures Cursor.EncodeEntries(whole, t).Some? && Cursor.EncodeEntries(whole, w).Some?
    ensures forall depth :: FitsEntries(w, depth) ==> FitsEntries(t, depth)
    decreases NodesOfEntries(w), 1
  {
    hide Cursor.Encode, Cursor.EncodeEntries, Fits, Plain, Collapse, Distinct, Nodes, Size, EntrySize;
    EntryEncodersAgree(whole, t);
    EntryEncodersAgree(whole, w);
    if w == [] {
      if t != [] {
        NonEmptyMap(t);
      }
    } else {
      var n := |w| - 1;
      var e := w[n];
      FrontAndLast(w);
      PlainEntriesAt(w, n);
      EntryAppended(whole, w[..n], e);
      SizeAppended(whole, w[..n], e);
      CollapseAppended(w[..n], e);
      var j := ListedAt(t, e.key.text);
      PlainEntriesAt(t, j);
      DistinctEntryAt(t, j);
      ListingIsNoLonger(whole, t[j].value, e.value);
      SameKeySize(whole, t[j], e);
      var t', w' := Without(t, e.key), Without(w, e.key);
      assert w' == Without(w[..n], e.key);
      WithoutIsSmaller(whole, w[..n], e.key);
      WithoutIsSmaller(whole, t, e.key);
      WithoutIsDistinct(t, e.key);
      WithoutCollapses(t, e.key.text);
      WithoutCollapses(w, e.key.text);
      DroppedEntry(whole, t, j);
      EntryListingIsNoLonger(whole, t', w');
      forall depth | FitsEntries(w, depth) ensures FitsEntries(t, depth) {
        WithoutFits(w, e.key, depth);
        FitsAppended(w[..n], e, depth);
      }
    }
  }

  lemma NonEmptyMap(entries: seq<Entry>)
    requires entries != []
    ensures CollapseEntries(Cursor.TextOf, entries) != map[]
  {
    var last := entries[|entries| - 1];
    assert Cursor.TextOf(Collapse(Cursor.TextOf, last.key)) in CollapseEntries(Cursor.TextOf, entries);
  }

  lemma {:induction false} DistinctEntryAt(entries: seq<Entry>, j: nat)
    requires DistinctEntries(entries) && j < |entries|
    ensures Distinct(entries[j].value)
  {
    hide Distinct;
    if j < |entries| - 1 {
      DistinctEntryAt(entries[..|entries| - 1], j);
    }
  }

  lemma SameKeySize(whole: uint64 -> Option<int>, a: Entry, b: Entry)
    requires a.key == b.key && b.key.Str?
    requires Cursor.Encode(whole, a.value).Some? && Cursor.Encode(whole, b.value).Some?
    requires |Cursor.Encode(whole, a.value).value| <= |Cursor.Encode(whole, b.value).value|
    ensures EntrySize(whole, a) <= EntrySize(whole, b)
  {
  }
}
