/** Re-encoding what the cursor codec accepted. */
module CodecReencode {
  import opened Bytes
  import opened MessagePack
  import opened CodecLaws
  import opened CodecCanonical
  import opened CodecListing
  import Cursor = CursorCodec

  // A value up to the signedness tag of its non-negative integers.
  function Retagged(v: Value): Value
    decreases v
  {
    match v
    case VInt(i) => if i >= 0 then VUInt(i) else v
    case VArr(values) => VArr(seq(|values|, i requires 0 <= i < |values| => Retagged(values[i])))
    case VMap(members) => VMap(map k | k in members :: Retagged(members[k]))
    case _ => v
  }

  lemma {:induction false} NormCollapses(n: Node)
    requires Plain(n)
    ensures Collapse(Cursor.TextOf, Norm(n)) == Retagged(Collapse(Cursor.TextOf, n))
    decreases n, 0
  {
    hide NormItems, NormEntries, CollapseItems, CollapseEntries, PlainItems, PlainEntries;
    match n
    case Arr(items) =>
      NormItemsCollapse(items);
    case Map(entries) =>
      NormEntriesCollapse(entries);
    case _ =>
  }

  lemma {:induction false} NormItemAt(items: seq<Node>, i: nat)
    requires PlainItems(items) && i < |items|
    ensures NormItems(items)[i] == Norm(items[i]) && Plain(items[i])
  {
    if i > 0 {
      NormItemAt(items[1..], i - 1);
    }
  }

  lemma {:induction false} NormItemsCollapse(items: seq<Node>)
    requires PlainItems(items)
    ensures forall i :: 0 <= i < |items| ==>
              CollapseItems(Cursor.TextOf, NormItems(items))[i] == Retagged(CollapseItems(Cursor.TextOf, items)[i])
    decreases items, 1
  {
    hide Norm, Collapse, Plain, Retagged;
    forall i | 0 <= i < |items|
      ensures CollapseItems(Cursor.TextOf, NormItems(items))[i] == Retagged(CollapseItems(Cursor.TextOf, items)[i])
    {
      NormItemAt(items, i);
      CollapsedItemAt(NormItems(items), i);
      CollapsedItemAt(items, i);
      NormCollapses(items[i]);
    }
  }

  lemma {:induction false} NormAppended(entries: seq<Entry>, last: Entry)
    ensures NormEntries(entries + [last]) == NormEntries(entries) + [Entry(Norm(last.key), Norm(last.value))]
  {
    hide Norm;
    var all := entries + [last];
    if entries == [] {
      assert all[1..] == [];
    } else {
      assert all[0] == entries[0] && all[1..] == entries[1..] + [last];
      NormAppended(entries[1..], last);
    }
  }

  function RetaggedMap(m: map<Data, Value>): map<Data, Value> {
    map k | k in m :: Retagged(m[k])
  }

  lemma {:induction false} NormEntriesCollapse(entries: seq<Entry>)
    requires PlainEntries(entries)
    ensures CollapseEntries(Cursor.TextOf, NormEntries(entries)) == RetaggedMap(CollapseEntries(Cursor.TextOf, entries))
    decreases entries, 1
  {
    hide Norm, Collapse, Plain, Retagged;
    if entries != [] {
      var n := |entries| - 1;
      var last := entries[n];
      assert (entries decreases to last);
      FrontAndLast(entries);
      PlainEntriesAt(entries, n);
      NormEntriesCollapse(entries[..n]);
      NormCollapses(last.value);
      NormAppended(entries[..n], last);
      StringNorm(last.key);
      CollapseAppended(NormEntries(entries[..n]), Entry(Norm(last.key), Norm(last.value)));
      CollapseAppended(entries[..n], last);
    }
  }

  lemma StringNorm(key: Node)
    requires key.Str?
    ensures Norm(key) == key
  {
  }

  lemma {:induction false} FittingIsGoValue(n: Node, depth: nat)
    requires Plain(n) && Fits(n, depth)
    ensures GoValue(n)
    decreases n, 0
  {
    match n
    case Arr(items) => FittingItemsAreGo(items, depth + 1);
    case Map(entries) => FittingEntriesAreGo(entries, depth + 1);
    case _ =>
  }

  lemma {:induction false} FittingItemsAreGo(items: seq<Node>, depth: nat)
    requires PlainItems(items) && FitsItems(items, depth)
    ensures GoItems(items)
    decreases items, 1
  {
    if items != [] {
      FittingIsGoValue(items[0], depth);
      FittingItemsAreGo(items[1..], depth);
    }
  }

  lemma {:induction false} FittingEntriesAreGo(entries: seq<Entry>, depth: nat)
    requires PlainEntries(entries) && FitsEntries(entries, depth)
    ensures GoEntries(entries)
    decreases entries, 1
  {
    if entries != [] {
      assert (entries decreases to entries[0]);
      StringIsPlain(entries[0].key);
      FittingIsGoValue(entries[0].key, depth);
      FittingIsGoValue(entries[0].value, depth);
      FittingEntriesAreGo(entries[1..], depth);
    }
  }

  // For every payload the cursor codec accepts, and every order in which the
  // runtime may list the decoded maps: re-encoding succeeds, is never longer,
  // and decodes to the same value up to the tag of non-negative integers.
  lemma ReencodingIsCanonical(whole: uint64 -> Option<int>, payload: Data, t: Node)
    requires CursorDecodes(payload).Some?
    requires Plain(t) && Distinct(t)
    requires Collapse(Cursor.TextOf, t) == CursorDecodes(payload).value
    ensures var again := Cursor.Encode(whole, t);
            && again.Some? && |again.value| <= |payload|
            && CursorDecodes(again.value) == Some(Retagged(CursorDecodes(payload).value))
  {
    hide Cursor.Parse, Cursor.Encode, Collapse, Norm, Retagged, Fits, GoValue, Plain, Distinct;
    var w := Cursor.Parse(payload, 0).node;
    AcceptedIsCompact(whole, payload, 0);
    ListingIsNoLonger(whole, t, w);
    var again := Cursor.Encode(whole, t).value;
    FittingIsGoValue(t, 0);
    PlainRoundTrip(whole, t, [], 0);
    assert again + [] == again;
    NormCollapses(t);
  }

  // ------------------------------------------------ every value has a listing

  // One listing of a decoded tree: the last entry under each key survives.
  function Listing(n: Node): Node
    decreases n
  {
    match n
    case Arr(items) => Arr(ListItems(items))
    case Map(entries) => Map(ListEntries(entries))
    case _ => n
  }

  function ListItems(items: seq<Node>): (r: seq<Node>)
    ensures |r| == |items|
    decreases items
  {
    if items == [] then [] else ListItems(items[..|items| - 1]) + [Listing(items[|items| - 1])]
  }

  function ListEntries(entries: seq<Entry>): (r: seq<Entry>)
    ensures |r| <= |entries|
    decreases entries
  {
    if entries == [] then []
    else
      var last := entries[|entries| - 1];
      assert (entries decreases to last);
      Without(ListEntries(entries[..|entries| - 1]), last.key) + [Entry(last.key, Listing(last.value))]
  }

  lemma {:induction false} ListingListsTheValue(n: Node)
    requires Plain(n)
    ensures Plain(Listing(n)) && Distinct(Listing(n))
    ensures Collapse(Cursor.TextOf, Listing(n)) == Collapse(Cursor.TextOf, n)
    decreases n, 0
  {
    match n
    case Arr(items) => ListedItems(items);
    case Map(entries) => ListedEntries(entries);
    case _ =>
  }

  lemma {:induction false} ItemAppended(items: seq<Node>, last: Node)
    ensures PlainItems(items + [last]) <==> PlainItems(items) && Plain(last)
  {
    hide Plain;
    var all := items + [last];
    if items == [] {
      assert all[1..] == [];
    } else {
      assert all[0] == items[0] && all[1..] == items[1..] + [last];
      ItemAppended(items[1..], last);
    }
  }

  lemma {:induction false} ListedItems(items: seq<Node>)
    requires PlainItems(items)
    ensures PlainItems(ListItems(items)) && DistinctItems(ListItems(items))
    ensures CollapseItems(Cursor.TextOf, ListItems(items)) == CollapseItems(Cursor.TextOf, items)
    decreases items, 1
  {
    hide Plain, Distinct, Collapse, Listing;
    if items != [] {
      var n := |items| - 1;
      PlainItemsAt(items, n);
      ListedItems(items[..n]);
      ListingListsTheValue(items[n]);
      ItemAppended(ListItems(items[..n]), Listing(items[n]));
      ItemCollected(Cursor.TextOf, ListItems(items[..n]), Listing(items[n]), BadItems);
      assert ListItems(items)[..n] == ListItems(items[..n]);
    }
  }

  lemma {:induction false} ListedEntries(entries: seq<Entry>)
    requires PlainEntries(entries)
    ensures PlainEntries(ListEntries(entries)) && DistinctEntries(ListEntries(entries))
    ensures CollapseEntries(Cursor.TextOf, ListEntries(entries)) == CollapseEntries(Cursor.TextOf, entries)
    decreases entries, 1
  {
    hide Plain, Distinct, Collapse, Listing, Cursor.TextOf, Without, CollapseEntries, DistinctEntries, Nodes,
         NodesOfEntries, Size, Cursor.Encode, Cursor.EncodeEntries;
    if entries == [] {
      EmptyListing();
    } else {
      var n := |entries| - 1;
      var last := entries[n];
      assert (entries decreases to last);
      FrontAndLast(entries);
      PlainEntriesAt(entries, n);
      ListedEntries(entries[..n]);
      ListingListsTheValue(last.value);
      var front := ListEntries(entries[..n]);
      var kept, listed := Without(front, last.key), Entry(last.key, Listing(last.value));
      WithoutIsSmaller(_ => None, front, last.key);
      WithoutIsDistinct(front, last.key);
      WithoutKeys(front, last.key);
      WithoutCollapses(front, last.key.text);
      EntryAppended(_ => None, kept, listed);
      CollapseAppended(kept, listed);
      CollapseAppended(entries[..n], last);
      DistinctAppended(kept, listed);
    }
  }

  lemma EmptyListing()
    ensures PlainEntries([]) && DistinctEntries([]) && ListEntries([]) == []
  {
  }

  lemma DistinctAppended(entries: seq<Entry>, last: Entry)
    requires DistinctEntries(entries) && Distinct(last.value)
    requires forall e :: e in entries ==> e.key != last.key
    ensures DistinctEntries(entries + [last])
  {
    hide Distinct;
    var all := entries + [last];
    assert all[..|all| - 1] == entries;
    forall i | 0 <= i < |all| - 1 ensures all[i].key != last.key {
      assert all[i] in entries;
    }
  }
}
