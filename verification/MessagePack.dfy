/**
 MessagePack as both services use it: the trees they exchange, big-endian
 fields, and the limits the decoders enforce.
 */
module MessagePack {
  import opened Bytes

  const MAX_STRING_BYTES: nat := 0x10_0000
  const MAX_ELEMENTS: nat := 4096
  const MAX_DEPTH: nat := 32
  // Go's int on the 32-bit target.
  const MAX_INT: nat := 0x7FFF_FFFF
  const MAX_INT64: nat := 0x7FFF_FFFF_FFFF_FFFF

  type int64 = x: int | -0x8000_0000_0000_0000 <= x < 0x8000_0000_0000_0000

  // A tree in wire order. Encoders walk one; decoders discover one.
  datatype Node =
    | Nil
    | Bool(b: bool)
    | UInt(u: uint64)
    | Int(i: int64)
    | Float(bits: uint64)
    | Bin(bytes: Data)
    | Str(text: Data)
    | Arr(items: seq<Node>)
    | Map(entries: seq<Entry>)

  datatype Entry = Entry(key: Node, value: Node)

  // What a decoder hands its caller: maps have lost their order and duplicates.
  datatype Value =
    | VNil
    | VBool(b: bool)
    | VUInt(u: uint64)
    | VInt(i: int64)
    | VFloat(bits: uint64)
    | VBin(bytes: Data)
    | VStr(text: Data)
    | VArr(values: seq<Value>)
    | VMap(members: map<Data, Value>)

  // fmt.Sprint, of which only its effect on strings matters.
  ghost predicate Lawful(sprint: Value -> Data) {
    forall text :: sprint(VStr(text)) == text
  }

  function Collapse(sprint: Value -> Data, n: Node): Value
    decreases n
  {
    match n
    case Nil => VNil
    case Bool(b) => VBool(b)
    case UInt(u) => VUInt(u)
    case Int(i) => VInt(i)
    case Float(bits) => VFloat(bits)
    case Bin(bytes) => VBin(bytes)
    case Str(text) => VStr(text)
    case Arr(items) => VArr(CollapseItems(sprint, items))
    case Map(entries) => VMap(CollapseEntries(sprint, entries))
  }

  function CollapseItems(sprint: Value -> Data, items: seq<Node>): (values: seq<Value>)
    ensures |values| == |items|
    decreases items
  {
    if items == [] then []
    else CollapseItems(sprint, items[..|items| - 1]) + [Collapse(sprint, items[|items| - 1])]
  }

  // Later entries overwrite earlier ones.
  function CollapseEntries(sprint: Value -> Data, entries: seq<Entry>): map<Data, Value>
    decreases entries
  {
    if entries == [] then map[]
    else
      var last := entries[|entries| - 1];
      assert (entries decreases to last);
      var front := CollapseEntries(sprint, entries[..|entries| - 1]);
      front[sprint(Collapse(sprint, last.key)) := Collapse(sprint, last.value)]
  }

  lemma MapCollapse(sprint: Value -> Data, entries: seq<Entry>)
    ensures Collapse(sprint, Map(entries)) == VMap(CollapseEntries(sprint, entries))
  {
  }

  // ------------------------------------------------------ big-endian fields

  predicate IsWidth(width: nat) {
    width == 1 || width == 2 || width == 4 || width == 8
  }

  function Pow256(width: nat): (p: nat)
    ensures p > 0
  {
    if width == 0 then 1 else 0x100 * Pow256(width - 1)
  }

  lemma Powers()
    ensures Pow256(1) == 0x100 && Pow256(2) == 0x1_0000
    ensures Pow256(4) == 0x1_0000_0000 && Pow256(8) == 0x1_0000_0000_0000_0000
  {
    assert Pow256(2) == 0x100 * Pow256(1);
    assert Pow256(3) == 0x100 * Pow256(2);
    assert Pow256(4) == 0x100 * Pow256(3);
    assert Pow256(5) == 0x100 * Pow256(4);
    assert Pow256(6) == 0x100 * Pow256(5);
    assert Pow256(7) == 0x100 * Pow256(6);
    assert Pow256(8) == 0x100 * Pow256(7);
  }

  // binary.BigEndian.PutUint16/32/64
  function BigEndian(v: nat, width: nat): (field: Data)
    ensures |field| == width
  {
    if width == 0 then [] else BigEndian(v / 0x100, width - 1) + [v % 0x100]
  }

  function FromBigEndian(field: Data): (v: nat)
  {
    if field == [] then 0
    else
      var low: int := field[|field| - 1];
      0x100 * FromBigEndian(field[..|field| - 1]) + low
  }

  lemma {:induction false} FieldRoundTrip(v: nat, width: nat)
    requires v < Pow256(width)
    ensures FromBigEndian(BigEndian(v, width)) == v
  {
    if width != 0 {
      FieldRoundTrip(v / 0x100, width - 1);
      assert BigEndian(v, width)[..width - 1] == BigEndian(v / 0x100, width - 1);
    }
  }

  lemma {:induction false} FieldBound(field: Data)
    ensures FromBigEndian(field) < Pow256(|field|)
  {
    if field != [] {
      FieldBound(field[..|field| - 1]);
    }
  }

  // ------------------------------------------------ what decoding keeps of a tree

  // Decoders tag every non-negative integer as unsigned.
  function Norm(n: Node): Node
    decreases n
  {
    match n
    case Int(i) => if i >= 0 then UInt(i) else n
    case Arr(items) => Arr(NormItems(items))
    case Map(entries) => Map(NormEntries(entries))
    case _ => n
  }

  function NormItems(items: seq<Node>): (r: seq<Node>)
    ensures |r| == |items|
    decreases items
  {
    if items == [] then [] else [Norm(items[0])] + NormItems(items[1..])
  }

  function NormEntries(entries: seq<Entry>): (r: seq<Entry>)
    ensures |r| == |entries|
    decreases entries
  {
    assert entries != [] ==> (entries decreases to entries[0]);
    if entries == [] then [] else [Entry(Norm(entries[0].key), Norm(entries[0].value))] + NormEntries(entries[1..])
  }

  // The decoders' limits: string length, element counts and nesting.
  predicate Fits(n: Node, depth: nat)
    decreases n
  {
    && depth <= MAX_DEPTH
    && match n
       case Str(text) => |text| <= MAX_STRING_BYTES
       case Arr(items) => |items| <= MAX_ELEMENTS && FitsItems(items, depth + 1)
       case Map(entries) => |entries| <= MAX_ELEMENTS && FitsEntries(entries, depth + 1)
       case _ => true
  }

  predicate FitsItems(items: seq<Node>, depth: nat)
    decreases items
  {
    items == [] || (Fits(items[0], depth) && FitsItems(items[1..], depth))
  }

  predicate FitsEntries(entries: seq<Entry>, depth: nat)
    decreases entries
  {
    assert entries != [] ==> (entries decreases to entries[0]);
    entries == [] || (Fits(entries[0].key, depth) && Fits(entries[0].value, depth) && FitsEntries(entries[1..], depth))
  }

  // A tree an encoder can be given: Go's maps here have string keys, and no
  // string or slice is longer than an int can count.
  predicate GoValue(n: Node)
    decreases n
  {
    match n
    case Bin(bytes) => |bytes| <= MAX_INT
    case Str(text) => |text| <= MAX_INT
    case Arr(items) => |items| <= MAX_INT && GoItems(items)
    case Map(entries) => |entries| <= MAX_INT && GoEntries(entries)
    case _ => true
  }

  predicate GoItems(items: seq<Node>)
    decreases items
  {
    items == [] || (GoValue(items[0]) && GoItems(items[1..]))
  }

  predicate GoEntries(entries: seq<Entry>)
    decreases entries
  {
    assert entries != [] ==> (entries decreases to entries[0]);
    || entries == []
    || (entries[0].key.Str? && GoValue(entries[0].key) && GoValue(entries[0].value) && GoEntries(entries[1..]))
  }

  // Only the types both codecs share: no binary, no float, string map keys.
  predicate Plain(n: Node)
    decreases n
  {
    match n
    case Float(_) => false
    case Bin(_) => false
    case Arr(items) => PlainItems(items)
    case Map(entries) => PlainEntries(entries)
    case _ => true
  }

  predicate PlainItems(items: seq<Node>)
    decreases items
  {
    items == [] || (Plain(items[0]) && PlainItems(items[1..]))
  }

  predicate PlainEntries(entries: seq<Entry>)
    decreases entries
  {
    assert entries != [] ==> (entries decreases to entries[0]);
    entries == [] || (entries[0].key.Str? && Plain(entries[0].value) && PlainEntries(entries[1..]))
  }

  // How many values a tree is made of.
  function Nodes(n: Node): (count: nat)
    ensures count > 0
    decreases n
  {
    match n
    case Arr(items) => 1 + NodesOfItems(items)
    case Map(entries) => 1 + NodesOfEntries(entries)
    case _ => 1
  }

  function NodesOfItems(items: seq<Node>): nat
    decreases items
  {
    if items == [] then 0 else Nodes(items[0]) + NodesOfItems(items[1..])
  }

  function NodesOfEntries(entries: seq<Entry>): nat
    decreases entries
  {
    assert entries != [] ==> (entries decreases to entries[0]);
    if entries == [] then 0 else Nodes(entries[0].key) + Nodes(entries[0].value) + NodesOfEntries(entries[1..])
  }

  // ------------------------------------------- encoding and parsing vocabulary

  // Both parts, or neither when one failed
  function Joined(front: Option<Data>, back: Option<Data>): Option<Data> {
    if front.Some? && back.Some? then Some(front.value + back.value) else None
  }

  lemma JoinedIsAssociative(a: Option<Data>, b: Option<Data>, c: Option<Data>)
    ensures Joined(Joined(a, b), c) == Joined(a, Joined(b, c))
  {
    if a.Some? && b.Some? && c.Some? {
      assert (a.value + b.value) + c.value == a.value + (b.value + c.value);
    }
  }

  datatype Parsed = Bad | Good(node: Node, rest: Data)

  datatype ParsedItems = BadItems | GoodItems(items: seq<Node>, rest: Data)

  datatype ParsedEntries = BadEntries | GoodEntries(entries: seq<Entry>, rest: Data)

  datatype Field = NoField | Field(value: nat, rest: Data)

  // A big-endian field at the front of a payload
  function TakeUnsigned(payload: Data, width: nat): (f: Field)
    ensures f.Field? ==> |f.rest| + width == |payload|
  {
    if |payload| < width then NoField
    else Field(FromBigEndian(payload[..width]), payload[width..])
  }

  // Two's complement at a given width
  function Signed(value: uint64, width: nat): (i: int64)
    requires IsWidth(width)
    requires value < Pow256(width)
  {
    Powers();
    if 2 * value < Pow256(width) then value else value - Pow256(width)
  }

  function TakeString(payload: Data, length: nat): (p: Parsed)
    ensures p.Good? ==> |p.rest| <= |payload| && p.node.Str? && length <= MAX_STRING_BYTES
  {
    if length > MAX_STRING_BYTES || |payload| < length then Bad
    else Good(Str(payload[..length]), payload[length..])
  }

  function TakeUInt(payload: Data, width: nat): (p: Parsed)
    requires IsWidth(width)
    ensures p.Good? ==> |p.rest| <= |payload| && p.node.UInt?
  {
    var f := TakeUnsigned(payload, width);
    if f.NoField? then Bad
    else
      Powers();
      FieldBound(payload[..width]);
      Good(UInt(f.value), f.rest)
  }

  function TakeInt(payload: Data, width: nat): (p: Parsed)
    requires IsWidth(width)
    ensures p.Good? ==> |p.rest| <= |payload| && p.node.Int?
  {
    var f := TakeUnsigned(payload, width);
    if f.NoField? then Bad
    else
      Powers();
      FieldBound(payload[..width]);
      Good(Int(Signed(f.value, width)), f.rest)
  }

  function PrependItems(done: seq<Node>, p: ParsedItems): ParsedItems {
    match p
    case BadItems => BadItems
    case GoodItems(items, rest) => GoodItems(done + items, rest)
  }

  function PrependEntries(done: seq<Entry>, p: ParsedEntries): ParsedEntries {
    match p
    case BadEntries => BadEntries
    case GoodEntries(entries, rest) => GoodEntries(done + entries, rest)
  }

  lemma PowersGrow(a: nat, b: nat)
    requires a <= b
    ensures Pow256(a) <= Pow256(b)
  {
  }

  // 1 << k
  function Width(k: nat): (w: nat)
    requires k < 4
    ensures IsWidth(w)
  {
    if k == 0 then 1 else if k == 1 then 2 else if k == 2 then 4 else 8
  }

  // One more element, seen by a loop that collects and by a parser that recurses.
  lemma ItemCollected(sprint: Value -> Data, done: seq<Node>, item: Node, p: ParsedItems)
    ensures PrependItems(done + [item], p)
         == PrependItems(done, if p.BadItems? then BadItems else GoodItems([item] + p.items, p.rest))
    ensures CollapseItems(sprint, done + [item]) == CollapseItems(sprint, done) + [Collapse(sprint, item)]
  {
    assert (done + [item])[..|done|] == done;
    if p.GoodItems? {
      assert done + ([item] + p.items) == done + [item] + p.items;
    }
  }

  lemma EntryCollected(sprint: Value -> Data, done: seq<Entry>, entry: Entry, p: ParsedEntries)
    ensures PrependEntries(done + [entry], p)
         == PrependEntries(done, if p.BadEntries? then BadEntries else GoodEntries([entry] + p.entries, p.rest))
    ensures CollapseEntries(sprint, done + [entry])
         == CollapseEntries(sprint, done)[sprint(Collapse(sprint, entry.key)) := Collapse(sprint, entry.value)]
  {
    assert (done + [entry])[..|done|] == done;
    if p.GoodEntries? {
      assert done + ([entry] + p.entries) == done + [entry] + p.entries;
    }
  }
}
