/** serve: one fixed-size client message against the area. */
module PropertyServer {
  import opened Bytes
  import opened PropertyTable
  import opened PropertyMap
  import opened PropertyCrash
  import opened PropertyArea

  function NameField(message: Data): Data
    requires |message| == MESSAGE_SIZE
  {
    TrimNul(message[4..4 + NAME_MAX])
  }

  function ValueField(message: Data): Data
    requires |message| == MESSAGE_SIZE
  {
    TrimNul(message[4 + NAME_MAX..])
  }

  // trimNUL
  method Trim(raw: Data) returns (text: Data)
    ensures text == TrimNul(raw) && NulFree(text)
  {
    for i := 0 to |raw|
      invariant forall j :: 0 <= j < i ==> raw[j] != 0
    {
      if raw[i] == 0 {
        return raw[..i];
      }
    }
    return raw;
  }

  // serve: `received` is what io.ReadFull produced, or nothing on a short read.
  // Whatever a client sends and whatever table was adopted, the table stays
  // accepted; a canonical one stays so and moves by one map operation on NUL-free
  // fields.
  method Serve(received: Option<Data>, store: Area)
    requires store.Mapped() && Accepts(store.data[..])
    requires received.Some? ==> |received.value| == MESSAGE_SIZE
    modifies store.data, store`stores
    ensures Accepts(store.data[..])
    ensures received.None? || Word(received.value, 0) != SET_COMMAND ==> store.data[..] == old(store.data[..])
    ensures received.Some? && Word(received.value, 0) == SET_COMMAND ==>
              var name, value := NameField(received.value), ValueField(received.value);
              && store.data[..] == Apply(old(store.data[..]), SetStores(old(store.data[..]), name, value))
              && (old(Canonical(store.data[..])) ==>
                    && Canonical(store.data[..])
                    && Contents(store.data[..]) == MapSet(old(Contents(store.data[..])), name, value))
  {
    if received.None? {
      return;
    }
    var message := received.value;
    var b0: int, b1: int, b2: int, b3: int := message[0], message[1], message[2], message[3];
    var command := b0 + 0x100 * b1 + 0x1_0000 * b2 + 0x100_0000 * b3;
    if command != SET_COMMAND {
      return;
    }
    var name := Trim(message[4..4 + NAME_MAX]);
    var value := Trim(message[4 + NAME_MAX..]);
    ghost var s := store.data[..];
    if Canonical(s) {
      SetRefinesMap(s, name, value);
    }
    var outcome := store.Set(name, value);
  }
}
