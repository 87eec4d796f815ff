/** Typed header insertion: an encoder hands its values over in batches, a decoder reads them back. */
module TypedHeaders {
  import opened Text
  import opened HeaderMaps

  datatype Result<+T> = Ok(value: T) | Invalid

  /** The entry the next value goes to; `Tmp` stands in while it is being moved. */
  datatype Slot = Vacant | Occupied | Latter | Tmp

  class ToValues {
    const headers: HeaderMap
    const name: string
    var slot: Slot

    /** The slot matches the map, and `Tmp` is never left behind. */
    ghost predicate Valid()
      reads this, headers
    {
      headers.Valid() && !slot.Tmp? && (slot.Vacant? <==> name !in headers.entries)
    }

    constructor (headers: HeaderMap, name: string)
      requires headers.Valid()
      ensures Valid() && this.headers == headers && this.name == name && !slot.Latter?
    {
      this.headers, this.name := headers, name;
      slot := if name in headers.entries then Occupied else Vacant;
    }

    /** The values under the name once `batch` has been taken in. */
    ghost function Extended(batch: seq<HeaderValue>): seq<HeaderValue>
      reads this, headers
    {
      if batch == [] then headers.GetAll(name)
      else if slot.Latter? then headers.GetAll(name) + batch
      else batch
    }

    /** The first value replaces what was there, the later ones are appended. */
    method Extend(batch: seq<HeaderValue>)
      requires Valid()
      modifies this`slot, headers
      ensures Valid()
      ensures headers.GetAll(name) == old(Extended(batch))
      ensures slot.Latter? <==> old(slot.Latter?) || batch != []
      ensures headers.entries - {name} == old(headers.entries) - {name}
    {
      for i := 0 to |batch|
        invariant Valid()
        invariant headers.GetAll(name) == old(Extended(batch[..i]))
        invariant slot.Latter? <==> old(slot.Latter?) || i > 0
        invariant headers.entries - {name} == old(headers.entries) - {name}
      {
        var value := batch[i];
        assert batch[..i + 1] == batch[..i] + [value];
        var taken := slot;
        slot := Tmp;
        match taken {
          case Occupied => headers.entries := headers.entries[name := [value]];
          case Vacant => headers.entries := headers.entries[name := [value]];
          case Latter => headers.entries := headers.entries[name := headers.entries[name] + [value]];
          case Tmp => assert false;
        }
        slot := Latter;
      }
      assert batch[..|batch|] == batch;
    }
  }

  function Batch<T>(values: seq<T>): seq<T> { values }

  /** All values of all batches. */
  function Flatten<T>(batches: seq<seq<T>>): seq<T> {
    FlatMap(Batch, batches)
  }

  /** What a name holds after `emitted` has been inserted over `before`. */
  function Inserted(before: seq<HeaderValue>, emitted: seq<HeaderValue>): seq<HeaderValue> {
    if emitted == [] then before else emitted
  }

  /**
   `typed_insert` with an encoder that calls `extend` once per batch: only the sequence it emits
   matters, not its split into batches, and no other name is touched.
   */
  method TypedInsert(headers: HeaderMap, name: string, batches: seq<seq<HeaderValue>>)
    requires headers.Valid()
    modifies headers
    ensures headers.Valid()
    ensures headers.GetAll(name) == Inserted(old(headers.GetAll(name)), Flatten(batches))
    ensures headers.entries - {name} == old(headers.entries) - {name}
  {
    var values := new ToValues(headers, name);
    for i := 0 to |batches|
      invariant values.Valid() && values.headers == headers && values.name == name
      invariant headers.GetAll(name) == Inserted(old(headers.GetAll(name)), Flatten(batches[..i]))
      invariant values.slot.Latter? <==> Flatten(batches[..i]) != []
      invariant headers.entries - {name} == old(headers.entries) - {name}
    {
      FlattenSnoc(batches, i);
      values.Extend(batches[i]);
    }
    assert batches[..|batches|] == batches;
  }

  lemma FlattenSnoc<T>(batches: seq<seq<T>>, i: nat)
    requires i < |batches|
    ensures Flatten(batches[..i + 1]) == Flatten(batches[..i]) + batches[i]
  {
    FlatMapConcat(Batch, batches[..i], [batches[i]]);
    assert batches[..i + 1] == batches[..i] + [batches[i]];
    FlatMapOne(Batch, batches[i]);
  }

  /** Reading a typed header: no value is no header, else the decoder decides. */
  function TryGet<H>(values: seq<HeaderValue>, decode: seq<HeaderValue> -> Result<H>): Result<Option<H>> {
    if values == [] then Ok(None)
    else
      match decode(values)
      case Ok(h) => Ok(Some(h))
      case Invalid => Invalid
  }

  method TypedTryGet<H>(headers: HeaderMap, name: string, decode: seq<HeaderValue> -> Result<H>)
    returns (r: Result<Option<H>>)
    ensures r == TryGet(headers.GetAll(name), decode)
    ensures r == Ok(None) <==> headers.GetAll(name) == []
    ensures r == Invalid <==> headers.GetAll(name) != [] && decode(headers.GetAll(name)) == Invalid
    ensures r.Ok? && r.value.Some? ==> decode(headers.GetAll(name)) == Ok(r.value.value)
  {
    var values := headers.GetAll(name);
    if values == [] {
      return Ok(None);
    }
    var h := decode(values);
    return match h case Ok(x) => Ok(Some(x)) case Invalid => Invalid;
  }

  /** An inserted header is read back whenever its encoding is not empty and decodes to it, however it was batched. */
  method InsertThenGet<H>(headers: HeaderMap, name: string, h: H, encode: H -> seq<seq<HeaderValue>>,
                          decode: seq<HeaderValue> -> Result<H>) returns (r: Result<Option<H>>)
    requires headers.Valid()
    modifies headers
    ensures Flatten(encode(h)) != [] ==> (r == Ok(Some(h)) <==> decode(Flatten(encode(h))) == Ok(h))
    ensures Flatten(encode(h)) != [] ==> (r == Invalid <==> decode(Flatten(encode(h))) == Invalid)
    ensures Flatten(encode(h)) == [] ==> r == TryGet(old(headers.GetAll(name)), decode)
  {
    TypedInsert(headers, name, encode(h));
    r := TypedTryGet(headers, name, decode);
  }

  // ---------- encoding to one value ----------

  class ExtendOnce {
    var held: Option<HeaderValue>

    constructor ()
      ensures held.None?
    {
      held := None;
    }

    /** Each call overwrites what an earlier one left. */
    method Extend(batch: seq<HeaderValue>)
      modifies this
      ensures held == if batch == [] then None else Some(batch[0])
    {
      held := if batch == [] then None else Some(batch[0]);
    }
  }

  /** `encode_to_value`; None is the panic of its final unwrap. */
  method EncodeToValue(batches: seq<seq<HeaderValue>>) returns (r: Option<HeaderValue>)
    ensures r == OnlyValue(batches)
  {
    var container := new ExtendOnce();
    for i := 0 to |batches|
      invariant container.held == OnlyValue(batches[..i])
    {
      container.Extend(batches[i]);
    }
    assert batches[..|batches|] == batches;
    r := container.held;
  }

  /** The first value of the last call. */
  function OnlyValue(batches: seq<seq<HeaderValue>>): Option<HeaderValue> {
    if batches == [] || batches[|batches| - 1] == [] then None else Some(batches[|batches| - 1][0])
  }

  /** The first call that emits something. */
  function FirstFilled(batches: seq<seq<HeaderValue>>): (k: nat)
    requires Flatten(batches) != []
    ensures k < |batches| && batches[k] != [] && forall i :: 0 <= i < k ==> batches[i] == []
  {
    if batches[0] != [] then 0 else 1 + FirstFilled(batches[1..])
  }

  lemma {:induction false} FirstInserted(batches: seq<seq<HeaderValue>>)
    requires Flatten(batches) != []
    ensures Flatten(batches)[0] == batches[FirstFilled(batches)][0]
  {
    if batches[0] == [] {
      FirstInserted(batches[1..]);
      assert Flatten(batches) == Flatten(batches[1..]);
    }
  }

  /**
   For every encoder that emits something: the single value is the first inserted one exactly when the
   last call emits something and starts like the first call that does; it is a panic exactly when the
   last call emits nothing. One call, if it emits anything, is always right.
   */
  lemma OnlyValueExact(batches: seq<seq<HeaderValue>>)
    requires Flatten(batches) != []
    ensures var last := batches[|batches| - 1];
            && (OnlyValue(batches) == Some(Flatten(batches)[0])
                <==> last != [] && last[0] == batches[FirstFilled(batches)][0])
            && (OnlyValue(batches).None? <==> last == [])
            && (FirstFilled(batches) == |batches| - 1 ==> OnlyValue(batches) == Some(Flatten(batches)[0]))
  {
    FirstInserted(batches);
  }

  /** Two calls: the second one decides, even by emitting nothing. */
  lemma OnlyValueDiffers()
    ensures Flatten([["a"], ["b"]]) == ["a", "b"] && OnlyValue([["a"], ["b"]]) == Some("b")
    ensures Flatten([["a"], []]) == ["a"] && OnlyValue([["a"], []]) == None
  {
    assert Flatten([["a"], ["b"]]) == ["a"] + Flatten([["b"]]);
    assert Flatten([["b"]]) == ["b"] + Flatten([]);
    var bs: seq<seq<HeaderValue>> := [["a"], []];
    assert bs[1..] == [[]] && Flatten(bs) == ["a"] + Flatten(bs[1..]);
    assert Flatten(bs[1..]) == [] + Flatten(bs[1..][1..]);
  }
}
