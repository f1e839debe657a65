/** TLObjectBase.WriteToStream: the constructor id, then the parameters in schema order.
    The `flags` parameter is skipped and its word is never written, although the flag
    bits are collected; a `true` parameter writes nothing; a nested entity outside a
    vector is not written at all. */
module TLWrite {
  import opened Wrappers
  import opened Bytes
  import opened TLWire
  import opened TLValues
  import TLSchema

  /** The parameters the writer and the reader walk: all but the first when it is `flags`. */
  function Walked(ps: seq<TLSchema.Param>): seq<TLSchema.Param>
    requires ps != []
  {
    if ps[0].name == "flags" then ps[1..] else ps
  }

  function WriteObject(parse: TLSchema.Parser, o: TLObject): Result<seq<byte>>
    decreases o, 2
  {
    var s :- parse(o.schema);
    if s.params == [] then Err(EmptySequence)
    else WriteFrom(parse, o, Walked(s.params), s.params[0].name == "flags", EncodeU32(s.id))
  }

  /** The loop over the parameters, with the bytes written so far. */
  function WriteFrom(parse: TLSchema.Parser, o: TLObject, ps: seq<TLSchema.Param>, hasFlags: bool, acc: seq<byte>): Result<seq<byte>>
    decreases o, 1, |ps|
  {
    if ps == [] then Ok(acc)
    else
      var b :- ParamBytes(parse, o, ps[0], hasFlags);
      WriteFrom(parse, o, ps[1..], hasFlags, acc + b)
  }

  /** One parameter: its flag bit is parsed when the type is flagged, then the switch. */
  function ParamBytes(parse: TLSchema.Parser, o: TLObject, p: TLSchema.Param, hasFlags: bool): Result<seq<byte>>
    decreases o, 0
  {
    var k := KindOf(ParType(p, hasFlags));
    var _ :- if IsFlagged(p) then FlagIndex(p) else Ok(-1);
    if p.name in o.fields then ValueBytes(parse, k, o.fields[p.name]) else NullBytes(k)
  }

  /** A null property: GetProp of a value type fails on it; the reference types are
      skipped. */
  function NullBytes(k: Kind): Result<seq<byte>>
  {
    match k
    case KInt => Err(NullValue)
    case KLong => Err(NullValue)
    case KDouble => Err(NullValue)
    case KBool => Err(NullValue)
    case KDate => Err(NullValue)
    case _ => Ok([])
  }

  /** A non-null property, by the kind of its parameter. */
  function ValueBytes(parse: TLSchema.Parser, k: Kind, v: Value): Result<seq<byte>>
    decreases v, 1
  {
    match k
    case KTrue => Ok([])
    case KInt => if v.IntV? then Ok(EncodeI32(v.i)) else Err(InvalidCast)
    case KLong => if v.LongV? then Ok(EncodeI64(v.l)) else Err(InvalidCast)
    case KDouble => if v.DoubleV? then Ok(EncodeI64(v.bits)) else Err(InvalidCast)
    case KBool => if v.BoolV? then Ok(EncodeBool(v.b)) else Err(InvalidCast)
    case KDate => if v.DateV? then Ok(EncodeI32(v.seconds)) else Err(InvalidCast)
    case KInt128 => if v.BytesV? then Ok(v.bytes) else Err(InvalidCast)
    case KInt256 => if v.BytesV? then Ok(v.bytes) else Err(InvalidCast)
    case KBytes => if v.BytesV? then Ok(EncodeBytes(v.bytes)) else Err(InvalidCast)
    case KString => if v.StrV? then Ok(EncodeBytes(v.utf8)) else Err(InvalidCast)
    case KVector =>
      if v.ListV? && v.kind == ObjectItem then
        WriteItems(parse, v, 0, EncodeU32(VECTOR_MARKER) + LE(|v.items|, 4))
      else Err(InvalidCast)
    case KFlagsWord => Ok([])
    case KOther => Ok([])
  }

  /** writeVector's loop: every entity of the list, each by WriteToStream. */
  function WriteItems(parse: TLSchema.Parser, v: Value, i: nat, acc: seq<byte>): Result<seq<byte>>
    requires v.ListV? && i <= |v.items|
    decreases v, 0, |v.items| - i
  {
    if i == |v.items| then Ok(acc)
    else if v.items[i].ObjectV? then
      var e :- WriteObject(parse, v.items[i].obj);
      WriteItems(parse, v, i + 1, acc + e)
    else Err(InvalidCast)
  }

  lemma AppendAssoc(a: seq<byte>, b: seq<byte>, c: seq<byte>)
    ensures (a + b) + c == a + (b + c)
  {
  }

  /** The bytes already written only prefix the rest. */
  lemma {:induction false} WriteFromAcc(parse: TLSchema.Parser, o: TLObject, ps: seq<TLSchema.Param>, hasFlags: bool, acc: seq<byte>)
    ensures WriteFrom(parse, o, ps, hasFlags, acc).Ok? == WriteFrom(parse, o, ps, hasFlags, []).Ok?
    ensures WriteFrom(parse, o, ps, hasFlags, acc).Ok? ==>
      WriteFrom(parse, o, ps, hasFlags, acc).value == acc + WriteFrom(parse, o, ps, hasFlags, []).value
    ensures WriteFrom(parse, o, ps, hasFlags, acc).Err? ==>
      WriteFrom(parse, o, ps, hasFlags, acc).error == WriteFrom(parse, o, ps, hasFlags, []).error
    decreases |ps|
  {
    if ps != [] && ParamBytes(parse, o, ps[0], hasFlags).Ok? {
      var b := ParamBytes(parse, o, ps[0], hasFlags).value;
      WriteFromAcc(parse, o, ps[1..], hasFlags, acc + b);
      WriteFromAcc(parse, o, ps[1..], hasFlags, [] + b);
      assert [] + b == b;
      if WriteFrom(parse, o, ps[1..], hasFlags, []).Ok? {
        AppendAssoc(acc, b, WriteFrom(parse, o, ps[1..], hasFlags, []).value);
      }
    }
  }

  lemma {:induction false} WriteItemsAcc(parse: TLSchema.Parser, v: Value, i: nat, acc: seq<byte>)
    requires v.ListV? && i <= |v.items|
    ensures WriteItems(parse, v, i, acc).Ok? == WriteItems(parse, v, i, []).Ok?
    ensures WriteItems(parse, v, i, acc).Ok? ==> WriteItems(parse, v, i, acc).value == acc + WriteItems(parse, v, i, []).value
    ensures WriteItems(parse, v, i, acc).Err? ==> WriteItems(parse, v, i, acc).error == WriteItems(parse, v, i, []).error
    decreases |v.items| - i
  {
    if i < |v.items| && v.items[i].ObjectV? && WriteObject(parse, v.items[i].obj).Ok? {
      var e := WriteObject(parse, v.items[i].obj).value;
      WriteItemsAcc(parse, v, i + 1, acc + e);
      WriteItemsAcc(parse, v, i + 1, [] + e);
      assert [] + e == e;
      if WriteItems(parse, v, i + 1, []).Ok? {
        AppendAssoc(acc, e, WriteItems(parse, v, i + 1, []).value);
      }
    }
  }

  // ---- What is written before a failure ----

  /** The bytes WriteToStream has appended when it returns: the whole encoding when it
      succeeds, and the bytes before the exception when it fails. The id is written before
      `params.First()` is taken; a failing cast or flag index writes nothing of its
      parameter. */
  function Emitted(parse: TLSchema.Parser, o: TLObject): seq<byte>
    decreases o, 2
  {
    match parse(o.schema)
    case Err(_) => []
    case Ok(s) =>
      EncodeU32(s.id) + (if s.params == [] then [] else EmittedFrom(parse, o, Walked(s.params), s.params[0].name == "flags"))
  }

  /** The parameters' loop, up to and including the part of the parameter that fails. */
  function EmittedFrom(parse: TLSchema.Parser, o: TLObject, ps: seq<TLSchema.Param>, hasFlags: bool): seq<byte>
    decreases o, 1, |ps|
  {
    if ps == [] then []
    else if ParamBytes(parse, o, ps[0], hasFlags).Ok? then
      ParamBytes(parse, o, ps[0], hasFlags).value + EmittedFrom(parse, o, ps[1..], hasFlags)
    else ParamEmitted(parse, o, ps[0], hasFlags)
  }

  /** One parameter: nothing when its flag index or its property fails, else its value. */
  function ParamEmitted(parse: TLSchema.Parser, o: TLObject, p: TLSchema.Param, hasFlags: bool): seq<byte>
    decreases o, 0
  {
    if IsFlagged(p) && FlagIndex(p).Err? then []
    else if p.name !in o.fields then []
    else ValueEmitted(parse, KindOf(ParType(p, hasFlags)), o.fields[p.name])
  }

  /** A vector of entities writes its marker, its count and its entities one by one; any
      other value is written in one call, or not at all. */
  function ValueEmitted(parse: TLSchema.Parser, k: Kind, v: Value): seq<byte>
    decreases v, 1
  {
    if k == KVector && v.ListV? && v.kind == ObjectItem then
      EncodeU32(VECTOR_MARKER) + LE(|v.items|, 4) + ItemsEmitted(parse, v, 0)
    else if ValueBytes(parse, k, v).Ok? then ValueBytes(parse, k, v).value
    else []
  }

  /** writeVector's loop from item `i`, up to the part of the entity that fails. */
  function ItemsEmitted(parse: TLSchema.Parser, v: Value, i: nat): seq<byte>
    requires v.ListV? && i <= |v.items|
    decreases v, 0, |v.items| - i
  {
    if i == |v.items| || !v.items[i].ObjectV? then []
    else if WriteObject(parse, v.items[i].obj).Ok? then
      WriteObject(parse, v.items[i].obj).value + ItemsEmitted(parse, v, i + 1)
    else Emitted(parse, v.items[i].obj)
  }

  /** When the writer succeeds, what it appended is the encoding. */
  lemma {:induction false} EmittedWhole(parse: TLSchema.Parser, o: TLObject)
    requires WriteObject(parse, o).Ok?
    ensures Emitted(parse, o) == WriteObject(parse, o).value
    decreases o, 2
  {
    var s := parse(o.schema).value;
    var hasFlags := s.params[0].name == "flags";
    WriteFromAcc(parse, o, Walked(s.params), hasFlags, EncodeU32(s.id));
    EmittedFromWhole(parse, o, Walked(s.params), hasFlags);
  }

  lemma {:induction false} EmittedFromWhole(parse: TLSchema.Parser, o: TLObject, ps: seq<TLSchema.Param>, hasFlags: bool)
    requires WriteFrom(parse, o, ps, hasFlags, []).Ok?
    ensures EmittedFrom(parse, o, ps, hasFlags) == WriteFrom(parse, o, ps, hasFlags, []).value
    decreases o, 1, |ps|
  {
    if ps != [] {
      var b := ParamBytes(parse, o, ps[0], hasFlags).value;
      assert [] + b == b;
      if ps[0].name in o.fields {
        ValueEmittedWhole(parse, KindOf(ParType(ps[0], hasFlags)), o.fields[ps[0].name]);
      }
      WriteFromAcc(parse, o, ps[1..], hasFlags, b);
      EmittedFromWhole(parse, o, ps[1..], hasFlags);
    }
  }

  lemma {:induction false} ValueEmittedWhole(parse: TLSchema.Parser, k: Kind, v: Value)
    requires ValueBytes(parse, k, v).Ok?
    ensures ValueEmitted(parse, k, v) == ValueBytes(parse, k, v).value
    decreases v, 1
  {
    if k == KVector && v.ListV? && v.kind == ObjectItem {
      var head := EncodeU32(VECTOR_MARKER) + LE(|v.items|, 4);
      WriteItemsAcc(parse, v, 0, head);
      ItemsEmittedWhole(parse, v, 0);
    }
  }

  lemma {:induction false} ItemsEmittedWhole(parse: TLSchema.Parser, v: Value, i: nat)
    requires v.ListV? && i <= |v.items|
    requires WriteItems(parse, v, i, []).Ok?
    ensures ItemsEmitted(parse, v, i) == WriteItems(parse, v, i, []).value
    decreases v, 0, |v.items| - i
  {
    if i < |v.items| {
      var e := WriteObject(parse, v.items[i].obj).value;
      assert [] + e == e;
      EmittedWhole(parse, v.items[i].obj);
      WriteItemsAcc(parse, v, i + 1, e);
      ItemsEmittedWhole(parse, v, i + 1);
    }
  }

  // ---- The methods ----

  /** WriteToStream. What is appended to the writer is the encoding; when it fails, it is
      what was written before the exception. */
  method WriteToStream(cache: TLSchema.SchemaCache, w: Writer, o: TLObject) returns (r: Result<()>)
    requires cache.Valid()
    modifies cache, w
    ensures cache.Valid()
    ensures r.Ok? <==> WriteObject(cache.parse, o).Ok?
    ensures r.Ok? ==> w.out == old(w.out) + WriteObject(cache.parse, o).value
    ensures r.Err? ==> r.error == WriteObject(cache.parse, o).error
    ensures r.Err? ==> w.out == old(w.out) + Emitted(cache.parse, o)
    decreases o, 2
  {
    var t := cache.Parse(o.schema);
    if t.Err? {
      return Err(t.error);
    }
    var s := t.value;
    w.Write(EncodeU32(s.id));
    if s.params == [] {
      assert EncodeU32(s.id) + [] == EncodeU32(s.id);
      return Err(EmptySequence);
    }
    var hasFlags := s.params[0].name == "flags";
    r := WriteParams(cache, w, o, Walked(s.params), hasFlags);
    WriteFromAcc(cache.parse, o, Walked(s.params), hasFlags, EncodeU32(s.id));
    if r.Ok? {
      AppendAssoc(old(w.out), EncodeU32(s.id), WriteFrom(cache.parse, o, Walked(s.params), hasFlags, []).value);
    } else {
      AppendAssoc(old(w.out), EncodeU32(s.id), EmittedFrom(cache.parse, o, Walked(s.params), hasFlags));
    }
  }

  /** The loop over the parameters. */
  method WriteParams(cache: TLSchema.SchemaCache, w: Writer, o: TLObject, ps: seq<TLSchema.Param>, hasFlags: bool)
    returns (r: Result<()>)
    requires cache.Valid()
    modifies cache, w
    ensures cache.Valid()
    ensures r.Ok? <==> WriteFrom(cache.parse, o, ps, hasFlags, []).Ok?
    ensures r.Ok? ==> w.out == old(w.out) + WriteFrom(cache.parse, o, ps, hasFlags, []).value
    ensures r.Err? ==> r.error == WriteFrom(cache.parse, o, ps, hasFlags, []).error
    ensures r.Err? ==> w.out == old(w.out) + EmittedFrom(cache.parse, o, ps, hasFlags)
    decreases o, 1
  {
    var rest := ps;
    ghost var written: seq<byte> := [];
    assert [] + EmittedFrom(cache.parse, o, ps, hasFlags) == EmittedFrom(cache.parse, o, ps, hasFlags);
    while rest != []
      invariant cache.Valid()
      invariant w.out == old(w.out) + written
      invariant WriteFrom(cache.parse, o, ps, hasFlags, []) == WriteFrom(cache.parse, o, rest, hasFlags, written)
      invariant EmittedFrom(cache.parse, o, ps, hasFlags) == written + EmittedFrom(cache.parse, o, rest, hasFlags)
    {
      var b := ParamToStream(cache, w, o, rest[0], hasFlags);
      if b.Err? {
        AppendAssoc(old(w.out), written, ParamEmitted(cache.parse, o, rest[0], hasFlags));
        return Err(b.error);
      }
      AppendAssoc(old(w.out), written, b.value);
      AppendAssoc(written, b.value, EmittedFrom(cache.parse, o, rest[1..], hasFlags));
      written := written + b.value;
      rest := rest[1..];
    }
    return Ok(());
  }

  /** The switch on one parameter; the bytes it wrote are returned as well. */
  method ParamToStream(cache: TLSchema.SchemaCache, w: Writer, o: TLObject, p: TLSchema.Param, hasFlags: bool)
    returns (r: Result<seq<byte>>)
    requires cache.Valid()
    modifies cache, w
    ensures cache.Valid()
    ensures r == ParamBytes(cache.parse, o, p, hasFlags)
    ensures r.Ok? ==> w.out == old(w.out) + r.value
    ensures r.Err? ==> w.out == old(w.out) + ParamEmitted(cache.parse, o, p, hasFlags)
    decreases o, 0
  {
    var k := KindOf(ParType(p, hasFlags));
    if IsFlagged(p) {
      var _ :- FlagIndex(p);
    }
    if p.name !in o.fields {
      assert old(w.out) + [] == w.out;
      return NullBytes(k);
    }
    r := ValueToStream(cache, w, k, o.fields[p.name]);
  }

  /** The switch on the kind of a non-null property. */
  method ValueToStream(cache: TLSchema.SchemaCache, w: Writer, k: Kind, v: Value) returns (r: Result<seq<byte>>)
    requires cache.Valid()
    modifies cache, w
    ensures cache.Valid()
    ensures r == ValueBytes(cache.parse, k, v)
    ensures r.Ok? ==> w.out == old(w.out) + r.value
    ensures r.Err? ==> w.out == old(w.out) + ValueEmitted(cache.parse, k, v)
    decreases v, 2
  {
    if k == KVector && v.ListV? && v.kind == ObjectItem {
      r := WriteVector(cache, w, v);
      if r.Err? {
      }
    } else {
      r := ValueBytes(cache.parse, k, v);
      if r.Ok? {
        w.Write(r.value);
      } else {
        assert old(w.out) + [] == w.out;
      }
    }
  }

  /** writeVector: the marker, the count, then every entity. */
  method WriteVector(cache: TLSchema.SchemaCache, w: Writer, v: Value) returns (r: Result<seq<byte>>)
    requires v.ListV? && v.kind == ObjectItem && cache.Valid()
    modifies cache, w
    ensures cache.Valid()
    ensures r == WriteItems(cache.parse, v, 0, EncodeU32(VECTOR_MARKER) + LE(|v.items|, 4))
    ensures r.Ok? ==> w.out == old(w.out) + r.value
    ensures r.Err? ==> w.out == old(w.out) + (EncodeU32(VECTOR_MARKER) + LE(|v.items|, 4) + ItemsEmitted(cache.parse, v, 0))
    decreases v, 1
  {
    var head := EncodeU32(VECTOR_MARKER) + LE(|v.items|, 4);
    ghost var emitted := head + ItemsEmitted(cache.parse, v, 0);
    w.Write(head);
    var written := head;
    var i := 0;
    while i < |v.items|
      invariant 0 <= i <= |v.items| && cache.Valid()
      invariant w.out == old(w.out) + written
      invariant WriteItems(cache.parse, v, 0, head) == WriteItems(cache.parse, v, i, written)
      invariant emitted == written + ItemsEmitted(cache.parse, v, i)
    {
      var item := v.items[i];
      if !item.ObjectV? {
        assert emitted == written + [];
        return Err(InvalidCast);
      }
      var e := WriteToStream(cache, w, item.obj);
      var enc := WriteObject(cache.parse, item.obj);
      if e.Err? {
        assert emitted == written + Emitted(cache.parse, item.obj);
        AppendAssoc(old(w.out), written, Emitted(cache.parse, item.obj));
        return Err(e.error);
      }
      assert emitted == written + (enc.value + ItemsEmitted(cache.parse, v, i + 1));
      AppendAssoc(old(w.out), written, enc.value);
      AppendAssoc(written, enc.value, ItemsEmitted(cache.parse, v, i + 1));
      written := written + enc.value;
      i := i + 1;
    }
    return Ok(written);
  }
}
