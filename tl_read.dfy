/** TLObjectBase.ReadFromStream and ReadGeneric: the constructor id is checked, the
    flags word read when the first parameter is `flags`, and the remaining parameters
    are read in schema order into the entity's properties. A flagged parameter whose
    bit is clear is skipped, a `true` parameter is set without reading anything, and a
    nested entity outside a vector is not readable. */
module TLRead {
  import opened Wrappers
  import opened Bytes
  import opened Text
  import opened TLWire
  import opened TLValues
  import TLSchema
  import TLWrite

  /** ReadFromStream on an entity with schema line `schema` and properties `fields`:
      the new properties and the position after the entity. */
  function ReadObject(parse: TLSchema.Parser, schema: string, fields: map<string, Value>, data: seq<byte>, pos: nat)
    : (r: Result<(map<string, Value>, nat)>)
    requires pos <= |data|
    ensures r.Ok? ==> pos < r.value.1 <= |data|
  {
    var s :- parse(schema);
    var id :- ReadU32(data, pos);
    if id.0 != s.id then Err(ConstructorMismatch)
    else if s.params == [] then Err(EmptySequence)
    else
      var hasFlags := s.params[0].name == "flags";
      var fl :- if hasFlags then ReadI32(data, id.1) else Ok((0, id.1));
      ReadFrom(TLWrite.Walked(s.params), hasFlags, fl.0, fields, data, fl.1)
  }

  /** The loop over the parameters. */
  function ReadFrom(ps: seq<TLSchema.Param>, hasFlags: bool, flags: int32, fields: map<string, Value>,
                    data: seq<byte>, pos: nat): (r: Result<(map<string, Value>, nat)>)
    requires pos <= |data|
    ensures r.Ok? ==> pos <= r.value.1 <= |data|
    decreases |ps|
  {
    if ps == [] then Ok((fields, pos))
    else
      var st :- ReadParam(ps[0], hasFlags, flags, fields, data, pos);
      ReadFrom(ps[1..], hasFlags, flags, st.0, data, st.1)
  }

  /** One parameter: the flag bit is parsed for a flagged type, a clear bit skips it. */
  function ReadParam(p: TLSchema.Param, hasFlags: bool, flags: int32, fields: map<string, Value>,
                     data: seq<byte>, pos: nat): (r: Result<(map<string, Value>, nat)>)
    requires pos <= |data|
    ensures r.Ok? ==> pos <= r.value.1 <= |data|
  {
    var pt := ParType(p, hasFlags);
    var flagged := IsFlagged(p);
    var idx :- if flagged then FlagIndex(p) else Ok(-1);
    if flagged && !FlagSet(flags, idx) then Ok((fields, pos))
    else if KindOf(pt) == KTrue then Ok((fields[p.name := BoolV(true)], pos))
    else
      var rv :- ReadValue(pt, data, pos);
      Ok((fields[p.name := rv.0], rv.1))
  }

  /** The switch on the parameter type. `int128` and `int256` take as many of their 16
      or 32 bytes as the stream still has. */
  function ReadValue(pt: string, data: seq<byte>, pos: nat): (r: Result<(Value, nat)>)
    requires pos <= |data|
    ensures r.Ok? ==> pos <= r.value.1 <= |data|
  {
    match KindOf(pt)
    case KInt => var x :- ReadI32(data, pos); Ok((IntV(x.0), x.1))
    case KLong => var x :- ReadI64(data, pos); Ok((LongV(x.0), x.1))
    case KDouble => var x :- ReadI64(data, pos); Ok((DoubleV(x.0), x.1))
    case KBool => var x :- ReadU32(data, pos); Ok((BoolV(DecodeBool(x.0)), x.1))
    case KDate => var x :- ReadI32(data, pos); Ok((DateV(x.0), x.1))
    case KInt128 => var b := ReadAvailable(data, pos, 16); Ok((BytesV(b.0), b.1))
    case KInt256 => var b := ReadAvailable(data, pos, 32); Ok((BytesV(b.0), b.1))
    case KBytes => var b :- ParseBytes(data, pos); Ok((BytesV(b.0), b.1))
    case KString => var b :- ParseBytes(data, pos); Ok((StrV(b.0, Utf16Length(b.0)), b.1))
    case KVector => ReadVector(ItemKindOf(pt), StartsWith(pt, "vector"), data, pos)
    case _ => Err(NotParsed)
  }

  /** readVector: the marker unless bare, the count, then the items; a negative count
      reads none. */
  function ReadVector(item: ItemKind, bare: bool, data: seq<byte>, pos: nat): (r: Result<(Value, nat)>)
    requires pos <= |data|
    ensures r.Ok? ==> pos <= r.value.1 <= |data|
  {
    var p1 :- if bare then Ok(pos)
      else (var m :- ReadU32(data, pos); if m.0 != VECTOR_MARKER then Err(BadVectorMarker) else Ok(m.1));
    var c :- ReadI32(data, p1);
    var items :- ReadItems(item, if c.0 < 0 then 0 else c.0, data, c.1, []);
    Ok((ListV(item, items.0), items.1))
  }

  function ReadItems(item: ItemKind, n: nat, data: seq<byte>, pos: nat, acc: seq<Value>)
    : (r: Result<(seq<Value>, nat)>)
    requires pos <= |data|
    ensures r.Ok? ==> pos <= r.value.1 <= |data|
    decreases n
  {
    if n == 0 then Ok((acc, pos))
    else
      var x :- ReadItem(item, data, pos);
      ReadItems(item, n - 1, data, x.1, acc + [x.0])
  }

  /** One list item: ints, longs, byte arrays and strings are read; an item of any other
      type cannot be created (an abstract entity class, or a value type that is not an
      entity). */
  function ReadItem(item: ItemKind, data: seq<byte>, pos: nat): (r: Result<(Value, nat)>)
    requires pos <= |data|
    ensures r.Ok? ==> pos < r.value.1 <= |data|
  {
    match item
    case IntItem => var x :- ReadI32(data, pos); Ok((IntV(x.0), x.1))
    case LongItem => var x :- ReadI64(data, pos); Ok((LongV(x.0), x.1))
    case BytesItem => var b :- ParseBytes(data, pos); Ok((BytesV(b.0), b.1))
    case StringItem => var b :- ParseBytes(data, pos); Ok((StrV(b.0, Utf16Length(b.0)), b.1))
    case _ => Err(CannotInstantiate)
  }

  /** ReadGeneric over the generated dispatch table: the constructor id is peeked and
      the position restored, then the matching entity, created with its initial
      properties, reads itself. */
  function ReadGenericSpec(parse: TLSchema.Parser, ctrs: map<int32, (string, map<string, Value>)>, data: seq<byte>, pos: nat)
    : (r: Result<(TLObject, nat)>)
    requires pos <= |data|
  {
    var c :- ReadI32(data, pos);
    if c.0 !in ctrs then Err(NoMatchingConstructor)
    else
      var st :- ReadObject(parse, ctrs[c.0].0, ctrs[c.0].1, data, pos);
      Ok((TLObject(ctrs[c.0].0, st.0), st.1))
  }

  // ---- The entity and its methods ----

  /** A generated entity instance: its schema line and its mutable properties. */
  class Entity {
    const schema: string
    var fields: map<string, Value>

    constructor (schema: string, fields: map<string, Value>)
      ensures this.schema == schema && this.fields == fields
    {
      this.schema := schema;
      this.fields := fields;
    }

    function Snapshot(): TLObject
      reads this
    {
      TLObject(schema, fields)
    }

    /** ReadFromStream. On failure the properties set before it are not described. */
    method ReadFromStream(cache: TLSchema.SchemaCache, r: Reader) returns (res: Result<()>)
      requires cache.Valid() && r.Valid()
      modifies this, cache, r
      ensures cache.Valid() && r.Valid()
      ensures var spec := ReadObject(cache.parse, schema, old(fields), r.data, old(r.pos));
        && (res.Ok? <==> spec.Ok?)
        && (spec.Ok? ==> fields == spec.value.0 && r.pos == spec.value.1)
        && (spec.Err? ==> res.error == spec.error)
    {
      var t := cache.Parse(schema);
      if t.Err? {
        return Err(t.error);
      }
      var s := t.value;
      var id :- r.ReadUInt32();
      if id != s.id {
        return Err(ConstructorMismatch);
      }
      if s.params == [] {
        return Err(EmptySequence);
      }
      var hasFlags := s.params[0].name == "flags";
      var flags: int32 := 0;
      if hasFlags {
        flags :- r.ReadInt32();
      }
      res := ReadParams(r, TLWrite.Walked(s.params), hasFlags, flags);
    }

    /** The loop over the parameters. */
    method ReadParams(r: Reader, ps: seq<TLSchema.Param>, hasFlags: bool, flags: int32) returns (res: Result<()>)
      requires r.Valid()
      modifies this, r
      ensures r.Valid()
      ensures var spec := ReadFrom(ps, hasFlags, flags, old(fields), r.data, old(r.pos));
        && (res.Ok? <==> spec.Ok?)
        && (spec.Ok? ==> fields == spec.value.0 && r.pos == spec.value.1)
        && (spec.Err? ==> res.error == spec.error)
    {
      var rest := ps;
      while rest != []
        invariant r.Valid()
        invariant ReadFrom(ps, hasFlags, flags, old(fields), r.data, old(r.pos))
               == ReadFrom(rest, hasFlags, flags, fields, r.data, r.pos)
      {
        var p := rest[0];
        var pt := ParType(p, hasFlags);
        var flagged := IsFlagged(p);
        var idx: int32 := -1;
        if flagged {
          idx :- FlagIndex(p);
        }
        if flagged && !FlagSet(flags, idx) {
        } else if KindOf(pt) == KTrue {
          fields := fields[p.name := BoolV(true)];
        } else {
          var v :- ReadPropertyValue(r, pt);
          fields := fields[p.name := v];
        }
        rest := rest[1..];
      }
      return Ok(());
    }
  }

  /** The switch on the parameter type, on a reader. */
  method ReadPropertyValue(r: Reader, pt: string) returns (res: Result<Value>)
    requires r.Valid()
    modifies r
    ensures r.Valid() && r.Agrees(res, ReadValue(pt, r.data, old(r.pos)))
  {
    match KindOf(pt)
    case KInt => var x :- r.ReadInt32(); res := Ok(IntV(x));
    case KLong => var x :- r.ReadInt64(); res := Ok(LongV(x));
    case KDouble => var x :- r.ReadInt64(); res := Ok(DoubleV(x));
    case KBool => var x :- r.ReadUInt32(); res := Ok(BoolV(DecodeBool(x)));
    case KDate => var x :- r.ReadInt32(); res := Ok(DateV(x));
    case KInt128 => var b := r.ReadAvailableBytes(16); res := Ok(BytesV(b));
    case KInt256 => var b := r.ReadAvailableBytes(32); res := Ok(BytesV(b));
    case KBytes => var b :- ReadTLBytes(r); res := Ok(BytesV(b));
    case KString => var b :- ReadTLBytes(r); res := Ok(StrV(b, Utf16Length(b)));
    case KVector => res := ReadVectorFrom(r, ItemKindOf(pt), StartsWith(pt, "vector"));
    case _ => res := Err(NotParsed);
  }

  /** readVector on a reader. */
  method ReadVectorFrom(r: Reader, item: ItemKind, bare: bool) returns (res: Result<Value>)
    requires r.Valid()
    modifies r
    ensures r.Valid() && r.Agrees(res, ReadVector(item, bare, r.data, old(r.pos)))
  {
    if !bare {
      var m :- r.ReadUInt32();
      if m != VECTOR_MARKER {
        return Err(BadVectorMarker);
      }
    }
    var count :- r.ReadInt32();
    var items :- ReadListItems(r, item, if count < 0 then 0 else count);
    return Ok(ListV(item, items));
  }

  /** readVector's loop over `n` items. */
  method ReadListItems(r: Reader, item: ItemKind, n: nat) returns (res: Result<seq<Value>>)
    requires r.Valid()
    modifies r
    ensures r.Valid() && r.Agrees(res, ReadItems(item, n, r.data, old(r.pos), []))
  {
    var items: seq<Value> := [];
    var i := 0;
    while i < n
      invariant 0 <= i <= n && r.Valid()
      invariant ReadItems(item, n, r.data, old(r.pos), []) == ReadItems(item, n - i, r.data, r.pos, items)
    {
      var x :- ReadListItem(r, item);
      items := items + [x];
      i := i + 1;
    }
    return Ok(items);
  }

  method ReadListItem(r: Reader, item: ItemKind) returns (res: Result<Value>)
    requires r.Valid()
    modifies r
    ensures r.Valid() && r.Agrees(res, ReadItem(item, r.data, old(r.pos)))
  {
    match item
    case IntItem => var x :- r.ReadInt32(); res := Ok(IntV(x));
    case LongItem => var x :- r.ReadInt64(); res := Ok(LongV(x));
    case BytesItem => var b :- ReadTLBytes(r); res := Ok(BytesV(b));
    case StringItem => var b :- ReadTLBytes(r); res := Ok(StrV(b, Utf16Length(b)));
    case _ => res := Err(CannotInstantiate);
  }

  /** ReadGeneric on a reader. */
  method ReadGeneric(cache: TLSchema.SchemaCache, r: Reader, ctrs: map<int32, (string, map<string, Value>)>)
    returns (res: Result<TLObject>)
    requires cache.Valid() && r.Valid()
    modifies cache, r
    ensures cache.Valid() && r.Valid() && r.Agrees(res, ReadGenericSpec(cache.parse, ctrs, r.data, old(r.pos)))
  {
    var c :- r.ReadInt32();
    r.Seek(r.pos - 4);
    if c !in ctrs {
      return Err(NoMatchingConstructor);
    }
    var e := new Entity(ctrs[c].0, ctrs[c].1);
    var x := e.ReadFromStream(cache, r);
    if x.Err? {
      return Err(x.error);
    }
    return Ok(e.Snapshot());
  }
}
