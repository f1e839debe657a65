/** What the three walks of TLObjectBase promise of one another: what WriteToStream
    emits ReadFromStream takes back, Estimate is the written length, and the places where
    the three disagree (the flags word, `true` parameters, vectors of entities). The laws
    hold for any schema parser. */
module TLCodecLaws {
  import opened Wrappers
  import opened Bytes
  import opened Text
  import opened TLWire
  import opened TLValues
  import TLSchema
  import opened TLWrite
  import opened TLRead
  import opened TLEstimate

  // ---- Entities the codec round-trips ----

  /** A property of the type its parameter declares, in the range the wire encoding keeps:
      int128 and int256 values of exactly 16 and 32 bytes, byte strings and strings
      shorter than 2^24 bytes, a string whose UTF-16 length is that of its bytes, and a
      `true` parameter set to true. */
  predicate Fits(k: Kind, v: Value)
  {
    match k
    case KTrue => v == BoolV(true)
    case KInt => v.IntV?
    case KLong => v.LongV?
    case KDouble => v.DoubleV?
    case KBool => v.BoolV?
    case KDate => v.DateV?
    case KInt128 => v.BytesV? && |v.bytes| == 16
    case KInt256 => v.BytesV? && |v.bytes| == 32
    case KBytes => v.BytesV? && |v.bytes| < 0x100_0000
    case KString => v.StrV? && |v.utf8| < 0x100_0000 && v.units == Utf16Length(v.utf8)
    case _ => false
  }

  /** A parameter that is not flagged and whose property is set and fits its type. */
  predicate PlainParam(o: TLObject, p: TLSchema.Param)
  {
    !IsFlagged(p) && p.name in o.fields && Fits(KindOf(p.typ), o.fields[p.name])
  }

  /** Every parameter of the list is plain. */
  predicate PlainParams(o: TLObject, ps: seq<TLSchema.Param>)
    decreases |ps|
  {
    ps != [] ==> PlainParam(o, ps[0]) && PlainParams(o, ps[1..])
  }

  /** An entity whose schema parses to a parameter list without a flags word, every
      parameter of it plain. */
  predicate Plain(parse: TLSchema.Parser, o: TLObject)
  {
    && parse(o.schema).Ok?
    && parse(o.schema).value.params != []
    && parse(o.schema).value.params[0].name != "flags"
    && PlainParams(o, parse(o.schema).value.params)
  }

  /** What a fitting property is written as: the reference encoding of each type. */
  function Encoding(k: Kind, v: Value): (r: seq<byte>)
    requires Fits(k, v)
    ensures |r| % 4 == 0
  {
    match k
    case KTrue => []
    case KInt => EncodeI32(v.i)
    case KLong => EncodeI64(v.l)
    case KDouble => EncodeI64(v.bits)
    case KBool => EncodeBool(v.b)
    case KDate => EncodeI32(v.seconds)
    case KInt128 => v.bytes
    case KInt256 => v.bytes
    case KBytes => EncodeBytes(v.bytes)
    case KString => EncodeBytes(v.utf8)
  }

  /** The encoding of one plain parameter. */
  function ParamEncoding(o: TLObject, p: TLSchema.Param): (r: seq<byte>)
    requires PlainParam(o, p)
    ensures |r| % 4 == 0
  {
    Encoding(KindOf(p.typ), o.fields[p.name])
  }

  type Fields = map<string, Value>

  /** What the parameters are written as: their encodings one after another. */
  function ParamsEncoding(o: TLObject, ps: seq<TLSchema.Param>): seq<byte>
    requires PlainParams(o, ps)
    decreases |ps|
  {
    if ps == [] then []
    else
      ParamEncoding(o, ps[0]) + ParamsEncoding(o, ps[1..])
  }

  /** The property of one parameter set to the entity's. */
  function Assign(o: TLObject, p: TLSchema.Param, fields: Fields): Fields
  {
    if p.name in o.fields then fields[p.name := o.fields[p.name]] else fields
  }

  // ---- The encodings one after another ----

  /** The parameters' encodings make a whole number of four-byte words. */
  lemma {:induction false} ParamsAligned(o: TLObject, ps: seq<TLSchema.Param>)
    requires PlainParams(o, ps)
    ensures |ParamsEncoding(o, ps)| % 4 == 0
    decreases |ps|
  {
    if ps != [] {
      var e, rest := ParamEncoding(o, ps[0]), ParamsEncoding(o, ps[1..]);
      ParamsAligned(o, ps[1..]);
      WordsAdd(|e|, |rest|);
      assert |ParamsEncoding(o, ps)| == |e| + |rest|;
    }
  }

  lemma WordsAdd(a: nat, b: nat)
    requires a % 4 == 0 && b % 4 == 0
    ensures (a + b) % 4 == 0
  {
  }

  /** The bytes `x` sit in the stream at `pos`. */
  predicate At(data: seq<byte>, pos: nat, x: seq<byte>)
  {
    pos + |x| <= |data| && data[pos..pos + |x|] == x
  }

  // ---- The writer emits the encoding ----

  /** A fitting property is written as its encoding. */
  lemma ValueWritten(parse: TLSchema.Parser, k: Kind, v: Value)
    requires Fits(k, v)
    ensures ValueBytes(parse, k, v) == Ok(Encoding(k, v))
  {
  }

  /** A plain parameter other than the flags word is written as its encoding. */
  lemma ParamWritten(parse: TLSchema.Parser, o: TLObject, p: TLSchema.Param)
    requires PlainParam(o, p)
    ensures ParamBytes(parse, o, p, false) == Ok(ParamEncoding(o, p))
  {
    assert ParType(p, false) == p.typ;
    ValueWritten(parse, KindOf(p.typ), o.fields[p.name]);
  }

  /** WriteFrom appends the parameters' encodings to what was already written. */
  lemma {:induction false} ParamsWritten(parse: TLSchema.Parser, o: TLObject, ps: seq<TLSchema.Param>, acc: seq<byte>)
    requires PlainParams(o, ps)
    ensures WriteFrom(parse, o, ps, false, acc) == Ok(acc + ParamsEncoding(o, ps))
    decreases |ps|
  {
    if ps != [] {
      var e, rest := ParamEncoding(o, ps[0]), ParamsEncoding(o, ps[1..]);
      ParamWritten(parse, o, ps[0]);
      ParamsWritten(parse, o, ps[1..], acc + e);
      AppendAssoc(acc, e, rest);
    } else {
      assert acc + [] == acc;
    }
  }

  /** A plain entity is written as its constructor id followed by its parameters'
      encodings, a whole number of four-byte words. */
  lemma ObjectWritten(parse: TLSchema.Parser, o: TLObject)
    requires Plain(parse, o)
    ensures WriteObject(parse, o)
         == Ok(EncodeU32(parse(o.schema).value.id) + ParamsEncoding(o, parse(o.schema).value.params))
    ensures |WriteObject(parse, o).value| % 4 == 0
  {
    var s := parse(o.schema).value;
    assert TLWrite.Walked(s.params) == s.params;
    ParamsWritten(parse, o, s.params, EncodeU32(s.id));
    ParamsAligned(o, s.params);
    WordsAdd(|EncodeU32(s.id)|, |ParamsEncoding(o, s.params)|);
  }

  // ---- The reader takes the encoding back ----

  /** A property of a four-byte kind reads back from its word. */
  lemma WordReadBack(k: Kind, pt: string, v: Value, data: seq<byte>, pos: nat)
    requires KindOf(pt) == k && (k == KInt || k == KBool || k == KDate) && Fits(k, v)
    requires At(data, pos, Encoding(k, v))
    ensures ReadValue(pt, data, pos) == Ok((v, pos + |Encoding(k, v)|))
  {
    match k
    case KInt => I32RoundTrip(v.i);
    case KBool => BoolRoundTrip(v.b);
    case KDate => I32RoundTrip(v.seconds);
  }

  /** A property of an eight-byte kind reads back from its word. */
  lemma LongReadBack(k: Kind, pt: string, v: Value, data: seq<byte>, pos: nat)
    requires KindOf(pt) == k && (k == KLong || k == KDouble) && Fits(k, v)
    requires At(data, pos, Encoding(k, v))
    ensures ReadValue(pt, data, pos) == Ok((v, pos + |Encoding(k, v)|))
  {
    match k
    case KLong => I64RoundTrip(v.l);
    case KDouble => I64RoundTrip(v.bits);
  }

  /** int128 and int256 values are their raw bytes. */
  lemma RawReadBack(k: Kind, pt: string, v: Value, data: seq<byte>, pos: nat)
    requires KindOf(pt) == k && (k == KInt128 || k == KInt256) && Fits(k, v)
    requires At(data, pos, Encoding(k, v))
    ensures ReadValue(pt, data, pos) == Ok((v, pos + |Encoding(k, v)|))
  {
  }

  /** Byte strings and strings go through writeBytes and readBytes. */
  lemma BytesReadBack(k: Kind, pt: string, v: Value, data: seq<byte>, pos: nat)
    requires KindOf(pt) == k && (k == KBytes || k == KString) && Fits(k, v)
    requires At(data, pos, Encoding(k, v))
    ensures ReadValue(pt, data, pos) == Ok((v, pos + |Encoding(k, v)|))
  {
    if k == KBytes {
      BytesRoundTrip(v.bytes, data, pos);
    } else {
      BytesRoundTrip(v.utf8, data, pos);
    }
  }

  /** A fitting property other than `true`: ReadValue takes its encoding back, wherever
      it sits in the stream, and stops just after it. */
  lemma ValueReadBack(pt: string, k: Kind, v: Value, data: seq<byte>, pos: nat)
    requires KindOf(pt) == k && k != KTrue && Fits(k, v)
    requires At(data, pos, Encoding(k, v))
    ensures ReadValue(pt, data, pos) == Ok((v, pos + |Encoding(k, v)|))
  {
    if k == KInt || k == KBool || k == KDate {
      WordReadBack(k, pt, v, data, pos);
    } else if k == KLong || k == KDouble {
      LongReadBack(k, pt, v, data, pos);
    } else if k == KInt128 || k == KInt256 {
      RawReadBack(k, pt, v, data, pos);
    } else {
      BytesReadBack(k, pt, v, data, pos);
    }
  }

  /** One plain parameter: its encoding reads back as its value, and exactly it is
      consumed. */
  lemma ParamReadBack(o: TLObject, p: TLSchema.Param, flags: int32, fields: Fields, data: seq<byte>, pos: nat)
    requires PlainParam(o, p) && At(data, pos, ParamEncoding(o, p))
    ensures pos + |ParamEncoding(o, p)| <= |data|
    ensures ReadParam(p, false, flags, fields, data, pos) == Ok((Assign(o, p, fields), pos + |ParamEncoding(o, p)|))
  {
    assert ParType(p, false) == p.typ;
    var k := KindOf(p.typ);
    if k != KTrue {
      ValueReadBack(p.typ, k, o.fields[p.name], data, pos);
      var rv := ReadValue(p.typ, data, pos).value;
      assert ReadParam(p, false, flags, fields, data, pos) == Ok((fields[p.name := rv.0], rv.1));
    }
  }

  // ---- Estimate against the written length ----

  /** A parameter Estimate can size at its encoded length: not of type `true`, and, if it
      holds a string, one with as many UTF-16 units as UTF-8 bytes (an ASCII string, say),
      since estimateString counts the former and writeString emits the latter. */
  predicate SizedExactly(o: TLObject, p: TLSchema.Param)
  {
    && KindOf(p.typ) != KTrue
    && (p.name in o.fields && o.fields[p.name].StrV? ==>
          o.fields[p.name].units == |o.fields[p.name].utf8|)
  }

  /** One plain parameter sized exactly: its estimate is its encoded length. */
  lemma ParamCostExact(parse: TLSchema.Parser, o: TLObject, p: TLSchema.Param)
    requires PlainParam(o, p) && SizedExactly(o, p)
    ensures ParamCost(parse, o, p, false) == Ok(|ParamEncoding(o, p)|)
  {
    assert ParType(p, false) == p.typ;
    var v := o.fields[p.name];
    match KindOf(p.typ)
    case KBytes => EstimateArrayExact(v.bytes);
    case KString => EstimateArrayExact(v.utf8);
    case _ =>
  }

  /** Every parameter of the list is sized exactly. */
  predicate AllSizedExactly(o: TLObject, ps: seq<TLSchema.Param>)
  {
    forall i :: 0 <= i < |ps| ==> SizedExactly(o, ps[i])
  }

  /** The parameters after the first are plain and sized exactly as well, and the
      encoding is the first one's followed by theirs. */
  lemma PlainTail(o: TLObject, ps: seq<TLSchema.Param>)
    requires PlainParams(o, ps) && AllSizedExactly(o, ps) && ps != []
    ensures PlainParams(o, ps[1..]) && AllSizedExactly(o, ps[1..]) && PlainParam(o, ps[0]) && SizedExactly(o, ps[0])
    ensures ParamsEncoding(o, ps) == ParamEncoding(o, ps[0]) + ParamsEncoding(o, ps[1..])
  {
  }

  /** EstimateFrom adds the lengths of the parameters' encodings to the size so far. */
  lemma {:induction false} EstimateFromExact(parse: TLSchema.Parser, o: TLObject, ps: seq<TLSchema.Param>, acc: int)
    requires PlainParams(o, ps) && AllSizedExactly(o, ps)
    ensures EstimateFrom(parse, o, ps, false, acc) == Ok(acc + |ParamsEncoding(o, ps)|)
    decreases |ps|
  {
    if ps != [] {
      PlainTail(o, ps);
      var n := |ParamEncoding(o, ps[0])|;
      ParamCostExact(parse, o, ps[0]);
      EstimateFromExact(parse, o, ps[1..], acc + n);
      EstimateFromStep(parse, o, ps, false, acc, n);
    }
  }

  /** Estimate is exact on plain entities without `true` parameters and with strings of
      as many UTF-16 units as UTF-8 bytes: the buffer it sizes is the length WriteToStream
      fills. */
  lemma EstimateExact(parse: TLSchema.Parser, o: TLObject)
    requires Plain(parse, o)
    requires AllSizedExactly(o, parse(o.schema).value.params)
    ensures WriteObject(parse, o).Ok?
    ensures EstimateObject(parse, o) == Ok(|WriteObject(parse, o).value|)
  {
    var s := parse(o.schema).value;
    ObjectWritten(parse, o);
    EstimateFromExact(parse, o, s.params, 4);
  }

  /** A `true` parameter is counted four bytes and written as none. */
  lemma TrueCountedNotWritten(parse: TLSchema.Parser, o: TLObject, p: TLSchema.Param)
    requires KindOf(p.typ) == KTrue && !IsFlagged(p)
    ensures ParamCost(parse, o, p, false) == Ok(4)
    ensures ParamBytes(parse, o, p, false) == Ok([])
  {
    assert ParType(p, false) == p.typ;
    if p.name !in o.fields {
      assert NullBytes(KTrue) == Ok([]);
    }
  }

  /** Every entity of a list estimated at its written length. */
  predicate ItemsExact(parse: TLSchema.Parser, v: Value)
    requires v.ListV?
  {
    forall i :: 0 <= i < |v.items| ==>
      v.items[i].ObjectV? && WriteObject(parse, v.items[i].obj).Ok?
      && EstimateObject(parse, v.items[i].obj) == Ok(|WriteObject(parse, v.items[i].obj).value|)
  }

  lemma {:induction false} SumFromWritten(parse: TLSchema.Parser, v: Value, i: nat, acc: int)
    requires v.ListV? && i <= |v.items| && ItemsExact(parse, v)
    ensures WriteItems(parse, v, i, []).Ok?
    ensures SumFrom(parse, v, i, acc) == Ok(acc + |WriteItems(parse, v, i, []).value|)
    decreases |v.items| - i
  {
    if i < |v.items| {
      var e := WriteObject(parse, v.items[i].obj).value;
      SumFromWritten(parse, v, i + 1, acc + |e|);
      assert [] + e == e;
      WriteItemsAcc(parse, v, i + 1, e);
    }
  }

  /** A string is counted by its UTF-16 length and written in UTF-8, so a string beyond
      ASCII is counted short: "ééé" is three UTF-16 units, estimated at four bytes, and
      written as eight (a length byte, six bytes and a byte of padding). */
  lemma StringUndercount(parse: TLSchema.Parser)
    ensures var v := StrV([0xC3, 0xA9, 0xC3, 0xA9, 0xC3, 0xA9], Utf16Length([0xC3, 0xA9, 0xC3, 0xA9, 0xC3, 0xA9]));
      && ValueCost(parse, KString, v) == Ok(4)
      && ValueBytes(parse, KString, v).Ok? && |ValueBytes(parse, KString, v).value| == 8
  {
    var u: seq<byte> := [0xC3, 0xA9, 0xC3, 0xA9, 0xC3, 0xA9];
    assert u[1..][1..] == u[..4] && u[2..][1..][1..] == u[4..] && u[4..][1..][1..] == [];
    assert u[..4][1..][1..] == u[4..];
    EstimateArrayExact(u);
  }

  /** A vector of entities is counted four bytes short: the estimate has room for the
      count but not for the vector marker the writer puts before it. */
  lemma VectorUndercount(parse: TLSchema.Parser, v: Value)
    requires v.ListV? && v.kind == ObjectItem && ItemsExact(parse, v)
    ensures ValueBytes(parse, KVector, v).Ok?
    ensures ValueCost(parse, KVector, v) == Ok(|ValueBytes(parse, KVector, v).value| - 4)
  {
    var head := EncodeU32(VECTOR_MARKER) + LE(|v.items|, 4);
    SumFromWritten(parse, v, 0, 0);
    WriteItemsAcc(parse, v, 0, head);
  }

  // ---- The flags word ----

  /** The parameter the generator's schemas open with when a type has optional fields. */
  const FlagsParam := TLSchema.Param("flags", "#")

  /** The flags word's type is `#`, not a flagged type. */
  lemma FlagsParamKind()
    ensures ParType(FlagsParam, true) == "#" && KindOf("#") == KFlagsWord && !IsFlagged(FlagsParam)
  {
    SplitNone("#", '?');
    assert !StartsWith("#", "flags");
  }

  /** A schema with only the flags word: the writer emits the constructor id alone. */
  lemma FlagsWordWritten(parse: TLSchema.Parser, o: TLObject)
    requires parse(o.schema).Ok? && parse(o.schema).value.params == [FlagsParam]
    ensures WriteObject(parse, o) == Ok(EncodeU32(parse(o.schema).value.id))
  {
    var s := parse(o.schema).value;
    assert TLWrite.Walked(s.params) == [];
  }

  /** The estimate counts the constructor id and the flags word. */
  lemma FlagsWordEstimated(parse: TLSchema.Parser, o: TLObject)
    requires parse(o.schema).Ok? && parse(o.schema).value.params == [FlagsParam]
    ensures EstimateObject(parse, o) == Ok(8)
  {
    FlagsParamKind();
    var s := parse(o.schema).value;
    assert ParamCost(parse, o, FlagsParam, true) == Ok(4);
    assert EstimateFrom(parse, o, s.params, true, 4) == EstimateFrom(parse, o, [], true, 8);
  }

  /** The reader expects the flags word after the constructor id. */
  lemma FlagsWordExpected(parse: TLSchema.Parser, o: TLObject, fields: Fields)
    requires parse(o.schema).Ok? && parse(o.schema).value.params == [FlagsParam]
    ensures ReadObject(parse, o.schema, fields, EncodeU32(parse(o.schema).value.id), 0) == Err(EndOfStream)
  {
    var s := parse(o.schema).value;
    var data := EncodeU32(s.id);
    U32RoundTrip(s.id);
    assert |data| == 4 && data[0..4] == data;
    assert ReadU32(data, 0) == Ok((s.id, 4));
    assert ReadI32(data, 4) == Err(EndOfStream);
  }

  /** A schema with only the flags word: the writer emits the constructor id alone, the
      estimate counts eight bytes, and the reader, expecting the flags word the writer
      never emitted, runs off the end of what was written. */
  lemma FlagsWordNeverWritten(parse: TLSchema.Parser, o: TLObject, fields: Fields)
    requires parse(o.schema).Ok? && parse(o.schema).value.params == [FlagsParam]
    ensures var id := parse(o.schema).value.id;
      && WriteObject(parse, o) == Ok(EncodeU32(id))
      && EstimateObject(parse, o) == Ok(8)
      && ReadObject(parse, o.schema, fields, EncodeU32(id), 0) == Err(EndOfStream)
  {
    FlagsWordWritten(parse, o);
    FlagsWordEstimated(parse, o);
    FlagsWordExpected(parse, o, fields);
  }

  /** The library's parser does produce such schemas. */
  lemma FlagsOnlySchemaParses(name: string, id: uint32, typ: string)
    requires ' ' !in name && '#' !in name
    requires typ != [] && ' ' !in typ && ':' !in typ && '#' !in typ && ';' !in typ && typ != "="
    ensures TLSchema.ParseSchema(TLSchema.Render(TLSchema.TypeSchema(name, id, typ, [FlagsParam])))
         == Ok(TLSchema.TypeSchema(name, id, typ, [FlagsParam]))
  {
    TLSchema.ParseRender(TLSchema.TypeSchema(name, id, typ, [FlagsParam]));
  }

  // ---- The reader on its own ----

  /** The constructor id comes first: a leading word other than the schema's id is a
      mismatch, whatever follows. */
  lemma ConstructorChecked(parse: TLSchema.Parser, schema: string, fields: Fields, data: seq<byte>, pos: nat)
    requires parse(schema).Ok? && pos + 4 <= |data|
    requires DecodeU32(data[pos..pos + 4]) != parse(schema).value.id
    ensures ReadObject(parse, schema, fields, data, pos) == Err(ConstructorMismatch)
  {
  }

  /** A flagged parameter whose bit is clear is skipped without reading; with the bit set
      it is read as if it were not flagged; a `true` parameter is set without reading. */
  lemma FlagGate(p: TLSchema.Param, hasFlags: bool, flags: int32, fields: Fields, data: seq<byte>, pos: nat)
    requires pos <= |data| && IsFlagged(p) && FlagIndex(p).Ok?
    ensures !FlagSet(flags, FlagIndex(p).value) ==>
      ReadParam(p, hasFlags, flags, fields, data, pos) == Ok((fields, pos))
    ensures FlagSet(flags, FlagIndex(p).value) && KindOf(ParType(p, hasFlags)) == KTrue ==>
      ReadParam(p, hasFlags, flags, fields, data, pos) == Ok((fields[p.name := BoolV(true)], pos))
    ensures FlagSet(flags, FlagIndex(p).value) && KindOf(ParType(p, hasFlags)) != KTrue ==>
      ReadParam(p, hasFlags, flags, fields, data, pos)
        == (var rv :- ReadValue(ParType(p, hasFlags), data, pos); Ok((fields[p.name := rv.0], rv.1)))
  {
  }

  /** A boxed vector starts with the vector marker: any other leading word fails the read,
      and after the marker the count is read from the next word. */
  lemma VectorMarkerChecked(item: ItemKind, data: seq<byte>, pos: nat)
    requires pos + 4 <= |data|
    ensures DecodeU32(data[pos..pos + 4]) != VECTOR_MARKER ==> ReadVector(item, false, data, pos) == Err(BadVectorMarker)
    ensures DecodeU32(data[pos..pos + 4]) == VECTOR_MARKER ==>
      ReadVector(item, false, data, pos) == ReadVector(item, true, data, pos + 4)
  {
  }

  /** Entity items cannot be read: a positive count fails at the first one. */
  lemma {:induction false} EntityItemsFail(n: nat, data: seq<byte>, pos: nat, acc: seq<Value>)
    requires pos <= |data|
    ensures ReadItems(ObjectItem, n, data, pos, acc)
         == if n == 0 then Ok((acc, pos)) else Err(CannotInstantiate)
  {
  }

  /** A vector of entities reads back only when its count is not positive, and then as
      the empty list: the item type the generator declares for it is an abstract entity
      class, which the reader cannot instantiate. */
  lemma EntityVectorsReadEmpty(bare: bool, data: seq<byte>, pos: nat)
    requires pos <= |data|
    ensures ReadVector(ObjectItem, bare, data, pos).Ok? ==>
      ReadVector(ObjectItem, bare, data, pos).value.0 == ListV(ObjectItem, [])
  {
    var r := ReadVector(ObjectItem, bare, data, pos);
    if r.Ok? {
      var p1 := if bare then pos else pos + 4;
      assert ReadI32(data, p1).Ok?;
      var c := ReadI32(data, p1).value;
      EntityItemsFail(if c.0 < 0 then 0 else c.0, data, c.1, []);
    }
  }

  /** ReadGeneric reads the entity whose table key is the peeked word, from the peeked
      position, so that entity's schema id is that word; an unknown word is an error. */
  lemma DispatchOnPeekedId(parse: TLSchema.Parser, ctrs: map<int32, (string, Fields)>, data: seq<byte>, pos: nat)
    requires pos + 4 <= |data|
    ensures var c := DecodeI32(data[pos..pos + 4]);
      && (c !in ctrs ==> ReadGenericSpec(parse, ctrs, data, pos) == Err(NoMatchingConstructor))
      && (ReadGenericSpec(parse, ctrs, data, pos).Ok? ==>
            && c in ctrs
            && ReadGenericSpec(parse, ctrs, data, pos).value.0.schema == ctrs[c].0
            && parse(ctrs[c].0).Ok?
            && parse(ctrs[c].0).value.id == c % TWO_32)
  {
    DecodeSignedUnsignedAgree(data[pos..pos + 4]);
  }
}
