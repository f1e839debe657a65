/** The code generator's records for schema entries and its own line parser, which
    tokenises exactly as the library parser does but keeps the id as the decimal text
    of a signed 32-bit number and tags the entry as a constructor or a method. */
module GeneratorParser {
  import opened Wrappers
  import opened Bytes
  import opened Text
  import TLSchema

  datatype TLTypeParams = TLTypeParams(name: string, typ: string)

  /** TLType with its two record subclasses. */
  datatype TLType =
    | TLConstructor(id: string, typ: string, params: seq<TLTypeParams>, predicateName: string)
    | TLMethod(id: string, typ: string, params: seq<TLTypeParams>, methodName: string)
  {
    /** The entry's own name: the predicate of a constructor, the method of a method. */
    function Name(): string
    {
      if TLConstructor? then predicateName else methodName
    }
  }

  /** The generator's TLSchema record, whose two lists the service-type pass extends. */
  class GeneratorSchema {
    var constructors: seq<TLType>
    var methods: seq<TLType>

    constructor (constructors: seq<TLType>, methods: seq<TLType>)
      ensures this.constructors == constructors && this.methods == methods
    {
      this.constructors := constructors;
      this.methods := methods;
    }
  }

  function ToTypeParams(ts: seq<string>): (r: seq<TLTypeParams>)
    ensures |r| == |ts|
    ensures forall i :: 0 <= i < |ts| ==>
      r[i] == TLTypeParams(TLSchema.ToParam(ts[i]).name, TLSchema.ToParam(ts[i]).typ)
  {
    if ts == [] then [] else
      var p := TLSchema.ToParam(ts[0]);
      [TLTypeParams(p.name, p.typ)] + ToTypeParams(ts[1..])
  }

  /** MTProtoParser.ParseLine. The id text after '#' is read by int.Parse in hexadecimal
      style and kept as its decimal ToString(). */
  function ParseLine(line: string, isMethod: bool): (r: Result<TLType>)
    ensures r.Ok? ==> (r.value.TLMethod? <==> isMethod)
  {
    var parts := TLSchema.Tokens(line);
    if parts == [] then Err(EmptySequence)
    else
      var typ := Last(parts);
      var head := Split(parts[0], '#');
      var idValue :- ParseInt32Hex(Last(head));
      var id := DecimalString(idValue);
      var pars := ToTypeParams(TLSchema.TakeUntil(parts[1..], typ));
      if isMethod then Ok(TLMethod(id, typ, pars, head[0])) else Ok(TLConstructor(id, typ, pars, head[0]))
  }

  /** The generator and the library read the same line the same way: one fails exactly
      when the other does; name, result type and parameters coincide; and the decimal id
      text reads back as a number equal to the library's unsigned id modulo 2^32. */
  lemma ParseLineAgrees(line: string, isMethod: bool)
    ensures ParseLine(line, isMethod).Ok? <==> TLSchema.ParseSchema(line).Ok?
    ensures ParseLine(line, isMethod).Ok? ==>
      var g := ParseLine(line, isMethod).value;
      var s := TLSchema.ParseSchema(line).value;
      && g.Name() == s.name
      && g.typ == s.typ
      && |g.params| == |s.params|
      && (forall i :: 0 <= i < |g.params| ==> g.params[i].name == s.params[i].name && g.params[i].typ == s.params[i].typ)
      && ParseInt32(g.id).Ok?
      && ParseInt32(g.id).value % TWO_32 == s.id
  {
    var parts := TLSchema.Tokens(line);
    if parts != [] && ParseInt32Hex(Last(Split(parts[0], '#'))).Ok? {
      var v := ParseInt32Hex(Last(Split(parts[0], '#'))).value;
      DecimalStringRoundTrip(v);
    }
  }

  /** With the method flag the entry is a method named by the descriptor, otherwise a
      constructor named by it; the parameters and the result type are the same either way. */
  lemma ParseLineKind(line: string)
    ensures ParseLine(line, true).Ok? == ParseLine(line, false).Ok?
    ensures ParseLine(line, true).Ok? ==>
      var m := ParseLine(line, true).value;
      var c := ParseLine(line, false).value;
      && m.TLMethod? && c.TLConstructor?
      && m.methodName == c.predicateName
      && m.id == c.id && m.typ == c.typ && m.params == c.params
  {
  }

  /** For the descriptor text of a renderable record, the generator recovers its name,
      type and parameters. */
  lemma ParseLineRender(s: TLSchema.TypeSchema, isMethod: bool)
    requires TLSchema.Renderable(s)
    ensures ParseLine(TLSchema.Render(s), isMethod).Ok?
    ensures var g := ParseLine(TLSchema.Render(s), isMethod).value;
      g.Name() == s.name && g.typ == s.typ && |g.params| == |s.params|
  {
    TLSchema.ParseRender(s);
    ParseLineAgrees(TLSchema.Render(s), isMethod);
  }
}
