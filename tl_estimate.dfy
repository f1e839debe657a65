/** TLObjectBase.Estimate: the number of bytes an entity is expected to take on the
    wire, by a walk over its schema parameters. */
module TLEstimate {
  import opened Wrappers
  import opened Bytes
  import opened TLWire
  import opened TLValues
  import TLSchema

  /** The parameter types whose size does not depend on the property. */
  function FixedCost(k: Kind): Option<nat>
  {
    match k
    case KInt => Some(4)
    case KTrue => Some(4)
    case KBool => Some(4)
    case KDate => Some(4)
    case KFlagsWord => Some(4)
    case KInt128 => Some(16)
    case KInt256 => Some(32)
    case KLong => Some(8)
    case KDouble => Some(8)
    case _ => None
  }

  /** Four bytes for the constructor id, then every parameter's cost, flags included. */
  function EstimateObject(parse: TLSchema.Parser, o: TLObject): Result<int>
    decreases o, 2
  {
    var s :- parse(o.schema);
    if s.params == [] then Err(EmptySequence)
    else EstimateFrom(parse, o, s.params, s.params[0].name == "flags", 4)
  }

  /** The loop over the parameters, with the size so far. */
  function EstimateFrom(parse: TLSchema.Parser, o: TLObject, ps: seq<TLSchema.Param>, hasFlags: bool, acc: int): Result<int>
    decreases o, 1, |ps|
  {
    if ps == [] then Ok(acc)
    else
      var c :- ParamCost(parse, o, ps[0], hasFlags);
      EstimateFrom(parse, o, ps[1..], hasFlags, acc + c)
  }

  /** One parameter's `parSize`; a null property costs nothing. The flag bit of a flagged
      parameter is parsed as well, and a malformed one fails the estimate, although the
      mask it goes into is never used. */
  function ParamCost(parse: TLSchema.Parser, o: TLObject, p: TLSchema.Param, hasFlags: bool): Result<int>
    decreases o, 0
  {
    var k := KindOf(ParType(p, hasFlags));
    var c :- if FixedCost(k).Some? then Ok(FixedCost(k).value as int)
      else if p.name in o.fields then ValueCost(parse, k, o.fields[p.name])
      else Ok(0);
    var _ :- if hasFlags && IsFlagged(p) then FlagIndex(p) else Ok(0);
    Ok(c)
  }

  /** The size of a non-null property whose cost depends on it: a string or byte array
      by estimateString / estimateArray, a vector as four bytes plus the estimates of
      its entities, and anything else as a nested entity. */
  function ValueCost(parse: TLSchema.Parser, k: Kind, v: Value): Result<int>
    decreases v, 1
  {
    match k
    case KString => if v.StrV? then Ok(EstimateArray(v.units)) else Err(InvalidCast)
    case KBytes => if v.BytesV? then Ok(EstimateArray(|v.bytes|)) else Err(InvalidCast)
    case KVector =>
      if v.ListV? && v.kind == ObjectItem then
        var sum :- SumFrom(parse, v, 0, 0);
        Ok(4 + sum)
      else Err(InvalidCast)
    case _ => if v.ObjectV? then EstimateObject(parse, v.obj) else Err(InvalidCast)
  }

  /** `v.Select(o => o.Estimate()).Sum()` from the `i`-th entity on. */
  function SumFrom(parse: TLSchema.Parser, v: Value, i: nat, acc: int): Result<int>
    requires v.ListV? && i <= |v.items|
    decreases v, 0, |v.items| - i
  {
    if i == |v.items| then Ok(acc)
    else if v.items[i].ObjectV? then
      var e :- EstimateObject(parse, v.items[i].obj);
      SumFrom(parse, v, i + 1, acc + e)
    else Err(InvalidCast)
  }

  // ---- The method ----

  /** Estimate, with the schema parsed through the shared cache. */
  method Estimate(cache: TLSchema.SchemaCache, o: TLObject) returns (r: Result<int>)
    requires cache.Valid()
    modifies cache
    ensures cache.Valid()
    ensures r == EstimateObject(cache.parse, o)
    decreases o, 2
  {
    var t := cache.Parse(o.schema);
    if t.Err? {
      return Err(t.error);
    }
    var s := t.value;
    if s.params == [] {
      return Err(EmptySequence);
    }
    r := EstimateParams(cache, o, s.params, s.params[0].name == "flags");
  }

  /** The loop over the parameters. */
  method EstimateParams(cache: TLSchema.SchemaCache, o: TLObject, ps: seq<TLSchema.Param>, hasFlags: bool)
    returns (r: Result<int>)
    requires cache.Valid()
    modifies cache
    ensures cache.Valid()
    ensures r == EstimateFrom(cache.parse, o, ps, hasFlags, 4)
    decreases o, 1
  {
    var size := 4;
    var rest := ps;
    while rest != []
      invariant cache.Valid()
      invariant EstimateFrom(cache.parse, o, ps, hasFlags, 4) == EstimateFrom(cache.parse, o, rest, hasFlags, size)
    {
      var c := ParamSize(cache, o, rest[0], hasFlags);
      if c.Err? {
        EstimateFromFails(cache.parse, o, rest, hasFlags, size, c.error);
        return Err(c.error);
      }
      EstimateFromStep(cache.parse, o, rest, hasFlags, size, c.value);
      size := size + c.value;
      rest := rest[1..];
    }
    return Ok(size);
  }

  /** The `parSize` switch of the loop. */
  method ParamSize(cache: TLSchema.SchemaCache, o: TLObject, p: TLSchema.Param, hasFlags: bool)
    returns (r: Result<int>)
    requires cache.Valid()
    modifies cache
    ensures cache.Valid()
    ensures r == ParamCost(cache.parse, o, p, hasFlags)
    decreases o, 0
  {
    var k := KindOf(ParType(p, hasFlags));
    var c: int;
    if FixedCost(k).Some? {
      c := FixedCost(k).value;
    } else if p.name in o.fields {
      var v := o.fields[p.name];
      c :- PropertySize(cache, k, v);
    } else {
      c := 0;
    }
    if hasFlags && IsFlagged(p) {
      var _ :- FlagIndex(p);
    }
    return Ok(c);
  }

  method PropertySize(cache: TLSchema.SchemaCache, k: Kind, v: Value) returns (r: Result<int>)
    requires cache.Valid()
    modifies cache
    ensures cache.Valid()
    ensures r == ValueCost(cache.parse, k, v)
    decreases v, 1
  {
    match k
    case KString => r := if v.StrV? then Ok(EstimateArray(v.units)) else Err(InvalidCast);
    case KBytes => r := if v.BytesV? then Ok(EstimateArray(|v.bytes|)) else Err(InvalidCast);
    case KVector =>
      if v.ListV? && v.kind == ObjectItem {
        var sum :- SumEstimates(cache, v);
        r := Ok(4 + sum);
      } else {
        r := Err(InvalidCast);
      }
    case _ =>
      if v.ObjectV? {
        r := Estimate(cache, v.obj);
      } else {
        r := Err(InvalidCast);
      }
  }

  /** estimateVecor's sum over the entities of a list. */
  method SumEstimates(cache: TLSchema.SchemaCache, v: Value) returns (r: Result<int>)
    requires v.ListV? && cache.Valid()
    modifies cache
    ensures cache.Valid()
    ensures r == SumFrom(cache.parse, v, 0, 0)
    decreases v, 0
  {
    var sum := 0;
    var i := 0;
    while i < |v.items|
      invariant 0 <= i <= |v.items| && cache.Valid()
      invariant SumFrom(cache.parse, v, 0, 0) == SumFrom(cache.parse, v, i, sum)
    {
      var item := v.items[i];
      if !item.ObjectV? {
        return Err(InvalidCast);
      }
      var e := Estimate(cache, item.obj);
      SumFromStep(cache.parse, v, i, sum, e);
      if e.Err? {
        return Err(e.error);
      }
      sum := sum + e.value;
      i := i + 1;
    }
    SumFromEnd(cache.parse, v, sum);
    return Ok(sum);
  }

  lemma EstimateFromFails(parse: TLSchema.Parser, o: TLObject, ps: seq<TLSchema.Param>, hasFlags: bool, acc: int, e: Error)
    requires ps != [] && ParamCost(parse, o, ps[0], hasFlags) == Err(e)
    ensures EstimateFrom(parse, o, ps, hasFlags, acc) == Err(e)
  {
  }

  lemma EstimateFromStep(parse: TLSchema.Parser, o: TLObject, ps: seq<TLSchema.Param>, hasFlags: bool, acc: int, c: int)
    requires ps != [] && ParamCost(parse, o, ps[0], hasFlags) == Ok(c)
    ensures EstimateFrom(parse, o, ps, hasFlags, acc) == EstimateFrom(parse, o, ps[1..], hasFlags, acc + c)
  {
  }

  lemma SumFromEnd(parse: TLSchema.Parser, v: Value, acc: int)
    requires v.ListV?
    ensures SumFrom(parse, v, |v.items|, acc) == Ok(acc)
  {
  }

  lemma SumFromStep(parse: TLSchema.Parser, v: Value, i: nat, acc: int, e: Result<int>)
    requires v.ListV? && i < |v.items| && v.items[i].ObjectV?
    requires e == EstimateObject(parse, v.items[i].obj)
    ensures e.Err? ==> SumFrom(parse, v, i, acc) == Err(e.error)
    ensures e.Ok? ==> SumFrom(parse, v, i, acc) == SumFrom(parse, v, i + 1, acc + e.value)
  {
  }
}
