/** The TL schema descriptor of one constructor or method, `name#hexid p:t ... = Type;`,
    its parser, and the parser's memo cache. */
module TLSchema {
  import opened Wrappers
  import opened Bytes
  import opened Text

  datatype Param = Param(name: string, typ: string)

  datatype TypeSchema = TypeSchema(name: string, id: uint32, typ: string, params: seq<Param>)

  /** Every element of `ts` except those equal to "=", in order. */
  function DropEquals(ts: seq<string>): (r: seq<string>)
    ensures |r| <= |ts|
    ensures forall i :: 0 <= i < |r| ==> r[i] != "=" && r[i] in ts
  {
    if ts == [] then []
    else if ts[0] == "=" then DropEquals(ts[1..])
    else [ts[0]] + DropEquals(ts[1..])
  }

  /** `line.TrimEnd(';').Split(' ').Where(p => p != "=")`. */
  function Tokens(line: string): seq<string>
  {
    DropEquals(Split(TrimEnd(line, ';'), ' '))
  }

  /** `TakeWhile(p => p != stop)`. */
  function TakeUntil(ts: seq<string>, stop: string): (r: seq<string>)
    ensures r <= ts
    ensures forall i :: 0 <= i < |r| ==> r[i] != stop
    ensures |r| < |ts| ==> ts[|r|] == stop
  {
    if ts == [] || ts[0] == stop then [] else [ts[0]] + TakeUntil(ts[1..], stop)
  }

  /** A parameter token: the name before the first ':' and the type after the last. */
  function ToParam(token: string): Param
  {
    Param(Split(token, ':')[0], Last(Split(token, ':')))
  }

  function ToParams(ts: seq<string>): (r: seq<Param>)
    ensures |r| == |ts|
    ensures forall i :: 0 <= i < |ts| ==> r[i] == ToParam(ts[i])
  {
    if ts == [] then [] else [ToParam(ts[0])] + ToParams(ts[1..])
  }

  /** MTProtoParser.Parse without its cache. The result type is the last token; the
      first token is split at '#' into the name (first piece) and the hexadecimal id
      (last piece); the parameters are the tokens after the first, up to the first one
      equal to the result type. No token at all, or an id that is not a hexadecimal
      uint, is an error. */
  function ParseSchema(line: string): (r: Result<TypeSchema>)
    ensures r.Ok? <==> Tokens(line) != [] && ParseUInt32Hex(Last(Split(Tokens(line)[0], '#'))).Ok?
    ensures r.Ok? ==> r.value.typ == Last(Tokens(line))
  {
    var parts := Tokens(line);
    if parts == [] then Err(EmptySequence)
    else
      var typ := Last(parts);
      var head := Split(parts[0], '#');
      var id :- ParseUInt32Hex(Last(head));
      Ok(TypeSchema(head[0], id, typ, ToParams(TakeUntil(parts[1..], typ))))
  }

  // ---- The parser read backwards: rendering a schema record as descriptor text ----

  function HexDigitChar(d: nat): (c: char)
    requires d < 16
    ensures IsHexDigit(c) && HexDigit(c) == d
  {
    if d < 10 then ('0' as int + d) as char else ('a' as int + d - 10) as char
  }

  /** The shortest lower-case hexadecimal digits of `n`. */
  function HexString(n: nat): (r: string)
    ensures r != [] && forall i :: 0 <= i < |r| ==> IsHexDigit(r[i])
  {
    if n < 16 then [HexDigitChar(n)] else HexString(n / 16) + [HexDigitChar(n % 16)]
  }

  lemma {:induction false} HexStringValue(n: nat)
    ensures HexValue(HexString(n)) == n
  {
    if n >= 16 {
      HexStringValue(n / 16);
      var r := HexString(n);
      assert r[..|r| - 1] == HexString(n / 16);
    }
  }

  lemma HexDigitsNotWhite(s: string)
    requires s != [] && forall i :: 0 <= i < |s| ==> IsHexDigit(s[i])
    ensures TrimNumberWhite(s) == s
  {
  }

  function ParamToken(p: Param): string
  {
    p.name + ":" + p.typ
  }

  function ParamTokens(ps: seq<Param>): (r: seq<string>)
    ensures |r| == |ps|
    ensures forall i :: 0 <= i < |ps| ==> r[i] == ParamToken(ps[i])
  {
    if ps == [] then [] else [ParamToken(ps[0])] + ParamTokens(ps[1..])
  }

  function SchemaTokens(s: TypeSchema): seq<string>
  {
    [s.name + "#" + HexString(s.id)] + ParamTokens(s.params) + ["=", s.typ]
  }

  /** The descriptor text of a schema record. */
  function Render(s: TypeSchema): string
  {
    Join(SchemaTokens(s), ' ') + ";"
  }

  /** Records whose names and types can be written as descriptor text unambiguously. */
  predicate Renderable(s: TypeSchema)
  {
    && ' ' !in s.name && '#' !in s.name
    && s.typ != [] && ' ' !in s.typ && ':' !in s.typ && '#' !in s.typ && ';' !in s.typ && s.typ != "="
    && forall i :: 0 <= i < |s.params| ==>
         ' ' !in s.params[i].name && ':' !in s.params[i].name && ' ' !in s.params[i].typ && ':' !in s.params[i].typ
  }

  lemma {:induction false} IndexOfAfter(a: string, c: char, b: string)
    requires c !in a
    ensures IndexOf(a + [c] + b, c) == |a|
  {
    if a != [] {
      assert (a + [c] + b)[1..] == a[1..] + [c] + b;
      IndexOfAfter(a[1..], c, b);
    }
  }

  lemma {:induction false} SplitJoin(parts: seq<string>, c: char)
    requires |parts| >= 1
    requires forall i :: 0 <= i < |parts| ==> c !in parts[i]
    ensures Split(Join(parts, c), c) == parts
  {
    if |parts| == 1 {
      SplitNone(parts[0], c);
    } else {
      var s := Join(parts, c);
      assert s == parts[0] + [c] + Join(parts[1..], c);
      IndexOfAfter(parts[0], c, Join(parts[1..], c));
      assert s[..|parts[0]|] == parts[0];
      assert s[|parts[0]| + 1..] == Join(parts[1..], c);
      SplitJoin(parts[1..], c);
      assert parts == [parts[0]] + parts[1..];
    }
  }

  lemma {:induction false} JoinNotEndingWith(parts: seq<string>, c: char, d: char)
    requires |parts| >= 1 && parts[|parts| - 1] != [] && Last(parts[|parts| - 1]) != d
    ensures Join(parts, c) != [] && Last(Join(parts, c)) != d
  {
    if |parts| > 1 {
      JoinNotEndingWith(parts[1..], c, d);
      assert Join(parts, c) == parts[0] + [c] + Join(parts[1..], c);
    }
  }

  lemma {:induction false} DropEqualsAppend(a: seq<string>, b: seq<string>)
    ensures DropEquals(a + b) == DropEquals(a) + DropEquals(b)
  {
    if a == [] {
      assert a + b == b;
    } else {
      assert (a + b)[0] == a[0];
      assert (a + b)[1..] == a[1..] + b;
      DropEqualsAppend(a[1..], b);
    }
  }

  lemma DropEqualsNone(a: seq<string>)
    requires forall i :: 0 <= i < |a| ==> a[i] != "="
    ensures DropEquals(a) == a
  {
    if a != [] {
      DropEqualsNone(a[1..]);
    }
  }

  lemma {:induction false} TakeUntilAll(a: seq<string>, stop: string)
    requires forall i :: 0 <= i < |a| ==> a[i] != stop
    ensures TakeUntil(a + [stop], stop) == a
  {
    if a != [] {
      assert (a + [stop])[1..] == a[1..] + [stop];
      TakeUntilAll(a[1..], stop);
    }
  }

  lemma ToParamOfToken(p: Param)
    requires ':' !in p.name && ':' !in p.typ
    ensures ToParam(ParamToken(p)) == p
  {
    SplitOne(ParamToken(p), ':', |p.name|);
  }

  lemma {:induction false} ToParamsOfTokens(ps: seq<Param>)
    requires forall i :: 0 <= i < |ps| ==> ':' !in ps[i].name && ':' !in ps[i].typ
    ensures ToParams(ParamTokens(ps)) == ps
  {
    if ps != [] {
      ToParamOfToken(ps[0]);
      ToParamsOfTokens(ps[1..]);
      assert ParamTokens(ps)[1..] == ParamTokens(ps[1..]);
    }
  }

  lemma ParamTokensHaveColon(ps: seq<Param>)
    ensures forall i :: 0 <= i < |ps| ==> ':' in ParamTokens(ps)[i]
  {
    forall i | 0 <= i < |ps| ensures ':' in ParamTokens(ps)[i] {
      assert ParamTokens(ps)[i][|ps[i].name|] == ':';
    }
  }

  lemma {:induction false} SchemaTokensNoSpace(s: TypeSchema)
    requires Renderable(s)
    ensures forall i :: 0 <= i < |SchemaTokens(s)| ==> ' ' !in SchemaTokens(s)[i]
  {
    var toks := SchemaTokens(s);
    forall i | 0 <= i < |toks| ensures ' ' !in toks[i] {
      if 1 <= i < |toks| - 2 {
        assert toks[i] == ParamToken(s.params[i - 1]);
      }
    }
  }

  lemma SplitRender(s: TypeSchema)
    requires Renderable(s)
    ensures Split(TrimEnd(Render(s), ';'), ' ') == SchemaTokens(s)
  {
    var toks := SchemaTokens(s);
    assert Last(toks) == s.typ;
    JoinNotEndingWith(toks, ' ', ';');
    var text := Join(toks, ' ');
    assert TrimEnd(text + ";", ';') == text;
    SchemaTokensNoSpace(s);
    SplitJoin(toks, ' ');
  }

  lemma DropEqualsSchemaTokens(s: TypeSchema)
    requires Renderable(s)
    ensures DropEquals(SchemaTokens(s)) == [s.name + "#" + HexString(s.id)] + ParamTokens(s.params) + [s.typ]
  {
    var head := s.name + "#" + HexString(s.id);
    var ptoks := ParamTokens(s.params);
    assert SchemaTokens(s) == ([head] + ptoks) + ["=", s.typ];
    ParamTokensHaveColon(s.params);
    DropEqualsAppend([head] + ptoks, ["=", s.typ]);
    DropEqualsAppend([head], ptoks);
    assert head[|s.name|] == '#';
    DropEqualsNone([head]);
    DropEqualsNone(ptoks);
    assert DropEquals(["=", s.typ]) == [s.typ];
  }

  /** The tokens of a rendered record are its head, its parameter tokens and its type. */
  lemma TokensOfRender(s: TypeSchema)
    requires Renderable(s)
    ensures Tokens(Render(s)) == [s.name + "#" + HexString(s.id)] + ParamTokens(s.params) + [s.typ]
  {
    SplitRender(s);
    DropEqualsSchemaTokens(s);
  }

  lemma ParseHexString(n: uint32)
    ensures ParseUInt32Hex(HexString(n)) == Ok(n)
  {
    HexStringValue(n);
    HexDigitsNotWhite(HexString(n));
  }

  lemma SplitHead(name: string, n: nat)
    requires '#' !in name
    ensures Split(name + "#" + HexString(n), '#') == [name, HexString(n)]
  {
    var head := name + "#" + HexString(n);
    SplitOne(head, '#', |name|);
    assert head[..|name|] == name;
    assert head[|name| + 1..] == HexString(n);
  }

  lemma ParamsOfRender(s: TypeSchema)
    requires Renderable(s)
    ensures |Tokens(Render(s))| >= 1
    ensures ToParams(TakeUntil(Tokens(Render(s))[1..], s.typ)) == s.params
  {
    var ptoks := ParamTokens(s.params);
    TokensOfRender(s);
    assert Tokens(Render(s))[1..] == ptoks + [s.typ];
    ParamTokensHaveColon(s.params);
    TakeUntilAll(ptoks, s.typ);
    ToParamsOfTokens(s.params);
  }

  /** The parser inverts rendering: the descriptor text of a renderable record parses
      back to that record. */
  lemma ParseRender(s: TypeSchema)
    requires Renderable(s)
    ensures ParseSchema(Render(s)) == Ok(s)
  {
    var parts := Tokens(Render(s));
    TokensOfRender(s);
    assert parts[0] == s.name + "#" + HexString(s.id);
    assert Last(parts) == s.typ;
    SplitHead(s.name, s.id);
    ParseHexString(s.id);
    ParamsOfRender(s);
  }

  /** A parser of descriptor lines. The library has one, ParseSchema; the codec's laws
      are stated for any. */
  type Parser = string -> Result<TypeSchema>

  /** MTProtoParser with its static dictionary of parsed descriptors. */
  class SchemaCache {
    /** The parser the dictionary is filled from. */
    const parse: Parser
    var cache: map<string, TypeSchema>

    /** Every cached record is what the parser makes of its key. */
    ghost predicate Valid()
      reads this
    {
      forall line :: line in cache ==> parse(line) == Ok(cache[line])
    }

    /** The library's dictionary starts empty and is filled by ParseSchema. */
    constructor ()
      ensures Valid() && cache == map[] && parse == ParseSchema
    {
      parse := ParseSchema;
      cache := map[];
    }

    /** A hit returns the cached record and leaves the cache alone; a successful miss
        adds exactly one entry, keyed by the line; a failing parse adds nothing. */
    method Parse(line: string) returns (r: Result<TypeSchema>)
      requires Valid()
      modifies this
      ensures Valid()
      ensures r == parse(line)
      ensures line in old(cache) ==> r == Ok(old(cache)[line]) && cache == old(cache)
      ensures line !in old(cache) && r.Ok? ==> cache == old(cache)[line := r.value]
      ensures r.Err? ==> cache == old(cache)
    {
      if line in cache {
        return Ok(cache[line]);
      }
      r := parse(line);
      if r.Ok? {
        cache := cache[line := r.value];
      }
    }
  }

  /** Two calls with the same line return the same record. */
  method ParseTwice(c: SchemaCache, line: string) returns (first: Result<TypeSchema>, second: Result<TypeSchema>)
    requires c.Valid()
    modifies c
    ensures c.Valid()
    ensures first == second
  {
    first := c.Parse(line);
    second := c.Parse(line);
  }
}
