/** The string mappings the entity generator uses to turn schema entries into C#
    declarations, and the pass that reads the service-type lines into the schema. */
module EntityGenerator {
  import opened Wrappers
  import opened Text
  import opened GeneratorParser

  // ---- Reserved words ----

  const ReservedWords: set<string> :=
    {"default", "delete", "static", "public", "null", "true", "false", "long", "out", "params", "private"}

  /** A C# keyword used as a parameter name gets the verbatim prefix '@'. */
  function ReplaceReservedString(name: string): (r: string)
    ensures name in ReservedWords ==> r == "@" + name
    ensures name !in ReservedWords ==> r == name
  {
    if name in ReservedWords then "@" + name else name
  }

  /** No escaped name is itself a keyword. */
  lemma EscapedNeverReserved(name: string)
    ensures ReplaceReservedString(name) !in ReservedWords
  {
    if name in ReservedWords {
      var r := "@" + name;
      assert r[0] == '@';
    }
  }

  /** Escaping loses nothing: names that do not already begin with '@' stay distinct. */
  lemma EscapeInjective(a: string, b: string)
    requires a == [] || a[0] != '@'
    requires b == [] || b[0] != '@'
    requires ReplaceReservedString(a) == ReplaceReservedString(b)
    ensures a == b
  {
    var ra, rb := ReplaceReservedString(a), ReplaceReservedString(b);
    if a in ReservedWords && b in ReservedWords {
      assert a == ra[1..] && b == rb[1..];
    }
  }

  // ---- Property types ----

  /** The text left of one Vector type once every "Vector<", "vector<" and ">" is removed. */
  function StripVector(t: string): string
  {
    Replace(Replace(Replace(t, "Vector<", ""), "vector<", ""), ">", "")
  }

  /** Removing every occurrence of a pattern never lengthens a text and leaves it as it
      was when the length does not change. */
  lemma {:induction false} ReplaceEmptyShrinks(s: string, pat: string)
    requires |pat| > 0
    ensures |Replace(s, pat, "")| <= |s|
    ensures |Replace(s, pat, "")| == |s| ==> Replace(s, pat, "") == s
    decreases |s|
  {
    if |s| >= |pat| {
      if s[..|pat|] == pat {
        ReplaceEmptyShrinks(s[|pat|..], pat);
      } else {
        ReplaceEmptyShrinks(s[1..], pat);
        assert s == [s[0]] + s[1..];
      }
    }
  }

  lemma StripVectorShrinks(t: string)
    ensures |StripVector(t)| <= |t|
    ensures |StripVector(t)| == |t| ==> StripVector(t) == t
  {
    var a := Replace(t, "Vector<", "");
    var b := Replace(a, "vector<", "");
    ReplaceEmptyShrinks(t, "Vector<");
    ReplaceEmptyShrinks(a, "vector<");
    ReplaceEmptyShrinks(b, ">");
  }

  /** The last piece of a split is a suffix of the text, shorter exactly when the
      separator occurs. */
  lemma {:induction false} LastSplitSuffix(s: string, c: char)
    ensures |Last(Split(s, c))| <= |s|
    ensures Last(Split(s, c)) == s[|s| - |Last(Split(s, c))|..]
    ensures Last(Split(s, c)) == s <==> c !in s
    decreases |s|
  {
    var i := IndexOf(s, c);
    if i < |s| {
      LastSplitSuffix(s[i + 1..], c);
      assert Last(Split(s, c)) == Last(Split(s[i + 1..], c));
    } else {
      SplitNone(s, c);
    }
  }

  /** The arms of the type switch that map a fixed name, and the names kept as they are. */
  const FixedTypeStr: map<string, string> :=
    map["true" := "bool", "date" := "DateTime", "bytes" := "byte[]", "int128" := "byte[]", "int256" := "byte[]"]
  const PrimitiveTypes: set<string> := {"string", "bool", "int", "long", "double"}

  predicate IsVectorType(t: string)
  {
    StartsWith(t, "Vector") || StartsWith(t, "vector")
  }

  /** GetTypeParameterTypeStr. A "flags" type maps like the text after its last '?', and
      a Vector type becomes IReadOnlyList of the mapping of what StripVector leaves. When
      that text is the argument itself (a "flags" type without '?', a "Vector" type with
      nothing to strip) the source recurses on the same string forever: `Diverges`. */
  function GetTypeParameterTypeStr(t: string): (r: Result<string>)
    ensures r.Err? ==> r.error == Diverges
    decreases |t|
  {
    if t in FixedTypeStr then Ok(FixedTypeStr[t])
    else if StartsWith(t, "flags") then
      var inner := Last(Split(t, '?'));
      LastSplitSuffix(t, '?');
      if inner != t then GetTypeParameterTypeStr(inner) else Err(Diverges)
    else if IsVectorType(t) then
      var inner := StripVector(t);
      StripVectorShrinks(t);
      if inner != t then
        var item :- GetTypeParameterTypeStr(inner);
        Ok("IReadOnlyList<" + item + ">")
      else Err(Diverges)
    else if t in PrimitiveTypes then Ok(t)
    else Ok("PP.Entity." + t)
  }

  /** A flagged parameter `flags.N?T` has the property type of T. */
  lemma TypeStrFlagged(bit: string, t: string)
    requires '?' !in bit && '?' !in t
    ensures GetTypeParameterTypeStr("flags." + bit + "?" + t) == GetTypeParameterTypeStr(t)
  {
    var s := "flags." + bit + "?" + t;
    SplitOne(s, '?', |bit| + 6);
    assert s[|bit| + 7..] == t;
    assert s[..5] == "flags";
    FlagsArm(s, t);
  }

  /** The flags arm of the type switch. */
  lemma FlagsArm(s: string, inner: string)
    requires |s| >= 7 && s[..5] == "flags" && Last(Split(s, '?')) == inner && inner != s
    ensures GetTypeParameterTypeStr(s) == GetTypeParameterTypeStr(inner)
  {
    assert s !in FixedTypeStr;
  }

  lemma StripVectorOf(t: string)
    requires '<' !in t && '>' !in t
    ensures StripVector("Vector<" + t + ">") == t
  {
    var s := "Vector<" + t + ">";
    assert s[..7] == "Vector<";
    assert s[7..] == t + ">";
    assert Replace(s, "Vector<", "") == Replace(t + ">", "Vector<", "");
    ReplaceAbsent(t + ">", "Vector<", "", '<');
    ReplaceAbsent(t + ">", "vector<", "", '<');
    ReplaceTrailing(t, '>');
  }

  /** `Vector<T>` for an item type T without angle brackets is IReadOnlyList of T's type. */
  lemma TypeStrVector(t: string)
    requires '<' !in t && '>' !in t
    ensures GetTypeParameterTypeStr("Vector<" + t + ">") ==
      match GetTypeParameterTypeStr(t)
      case Ok(x) => Ok("IReadOnlyList<" + x + ">")
      case Err(e) => Err(e)
  {
    var s := "Vector<" + t + ">";
    StripVectorOf(t);
    assert s[0] == 'V' && |s| >= 8;
    assert !StartsWith(s, "flags");
    assert StartsWith(s, "Vector");
    assert s != t;
  }

  lemma StripNestedVector()
    ensures StripVector("Vector<Vector<int>>") == "int"
  {
    StripNestedOpeners();
    ReplaceAbsent("int>>", "vector<", "", '<');
    StripClosers();
  }

  lemma StripNestedOpeners()
    ensures Replace("Vector<Vector<int>>", "Vector<", "") == "int>>"
  {
    var s := "Vector<Vector<int>>";
    assert s[..7] == "Vector<" && s[7..] == "Vector<int>>";
    var u := "Vector<int>>";
    assert u[..7] == "Vector<" && u[7..] == "int>>";
    assert Replace(u, "Vector<", "") == Replace("int>>", "Vector<", "");
    ReplaceAbsent("int>>", "Vector<", "", '<');
  }

  lemma StripClosers()
    ensures Replace("int>>", ">", "") == "int"
  {
    assert "int>>" == "int>" + ">" && "int>" == "int" + ">";
    ReplaceSnocOne("int>", '>');
    ReplaceSnocOne("int", '>');
    ReplaceAbsent("int", ">", "", '>');
  }

  /** Nested vectors collapse: every level of "Vector<" is stripped at once, so the
      element type of a vector of vectors is the innermost type. */
  lemma NestedVectorCollapses()
    ensures GetTypeParameterTypeStr("Vector<Vector<int>>").Ok?
    ensures GetTypeParameterTypeStr("Vector<Vector<int>>").value == "IReadOnlyList<int>"
  {
    var s := "Vector<Vector<int>>";
    StripNestedVector();
    assert GetTypeParameterTypeStr("int") == Ok("int");
    VectorPrefixed(s);
    VectorArm(s, "int", "int");
  }

  /** A type spelled with "Vector<" takes the Vector arm. */
  lemma VectorPrefixed(s: string)
    requires |s| >= 8 && s[..7] == "Vector<"
    ensures IsVectorType(s) && !StartsWith(s, "flags") && s !in FixedTypeStr
  {
    assert s[0] == 'V';
  }

  /** The Vector arm of the type switch. */
  lemma VectorArm(s: string, inner: string, item: string)
    requires IsVectorType(s) && !StartsWith(s, "flags") && s !in FixedTypeStr
    requires StripVector(s) == inner && inner != s && GetTypeParameterTypeStr(inner) == Ok(item)
    ensures GetTypeParameterTypeStr(s) == Ok("IReadOnlyList<" + item + ">")
  {
  }

  /** Removing a one-character pattern from a text that ends with it. */
  lemma {:induction false} ReplaceSnocOne(s: string, c: char)
    ensures Replace(s + [c], [c], "") == Replace(s, [c], "")
    decreases |s|
  {
    if s == [] {
      assert Replace([c], [c], "") == "" + Replace([], [c], "");
    } else {
      assert (s + [c])[1..] == s[1..] + [c];
      ReplaceSnocOne(s[1..], c);
    }
  }

  // ---- Initializers ----

  /** FirstOrDefault(t => t.ToLower().Contains("empty")). */
  function FirstEmptyNamed(cs: seq<string>): (r: Option<string>)
    ensures r.None? <==> forall i :: 0 <= i < |cs| ==> !Contains(ToLowerAscii(cs[i]), "empty")
    ensures r.Some? ==> exists k :: (0 <= k < |cs| && cs[k] == r.value && Contains(ToLowerAscii(cs[k]), "empty")
      && forall j :: 0 <= j < k ==> !Contains(ToLowerAscii(cs[j]), "empty"))
  {
    if cs == [] then None
    else if Contains(ToLowerAscii(cs[0]), "empty") then Some(cs[0])
    else
      var r := FirstEmptyNamed(cs[1..]);
      assert r.Some? ==> exists k :: (0 <= k < |cs| && cs[k] == r.value && Contains(ToLowerAscii(cs[k]), "empty")
        && forall j :: 0 <= j < k ==> !Contains(ToLowerAscii(cs[j]), "empty")) by {
        if r.Some? {
          var k :| 0 <= k < |cs[1..]| && cs[1..][k] == r.value && Contains(ToLowerAscii(cs[1..][k]), "empty")
            && forall j :: 0 <= j < k ==> !Contains(ToLowerAscii(cs[1..][j]), "empty");
          assert forall j :: 0 <= j < k + 1 ==> !Contains(ToLowerAscii(cs[j]), "empty") by {
            forall j | 0 <= j < k + 1 ensures !Contains(ToLowerAscii(cs[j]), "empty") {
              if j > 0 { assert cs[j] == cs[1..][j - 1]; }
            }
          }
        }
      }
      r
  }

  /** The constructor a property of an object type is initialised with: the first one
      whose name mentions "empty", else the first; a type with none is an error. */
  function DefaultConstructor(cs: seq<string>): (r: Result<string>)
    ensures r.Err? <==> cs == []
    ensures r.Ok? ==> r.value in cs
  {
    match FirstEmptyNamed(cs)
    case Some(c) => Ok(c)
    case None => if cs == [] then Err(EmptySequence) else Ok(cs[0])
  }

  /** The arms of the initializer switch that give a fixed value. */
  const FixedInitializers: map<string, string> :=
    map["true" := "true", "date" := "default(DateTime)", "bool" := "default(bool)", "int" := "default(int)",
        "long" := "default(long)", "double" := "default(double)", "string" := "string.Empty",
        "bytes" := "new byte[0]", "int128" := "new byte[0]", "int256" := "new byte[0]"]

  /** The C# initial value for a property of the given schema type; `allTypes` maps an
      object type to its "name#id" constructor entries. */
  function InitialValue(t: string, allTypes: map<string, seq<string>>): Result<string>
  {
    if t in FixedInitializers then Ok(FixedInitializers[t])
    else if IsVectorType(t) then
      var item :- GetTypeParameterTypeStr(StripVector(t));
      Ok("new List<" + item + ">()")
    else if t in allTypes then
      var c :- DefaultConstructor(allTypes[t]);
      Ok("new PP.Entity." + Split(c, '#')[0] + "_ctr()")
    else Ok("new ()")
  }

  /** WriteInitializerForParameter. */
  function WriteInitializerForParameter(t: string, allTypes: map<string, seq<string>>): (r: Result<string>)
    ensures r.Ok? ==> StartsWith(r.value, " = ")
  {
    var value :- InitialValue(t, allTypes);
    Ok(" = " + value)
  }

  /** A byte-array property starts as an empty array. */
  predicate StartsAsEmptyArray(t: string, allTypes: map<string, seq<string>>)
  {
    && GetTypeParameterTypeStr(t) == Ok("byte[]") && WriteInitializerForParameter(t, allTypes).Ok?
    && WriteInitializerForParameter(t, allTypes).value == " = new byte[0]"
  }

  /** Strings start empty, and every byte-array type starts as an empty array. */
  lemma InitializerOfStringsAndBytes(allTypes: map<string, seq<string>>)
    ensures WriteInitializerForParameter("string", allTypes).Ok?
    ensures WriteInitializerForParameter("string", allTypes).value == " = string.Empty"
    ensures StartsAsEmptyArray("bytes", allTypes) && StartsAsEmptyArray("int128", allTypes)
    ensures StartsAsEmptyArray("int256", allTypes)
  {
    StringStartsEmpty(allTypes);
    ByteArrayStartsEmpty("bytes", allTypes);
    ByteArrayStartsEmpty("int128", allTypes);
    ByteArrayStartsEmpty("int256", allTypes);
  }

  lemma StringStartsEmpty(allTypes: map<string, seq<string>>)
    ensures WriteInitializerForParameter("string", allTypes).Ok?
    ensures WriteInitializerForParameter("string", allTypes).value == " = string.Empty"
  {
    assert "string" in FixedInitializers && FixedInitializers["string"] == "string.Empty";
  }

  lemma ByteArrayStartsEmpty(t: string, allTypes: map<string, seq<string>>)
    requires t == "bytes" || t == "int128" || t == "int256"
    ensures StartsAsEmptyArray(t, allTypes)
  {
    assert t in FixedInitializers && FixedInitializers[t] == "new byte[0]";
    assert GetTypeParameterTypeStr(t) == Ok("byte[]");
  }

  /** A `Vector<T>` property starts as a new List of T's property type, the item type
      of its IReadOnlyList (TypeStrVector). */
  lemma InitializerOfVectors(t: string, item: string, allTypes: map<string, seq<string>>)
    requires '<' !in t && '>' !in t
    requires GetTypeParameterTypeStr(t) == Ok(item)
    ensures WriteInitializerForParameter("Vector<" + t + ">", allTypes).Ok?
    ensures WriteInitializerForParameter("Vector<" + t + ">", allTypes).value == " = new List<" + item + ">()"
  {
    var v := "Vector<" + t + ">";
    assert |v| >= 8 && StartsWith(v, "Vector") by { assert v[..6] == "Vector"; }
    InitialListOf(t, item, allTypes);
    InitializerOfList(v, item, allTypes);
  }

  lemma InitialListOf(t: string, item: string, allTypes: map<string, seq<string>>)
    requires '<' !in t && '>' !in t
    requires GetTypeParameterTypeStr(t) == Ok(item)
    requires |"Vector<" + t + ">"| >= 8 && StartsWith("Vector<" + t + ">", "Vector")
    ensures InitialValue("Vector<" + t + ">", allTypes) == Ok("new List<" + item + ">()")
  {
    VectorInitialValue("Vector<" + t + ">", allTypes);
    StripVectorOf(t);
  }

  lemma InitializerOfList(v: string, item: string, allTypes: map<string, seq<string>>)
    requires InitialValue(v, allTypes) == Ok("new List<" + item + ">()")
    ensures WriteInitializerForParameter(v, allTypes).Ok?
    ensures WriteInitializerForParameter(v, allTypes).value == " = new List<" + item + ">()"
  {
    assert " = " + ("new List<" + item + ">()") == " = new List<" + item + ">()";
  }

  lemma VectorInitialValue(v: string, allTypes: map<string, seq<string>>)
    requires |v| >= 8 && StartsWith(v, "Vector")
    ensures InitialValue(v, allTypes) ==
      match GetTypeParameterTypeStr(StripVector(v))
      case Ok(item) => Ok("new List<" + item + ">()")
      case Err(e) => Err(e)
  {
    assert v !in FixedInitializers;
  }

  /** Exactly bytes, int128, int256 and the flagged forms of these map to byte[];
      for the unflagged ones it is the three names. */
  lemma ByteArrayTypes(t: string)
    requires GetTypeParameterTypeStr(t) == Ok("byte[]")
    requires !StartsWith(t, "flags")
    ensures t == "bytes" || t == "int128" || t == "int256"
  {

  }

  // ---- Property declarations ----

  function Indent(): string { "            " }

  /** What follows the accessors: nothing for a flagged parameter, the initializer and
      a ';' otherwise. */
  function InitializerPart(p: TLTypeParams, allTypes: map<string, seq<string>>): Result<string>
  {
    if StartsWith(p.typ, "flags") then Ok("")
    else
      var i :- WriteInitializerForParameter(p.typ, allTypes);
      Ok(i + ";")
  }

  /** One property declaration: a nullable type and no initializer for a flagged
      parameter, the type and its initializer otherwise. */
  function ParamDeclaration(p: TLTypeParams, allTypes: map<string, seq<string>>): Result<string>
  {
    var t :- GetTypeParameterTypeStr(p.typ);
    var init :- InitializerPart(p, allTypes);
    Ok("\n" + Indent() + "public " + t + (if StartsWith(p.typ, "flags") then "?" else "") + " "
       + ReplaceReservedString(p.name) + " { get; set; }" + init + "\n")
  }

  /** WriteTLTypeParams: the declarations of every parameter except `flags`, in order. */
  function WriteTLTypeParams(ps: seq<TLTypeParams>, allTypes: map<string, seq<string>>): Result<string>
  {
    if ps == [] then Ok("")
    else if ps[0].name == "flags" then WriteTLTypeParams(ps[1..], allTypes)
    else
      var d :- ParamDeclaration(ps[0], allTypes);
      var rest :- WriteTLTypeParams(ps[1..], allTypes);
      Ok(d + rest)
  }

  /** The declarations of a concatenation are the concatenated declarations; the first
      failing parameter decides the error. */
  lemma {:induction false} WriteTLTypeParamsAppend(a: seq<TLTypeParams>, b: seq<TLTypeParams>, allTypes: map<string, seq<string>>)
    ensures WriteTLTypeParams(a + b, allTypes) ==
      match WriteTLTypeParams(a, allTypes)
      case Err(e) => Err(e)
      case Ok(x) => match WriteTLTypeParams(b, allTypes)
        case Err(e) => Err(e)
        case Ok(y) => Ok(x + y)
  {
    if a == [] {
      assert a + b == b;
      match WriteTLTypeParams(b, allTypes)
      case Err(e) =>
      case Ok(y) => assert "" + y == y;
    } else {
      assert (a + b)[0] == a[0];
      assert (a + b)[1..] == a[1..] + b;
      WriteTLTypeParamsAppend(a[1..], b, allTypes);
      match WriteTLTypeParams(a[1..], allTypes)
      case Err(e) =>
      case Ok(x) =>
        match WriteTLTypeParams(b, allTypes)
        case Err(e) =>
        case Ok(y) =>
          if a[0].name != "flags" {
            match ParamDeclaration(a[0], allTypes)
            case Err(e) =>
            case Ok(d) => assert d + (x + y) == (d + x) + y;
          }
    }
  }

  /** The `flags` parameter, wherever it stands, contributes nothing. */
  lemma FlagsParamOmitted(a: seq<TLTypeParams>, t: string, b: seq<TLTypeParams>, allTypes: map<string, seq<string>>)
    ensures WriteTLTypeParams(a + [TLTypeParams("flags", t)] + b, allTypes) == WriteTLTypeParams(a + b, allTypes)
  {
    var f := [TLTypeParams("flags", t)];
    WriteTLTypeParamsAppend(a + f, b, allTypes);
    WriteTLTypeParamsAppend(a, f, allTypes);
    WriteTLTypeParamsAppend(a, b, allTypes);
    assert WriteTLTypeParams(f, allTypes) == Ok("") by {
      assert f[1..] == [];
    }
    match WriteTLTypeParams(a, allTypes)
    case Err(e) =>
    case Ok(x) => assert x + "" == x;
  }

  /** A flagged parameter is declared nullable, without initializer; any other one
      carries the initializer of its type. */
  lemma DeclarationShape(p: TLTypeParams, allTypes: map<string, seq<string>>)
    requires GetTypeParameterTypeStr(p.typ).Ok?
    ensures var t := GetTypeParameterTypeStr(p.typ).value;
      var head := "\n" + Indent() + "public " + t;
      var name := ReplaceReservedString(p.name);
      && (StartsWith(p.typ, "flags") ==>
            ParamDeclaration(p, allTypes) == Ok(head + "? " + name + " { get; set; }\n"))
      && (!StartsWith(p.typ, "flags") && WriteInitializerForParameter(p.typ, allTypes).Ok? ==>
            ParamDeclaration(p, allTypes) ==
              Ok(head + " " + name + " { get; set; }" + WriteInitializerForParameter(p.typ, allTypes).value + ";\n"))
  {
    var t := GetTypeParameterTypeStr(p.typ).value;
    var head := "\n" + Indent() + "public " + t;
    var name := ReplaceReservedString(p.name);
    if StartsWith(p.typ, "flags") {
      assert head + "?" + " " + name + " { get; set; }" + "" + "\n" == head + "? " + name + " { get; set; }\n";
    } else if WriteInitializerForParameter(p.typ, allTypes).Ok? {
      var i := WriteInitializerForParameter(p.typ, allTypes).value;
      assert head + "" + " " + name + " { get; set; }" + (i + ";") + "\n" == head + " " + name + " { get; set; }" + i + ";\n";
    }
  }

  // ---- EnrichSchema ----

  const Marker: string := "--functions--"

  /** The outcome of reading service-type lines: the entries appended, and the error
      that stopped the pass, if any. */
  datatype Enriched = Enriched(constructors: seq<TLType>, methods: seq<TLType>, failure: Option<Error>)

  /** One line of EnrichSchema: blank lines and the marker are skipped, a line that
      fails to parse stops the pass, and an entry is appended to its own list. */
  function EnrichStep(prev: Enriched, line: string, isMethod: bool): Enriched
  {
    if prev.failure.Some? || IsBlank(line) || line == Marker then prev
    else match ParseLine(line, isMethod)
      case Err(e) => prev.(failure := Some(e))
      case Ok(t) =>
        if t.TLMethod? then prev.(methods := prev.methods + [t])
        else prev.(constructors := prev.constructors + [t])
  }

  /** The effect of EnrichSchema over `lines`: each line is a method once a marker
      precedes it, and the first line that fails to parse stops the pass with what was
      appended before it. */
  function Enrich(lines: seq<string>): (r: Enriched)
    decreases |lines|
  {
    if lines == [] then Enriched([], [], None)
    else EnrichStep(Enrich(lines[..|lines| - 1]), Last(lines), Marker in lines[..|lines| - 1])
  }

  lemma EnrichSnoc(lines: seq<string>, line: string)
    ensures Enrich(lines + [line]) == EnrichStep(Enrich(lines), line, Marker in lines)
  {
    assert (lines + [line])[..|lines|] == lines;
  }

  /** EnrichSchema. */
  method EnrichSchema(schema: GeneratorSchema, serviceTypes: seq<string>) returns (r: Result<()>)
    modifies schema
    ensures schema.constructors == old(schema.constructors) + Enrich(serviceTypes).constructors
    ensures schema.methods == old(schema.methods) + Enrich(serviceTypes).methods
    ensures r.Err? <==> Enrich(serviceTypes).failure.Some?
    ensures r.Err? ==> r.error == Enrich(serviceTypes).failure.value
  {
    ghost var cs, ms := schema.constructors, schema.methods;
    var isMethod := false;
    var i := 0;
    while i < |serviceTypes|
      invariant i <= |serviceTypes|
      invariant isMethod == (Marker in serviceTypes[..i])
      invariant Enrich(serviceTypes[..i]).failure.None?
      invariant schema.constructors == cs + Enrich(serviceTypes[..i]).constructors
      invariant schema.methods == ms + Enrich(serviceTypes[..i]).methods
    {
      var line := serviceTypes[i];
      ghost var prev := Enrich(serviceTypes[..i]);
      EnrichLineFacts(serviceTypes, i);
      MarkerNotBlank();
      if IsBlank(line) {
        i := i + 1;
        continue;
      }
      if line == Marker {
        isMethod := true;
        i := i + 1;
        continue;
      }
      var stop := AddEntry(schema, line, isMethod, prev, cs, ms);
      if stop.Some? {
        EnrichStopped(serviceTypes, i + 1);
        assert serviceTypes[..|serviceTypes|] == serviceTypes;
        return Err(stop.value);
      }
      i := i + 1;
    }
    assert serviceTypes[..i] == serviceTypes;
    r := Ok(());
  }

  /** The body of the loop for a line that is neither blank nor the marker: the line is
      parsed and appended to its list, or the error returned. */
  method AddEntry(schema: GeneratorSchema, line: string, isMethod: bool, ghost prev: Enriched,
                  ghost cs: seq<TLType>, ghost ms: seq<TLType>) returns (stop: Option<Error>)
    requires prev.failure.None? && !IsBlank(line) && line != Marker
    requires schema.constructors == cs + prev.constructors && schema.methods == ms + prev.methods
    modifies schema
    ensures stop == EnrichStep(prev, line, isMethod).failure
    ensures stop.None? ==> schema.constructors == cs + EnrichStep(prev, line, isMethod).constructors
    ensures stop.None? ==> schema.methods == ms + EnrichStep(prev, line, isMethod).methods
    ensures stop.Some? ==> unchanged(schema) && EnrichStep(prev, line, isMethod) == prev.(failure := stop)
  {
    var parsed := ParseLine(line, isMethod);
    match parsed
    case Err(e) =>
      return Some(e);
    case Ok(t) =>
      if t.TLMethod? {
        schema.methods := schema.methods + [t];
        assert ms + prev.methods + [t] == ms + (prev.methods + [t]);
      } else {
        schema.constructors := schema.constructors + [t];
        assert cs + prev.constructors + [t] == cs + (prev.constructors + [t]);
      }
      return None;
  }

  /** How one more line extends the pass and the marker test. */
  lemma EnrichLineFacts(lines: seq<string>, i: nat)
    requires i < |lines|
    ensures Enrich(lines[..i + 1]) == EnrichStep(Enrich(lines[..i]), lines[i], Marker in lines[..i])
    ensures (Marker in lines[..i + 1]) <==> (Marker in lines[..i] || lines[i] == Marker)
  {
    SliceSnoc(lines, 0, i + 1);
    EnrichSnoc(lines[..i], lines[i]);
  }

  lemma MarkerNotBlank()
    ensures !IsBlank(Marker)
  {
    assert !IsWhiteSpace(Marker[0]);
  }

  /** Once a line has failed, later lines change nothing. */
  lemma {:induction false} EnrichStopped(lines: seq<string>, n: nat)
    requires n <= |lines|
    requires Enrich(lines[..n]).failure.Some?
    ensures Enrich(lines) == Enrich(lines[..n])
    decreases |lines| - n
  {
    if n < |lines| {
      assert lines[..n + 1] == lines[..n] + [lines[n]];
      EnrichSnoc(lines[..n], lines[n]);
      EnrichStopped(lines, n + 1);
    } else {
      assert lines[..n] == lines;
    }
  }

  // ---- EnrichSchema against an independent reading ----

  /** Index of the first marker line, |lines| when there is none. */
  function MarkerIndex(lines: seq<string>): (k: nat)
    ensures k <= |lines|
    ensures k < |lines| ==> lines[k] == Marker
    ensures forall j :: 0 <= j < k ==> lines[j] != Marker
  {
    if lines == [] || lines[0] == Marker then 0 else 1 + MarkerIndex(lines[1..])
  }

  /** Every line that is neither blank nor the marker, parsed with the same flag, in
      order; the first failure is the result. */
  function ParseAll(lines: seq<string>, isMethod: bool): Result<seq<TLType>>
  {
    if lines == [] then Ok([])
    else if IsBlank(lines[0]) || lines[0] == Marker then ParseAll(lines[1..], isMethod)
    else
      var t :- ParseLine(lines[0], isMethod);
      var rest :- ParseAll(lines[1..], isMethod);
      Ok([t] + rest)
  }

  lemma {:induction false} ParseAllSnoc(a: seq<string>, x: string, isMethod: bool)
    ensures ParseAll(a + [x], isMethod) ==
      match ParseAll(a, isMethod)
      case Err(e) => Err(e)
      case Ok(s) =>
        if IsBlank(x) || x == Marker then Ok(s)
        else match ParseLine(x, isMethod)
          case Err(e) => Err(e)
          case Ok(t) => Ok(s + [t])
  {
    if a == [] {
      assert [] + [x] == [x];
      assert [x][1..] == [];
      if !(IsBlank(x) || x == Marker) {
        match ParseLine(x, isMethod)
        case Err(e) =>
        case Ok(t) => assert [t] + [] == [] + [t];
      }
    } else {
      assert (a + [x])[0] == a[0];
      assert (a + [x])[1..] == a[1..] + [x];
      ParseAllSnoc(a[1..], x, isMethod);
      match ParseAll(a[1..], isMethod)
      case Err(e) =>
      case Ok(s) =>
        if !(IsBlank(a[0]) || a[0] == Marker) {
          match ParseLine(a[0], isMethod)
          case Err(e) =>
          case Ok(t0) =>
            if !(IsBlank(x) || x == Marker) {
              match ParseLine(x, isMethod)
              case Err(e) =>
              case Ok(t) => assert [t0] + (s + [t]) == ([t0] + s) + [t];
            }
        }
    }
  }

  lemma {:induction false} ParseAllKind(lines: seq<string>, isMethod: bool)
    ensures ParseAll(lines, isMethod).Ok? ==>
      forall i :: 0 <= i < |ParseAll(lines, isMethod).value| ==> (ParseAll(lines, isMethod).value[i].TLMethod? <==> isMethod)
  {
    if lines != [] {
      ParseAllKind(lines[1..], isMethod);
    }
  }

  /** EnrichSchema on the first `n` lines, against ParseAll on both sides of the marker. */
  ghost predicate PrefixAgrees(lines: seq<string>, n: nat)
    requires n <= |lines|
  {
    var k := MarkerIndex(lines);
    var e := Enrich(lines[..n]);
    if n <= k then
      && (e.failure.None? <==> ParseAll(lines[..n], false).Ok?)
      && (e.failure.None? ==> e.constructors == ParseAll(lines[..n], false).value && e.methods == [])
    else
      && (e.failure.None? <==> ParseAll(lines[..k], false).Ok? && ParseAll(lines[k..n], true).Ok?)
      && (e.failure.None? ==> e.constructors == ParseAll(lines[..k], false).value
                              && e.methods == ParseAll(lines[k..n], true).value)
  }

  /** The marker line alone parses to nothing. */
  lemma ParseAllMarker(lines: seq<string>, k: nat)
    requires k < |lines| && lines[k] == Marker
    ensures ParseAll(lines[k..k + 1], true) == Ok([])
  {
    assert lines[k..k + 1] == [lines[k]];
    assert [lines[k]][1..] == [];
  }

  lemma {:induction false} EnrichPrefix(lines: seq<string>, n: nat)
    requires n <= |lines|
    ensures PrefixAgrees(lines, n)
  {
    var k := MarkerIndex(lines);
    if n == 0 {
      assert lines[..0] == [];
    } else {
      EnrichPrefix(lines, n - 1);
      if n <= k {
        EnrichPrefixBefore(lines, n);
      } else if n == k + 1 {
        EnrichPrefixAt(lines, n);
      } else {
        EnrichPrefixAfter(lines, n);
      }
    }
  }

  /** A line before the marker. */
  lemma EnrichPrefixBefore(lines: seq<string>, n: nat)
    requires 0 < n <= MarkerIndex(lines) && PrefixAgrees(lines, n - 1)
    ensures PrefixAgrees(lines, n)
  {
    var pre := lines[..n - 1];
    var x := lines[n - 1];
    assert lines[..n] == pre + [x];
    EnrichSnoc(pre, x);
    ParseAllKind(pre, false);
    assert Marker !in pre by {
      forall j | 0 <= j < |pre| ensures pre[j] != Marker { assert pre[j] == lines[j]; }
    }
    ParseAllSnoc(pre, x, false);
    ParseAllKind(pre + [x], false);
  }

  /** The marker itself. */
  lemma EnrichPrefixAt(lines: seq<string>, n: nat)
    requires n <= |lines| && n == MarkerIndex(lines) + 1 && PrefixAgrees(lines, n - 1)
    ensures PrefixAgrees(lines, n)
  {
    var k := n - 1;
    var pre := lines[..k];
    var x := lines[k];
    assert Enrich(lines[..n]) == Enrich(pre) by {
      SliceSnoc(lines, 0, n);
      EnrichSnoc(pre, x);
      SkipMarker(Enrich(pre), x, Marker in pre);
    }
    ParseAllMarker(lines, k);
  }

  lemma SliceSnoc<T>(s: seq<T>, i: nat, j: nat)
    requires i < j <= |s|
    ensures s[i..j] == s[i..j - 1] + [s[j - 1]]
    ensures s[..j] == s[..j - 1] + [s[j - 1]]
  {
  }

  /** The marker line appends nothing. */
  lemma SkipMarker(prev: Enriched, line: string, isMethod: bool)
    requires line == Marker
    ensures EnrichStep(prev, line, isMethod) == prev
  {
  }

  /** A line after the marker. */
  lemma EnrichPrefixAfter(lines: seq<string>, n: nat)
    requires MarkerIndex(lines) + 1 < n <= |lines| && PrefixAgrees(lines, n - 1)
    ensures PrefixAgrees(lines, n)
  {
    var k := MarkerIndex(lines);
    var pre := lines[..n - 1];
    var x := lines[n - 1];
    var post := lines[k..n - 1];
    assert Enrich(lines[..n]) == EnrichStep(Enrich(pre), x, true) by {
      SliceSnoc(lines, 0, n);
      EnrichSnoc(pre, x);
      assert pre[k] == Marker;
    }
    SliceSnoc(lines, k, n);
    ParseAllSnoc(post, x, true);
    ParseAllKind(post, true);
    ParseAllKind(post + [x], true);
  }

  /** EnrichSchema appends the lines before the first marker as constructors and those
      after it as methods, each in input order, skipping blank lines and the marker; it
      succeeds exactly when every such line parses. */
  lemma EnrichSplitsAtMarker(lines: seq<string>)
    ensures var k := MarkerIndex(lines);
      var e := Enrich(lines);
      && (e.failure.None? <==> ParseAll(lines[..k], false).Ok? && ParseAll(lines[k..], true).Ok?)
      && (e.failure.None? ==> e.constructors == ParseAll(lines[..k], false).value
                              && e.methods == ParseAll(lines[k..], true).value)
  {
    var k := MarkerIndex(lines);
    EnrichPrefix(lines, |lines|);
    assert lines[..|lines|] == lines;
    assert lines[k..|lines|] == lines[k..];
    if k == |lines| {
      assert lines[k..] == [];
    }
  }
}
