/** The property values of generated TL entities, as TLObjectBase reaches them by
    reflection, and the classification of a schema parameter's type that its Estimate,
    ReadFromStream and WriteToStream each switch on. */
module TLValues {
  import opened Wrappers
  import opened Bytes
  import opened Text
  import TLSchema
  import EntityGenerator

  /** The element type of a generated IReadOnlyList property. */
  datatype ItemKind = IntItem | LongItem | BytesItem | StringItem | BoolItem | DoubleItem | DateItem | ObjectItem

  /** A property value. A double is kept as its IEEE-754 bit pattern, a DateTime as whole
      seconds from the Unix epoch, a string as its UTF-8 bytes and its `Length` in UTF-16
      units (for a string decoded from bytes, their Utf16Length), a list with its element
      type (a List<long> is not an IReadOnlyList<TLObjectBase>, even when empty). */
  datatype Value =
    | IntV(i: int32)
    | LongV(l: int64)
    | DoubleV(bits: int64)
    | BoolV(b: bool)
    | DateV(seconds: int32)
    | BytesV(bytes: seq<byte>)
    | StrV(utf8: seq<byte>, units: nat)
    | ListV(kind: ItemKind, items: seq<Value>)
    | ObjectV(obj: TLObject)

  /** C#'s `Length` of the string whose UTF-8 encoding is `utf8`, in UTF-16 code units:
      one per character, and two for a character beyond U+FFFF, the one UTF-8 encodes in
      four bytes led by 0xF0 or above. Continuation bytes (0x80 to 0xBF) add nothing. */
  function Utf16Length(utf8: seq<byte>): nat
    decreases |utf8|
  {
    if utf8 == [] then 0
    else (if 0x80 <= utf8[0] < 0xC0 then 0 else if utf8[0] >= 0xF0 then 2 else 1) + Utf16Length(utf8[1..])
  }

  /** An ASCII string has as many UTF-16 units as UTF-8 bytes. */
  lemma {:induction false} Utf16LengthAscii(utf8: seq<byte>)
    requires forall i :: 0 <= i < |utf8| ==> utf8[i] < 0x80
    ensures Utf16Length(utf8) == |utf8|
    decreases |utf8|
  {
    if utf8 != [] {
      Utf16LengthAscii(utf8[1..]);
    }
  }

  /** A character of two or three UTF-8 bytes is one UTF-16 unit, and one of four bytes
      is two: the UTF-16 length of a character never exceeds its UTF-8 length. */
  lemma Utf16LengthOfCharacters()
    ensures Utf16Length([0xC3, 0xA9]) == 1
    ensures Utf16Length([0xE2, 0x82, 0xAC]) == 1
    ensures Utf16Length([0xF0, 0x9F, 0x98, 0x80]) == 2
  {
    var two: seq<byte>, three: seq<byte>, four: seq<byte> := [0xC3, 0xA9], [0xE2, 0x82, 0xAC], [0xF0, 0x9F, 0x98, 0x80];
    assert two[1..][1..] == [] && three[1..][1..][1..] == [] && four[1..][1..][1..][1..] == [];
  }

  /** An entity: its schema line and its properties by schema parameter name. An absent
      name is a property holding null. */
  datatype TLObject = TLObject(schema: string, fields: map<string, Value>)

  /** The cases of the `parType` switches. */
  datatype Kind =
    | KTrue | KInt | KLong | KDouble | KBool | KDate | KInt128 | KInt256 | KBytes | KString
    | KFlagsWord | KVector | KOther

  /** The scalar types of the `parType` switches, by name. */
  const ScalarTypes: map<string, Kind> :=
    map["true" := KTrue, "int" := KInt, "long" := KLong, "double" := KDouble, "bool" := KBool,
        "date" := KDate, "int128" := KInt128, "int256" := KInt256, "bytes" := KBytes,
        "string" := KString, "#" := KFlagsWord]

  /** The case a `parType` switch takes: a scalar type by its name, a `Vector`/`vector`
      type, or anything else, an entity. */
  function KindOf(t: string): (k: Kind)
  {
    if t in ScalarTypes then ScalarTypes[t]
    else if EntityGenerator.IsVectorType(t) then KVector
    else KOther
  }

  /** `hasFlags ? par.type.Split('?').Last() : par.type`. */
  function ParType(p: TLSchema.Param, hasFlags: bool): string
  {
    if hasFlags then Last(Split(p.typ, '?')) else p.typ
  }

  /** `par.type.StartsWith("flags")`. */
  predicate IsFlagged(p: TLSchema.Param)
  {
    StartsWith(p.typ, "flags")
  }

  /** `int.Parse(par.type.Split('?').First().Replace("flags.", ""))`. */
  function FlagIndex(p: TLSchema.Param): Result<int32>
  {
    ParseInt32(Replace(Split(p.typ, '?')[0], "flags.", ""))
  }

  /** `(flags & (1 << k)) != 0`: C# masks a 32-bit shift count to its low five bits. */
  predicate FlagSet(flags: int32, k: int32)
  {
    ((flags % TWO_32) / Pow2(k % 32)) % 2 == 1
  }

  const ItemKinds: map<string, ItemKind> :=
    map["int" := IntItem, "long" := LongItem, "byte[]" := BytesItem, "string" := StringItem,
        "bool" := BoolItem, "double" := DoubleItem, "DateTime" := DateItem]

  /** The element type of the property generated for a Vector parameter: the generator
      declares it IReadOnlyList of the mapping of what is left once the Vector brackets
      are removed; every other mapping names an abstract entity class. */
  function ItemKindOf(t: string): ItemKind
  {
    var g := EntityGenerator.GetTypeParameterTypeStr(EntityGenerator.StripVector(t));
    if g.Ok? && g.value in ItemKinds then ItemKinds[g.value] else ObjectItem
  }
}
