# PP: the MTProto handshake client, modelled in Dafny

PP is a C# client for Telegram's MTProto protocol. This project models its core:

- **the TL layer.**
  - The schema-line parser `MTProtoParser.Parse` and its memo cache.
  - The generator's own line parser `ParseLine`.
  - The string mappings the entity generator uses to turn schema entries into C# declarations.
  - The three reflective walks of `TLObjectBase`: `Estimate`, `ReadFromStream` and `WriteToStream`, with `ReadGeneric`'s dispatch on the constructor id.
- **the transport.**
  - AES-256 in IGE mode.
  - The message-id clock `Time`.
  - The unencrypted message envelope `UnsecuredMessage`.
  - The abridged TCP framing of `Connection`.
  - The per-data-center registry `ConnectionPool`.
- **the authorization-key handshake `AuthKeyGenerator`.**
  - A fixed chain of states: req_pq_multi, resPQ, req_DH_params, server_DH_params, set_client_DH_params and dh_gen.
  - Along the way it factors pq with Pollard's rho, agrees on a Diffie-Hellman key and derives the server salt.

How the code is modelled:

- Code that computes values is written as functions over datatypes, and the properties are lemmas about them.
- Objects whose fields the source updates become classes whose methods are proved against those functions. These are the schema cache, the stream reader and writer, the entity being read, the clock, the array pool and message, the connection, the pool and the key generator.
- The in-place AES-IGE loop works on an `array`.

External pieces are parameters of the model:

- SHA-1, RSA, the random number generator and the AES block function;
- the TL encoders and decoders of the generated `PP.Entity` classes;
- the wall clock;
- the network, which is the sequence of chunks successive reads return.

Where a C# `int` or `long` wraps around, or an operation throws, the model says so explicitly. Wrap-around uses `Wrap32`/`Wrap64`. A throw is an `Err` of the matching `Error`.

Modules:

- **`Wrappers`, `Bytes`, `Text`:**
  - `Option`/`Result`/`Error`;
  - bytes and fixed-width integers in little- and big-endian form;
  - the .NET string operations the parsers use.
- **`TLSchema`, `GeneratorParser`, `EntityGenerator`:** the schema lines and the code generator.
- **`TLValues`, `TLWire`, `TLRead`, `TLWrite`, `TLEstimate`, `TLCodecLaws`:** the TL codec and the laws relating its three walks.
- **`AesIge`, `Time`, `Unsecured`, `Transport`, `TransportPool`:** the transport.
- **`AuthKey`:** the handshake.

## Model

| member | source | states |
|---|---|---|
| Bytes.Wrap32 | PP.Generator/MTProtoParser.cs:14 | an unchecked int reinterpretation differs from the number by a multiple of 2^32 and lies in the int range |
| Bytes.Wrap64 | PP.Lib/Internal/Time.cs:25-27 | an unchecked long reinterpretation differs from the number by a multiple of 2^64 and lies in the long range |
| Bytes.Wrap64Identity | PP.Lib/Internal/Time.cs:25-27 | a number already in the long range is kept |
| Bytes.FromLEOfLE | PP.Lib/TL/TLObjectBase.cs:85-93 | the little-endian bytes of a number that fits read back as it |
| Bytes.LEOfFromLE | PP.Lib/TL/TLObjectBase.cs:212-218 | bytes read as a little-endian number are written back as the same bytes |
| Bytes.U32RoundTrip | PP.Lib/TL/TLObjectBase.cs:85 | `BinaryReader.ReadUInt32` reads back what `BinaryWriter.Write(uint)` wrote |
| Bytes.I32RoundTrip | PP.Lib/TL/TLObjectBase.cs:92 | `ReadInt32` reads back what `Write(int)` wrote |
| Bytes.I64RoundTrip | PP.Lib/TL/TLObjectBase.cs:93 | `ReadInt64` reads back what `Write(long)` wrote |
| Bytes.I64BytesRoundTrip | PP.Lib/TL/TLObjectBase.cs:218 | eight bytes read as a long and written again are the same bytes |
| Bytes.DecodeSignedUnsignedAgree | PP.Lib/TL/TLObjectBase.cs:85-90 | the same four bytes read as int and as uint agree modulo 2^32 |
| Bytes.XorSeqCancel | PP.Lib/Internal/Aes.cs:49-75 | xor-ing twice with the same bytes gives the bytes back |
| Bytes.FromBEOfToBE | PP.Lib/Internal/Auth/AuthKeyGenerator.cs:212-214 | `ToByteArray(isUnsigned, isBigEndian)` reads back through `new BigInteger(.., isUnsigned, isBigEndian)` as the number |
| Bytes.ToBEMinimal | PP.Lib/Internal/Auth/AuthKeyGenerator.cs:148 | those bytes have no leading zero, except for the number zero itself |
| Bytes.EncodeU32 | PP.Lib/TL/TLObjectBase.cs:212 | `BinaryWriter.Write(uint)`: the four little-endian bytes of the constructor id |
| Bytes.EncodeI32 | PP.Lib/TL/TLObjectBase.cs:217 | `Write(int)`: the four little-endian bytes of the value in two's complement |
| Bytes.EncodeI64 | PP.Lib/TL/TLObjectBase.cs:218 | `Write(long)`: the eight little-endian bytes of the value in two's complement |
| Bytes.DecodeU32 | PP.Lib/TL/TLObjectBase.cs:85 | `ReadUInt32`: four bytes read little-endian, a number below 2^32 |
| Bytes.DecodeI32 | PP.Lib/TL/TLObjectBase.cs:92 | `ReadInt32`: four bytes read little-endian and reinterpreted in the int range |
| Bytes.DecodeI64 | PP.Lib/TL/TLObjectBase.cs:93 | `ReadInt64`: eight bytes read little-endian and reinterpreted in the long range |
| Bytes.FromBE | PP.Lib/Internal/Auth/AuthKeyGenerator.cs:205-206 | `new BigInteger(bytes, isBigEndian: true, isUnsigned: true)`: the unsigned big-endian number, below 256^n for n bytes |
| Bytes.FromSignedBE | PP.Lib/Internal/Auth/AuthKeyGenerator.cs:239 | `new BigInteger(PQ, isBigEndian: true)`: big-endian two's complement, negative when the first byte's top bit is set, zero for no bytes |
| Bytes.ToBE | PP.Lib/Internal/Auth/AuthKeyGenerator.cs:214 | `ToByteArray(isUnsigned: true, isBigEndian: true)`: the shortest big-endian bytes of a non-negative number, one zero byte for zero |
| Text.TrimEnd | PP.Lib/TL/TLSchema.cs:32 | `TrimEnd(';')` removes exactly the trailing run of the character: the result is a prefix, does not end with it, and everything cut is that character |
| Text.Split | PP.Lib/TL/TLSchema.cs:32 | `Split(' ')` yields at least one piece, none containing the separator |
| Text.JoinSplit | PP.Lib/TL/TLSchema.cs:32 | splitting loses nothing: joining the pieces with the separator restores the text |
| Text.ParseUInt32Hex | PP.Lib/TL/TLSchema.cs:34 | `uint.Parse(.., HexNumber)` succeeds exactly on white-space-trimmed hex digits whose value is below 2^32, and returns that value |
| Text.ParseInt32Hex | PP.Generator/MTProtoParser.cs:14 | `int.Parse(.., HexNumber)` accepts exactly what the uint parse accepts, and gives the same bits as a two's-complement int |
| Text.DecimalStringRoundTrip | PP.Generator/MTProtoParser.cs:14 | the decimal `ToString()` of an int reads back through `int.Parse` as the same number |
| Text.IndexOf | PP.Lib/TL/TLSchema.cs:38 | the position of the first occurrence of a character, or the length when there is none: where `Split(':').First()` ends |
| Text.Replace | PP.Lib/TL/TLObjectBase.cs:73 | `String.Replace(pat, rep)`: every non-overlapping occurrence replaced, left to right |
| Text.ToLowerAscii | PP.Generator/TLEntityGenerator.cs:57 | `ToLower()` on the ASCII letters, the length kept; other characters unchanged (see Left out) |
| Text.ParseHex | PP.Lib/TL/TLSchema.cs:34 | the value of the hex digits left after trimming white space; none when that is empty or holds a non-hex character |
| Text.ParseInt32 | PP.Lib/TL/TLObjectBase.cs:73 | `int.Parse`: an optional sign and decimal digits between white space; FormatError otherwise, OverflowError outside the int range |
| Text.DecimalString | PP.Generator/MTProtoParser.cs:14 | `int.ToString()`: a '-' for a negative number, then its decimal digits without leading zeros |
| TLSchema.DropEquals | PP.Lib/TL/TLSchema.cs:32 | `Where(p => p != "=")` keeps only tokens of the input, and none of them is "=" |
| TLSchema.TakeUntil | PP.Lib/TL/TLSchema.cs:36 | `TakeWhile(p => p != type)` is the longest prefix free of the stop token; a shorter result stops at that token |
| TLSchema.Tokens | PP.Lib/TL/TLSchema.cs:32 | `line.TrimEnd(';').Split(' ').Where(p => p != "=")`: the space-separated tokens of the line without its trailing ';', with every "=" dropped |
| TLSchema.ToParam | PP.Lib/TL/TLSchema.cs:36-40 | one `TLTypeParams`: the name is the text before the token's first ':' and the type the text after its last |
| TLSchema.ToParams | PP.Lib/TL/TLSchema.cs:36-40 | one parameter per token, in order, named by the text before the first ':' and typed by the text after the last |
| TLSchema.ParseSchema | PP.Lib/TL/TLSchema.cs:32-48 | fails exactly when there is no token or the id after '#' is not a hex uint; on success the result type is the last token |
| TLSchema.ParseHexString | PP.Lib/TL/TLSchema.cs:34 | the hex digits of any uint32 parse back to it |
| TLSchema.HexStringValue | PP.Lib/TL/TLSchema.cs:34 | the hex digits rendered for an id denote that id |
| TLSchema.TokensOfRender | PP.Lib/TL/TLSchema.cs:32 | the tokens of a rendered record are its name and id, its parameters and its type |
| TLSchema.ParamsOfRender | PP.Lib/TL/TLSchema.cs:36-40 | the parameters taken from a rendered record's tokens are its parameters |
| TLSchema.ParseRender | PP.Lib/TL/TLSchema.cs:27-52 | the parser inverts rendering: the descriptor text of any renderable record parses back to that record |
| TLSchema.SchemaCache.constructor | PP.Lib/TL/TLSchema.cs:25 | the static dictionary starts empty, filled by the library parser |
| TLSchema.SchemaCache.Parse | PP.Lib/TL/TLSchema.cs:27-52 | returns what the parser makes of the line; a hit leaves the cache alone; a successful miss adds exactly that line; a failure adds nothing; every cached record is its key's parse |
| TLSchema.ParseTwice | PP.Lib/TL/TLSchema.cs:27-52 | two calls with the same line return the same record |
| GeneratorParser.GeneratorSchema.constructor | PP.Generator/SchemaEntity.cs:30-34 | the generator's schema record holds the two lists it is given |
| GeneratorParser.ToTypeParams | PP.Generator/MTProtoParser.cs:16-20 | one `TLTypeParams` per token, with the same name/type split as the library |
| GeneratorParser.ParseLine | PP.Generator/MTProtoParser.cs:10-35 | the entry is a method exactly when the method flag is set |
| GeneratorParser.ParseLineAgrees | PP.Generator/MTProtoParser.cs:10-35 | the generator and the library parse a line alike: one fails exactly when the other does; name, type and parameters coincide; the decimal id text reads back as the library's id modulo 2^32 |
| GeneratorParser.ParseLineKind | PP.Generator/MTProtoParser.cs:22-34 | the method flag only picks the record kind and which field holds the name |
| GeneratorParser.ParseLineRender | PP.Generator/MTProtoParser.cs:10-35 | the generator recovers name, type and parameter count from rendered descriptor text |
| EntityGenerator.ReplaceReservedString | PP.Generator/TLEntityGenerator.cs:15-30 | C# keywords get the '@' prefix; every other name is kept |
| EntityGenerator.EscapedNeverReserved | PP.Generator/TLEntityGenerator.cs:15-30 | an escaped name is never a keyword |
| EntityGenerator.EscapeInjective | PP.Generator/TLEntityGenerator.cs:15-30 | distinct names not starting with '@' stay distinct after escaping |
| EntityGenerator.GetTypeParameterTypeStr | PP.Generator/TLEntityGenerator.cs:32-43 | the type switch; the only failure is the recursion that does not shrink its argument |
| EntityGenerator.TypeStrFlagged | PP.Generator/TLEntityGenerator.cs:38 | `flags.N?T` has the property type of T |
| EntityGenerator.TypeStrVector | PP.Generator/TLEntityGenerator.cs:39-40 | `Vector<T>` is `IReadOnlyList` of T's type, or fails when T's does |
| EntityGenerator.NestedVectorCollapses | PP.Generator/TLEntityGenerator.cs:39-40 | `Vector<Vector<int>>` maps to `IReadOnlyList<int>`, because every bracket level is stripped at once |
| EntityGenerator.StripVector | PP.Generator/TLEntityGenerator.cs:40 | `Replace("Vector<", "").Replace("vector<", "").Replace(">", "")`: the type with every vector bracket removed |
| EntityGenerator.ByteArrayTypes | PP.Generator/TLEntityGenerator.cs:37 | among unflagged types only bytes, int128 and int256 map to `byte[]` |
| EntityGenerator.FirstEmptyNamed | PP.Generator/TLEntityGenerator.cs:57 | `FirstOrDefault(t => t.ToLower().Contains("empty"))`: none exactly when no name mentions "empty", else the first that does |
| EntityGenerator.DefaultConstructor | PP.Generator/TLEntityGenerator.cs:57 | an object property starts as one of its type's constructors; a type without constructors fails, as `First()` does |
| EntityGenerator.WriteInitializerForParameter | PP.Generator/TLEntityGenerator.cs:45-58 | every initializer starts with " = " |
| EntityGenerator.InitializerOfStringsAndBytes | PP.Generator/TLEntityGenerator.cs:54-55 | strings start as `string.Empty`, and bytes, int128 and int256 as an empty array |
| EntityGenerator.InitializerOfVectors | PP.Generator/TLEntityGenerator.cs:56 | a `Vector<T>` property starts as a new `List` of T's property type |
| EntityGenerator.InitialValue | PP.Generator/TLEntityGenerator.cs:46-58 | the initializer switch after " = ": fixed text for the scalar types, `new List<T>()` for a vector, `new PP.Entity.<ctor>_ctr()` of the empty-named or first constructor for a known object type, `new ()` otherwise |
| EntityGenerator.WriteTLTypeParamsAppend | PP.Generator/TLEntityGenerator.cs:60-65 | the declarations of a concatenation are the concatenated declarations; the first failing parameter decides the error |
| EntityGenerator.InitializerPart | PP.Generator/TLEntityGenerator.cs:64 | what follows the accessors: nothing for a flagged type, else the initializer and ';' |
| EntityGenerator.ParamDeclaration | PP.Generator/TLEntityGenerator.cs:63-65 | one property: `public T name { get; set; }` with the mapped type, a '?' exactly for a flagged type, the escaped name, then the initializer part |
| EntityGenerator.WriteTLTypeParams | PP.Generator/TLEntityGenerator.cs:60-65 | the declarations of every parameter not named flags, joined in order; the first parameter whose type cannot be mapped fails it |
| EntityGenerator.FlagsParamOmitted | PP.Generator/TLEntityGenerator.cs:62 | the `flags` parameter, wherever it stands, contributes no declaration |
| EntityGenerator.DeclarationShape | PP.Generator/TLEntityGenerator.cs:63-64 | a flagged parameter is declared nullable without initializer; any other one carries its type's initializer |
| EntityGenerator.EnrichSchema | PP.Generator/TLEntityGenerator.cs:111-134 | the two lists grow by what the pass over the service-type lines appends; it fails exactly when a line fails to parse |
| EntityGenerator.AddEntry | PP.Generator/TLEntityGenerator.cs:123-131 | one line is parsed and appended to its own list; a failure changes nothing |
| EntityGenerator.EnrichStep | PP.Generator/TLEntityGenerator.cs:114-132 | one line of EnrichSchema: a blank line or the marker is skipped, a parse failure stops the pass, an entry is appended to the constructor or method list |
| EntityGenerator.Enrich | PP.Generator/TLEntityGenerator.cs:111-134 | EnrichSchema over the lines: a line is parsed as a method once the marker line has been seen, and the first failure keeps what was appended before it |
| EntityGenerator.EnrichStopped | PP.Generator/TLEntityGenerator.cs:111-134 | once a line has failed, later lines change nothing |
| EntityGenerator.MarkerIndex | PP.Generator/TLEntityGenerator.cs:116-122 | the first `--functions--` line, or the end when there is none |
| EntityGenerator.EnrichSplitsAtMarker | PP.Generator/TLEntityGenerator.cs:111-134 | the lines before the first marker become constructors and those after it methods, in order, skipping blank lines and the marker; the pass succeeds exactly when every such line parses |
| TLValues.Utf16LengthAscii | PP.Lib/TL/TLObjectBase.cs:50 | a string of ASCII characters has as many UTF-16 units, which `estimateString` counts, as UTF-8 bytes, which the writer emits through `Encoding.UTF8.GetBytes` |
| TLValues.Utf16LengthOfCharacters | PP.Lib/TL/TLObjectBase.cs:50 | a two- or three-byte UTF-8 character is one UTF-16 unit, a four-byte one a surrogate pair |
| TLValues.Utf16Length | PP.Lib/TL/TLObjectBase.cs:50 | `s.Length` of the string decoded from UTF-8 bytes: one UTF-16 unit per character, two for a four-byte character |
| TLValues.KindOf | PP.Lib/TL/TLObjectBase.cs:59-68 | the arm the `parType` switch takes: a scalar type by its name, a Vector/vector type by its prefix, anything else an entity |
| TLValues.ParType | PP.Lib/TL/TLObjectBase.cs:58 | `hasFlags ? par.type.Split('?').Last() : par.type` |
| TLValues.IsFlagged | PP.Lib/TL/TLObjectBase.cs:158 | `par.type.StartsWith("flags")` |
| TLValues.FlagIndex | PP.Lib/TL/TLObjectBase.cs:160 | `int.Parse(par.type.Split('?').First().Replace("flags.", ""))`, with that parse's FormatError and OverflowError |
| TLValues.FlagSet | PP.Lib/TL/TLObjectBase.cs:161 | `(flags & (1 << k)) != 0`, the shift count masked to its low five bits as C# does |
| TLValues.ItemKindOf | PP.Lib/TL/TLObjectBase.cs:197 | the element type of a vector property as the generator declares it: int, long, byte[], string, bool, double or DateTime when the stripped type maps to one, otherwise an entity |
| TLWire.EncodeBool | PP.Lib/TL/TLObjectBase.cs:220 | a boolean is one four-byte word |
| TLWire.DecodeBool | PP.Lib/TL/TLObjectBase.cs:95 | `readBool`: true exactly for the boolTrue id, false for every other word |
| TLWire.HeaderLength | PP.Lib/TL/TLObjectBase.cs:225-235 | `startOffset`: a 4-byte length prefix from 254 bytes on, else 1 byte |
| TLWire.EstimateArray | PP.Lib/TL/TLObjectBase.cs:50-51 | `estimateArray`/`estimateString` of a non-null payload of n units: n plus the prefix and the padding to a multiple of four |
| TLWire.BoolRoundTrip | PP.Lib/TL/TLObjectBase.cs:95 | `readBool` of the word `writeBool` wrote gives the boolean back |
| TLWire.PadLength | PP.Lib/TL/TLObjectBase.cs:222-246 | fewer than four zero bytes, ending the field on a four-byte boundary |
| TLWire.BytesHeader | PP.Lib/TL/TLObjectBase.cs:222-246 | the length prefix is one byte below 254 and four bytes otherwise |
| TLWire.EncodeBytes | PP.Lib/TL/TLObjectBase.cs:222-246 | `writeBytes` is the prefix, then the payload, then zero padding to a multiple of four |
| TLWire.EstimateArrayExact | PP.Lib/TL/TLObjectBase.cs:51 | `estimateArray` of n bytes is exactly the length `writeBytes` produces for n bytes |
| TLWire.ReadFixed | PP.Lib/TL/TLObjectBase.cs:92-96 | the reader takes exactly n bytes, or fails with end of stream |
| TLWire.ReadU32 | PP.Lib/TL/TLObjectBase.cs:85 | a uint read advances exactly four bytes |
| TLWire.ReadI32 | PP.Lib/TL/TLObjectBase.cs:90-92 | an int read advances exactly four bytes |
| TLWire.ReadI64 | PP.Lib/TL/TLObjectBase.cs:93 | a long read advances exactly eight bytes |
| TLWire.ReadAvailable | PP.Lib/TL/TLObjectBase.cs:96 | `ReadBytes(n)` returns as many of the next n bytes as there are and never fails |
| TLWire.ParseBytes | PP.Lib/TL/TLObjectBase.cs:97-118 | `readBytes` advances past what it read, and fails only on a short prefix |
| TLWire.BytesRoundTrip | PP.Lib/TL/TLObjectBase.cs:97-118 | `readBytes` takes back what `writeBytes` emitted, anywhere in a stream, and stops after the padding |
| TLWire.LongLength | PP.Lib/TL/TLObjectBase.cs:101-104 | the three length bytes `writeBytes` emits for a long string add back up to its length in `readBytes` |
| TLWire.HeaderBytesAt | PP.Lib/TL/TLObjectBase.cs:99-104 | where `writeBytes`'s output sits in a stream, the first byte is the short length, or 254 followed by the three bytes of the long length |
| TLWire.PayloadAt | PP.Lib/TL/TLObjectBase.cs:105-117 | after the length prefix the stream holds the payload, and the padding ends the field |
| TLWire.Reader.constructor | PP.Lib/TL/TLObjectBase.cs:82 | a reader starts at the beginning of its stream |
| TLWire.Reader.ReadExactly | PP.Lib/TL/TLObjectBase.cs:92-96 | the reader's result and new position are those of the cursor-level read |
| TLWire.Reader.ReadUInt32 | PP.Lib/TL/TLObjectBase.cs:95 | as ReadExactly, for a little-endian uint |
| TLWire.Reader.ReadInt32 | PP.Lib/TL/TLObjectBase.cs:90 | as ReadExactly, for a little-endian int |
| TLWire.Reader.ReadInt64 | PP.Lib/TL/TLObjectBase.cs:93 | as ReadExactly, for a little-endian long |
| TLWire.Reader.ReadAvailableBytes | PP.Lib/TL/TLObjectBase.cs:96 | as ReadAvailable on the reader |
| TLWire.Reader.Seek | PP.Lib/TL/TLObjectBase.cs:37 | setting the stream position moves the reader there |
| TLWire.Writer.constructor | PP.Lib/TL/TLObjectBase.cs:208 | a writer starts with nothing written |
| TLWire.Writer.Write | PP.Lib/TL/TLObjectBase.cs:217-221 | a write appends its bytes to what was written |
| TLWire.ReadTLBytes | PP.Lib/TL/TLObjectBase.cs:97-118 | `readBytes` on a reader agrees with ParseBytes |
| TLWire.WriteTLBytes | PP.Lib/TL/TLObjectBase.cs:222-246 | `writeBytes` on a writer appends EncodeBytes |
| TLRead.ReadObject | PP.Lib/TL/TLObjectBase.cs:82-206 | a successful read consumes at least the constructor id and stays in the stream |
| TLRead.ReadFrom | PP.Lib/TL/TLObjectBase.cs:154-205 | the loop over the parameters never moves backwards and stays in the stream |
| TLRead.ReadParam | PP.Lib/TL/TLObjectBase.cs:156-204 | one parameter, flag gate included, never moves backwards |
| TLRead.ReadValue | PP.Lib/TL/TLObjectBase.cs:164-204 | the switch on the parameter type never moves the position backwards |
| TLRead.ReadVector | PP.Lib/TL/TLObjectBase.cs:119-151 | `readVector` never moves the position backwards |
| TLRead.ReadItems | PP.Lib/TL/TLObjectBase.cs:131-148 | reading the items never moves backwards |
| TLRead.ReadItem | PP.Lib/TL/TLObjectBase.cs:131-148 | a list item that can be read consumes at least one byte |
| TLRead.Entity.constructor | PP.Generator/TLEntityGenerator.cs:60-65 | a generated entity holds its schema line and its initial properties |
| TLRead.Entity.ReadFromStream | PP.Lib/TL/TLObjectBase.cs:82-206 | the entity's properties and the stream position become those of ReadObject; a failure is ReadObject's error |
| TLRead.Entity.ReadParams | PP.Lib/TL/TLObjectBase.cs:154-205 | the loop over the parameters agrees with ReadFrom |
| TLRead.ReadPropertyValue | PP.Lib/TL/TLObjectBase.cs:164-204 | the type switch on a reader agrees with ReadValue |
| TLRead.ReadVectorFrom | PP.Lib/TL/TLObjectBase.cs:119-151 | `readVector` on a reader agrees with ReadVector |
| TLRead.ReadListItems | PP.Lib/TL/TLObjectBase.cs:131-148 | `readVector`'s loop on a reader agrees with ReadItems |
| TLRead.ReadListItem | PP.Lib/TL/TLObjectBase.cs:131-148 | one item on a reader agrees with ReadItem |
| TLRead.ReadGeneric | PP.Lib/TL/TLObjectBase.cs:35-42 | `ReadGeneric` on a reader agrees with the dispatch ReadGenericSpec |
| TLRead.ReadGenericSpec | PP.Lib/TL/TLObjectBase.cs:35-42 | the constructor id is peeked; an unknown one is InvalidOperation; otherwise the matching entity reads itself from the id's position |
| TLWrite.WriteFromAcc | PP.Lib/TL/TLObjectBase.cs:257-331 | the bytes already written only prefix what the loop appends |
| TLWrite.WriteItemsAcc | PP.Lib/TL/TLObjectBase.cs:247-255 | the bytes already written only prefix what the vector's items append |
| TLWrite.WriteToStream | PP.Lib/TL/TLObjectBase.cs:208-332 | succeeds exactly when WriteObject does, appending its encoding, and fails with its error, having appended exactly the bytes Emitted names |
| TLWrite.WriteParams | PP.Lib/TL/TLObjectBase.cs:257-331 | the loop over the parameters appends WriteFrom's bytes, or on failure those EmittedFrom names |
| TLWrite.ParamToStream | PP.Lib/TL/TLObjectBase.cs:259-330 | one parameter appends ParamBytes, or on failure those ParamEmitted names |
| TLWrite.ValueToStream | PP.Lib/TL/TLObjectBase.cs:265-330 | the switch on a non-null property appends ValueBytes, or on failure those ValueEmitted names |
| TLWrite.WriteVector | PP.Lib/TL/TLObjectBase.cs:247-255 | `writeVector` appends the marker, the count and each entity's encoding; on failure, the marker, the count and the bytes ItemsEmitted names |
| TLWrite.WriteObject | PP.Lib/TL/TLObjectBase.cs:208-332 | WriteToStream: the id, then the walk over the parameters after a leading flags one; `First()` fails on a schema without parameters |
| TLWrite.WriteFrom | PP.Lib/TL/TLObjectBase.cs:257-331 | the foreach over the parameters: each one's bytes appended in order, the first failure ending the walk |
| TLWrite.ParamBytes | PP.Lib/TL/TLObjectBase.cs:259-330 | one parameter: the flag index parsed for a flagged type, then the switch on the property, or on null |
| TLWrite.NullBytes | PP.Lib/TL/TLObjectBase.cs:270-284 | a null property: GetProp of an int, long, double, bool or DateTime fails; every other case writes nothing |
| TLWrite.ValueBytes | PP.Lib/TL/TLObjectBase.cs:265-330 | the switch on a non-null property: true writes nothing, int, long, double and date little-endian, bool as its id, int128/int256 raw, bytes and string by writeBytes, a vector by writeVector, an entity nothing |
| TLWrite.WriteItems | PP.Lib/TL/TLObjectBase.cs:251-254 | writeVector's loop: every entity by WriteToStream, in order |
| TLWrite.Emitted | PP.Lib/TL/TLObjectBase.cs:208-332 | the bytes WriteToStream has written when it stops: the id is written before `First()` fails, and a parameter's cast or flag index fails before any of its bytes |
| TLWrite.EmittedFrom | PP.Lib/TL/TLObjectBase.cs:257-331 | the foreach's bytes up to and including the written part of the parameter that fails |
| TLWrite.ParamEmitted | PP.Lib/TL/TLObjectBase.cs:259-330 | nothing for a failing flag index or null property, else the property's written part |
| TLWrite.ValueEmitted | PP.Lib/TL/TLObjectBase.cs:265-330 | a vector of entities writes its marker and count before its entities; any other value is written whole or not at all |
| TLWrite.ItemsEmitted | PP.Lib/TL/TLObjectBase.cs:247-255 | the entities written before the failing one, then that one's written part; a non-entity item writes nothing |
| TLWrite.EmittedWhole | PP.Lib/TL/TLObjectBase.cs:208-332 | when the writer succeeds, the bytes it has written are exactly the encoding |
| TLWrite.EmittedFromWhole | PP.Lib/TL/TLObjectBase.cs:257-331 | the same for the loop over the parameters |
| TLWrite.ValueEmittedWhole | PP.Lib/TL/TLObjectBase.cs:265-330 | the same for one non-null property |
| TLWrite.ItemsEmittedWhole | PP.Lib/TL/TLObjectBase.cs:247-255 | the same for writeVector's loop |
| TLEstimate.Estimate | PP.Lib/TL/TLObjectBase.cs:44-80 | the estimate through the shared cache is EstimateObject's |
| TLEstimate.FixedCost | PP.Lib/TL/TLObjectBase.cs:61-64 | the sizes that do not depend on the property: 4 for int, true, bool, date and #, 16 and 32 for int128 and int256, 8 for long and double |
| TLEstimate.EstimateObject | PP.Lib/TL/TLObjectBase.cs:44-80 | 4 for the id plus the size of every parameter, flags included; `First()` fails on a schema without parameters |
| TLEstimate.EstimateFrom | PP.Lib/TL/TLObjectBase.cs:56-77 | the foreach adding each parameter's size in turn |
| TLEstimate.ParamCost | PP.Lib/TL/TLObjectBase.cs:58-76 | one `parSize`, a null property costing 0, and the flag index parsed for a flagged parameter |
| TLEstimate.ValueCost | PP.Lib/TL/TLObjectBase.cs:50-68 | a string by its UTF-16 length and a byte array by its length through the estimate formula, a vector as 4 plus its entities' estimates, anything else as the nested entity's estimate |
| TLEstimate.SumFrom | PP.Lib/TL/TLObjectBase.cs:52 | `v.Select(o => o.Estimate()).Sum()` |
| TLEstimate.EstimateParams | PP.Lib/TL/TLObjectBase.cs:56-77 | the loop over the parameters starts from the four bytes of the id and adds ParamCost's sizes, strings at their UTF-16 length |
| TLEstimate.ParamSize | PP.Lib/TL/TLObjectBase.cs:59-76 | the `parSize` switch agrees with ParamCost, which costs a string by its UTF-16 length as `estimateString` does |
| TLEstimate.PropertySize | PP.Lib/TL/TLObjectBase.cs:50-52 | a value-dependent size agrees with ValueCost: byte arrays by their length, strings by their UTF-16 length, vectors by their items |
| TLEstimate.SumEstimates | PP.Lib/TL/TLObjectBase.cs:52 | `v.Select(o => o.Estimate()).Sum()` agrees with SumFrom |
| TLEstimate.EstimateFromFails | PP.Lib/TL/TLObjectBase.cs:56-77 | the first parameter whose size fails decides the estimate's error |
| TLEstimate.EstimateFromStep | PP.Lib/TL/TLObjectBase.cs:56-77 | a parameter of known size adds it to the running total |
| TLEstimate.SumFromEnd | PP.Lib/TL/TLObjectBase.cs:52 | the sum over no further items is the total so far |
| TLEstimate.SumFromStep | PP.Lib/TL/TLObjectBase.cs:52 | each entity adds its estimate, and a failing one fails the sum |
| TLCodecLaws.Encoding | PP.Lib/TL/TLObjectBase.cs:217-246 | every fitting property's reference encoding is whole four-byte words |
| TLCodecLaws.ParamsAligned | PP.Lib/TL/TLObjectBase.cs:257-331 | the parameters' encodings together are whole four-byte words |
| TLCodecLaws.ParamEncoding | PP.Lib/TL/TLObjectBase.cs:259-330 | one plain parameter's encoding is whole four-byte words |
| TLCodecLaws.ValueWritten | PP.Lib/TL/TLObjectBase.cs:259-330 | a fitting property is written as its reference encoding |
| TLCodecLaws.ParamWritten | PP.Lib/TL/TLObjectBase.cs:259-330 | a plain parameter is written as its encoding |
| TLCodecLaws.ParamsWritten | PP.Lib/TL/TLObjectBase.cs:257-331 | the loop appends the parameters' encodings to what was written |
| TLCodecLaws.ObjectWritten | PP.Lib/TL/TLObjectBase.cs:208-332 | a plain entity is written as its constructor id followed by its parameters' encodings, in whole words |
| TLCodecLaws.WordReadBack | PP.Lib/TL/TLObjectBase.cs:169-183 | int, bool and date properties read back from their word |
| TLCodecLaws.LongReadBack | PP.Lib/TL/TLObjectBase.cs:172-177 | long and double properties read back from their eight bytes |
| TLCodecLaws.RawReadBack | PP.Lib/TL/TLObjectBase.cs:184-187 | int128 and int256 properties read back from their raw bytes |
| TLCodecLaws.BytesReadBack | PP.Lib/TL/TLObjectBase.cs:188-193 | byte strings and strings read back through `readBytes` |
| TLCodecLaws.ValueReadBack | PP.Lib/TL/TLObjectBase.cs:164-204 | every fitting property other than `true` reads back from its encoding anywhere in a stream, stopping just after it |
| TLCodecLaws.ParamReadBack | PP.Lib/TL/TLObjectBase.cs:154-205 | one plain parameter's encoding reads back as its value, consuming exactly it |
| TLCodecLaws.ParamCostExact | PP.Lib/TL/TLObjectBase.cs:59-76 | one plain parameter other than `true`, and, for a string, one whose UTF-16 and UTF-8 lengths are equal, is estimated at its encoded length |
| TLCodecLaws.EstimateFromExact | PP.Lib/TL/TLObjectBase.cs:56-77 | the estimate's loop adds the parameters' encoded lengths, when no parameter is `true` and every string has as many UTF-16 units as UTF-8 bytes |
| TLCodecLaws.EstimateExact | PP.Lib/TL/TLObjectBase.cs:44-80 | on plain entities without `true` parameters, whose strings have as many UTF-16 units as UTF-8 bytes, the estimate is the written length |
| TLCodecLaws.TrueCountedNotWritten | PP.Lib/TL/TLObjectBase.cs:66 | a `true` parameter is estimated at four bytes and written as none |
| TLCodecLaws.SumFromWritten | PP.Lib/TL/TLObjectBase.cs:247-255 | entities estimated exactly sum to what their items write |
| TLCodecLaws.VectorUndercount | PP.Lib/TL/TLObjectBase.cs:52 | a vector of entities is estimated four bytes short of what `writeVector` emits |
| TLCodecLaws.StringUndercount | PP.Lib/TL/TLObjectBase.cs:50 | a string of three two-byte characters is estimated at four bytes, while the writer emits its six UTF-8 bytes as eight |
| TLCodecLaws.FlagsParamKind | PP.Lib/TL/TLObjectBase.cs:89 | the flags parameter has type `#` and is not itself flagged |
| TLCodecLaws.FlagsWordWritten | PP.Lib/TL/TLObjectBase.cs:212-214 | with only the flags word, the writer emits the id alone |
| TLCodecLaws.FlagsWordEstimated | PP.Lib/TL/TLObjectBase.cs:56-76 | with only the flags word, the estimate is eight bytes |
| TLCodecLaws.FlagsWordExpected | PP.Lib/TL/TLObjectBase.cs:85-90 | with only the flags word, the reader runs off the end of the id alone |
| TLCodecLaws.FlagsWordNeverWritten | PP.Lib/TL/TLObjectBase.cs:89-90 | for a schema with only the flags word, the writer emits the id alone, the estimate counts eight bytes and the reader runs past the end |
| TLCodecLaws.FlagsOnlySchemaParses | PP.Lib/TL/TLSchema.cs:27-52 | the library parser produces such schemas |
| TLCodecLaws.ConstructorChecked | PP.Lib/TL/TLObjectBase.cs:85-87 | a leading word other than the schema's id is a constructor mismatch |
| TLCodecLaws.FlagGate | PP.Lib/TL/TLObjectBase.cs:158-168 | a clear flag bit skips the parameter, a set one reads it as unflagged, and `true` is set without reading |
| TLCodecLaws.VectorMarkerChecked | PP.Lib/TL/TLObjectBase.cs:121-126 | a boxed vector must start with the vector marker, after which the count is read |
| TLCodecLaws.EntityItemsFail | PP.Lib/TL/TLObjectBase.cs:131-148 | entity items cannot be instantiated: a positive count fails at the first item |
| TLCodecLaws.EntityVectorsReadEmpty | PP.Lib/TL/TLObjectBase.cs:119-151 | a vector of entities reads back only as the empty list |
| TLCodecLaws.DispatchOnPeekedId | PP.Lib/TL/TLObjectBase.cs:35-42 | `ReadGeneric` reads the entity keyed by the peeked word, whose schema id is that word; an unknown word fails |
| AesIge.Take16 | PP.Lib/Internal/Aes.cs:14 | `iv.Take(16)` is at most the first 16 bytes |
| AesIge.Skip16 | PP.Lib/Internal/Aes.cs:14 | `iv.Skip(16)` is everything after the first 16 bytes |
| AesIge.Step | PP.Lib/Internal/Aes.cs:66-74 | one IGE block: f(x_i xor y_(i-1)) xor x_(i-1) |
| AesIge.Encrypt | PP.Lib/Internal/Aes.cs:12-17 | AES256IGEEncrypt: out of range when the source is under 16 bytes or the IV under 32, otherwise IGE with x0 the second IV half and y0 the first |
| AesIge.Decrypt | PP.Lib/Internal/Aes.cs:19-24 | AES256IGEDecrypt: the same with the IV halves swapped |
| AesIge.Chain | PP.Lib/Internal/Aes.cs:47-75 | the chain has one output block per input block |
| AesIge.Ige | PP.Lib/Internal/Aes.cs:26-80 | the output is as long as the input |
| AesIge.ChainPrefix | PP.Lib/Internal/Aes.cs:62-75 | a longer chain extends a shorter one over the same input |
| AesIge.IgeWhole | PP.Lib/Internal/Aes.cs:26-80 | on whole blocks the output is exactly the chain |
| AesIge.IgeTail | PP.Lib/Internal/Aes.cs:39-40 | past the last whole block the output keeps the zeros it was allocated with |
| AesIge.ChainAt | PP.Lib/Internal/Aes.cs:47-75 | block i is f(x_i xor y_(i-1)) xor x_(i-1), starting from the IV halves |
| AesIge.FirstBlock | PP.Lib/Internal/Aes.cs:47-57 | the first output block is f(x_1 xor y_0) xor x_0 |
| AesIge.LaterBlock | PP.Lib/Internal/Aes.cs:62-75 | each later block chains on the output block and the input block before it |
| AesIge.StepInverse | PP.Lib/Internal/Aes.cs:26-80 | one step is undone by the inverse block function with the chaining halves swapped |
| AesIge.ChainInverse | PP.Lib/Internal/Aes.cs:26-80 | every input block comes back when the output is chained again with the IV halves swapped |
| AesIge.DecryptEncrypt | PP.Lib/Internal/Aes.cs:12-24 | decryption undoes encryption under the same IV, for whole blocks and an inverting block function |
| AesIge.XorBlock | PP.Lib/Internal/Aes.cs:49-50 | one 16-byte xor loop changes exactly its block |
| AesIge.TransformBlock | PP.Lib/Internal/Aes.cs:52 | `TransformBlock` replaces one block by its image and keeps every other byte |
| AesIge.StepBlock | PP.Lib/Internal/Aes.cs:62-75 | one in-place IGE step writes f(x xor yPrev) xor xPrev into its block only |
| AesIge.IGECrypter | PP.Lib/Internal/Aes.cs:26-80 | succeeds exactly on a source and IV halves of at least 16 bytes, returning a fresh array holding the chain |
| AesIge.AES256IGEEncrypt | PP.Lib/Internal/Aes.cs:12-17 | a fresh array holding the encryption with x0 = `iv.Skip(16)` and y0 = `iv.Take(16)` |
| AesIge.AES256IGEDecrypt | PP.Lib/Internal/Aes.cs:19-24 | the same chain with the IV halves swapped |
| Time.Shl32 | PP.Lib/Internal/Time.cs:25 | `<< 32` on a long keeps a multiple of 2^32, the exact product while the value fits |
| Time.Shr32 | PP.Lib/Internal/Time.cs:18 | `>> 32` is the arithmetic shift: the floor of the quotient by 2^32 |
| Time.NextId | PP.Lib/Internal/Time.cs:25-27 | the id GetId issues: (now + offset) << 32, or the last id + 2 when that is not larger, in long arithmetic |
| Time.OffsetFor | PP.Lib/Internal/Time.cs:17-19 | `(timeFromServer >> 32) - now`: the offset CorrectOffset stores |
| Time.NextIdIncreases | PP.Lib/Internal/Time.cs:21-31 | GetId returns more than the last id, except that `_lastId + 2` wraps to a negative id within two of the largest long |
| Time.NextIdChoice | PP.Lib/Internal/Time.cs:25-27 | the shifted time when it exceeds the last id, else the last id plus two; the seconds sit in the upper half |
| Time.Clock.constructor | PP.Lib/Internal/Time.cs:13-14 | no id issued and no correction |
| Time.Clock.CorrectOffset | PP.Lib/Internal/Time.cs:15-20 | the offset becomes the server's seconds minus the local seconds; the last id is kept |
| Time.Clock.GetId | PP.Lib/Internal/Time.cs:21-31 | issues NextId, records it as the last id and keeps the offset |
| Time.RunIncreasing | PP.Lib/Internal/Time.cs:21-31 | over any run of calls, each id exceeds the one before it, barring the wrap-around |
| Time.StrictlyIncreasing | PP.Lib/Internal/Time.cs:21-31 | all ids of a run that stays clear of the largest long are strictly increasing and above the starting id |
| Unsecured.Header | PP.Lib/Internal/Messaging/UnsecuredMessage.cs:60-62 | the header is 20 bytes |
| Unsecured.ReadHeader | PP.Lib/Internal/Messaging/UnsecuredMessage.cs:35-38 | reading the header fails exactly on fewer than 20 bytes |
| Unsecured.HeaderRoundTrip | PP.Lib/Internal/Messaging/UnsecuredMessage.cs:35-38 | reading a written header gives back its auth key id and length, and the upper half of its message id |
| Unsecured.BufferPool.Rent | PP.Lib/Internal/Messaging/UnsecuredMessage.cs:41 | renting fails exactly on a negative length; otherwise it returns a fresh array at least that long |
| Unsecured.BufferPool.Return | PP.Lib/Internal/Messaging/UnsecuredMessage.cs:104 | the returned array is recorded |
| Unsecured.Message.constructor | PP.Lib/Internal/Messaging/UnsecuredMessage.cs:19-22 | the message holds its buffer and header fields |
| Unsecured.Message.AsBytes | PP.Lib/Internal/Messaging/UnsecuredMessage.cs:27 | the slice exists exactly when 20 + ContentLength lies within the buffer |
| Unsecured.Message.Content | PP.Lib/Internal/Messaging/UnsecuredMessage.cs:28 | the slice exists exactly when the content fits after the header, and it is AsBytes past the header |
| Unsecured.Message.Dispose | PP.Lib/Internal/Messaging/UnsecuredMessage.cs:102-107 | the buffer goes back to the pool |
| Unsecured.FrameLayout | PP.Lib/Internal/Messaging/UnsecuredMessage.cs:56-63 | a frame is the header (no auth key, the id, the estimate) followed by the object's encoding |
| Unsecured.ExactFrameFits | PP.Lib/Internal/Messaging/UnsecuredMessage.cs:54-71 | with an exact estimate the frame fits the rented buffer, and its length field is the encoding's length |
| Unsecured.Frame | PP.Lib/Internal/Messaging/UnsecuredMessage.cs:54-63 | the bytes CreateFromObject lays into its buffer: the estimate as the length, then the sized frame |
| Unsecured.SizedFrame | PP.Lib/Internal/Messaging/UnsecuredMessage.cs:56-63 | a negative rent length fails; the fixed-size stream fails at the first write past the rented buffer, so NotSupported wins over a later writer error exactly when the header and the bytes written before that error overflow; otherwise the writer's error, or the header followed by the encoding |
| Unsecured.CreateFromObject | PP.Lib/Internal/Messaging/UnsecuredMessage.cs:52-72 | takes the clock's next id, fails exactly when the frame does, and otherwise returns a fresh message whose buffer starts with the frame |
| Unsecured.WriteMessage | PP.Lib/Internal/Messaging/UnsecuredMessage.cs:56-71 | renting and writing once the object is sized: fails exactly when SizedFrame does, with its error, and otherwise returns a fresh message over the rented buffer, which starts with the frame |
| Unsecured.Copy | PP.Lib/Internal/Messaging/UnsecuredMessage.cs:42 | a copy into the start of an array |
| Unsecured.ExactMessageViews | PP.Lib/Internal/Messaging/UnsecuredMessage.cs:27-28 | such a message shows the header and encoding as its bytes and the encoding as its content |
| Unsecured.CreateFromBytes | PP.Lib/Internal/Messaging/UnsecuredMessage.cs:30-50 | the header is read, the clock is handed the id already shifted right by 32 bits (so its offset is OffsetAsWritten's), and the input copied into a fresh buffer; a short input or a negative length fails |
| Unsecured.OffsetAsWritten | PP.Lib/Internal/Messaging/UnsecuredMessage.cs:36-37 | the clock offset once the id is shifted at line 36 and again inside CorrectOffset |
| Unsecured.DoubleShiftDropsServerTime | PP.Lib/Internal/Messaging/UnsecuredMessage.cs:36-37 | as written, every non-negative server id sets the offset to minus the local time |
| Unsecured.DoubleShiftExample | PP.Lib/Internal/Time.cs:18 | a concrete id for which the as-written clock issues 2, where the server's time was meant |
| Unsecured.ServerTimeAdopted | PP.Lib/Internal/Time.cs:15-20 | with the raw id, the corrected time is the server's seconds plus the local seconds elapsed |
| Transport.SendHeader | PP.Lib/Internal/Transport/Connection.cs:78-93 | one byte exactly when the word count is below 0x7F, four bytes otherwise |
| Transport.Framed | PP.Lib/Internal/Transport/Connection.cs:72-96 | only the marker message goes out without a header |
| Transport.DecodeHeader | PP.Lib/Internal/Transport/Connection.cs:115-123 | the header is one or four bytes, and the length a multiple of four below 2^26 |
| Transport.HeaderRoundTrip | PP.Lib/Internal/Transport/Connection.cs:78-123 | decoding a send header gives back the length rounded down to whole words, and the header's size |
| Transport.SentStep | PP.Lib/Internal/Transport/Connection.cs:95-96 | writing one more frame keeps the stream equal to the frames of all messages taken so far |
| Transport.Sent | PP.Lib/Internal/Transport/Connection.cs:70-97 | the stream WriteLoop produces for the queued messages: each one's frame, in order |
| Transport.Put | PP.Lib/Internal/Transport/Connection.cs:143-147 | a CopyTo into a slice keeps the length of what it writes into |
| Transport.Reassemble | PP.Lib/Internal/Transport/Connection.cs:138-149 | the split-case loop, as written or advancing, keeps the message length and only consumes reads |
| Transport.ReadMessage | PP.Lib/Internal/Transport/Connection.cs:107-156 | one round consumes at least one read and keeps the buffer size |
| Transport.Unframed | PP.Lib/Internal/Transport/Connection.cs:115-154 | the header and the three cases consume only reads after the first |
| Transport.DeliverStep | PP.Lib/Internal/Transport/Connection.cs:104-157 | the messages of a whole run are the round's message followed by those of the rest of the run, which ends as the whole run does |
| Transport.ReadAll | PP.Lib/Internal/Transport/Connection.cs:100-158 | ReadLoop over all the reads: the messages it writes to the read channel, in order, and the exception that ends it |
| Transport.FrameReadBack | PP.Lib/Internal/Transport/Connection.cs:72-154 | a frame arriving in one read is delivered as the message that was sent |
| Transport.ErrorFrameAllZero | PP.Lib/Internal/Transport/Connection.cs:126-131 | a declared length of 4 delivers four zero bytes, and throws exactly when the error code is the smallest int |
| Transport.WholePayload | PP.Lib/Internal/Transport/Connection.cs:151-154 | when the first read holds the whole message, it is those bytes and nothing more is read |
| Transport.SplitStart | PP.Lib/Internal/Transport/Connection.cs:132-139 | the split case starts from the first read's bytes after the header; as written the count of bytes left subtracts the header size, the advancing loop starts from the bytes still missing |
| Transport.LeftToRead | PP.Lib/Internal/Transport/Connection.cs:139 | `messageLength - readedCount - messageOffset` as written; the advancing loop's count of the bytes still missing |
| Transport.ReassembleKeepsPrefix | PP.Lib/Internal/Transport/Connection.cs:140-149 | the split-case loop never writes before its pointer |
| Transport.AdvancingCompletes | PP.Lib/Internal/Transport/Connection.cs:138-149 | with an advancing pointer the message is completed from exactly the reads that carry the missing bytes, and no further read is taken |
| Transport.FrameHeaderRead | PP.Lib/Internal/Transport/Connection.cs:115-123 | a first read that starts a frame and holds its header declares the frame's message length and header size |
| Transport.SplitFrameReadBack | PP.Lib/Internal/Transport/Connection.cs:100-158 | with the advancing loop, a frame split over several non-empty reads is delivered as the message that was sent, and reading stops after it |
| Transport.SplitLosesData | PP.Lib/Internal/Transport/Connection.cs:138-149 | as written, a message split over three reads arrives corrupted and short; the advancing loop delivers it intact |
| Transport.SplitExampleFrame | PP.Lib/Internal/Transport/Connection.cs:72-96 | the three reads of that example carry the frame of the message 1..8 |
| Transport.SplitExampleRead | PP.Lib/Internal/Transport/Connection.cs:107-149 | the as-written round on those reads delivers [1, 4, 5, 6, 7, 8, 0, 0] |
| Transport.SplitExampleAsWritten | PP.Lib/Internal/Transport/Connection.cs:140-149 | the as-written loop lets the third read overwrite the second and stops two bytes short |
| Transport.ConcatFirst | PP.Lib/Internal/Transport/Connection.cs:140-149 | the bytes of the first k reads are the first read's followed by the next ones' |
| Transport.Store | PP.Lib/Internal/Transport/Connection.cs:143-147 | a CopyTo into a slice of an array |
| Transport.Connection.constructor | PP.Lib/Internal/Transport/Connection.cs:35-54 | a connection starts with empty channels and nothing written |
| Transport.Connection.Write | PP.Lib/Internal/Transport/Connection.cs:160 | queues a message on the write channel |
| Transport.Connection.WriteLoop | PP.Lib/Internal/Transport/Connection.cs:67-98 | every queued message is written framed, in order, and the channel is emptied |
| Transport.Connection.ReadLoop | PP.Lib/Internal/Transport/Connection.cs:100-158 | the messages ReadAll finds with the given split loop (the source's is AsWritten) are appended to the read channel, and the loop ends as ReadAll does |
| Transport.Connection.ReceiveOne | PP.Lib/Internal/Transport/Connection.cs:107-154 | one round on the buffer array agrees with ReadMessage for the same split loop |
| Transport.Connection.Unframe | PP.Lib/Internal/Transport/Connection.cs:115-154 | the header and the three cases agree with Unframed; as written, `leftToRead` is the length minus the bytes read minus the header size |
| Transport.Connection.ReceiveRest | PP.Lib/Internal/Transport/Connection.cs:132-149 | the split case on arrays agrees with Reassemble, for the same split loop, started from the first read's bytes |
| Transport.Connection.FillMessage | PP.Lib/Internal/Transport/Connection.cs:140-149 | the split-case loop on arrays agrees with Reassemble for the same split loop: as written every read is copied to the same pointer, the advancing loop moves it past each read |
| Transport.Connect | PP.Lib/Internal/Transport/Connection.cs:35-54 | fails with KeyNotFound for every dc but 2; otherwise a fresh connection whose first queued message is the marker |
| TransportPool.ConnectionPool.constructor | PP.Lib/Internal/Transport/ConnectionPool.cs:15-25 | no connection and nothing received |
| TransportPool.TargetDc | PP.Lib/Internal/Transport/ConnectionPool.cs:30 | `dc ?? _defaultDC` |
| TransportPool.ConnectionPool.Queue | PP.Lib/Internal/Transport/ConnectionPool.cs:27-47 | the target dc's connection, opened and registered when missing, gets the data; other connections are untouched; an unknown dc fails and registers nothing |
| TransportPool.ConnectionPool.Pump | PP.Lib/Internal/Transport/ConnectionPool.cs:36-41 | a connection's delivered messages move, in order, to the receive channel |
| TransportPool.ConnectionPool.ReadSingle | PP.Lib/Internal/Transport/ConnectionPool.cs:50 | the oldest received message is taken off the channel |
| TransportPool.FifoOrder | PP.Lib/Internal/Transport/ConnectionPool.cs:20 | what was taken followed by what is left is what was forwarded, in order |
| TransportPool.TakesInOrder | PP.Lib/Internal/Transport/ConnectionPool.cs:39-50 | as many reads as forwarded messages return them all, in forwarding order |
| AuthKey.Next | PP.Lib/Internal/Auth/AuthKeyGenerator.cs:66-76 | every state but End has a successor one place further; End throws KeyNotFound |
| AuthKey.NextChain | PP.Lib/Internal/Auth/AuthKeyGenerator.cs:66-74 | the successors list the handshake in order and end at End |
| AuthKey.Gx | PP.Lib/Internal/Auth/AuthKeyGenerator.cs:247 | `gX` lies in [0, abs(n)) |
| AuthKey.RhoFrom | PP.Lib/Internal/Auth/AuthKeyGenerator.cs:249-259 | the loop fails only with the rho failure or by running past its rounds |
| AuthKey.Rho | PP.Lib/Internal/Auth/AuthKeyGenerator.cs:241-260 | whatever rho returns divides pq and is neither 1 nor pq |
| AuthKey.RhoDivisor | PP.Lib/Internal/Auth/AuthKeyGenerator.cs:249-259 | the loop's answer from any point is such a divisor |
| AuthKey.RhoPollard | PP.Lib/Internal/Auth/AuthKeyGenerator.cs:241-260 | the loop computes Rho; its errors are a zero pq, the rho failure, or divergence |
| AuthKey.OrderFactors | PP.Lib/Internal/Auth/AuthKeyGenerator.cs:262-276 | p <= q, and the two are the divisor and its cofactor |
| AuthKey.FactorsOfPQ | PP.Lib/Internal/Auth/AuthKeyGenerator.cs:262-276 | the ordered factors multiply back to pq |
| AuthKey.ModPow | PP.Lib/Internal/Auth/AuthKeyGenerator.cs:148 | `BigInteger.ModPow` throws exactly on a zero modulus, and lies below it for a non-negative base |
| AuthKey.PowMod | PP.Lib/Internal/Auth/AuthKeyGenerator.cs:148 | reducing the base first does not change a power's remainder |
| AuthKey.PowMul | PP.Lib/Internal/Auth/AuthKeyGenerator.cs:214 | (g^a)^b is g^(ab) |
| AuthKey.DHAgreement | PP.Lib/Internal/Auth/AuthKeyGenerator.cs:148 | (g^a mod m)^b mod m equals (g^b mod m)^a mod m, namely g^(ab) mod m |
| AuthKey.UnsignedBE | PP.Lib/Internal/Auth/AuthKeyGenerator.cs:148 | unsigned big-endian bytes that read back as the number; a negative value overflows |
| AuthKey.RsaPadLength | PP.Lib/Internal/Auth/AuthKeyGenerator.cs:297 | 1 to 255 bytes, bringing the RSA plaintext to a multiple of 255 |
| AuthKey.AlignLength | PP.Lib/Internal/Auth/AuthKeyGenerator.cs:158 | 0 to 15 bytes, aligning the plaintext to 16 |
| AuthKey.TmpAesKey | PP.Lib/Internal/Auth/AuthKeyGenerator.cs:49-55 | the temporary key is 32 bytes |
| AuthKey.TmpAesIV | PP.Lib/Internal/Auth/AuthKeyGenerator.cs:57-63 | the temporary IV is 32 bytes |
| AuthKey.TmpIVFitsIge | PP.Lib/Internal/Auth/AuthKeyGenerator.cs:49-63 | AES-IGE accepts the temporary IV for any input of at least one block |
| AuthKey.ServerSalt | PP.Lib/Internal/Auth/AuthKeyGenerator.cs:125-129 | the salt's bytes are new_nonce[0..8] xor server_nonce[0..8]; a short server nonce is out of range |
| AuthKey.FirstMatch | PP.Lib/Internal/Auth/AuthKeyGenerator.cs:305 | the first known key whose fingerprint the server offered, or none |
| AuthKey.NextAnswer | PP.Lib/Internal/Auth/AuthKeyGenerator.cs:107-111 | the next answer is taken off the inbox; none left is end of stream |
| AuthKey.Step | PP.Lib/Internal/Auth/AuthKeyGenerator.cs:103-113 | each step advances one state; End throws NotImplemented |
| AuthKey.KeyOf | PP.Lib/Internal/Auth/AuthKeyGenerator.cs:97-100 | GetKey returns the auth key and salt, throws when no key was agreed, and passes on the loop's exception |
| AuthKey.SendReqPQ | PP.Lib/Internal/Auth/AuthKeyGenerator.cs:330-347 | ReqPQ: 16 random bytes become the client nonce, and req_pq_multi with it is queued |
| AuthKey.TakeResPQ | PP.Lib/Internal/Auth/AuthKeyGenerator.cs:349-369 | ResPQ: the next answer; a resPQ answer sets the server nonce, the key fingerprints and pq, and any other answer fails the read |
| AuthKey.SendReqDH | PP.Lib/Internal/Auth/AuthKeyGenerator.cs:230-276 | ReqDH: the null checks, pq read as signed big-endian and factored by rho into p <= q, then SendPQInner |
| AuthKey.SendPQInner | PP.Lib/Internal/Auth/AuthKeyGenerator.cs:278-327 | a fresh new nonce; SHA1(inner) ‖ inner ‖ random padding RSA-encrypted with the first known key the server offered; req_DH_params queued; no such key fails |
| AuthKey.TakeResDH | PP.Lib/Internal/Auth/AuthKeyGenerator.cs:177-228 | ResDH: the next answer, the null checks, then server_DH_params_fail changes nothing and server_DH_params_ok goes on to AcceptServerDH |
| AuthKey.AcceptServerDH | PP.Lib/Internal/Auth/AuthKeyGenerator.cs:192-216 | the server_DH_params_ok arm: the answer is opened, then the key agreed |
| AuthKey.OpenServerAnswer | PP.Lib/Internal/Auth/AuthKeyGenerator.cs:194-202 | AES-IGE decryption with the temporary key and IV, the 20-byte hash dropped, the rest decoded as server_DH_inner_data |
| AuthKey.AgreeKey | PP.Lib/Internal/Auth/AuthKeyGenerator.cs:205-214 | dh_prime and g_a read unsigned, b from 256 random bytes, and the auth key g_a^b mod dh_prime, unsigned big-endian |
| AuthKey.SendSetDH | PP.Lib/Internal/Auth/AuthKeyGenerator.cs:138-175 | SetDH: g^b mod dh_prime as unsigned big-endian bytes, then QueueSetDH |
| AuthKey.QueueSetDH | PP.Lib/Internal/Auth/AuthKeyGenerator.cs:143-172 | client_DH_inner_data with retry id 0; SHA1(inner) ‖ inner ‖ random alignment to 16 bytes, AES-IGE encrypted; set_client_DH_params queued |
| AuthKey.TakeDHGenCheck | PP.Lib/Internal/Auth/AuthKeyGenerator.cs:115-136 | DHGenCheck: dh_gen_ok sets the server salt, dh_gen_retry and dh_gen_fail change nothing, anything else fails the read |
| AuthKey.Handler | PP.Lib/Internal/Auth/AuthKeyGenerator.cs:103-111 | the handler ProcessState runs for each state other than End |
| AuthKey.Handshake | PP.Lib/Internal/Auth/AuthKeyGenerator.cs:90-95 | GetKey's while loop: the handlers from the state up to End, the first exception ending it |
| AuthKey.ReqPQSends | PP.Lib/Internal/Auth/AuthKeyGenerator.cs:330-347 | only the client nonce changes, and req_pq_multi carrying it is queued |
| AuthKey.ResPQTakes | PP.Lib/Internal/Auth/AuthKeyGenerator.cs:349-369 | succeeds exactly on a resPQ answer, storing its server nonce, fingerprints and pq; queues nothing |
| AuthKey.ReqDHSends | PP.Lib/Internal/Auth/AuthKeyGenerator.cs:230-328 | needs pq and the fingerprints; changes only the new nonce; queues req_DH_params with both nonces, p <= q with p*q = pq, and an offered known key's fingerprint |
| AuthKey.PQInnerSends | PP.Lib/Internal/Auth/AuthKeyGenerator.cs:278-325 | fails exactly when no known key matches an offered fingerprint |
| AuthKey.ResDHTakes | PP.Lib/Internal/Auth/AuthKeyGenerator.cs:177-228 | needs pq and the fingerprints; accepts only server_DH_params ok or fail; fail changes nothing else; ok agrees a key; the nonces are kept |
| AuthKey.AgreeKeyShares | PP.Lib/Internal/Auth/AuthKeyGenerator.cs:205-214 | fails exactly on a zero dh_prime; otherwise the auth key is g_a^b mod dh_prime |
| AuthKey.SetDHSends | PP.Lib/Internal/Auth/AuthKeyGenerator.cs:138-175 | fails on a zero dh_prime, succeeds for a non-negative g, keeps the payload, and queues set_client_DH_params with both nonces |
| AuthKey.DHGenCheckTakes | PP.Lib/Internal/Auth/AuthKeyGenerator.cs:115-136 | accepts only the dh_gen answers; only dh_gen_ok changes anything, the server salt |
| AuthKey.SharedSecret | PP.Lib/Internal/Auth/AuthKeyGenerator.cs:214 | the key the client stores is the one the server computes from its own secret and the client's g^b |
| AuthKey.SetDHDecrypts | PP.Lib/Internal/Auth/AuthKeyGenerator.cs:152-169 | decrypting what SetDH sends with the temporary key gives SHA1(inner), then inner, in whole blocks |
| AuthKey.HandshakeStep | PP.Lib/Internal/Auth/AuthKeyGenerator.cs:92-95 | one round of GetKey's loop |
| AuthKey.HandshakeAfter | PP.Lib/Internal/Auth/AuthKeyGenerator.cs:92-95 | a run is the state's handler followed by a run from the next state |
| AuthKey.HandshakeUnrolled | PP.Lib/Internal/Auth/AuthKeyGenerator.cs:86-113 | the loop from ReqPQ runs the six handlers once each, in order |
| AuthKey.ServerFailAborts | PP.Lib/Internal/Auth/AuthKeyGenerator.cs:218-222 | after server_DH_params_fail, SetDH's modular power divides by zero |
| AuthKey.HandshakeAgreesKey | PP.Lib/Internal/Auth/AuthKeyGenerator.cs:86-101 | a run that reaches End went through server_DH_params_ok and GetKey returns the agreed key |
| AuthKey.HandshakeTranscript | PP.Lib/Internal/Auth/AuthKeyGenerator.cs:86-113 | a completed run read exactly resPQ, server_DH_params and dh_gen, and queued exactly the three requests of one handshake, consistent with resPQ |
| AuthKey.AuthPayload.constructor | PP.Lib/Internal/Auth/AuthKeyGenerator.cs:33-47 | the property initialisers |
| AuthKey.Generator.constructor | PP.Lib/Internal/Auth/AuthKeyGenerator.cs:81-84 | a generator starts with nothing queued or drawn |
| AuthKey.Generator.Draw | PP.Lib/Internal/Auth/AuthKeyGenerator.cs:279 | `GetBytes` yields the next bytes of the generator |
| AuthKey.Generator.ReadSingle | PP.Lib/Internal/Auth/AuthKeyGenerator.cs:107 | the next answer from the pool |
| AuthKey.Generator.ReqPQStep | PP.Lib/Internal/Auth/AuthKeyGenerator.cs:330-347 | the method has SendReqPQ's effect |
| AuthKey.Generator.ResPQStep | PP.Lib/Internal/Auth/AuthKeyGenerator.cs:349-369 | the method has TakeResPQ's effect or error |
| AuthKey.Generator.ReqDHStep | PP.Lib/Internal/Auth/AuthKeyGenerator.cs:230-276 | the method has SendReqDH's effect or error |
| AuthKey.Generator.SendPQInnerStep | PP.Lib/Internal/Auth/AuthKeyGenerator.cs:278-327 | the method has SendPQInner's effect or error |
| AuthKey.Generator.ResDHStep | PP.Lib/Internal/Auth/AuthKeyGenerator.cs:177-228 | the method has TakeResDH's effect or error |
| AuthKey.Generator.AcceptServerDHStep | PP.Lib/Internal/Auth/AuthKeyGenerator.cs:192-217 | the method has AcceptServerDH's effect or error |
| AuthKey.Generator.AgreeKeyStep | PP.Lib/Internal/Auth/AuthKeyGenerator.cs:205-214 | the method has AgreeKey's effect or error |
| AuthKey.Generator.SetDHStep | PP.Lib/Internal/Auth/AuthKeyGenerator.cs:138-175 | the method has SendSetDH's effect or error |
| AuthKey.Generator.QueueSetDHStep | PP.Lib/Internal/Auth/AuthKeyGenerator.cs:152-172 | the method has QueueSetDH's effect |
| AuthKey.Generator.DHGenCheckStep | PP.Lib/Internal/Auth/AuthKeyGenerator.cs:115-136 | the method has TakeDHGenCheck's effect or error |
| AuthKey.Generator.ProcessState | PP.Lib/Internal/Auth/AuthKeyGenerator.cs:103-113 | the state's handler, then its successor, as Step |
| AuthKey.Generator.GetKey | PP.Lib/Internal/Auth/AuthKeyGenerator.cs:86-101 | the handshake from ReqPQ with a new payload, then KeyOf; the pool is left as the run leaves it |

## Left out

- Sockets, the async `Task.Run` loops, `System.Threading.Channels`, the clock's lock and logging are not modelled.
  - The network is the sequence of chunks successive reads return.
  - A connection's background read task is the explicit step `ConnectionPool.Pump`.
  - Waiting on an empty channel is `None` (ConnectionPool.ReadSingle) or EndOfStream (the handshake).
- `ConnectionPool.Read()` and `Connection.Read()` are not separate members. They are the sequence ReadSingle and Pump produce (FifoOrder, TakesInOrder).
- The pool's unused `dedicated` parameter and the `_dedicatedConnections` dictionary are left out.
- `Connection.Dispose` is left out.
- SHA-1, RSA encryption, the random number generator, the AES block function and its key schedule (`Aes.cs:28-36`) are parameters (`Env`, `AesIge.Transform`). The security of these primitives is out of scope.
- The ECB transform is modelled as one call. The source retries `TransformBlock` when it returns 0 (`Aes.cs:52-53`), which cannot happen for a full block without padding.
- The generated `PP.Entity` classes (req_pq_multi, resPQ, p_q_inner_data and the rest) are not part of this model.
  - The handshake queues requests as values.
  - It receives answers already decoded.
  - The encodings of the inner data are `Env` parameters.
- The `UnsecuredMessage` envelope and message ids of the handshake's requests are not threaded through `AuthKey`. The envelope and the clock are modelled on their own, in `Unsecured` and `Time`.
- Reflection is modelled as a map from schema parameter names to values, with a missing name for null.
  - The source looks a property up by ReplaceReservedString (`TLObjectBase.cs:14-33`), which prefixes `@` to the eleven C# keywords in EntityGenerator.ReservedWords. Reflection finds no property under such a name.
  - So for a parameter named by one of those keywords, the program throws or skips it on write, leaves it unset (and reads no vector) on read, and counts 0 for it in Estimate.
  - The model finds that parameter by name. WriteObject, ReadObject, EstimateObject and the TLCodecLaws therefore describe the program only for other parameter names.
- Doubles are kept as their 64-bit patterns, dates as whole seconds and strings as their UTF-8 bytes. UTF-8 encoding itself is not modelled. A string also carries its `Length` in UTF-16 units; the reader sets it to the Utf16Length of the bytes it decoded (TLValues.Utf16Length). .NET's replacement of ill-formed UTF-8 is not modelled.
- EntityGenerator.FirstEmptyNamed: `ToLower()` is culture-sensitive Unicode case mapping; the model folds only the ASCII letters (Text.ToLowerAscii), which is all a schema identifier holds.
- `ArrayPool` is modelled as handing out an array `slack` bytes longer than asked, with unspecified contents.
- `TLEntityGenerator.Execute`, `Initialize`, `WriteTLTypeCommonClass`, `WriteTLType` and `WriteTLMethod` are not modelled. They emit C# source text around the modelled mappings.
- `ToString` and Program.cs are not modelled.
- TLCodecLaws: the read-back of a whole entity is not proved. Only the per-parameter read-back (ParamReadBack) and the writer side of a whole entity (ObjectWritten) are.
- TLRead.Entity.ReadFromStream: on failure, the properties set before the exception are not described.
- EntityGenerator.GetTypeParameterTypeStr: the source recurses forever on a `flags` type without '?' and on a `Vector` type with nothing to strip. The model returns `Diverges` there.
- AuthKey.Rho: the source loops as long as the gcd stays 1. The model bounds the loop by `Env.rhoFuel` rounds and returns `Diverges` beyond it.
- AuthKey.SetDHSends: success is promised only for a non-negative g. For a negative g the result depends on the sign of the modular power.
- AuthKey.ModPow: the range is stated only for a non-negative base, the only case the handshake uses with unsigned inputs.
- AuthKey.ReqDHSends: the null check on NonceServer (`AuthKeyGenerator.cs:234-235` and `140-141`) is not modelled, because the server nonce starts as an empty array and is never set to null.
- Unsecured.Message.AsBytes: the characterisation assumes a buffer shorter than 2^31 bytes, as .NET arrays are.
- TLEstimate.Estimate: the `int` sum of the estimate is kept unbounded inside, and wrapped to 32 bits only where the message length is written.

Where the code and its description disagree, the model follows the code:

- After server_DH_params_fail the handshake does not reach End. dh_prime stays zero and SetDH's `ModPow` throws (ServerFailAborts).
- `WriteToStream` never writes the flags word that `ReadFromStream` expects and `Estimate` counts (FlagsWordNeverWritten).
- `Estimate` counts `true` parameters as four bytes (TrueCountedNotWritten) and vectors of entities four bytes short (VectorUndercount).
- `Estimate` counts a string by its UTF-16 length, while `WriteToStream` writes its UTF-8 bytes, so strings with non-ASCII characters are counted short (StringUndercount).
- Nested entities outside a vector are neither written nor read.
- A schema line without parameters fails in `params.First()`.
- A connection to any data center other than 2 fails with KeyNotFound (Connect).
- A transport error frame is still delivered, as four zero bytes (ErrorFrameAllZero).

## Findings

| source | as written | input that shows it | evidently intended | confidence | as-written member | corrected member |
|---|---|---|---|---|---|---|
| PP.Lib/Internal/Messaging/UnsecuredMessage.cs:36-37 | the received message id is shifted right by 32 bits before `CorrectOffset` (Time.cs:18), which shifts it again, so the offset becomes minus the local time | a server id of 1_700_000_000 * 2^32 received at local second 1_700_000_000: the offset becomes -1_700_000_000 and a fresh clock's next id is 2 | pass the id as received, so that the clock adopts the server's seconds | not executed | Unsecured.DoubleShiftDropsServerTime | Unsecured.ServerTimeAdopted |
| PP.Lib/Internal/Transport/Connection.cs:138-149 | in the split case the copy pointer never advances, and `leftToRead` subtracts the header size where the missing bytes add it | the 8-byte message framed as [2, 1, ..., 8] and read as [2, 1], [2, 3], [4, 5, 6, 7, 8] is delivered as [1, 4, 5, 6, 7, 8, 0, 0] | advance the pointer past each read and start from the bytes still missing, so that the reads carrying them complete the message | not executed | Transport.SplitLosesData | Transport.SplitFrameReadBack |
