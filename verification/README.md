# Verified model of the abi-parser ABI decoder

This project models the core of `abi-parser`: the Cairo contract ABI data model and its discriminated decoder. An ABI document is a JSON list of tagged records. The `type` property of each record picks one shape out of a sealed hierarchy: function, constructor, L1 handler, event, struct, enum, interface or impl. Events carry a second tag, `kind`, that picks between an enum-shaped and a struct-shaped event. In the source, Jackson derives the decoder from the class annotations, plus one hand-written event deserializer. Here it is written out as a pair of pure functions:

- `AbiDecode.DecodeElement` decodes one record.
- `Mapper.DecodeAbi` decodes the whole document.

Each has a matching encoder, and lemmas state the decoding rules:

- Dispatch through the registration table.
- The second dispatch on `kind`.
- Closed string vocabularies.
- Required versus nullable properties.
- Unknown keys are ignored.
- List order is preserved.
- Round-trip.

Files and modules:

| file | module | content |
|---|---|---|
| `wrappers.dfy` | `Wrappers` | `Option` (a Kotlin nullable) and `Result` (a value, or the reason the decode threw) |
| `json.dfy` | `JsonValues` | parsed JSON values; objects are ordered field lists; key lookup |
| `abi.dfy` | `Abi` | the element hierarchy, its constant discriminants, the registration tables and the id maps the mapper builds from them |
| `decode.dfy` | `AbiDecode` | property readers, nested-record decoders, the event deserializer, element dispatch |
| `encode.dfy` | `AbiEncode` | serialization of elements: constructor parameters followed by constant discriminants |
| `roundtrip.dfy` | `RoundTrip` | decode inverts encode for every variant but `Enum`; an encoded `Enum` comes back as an enum event or fails, and as itself only under its class name |
| `properties.dfy` | `DecodeProperties` | keys read, keys required, event routing and `kind` dispatch, list order |
| `mapper.dfy` | `Mapper` | whole-document decode, document round-trip, the fixed tag catalogue |

Modelling choices:

- Decoding starts from an already-parsed JSON value. An object keeps its fields in document order, and a key resolves to its first field.
- A property declared as a non-nullable Kotlin `String` or `List` fails when it is absent or `null`. This is how the Kotlin module treats a missing non-null constructor parameter.
- The two nullable properties, `Function.Output.type` and `L1Handler.Output.output`, decode an absent or `null` value to `None`. `None` is distinct from `Some("")`.
- The source declares five structurally identical `(name, type)` classes (three `Input`s, `Struct.Member`, `Enum.Variant`). They decode identically, so the model shares one `Param`. It also shares one `StateMutability` between the two identical enums.
- Error detail (`ElementError`, and `DecodeError.AtElement` with the zero-based element index) is the model's own choice. The source only throws.
- The mapper builds the element's id map in two steps.
  - First it collects the named registrations: the element's `@JsonSubTypes` table (`Abi.kt:13-21`), and for each listed class the table that class declares. `Event`'s table (`Abi.kt:85-88`) adds "enum" for the enum-event class and "struct" for the struct-event class. Collection is depth-first, and a later registration of a name overwrites an earlier one. So the registration list has nine entries but only eight distinct names, and "struct" ends up selecting `Struct`, whose own entry comes after `Event`'s. The model writes this out as `Abi.Collect` and `Abi.LookupName`.
  - Then it adds a default id for every class it visited that no name selects. The Kotlin module reports the subclasses of a sealed class (`Abi.kt:22`, `Abi.kt:89`) as subtypes without a name. A default id is the class's name after its package; the source declares no package, and a nested class is joined to its outer class by `$`. Two classes are left without a name: `Enum`, which no table lists, and the struct-event class, whose "struct" `Struct` took over. The element id map therefore has ten ids: the eight names plus "AbiElement$Enum" and "AbiElement$Event$StructEvent" (`Abi.DefaultIds`, `Abi.ElementIds`).
- Interface items are declared as `Function` (`Abi.kt:149`), which inherits the element's annotations but is not sealed. Their id map has the same eight names and only the struct-event class's default id, because `Enum` is not reached from `Function` (`Abi.ItemIds`).
- `Enum` (`Abi.kt:131-144`) writes `"type": "enum"`, but "enum" is `Event`'s name for the enum-event class. A `"type": "enum"` record is bound directly to the enum-event class. That binding goes through the class's own bean deserializer, not the registered event deserializer, so there is no dispatch on `kind`. A Cairo enum record with variants fails, because its variants carry no `kind`; one with no variants decodes as an enum event with that name (`RoundTrip.EnumDecodesAsEnumEvent`, `Mapper.AbiWithEnumFails`). A record decodes to an `Enum` exactly when its `type` is "AbiElement$Enum" (`AbiDecode.DecodeElementSelected`).
- A record whose `type` is "AbiElement$Event$StructEvent" binds the struct-event class directly, also without dispatch on `kind`.
- `Interface.items` is a list of `Function`. `Function` inherits the element's `type` discriminant, so each item must itself carry `"type": "function"`. Any other id of the item id map names a class that is not a function, and the model rejects it with `NotAFunction`.
- The constructor's `name` (`Abi.kt:43`) is a class-body `val` initialised to "constructor". The Kotlin module lets the mapper set such a property. An absent `name` keeps "constructor", a string is stored, `null` is stored as a null, and any other value fails.
- The decoder also accepts these inputs:
  - A struct event that also carries `variants`; the extra key is ignored like any unknown key.
  - Empty `type` strings for inputs and members.

## Model

| member | source | states |
|---|---|---|
| `Abi.LookupNameSpec` | src/main/kotlin/Abi.kt:13-21 | looking a name up in a registration table finds nothing exactly when no entry carries it; otherwise it returns the class of the last entry carrying it, since a later registration overwrites an earlier one |
| `Abi.LookupAppend` | src/main/kotlin/Abi.kt:13-21 | looking a name up in one registration list followed by another finds the later list's entry when it has one, and the earlier list's otherwise |
| `Abi.CollectEntries` | src/main/kotlin/Abi.kt:13-88 | the collected registration list holds every entry of the table it is collected from and every entry each listed class registers in turn, and nothing else |
| `Abi.CollectedPrecedence` | src/main/kotlin/Abi.kt:13-88 | in the collected list a name the element table registers selects that table's class, and any other name selects what `Event`'s table registers under it, if anything |
| `Abi.UnnamedSpec` | src/main/kotlin/Abi.kt:22 | a class is left without a name exactly when no name of the registration list selects it |
| `Abi.UnnamedClasses` | src/main/kotlin/Abi.kt:13-101 | exactly two classes are left without a name: `Enum`, which no table lists, and the struct-event class, whose name "struct" `Struct` takes over |
| `Abi.DefaultIdsSpec` | src/main/kotlin/Abi.kt:22 | the default ids are exactly the pairs of a visited class left without a name and that class's name |
| `Abi.DefaultsContents` | src/main/kotlin/Abi.kt:22-164 | the element hierarchy gets default ids for `Enum` and the struct-event class; the interface-item hierarchy, which does not reach `Enum`, only for the struct-event class |
| `Abi.IdMapsComputed` | src/main/kotlin/Abi.kt:12-22 | each id map is the collected names followed by the default ids computed for its hierarchy |
| `Abi.ElementDefaultsSelectUnnamed` | src/main/kotlin/Abi.kt:22 | a class gets its class name as an element id exactly when no collected name selects it |
| `Abi.KindName` | src/main/kotlin/Abi.kt:84-101 | each event shape's constant `kind` is the name under which `Event`'s table registers that shape's class, and is "enum" or "struct" |
| `Abi.ResolvePrecedence` | src/main/kotlin/Abi.kt:12-101 | resolving against the element id map is asking the element table first, `Event`'s table second and the default ids last: an id the element table names resolves to its class there, "struct" included; an id only `Event`'s table names resolves to its class there; of the remaining ids, exactly the class names of `Enum` and of the struct-event class resolve, each to its own class |
| `Abi.ResolveItemAgrees` | src/main/kotlin/Abi.kt:149 | an interface item's id resolves as an element id does, except `Enum`'s class name, which resolves to nothing |
| `Abi.TableMatchesDiscriminants` | src/main/kotlin/Abi.kt:12-22 | every element's constant `type` resolves, and to that element's own class, except `Enum`'s "enum", which resolves to the enum-event class that `Enum` is not an instance of; `Enum`'s class name resolves to `Enum` |
| `Abi.TypeNameIdentifiesVariant` | src/main/kotlin/Abi.kt:22-164 | two elements report the same constant `type` exactly when they are the same variant |
| `Abi.EveryClassSelectable` | src/main/kotlin/Abi.kt:12-101 | every class, `Enum` and both event shapes included, is selected by some id |
| `Abi.SubTypeTableExhaustive` | src/main/kotlin/Abi.kt:13-88 | the element table repeats no name and no class; "struct" is the only name both tables register |
| `Abi.ResolveIds` | src/main/kotlin/Abi.kt:12-101 | each of the ten ids resolves to a fixed class: the seven element names to their own classes, "enum" to the enum-event class, and the two class names to `Enum` and to the struct-event class |
| `Abi.EnumEventId` | src/main/kotlin/Abi.kt:84-88 | only "enum" resolves to the enum-event class |
| `Abi.ClassNameIds` | src/main/kotlin/Abi.kt:22 | only `Enum`'s class name resolves to `Enum`, and only the struct-event class's name resolves to the struct-event class |
| `Abi.ResolveInjective` | src/main/kotlin/Abi.kt:12-22 | an id that resolves to an element's class is exactly that element's constant `type`, or `Enum`'s class name for an `Enum` |
| `AbiDecode.DecodeEach` | src/main/kotlin/Abi.kt:25-26 | a list decodes all-or-nothing: success iff every element decodes; then the result has one value per element, in order, each decoded from its element; a failure names the first failing position and its error |
| `AbiDecode.RequiredString` | src/main/kotlin/Abi.kt:31 | a non-nullable string property succeeds exactly on a JSON string and yields it; absent or `null` is a missing-field error |
| `AbiDecode.OptionalString` | src/main/kotlin/Abi.kt:33 | a nullable string property yields "no value" exactly when absent or `null`, and yields `s` exactly when it is the JSON string `s` |
| `AbiDecode.RequiredList` | src/main/kotlin/Abi.kt:25-26 | a non-nullable list property fails when absent or `null`; it succeeds exactly when it is an array whose entries all decode, and then each result entry is decoded from the input entry at the same position |
| `AbiDecode.FieldString` | src/main/kotlin/Abi.kt:43 | a settable class-body string succeeds exactly on a string or `null`; absent keeps the initial value, `null` stores a null, a string is stored |
| `AbiDecode.DecodeMutability` | src/main/kotlin/Abi.kt:35-38 | `state_mutability` is accepted exactly when it is the string "view" or "external", and the constant read encodes back to the same string |
| `AbiDecode.DecodeFieldKind` | src/main/kotlin/Abi.kt:77-81 | an event field's `kind` is accepted exactly when it is "key", "data" or "nested", and the constant read encodes back to the same string |
| `AbiDecode.DecodeParam` | src/main/kotlin/Abi.kt:31 | a `{name, type}` record decodes exactly when it is an object whose `name` and `type` are strings, and the result carries those two strings |
| `AbiDecode.DecodeFunctionOutput` | src/main/kotlin/Abi.kt:33 | a function output decodes to "no value" exactly when `type` is absent or `null`, and to `Some(s)` exactly when `type` is the string `s` |
| `AbiDecode.DecodeHandlerOutput` | src/main/kotlin/Abi.kt:59 | an L1-handler output decodes to "no value" exactly when `output` is absent or `null`, and to `Some(s)` exactly when `output` is the string `s` |
| `AbiDecode.DecodeEventField` | src/main/kotlin/Abi.kt:67-82 | an event field decodes exactly when its `name` and `type` are strings and its `kind` is one of the three constants, and the result carries them |
| `AbiDecode.DecodeFunction` | src/main/kotlin/Abi.kt:23-28 | a function decodes exactly when its name is a string, both lists decode and its mutability is a constant; the lists are decoded entry by entry, in order |
| `AbiDecode.DecodeConstructor` | src/main/kotlin/Abi.kt:41-46 | a constructor decodes exactly when its `inputs` decode and its `name` is absent, `null` or a string; the inputs come entry by entry, in order; the stored name is "constructor" when absent, null for `null`, and the given string otherwise |
| `AbiDecode.DecodeL1Handler` | src/main/kotlin/Abi.kt:48-53 | an L1 handler decodes exactly when its name is a string, both lists decode and its mutability is a constant; the lists come entry by entry, in order |
| `AbiDecode.DecodeStruct` | src/main/kotlin/Abi.kt:116-129 | a struct decodes exactly when its name is a string and its `members` decode; the members come in order from the record |
| `AbiDecode.DecodeEnum` | src/main/kotlin/Abi.kt:131-144 | an `Enum` record decodes exactly when its name is a string and its `variants` decode; the variants come in order from the record |
| `AbiDecode.DecodeInterface` | src/main/kotlin/Abi.kt:146-150 | an interface decodes exactly when its name is a string and its `items` decode; the items come in order from the record |
| `AbiDecode.DecodeInterfaceItem` | src/main/kotlin/Abi.kt:149 | an interface item decodes exactly when it is an object with `type` "function" that decodes as a function; another id of the item id map fails as not a function, any other id as an unknown variant |
| `AbiDecode.DecodeImpl` | src/main/kotlin/Abi.kt:155-160 | an impl decodes exactly when `name` and `interface_name` are strings, and carries them |
| `AbiDecode.DecodeEvent` | src/main/kotlin/Abi.kt:103-113 | the event deserializer succeeds exactly when `kind` is "enum" with a string name and decodable `variants`, or "struct" with a string name and decodable `members`; the result's `kind` is the record's; any other kind fails |
| `AbiDecode.DecodeEnumEventRecord` | src/main/kotlin/Abi.kt:93-96 | the enum-event class bound without dispatch decodes exactly when `name` is a string, `variants` decode and `kind`, if present, is a string or `null`; name and variants come from the record |
| `AbiDecode.DecodeStructEventRecord` | src/main/kotlin/Abi.kt:98-101 | the struct-event class bound by its class name decodes exactly when `name` is a string, `members` decode and `kind`, if present, is a string or `null`; name and members come from the record |
| `AbiDecode.DecodeAs` | src/main/kotlin/Abi.kt:13-21 | binding a record to a resolved class yields a value of that class |
| `AbiDecode.ResolvedInstance` | src/main/kotlin/Abi.kt:12-22 | a value of the class an id resolves to reports that id as its `type`, unless the id is "enum" and the value an enum event, or the id is a class name and the value of that class; it is an `Enum` exactly when the id is `Enum`'s class name |
| `AbiDecode.DecodeElement` | src/main/kotlin/Abi.kt:12-22 | a decoded element is an instance of the class its record's `type` resolves to; an unresolved `type` fails as an unknown variant, a missing one as a missing id, a non-object fails |
| `AbiDecode.DecodeElementSelected` | src/main/kotlin/Abi.kt:12-22 | a decoded element reports its record's `type`, except an enum event decoded from "enum" and a value decoded from a class name; it is an `Enum` exactly when the record's `type` is `Enum`'s class name |
| `AbiDecode.DecodeElementDispatch` | src/main/kotlin/Abi.kt:12-21 | a record whose `type` resolves decodes exactly as the resolved class binds it |
| `AbiEncode.ElementFields` | src/main/kotlin/Abi.kt:22-164 | an encoded element writes each of its properties once and nothing else |
| `AbiEncode.EncodeDiscriminants` | src/main/kotlin/Abi.kt:22-164 | an encoded element holds exactly its properties, each key once; `type` is the variant's name; events report their `kind`; the constructor writes the name it holds |
| `RoundTrip.ParamRoundTrip` | src/main/kotlin/Abi.kt:31 | an encoded `{name, type}` record decodes back to itself |
| `RoundTrip.EventFieldRoundTrip` | src/main/kotlin/Abi.kt:67-82 | an encoded event field decodes back to itself |
| `RoundTrip.FunctionOutputsRoundTrip` | src/main/kotlin/Abi.kt:33 | a list of encoded function outputs, including absent types written as `null`, decodes back to the same list |
| `RoundTrip.HandlerOutputsRoundTrip` | src/main/kotlin/Abi.kt:59 | a list of encoded L1-handler outputs decodes back to the same list |
| `RoundTrip.FunctionRoundTrip` | src/main/kotlin/Abi.kt:23-39 | an encoded function decodes back to itself, as an element's fields, as a function element and as an interface item |
| `RoundTrip.EventRoundTrip` | src/main/kotlin/Abi.kt:89-113 | an encoded enum or struct event goes through the event deserializer back to itself |
| `RoundTrip.ConstructorRoundTrip` | src/main/kotlin/Abi.kt:41-46 | an encoded constructor, whatever name it holds, decodes back to itself |
| `RoundTrip.L1HandlerRoundTrip` | src/main/kotlin/Abi.kt:48-65 | an encoded L1 handler decodes back to itself |
| `RoundTrip.StructRoundTrip` | src/main/kotlin/Abi.kt:116-129 | an encoded struct decodes back to itself |
| `RoundTrip.InterfaceRoundTrip` | src/main/kotlin/Abi.kt:146-153 | an encoded interface, items included, decodes back to itself |
| `RoundTrip.ImplRoundTrip` | src/main/kotlin/Abi.kt:155-163 | an encoded impl decodes back to itself |
| `RoundTrip.EnumRoundTrip` | src/main/kotlin/Abi.kt:131-144 | an encoded `Enum`, bound to its own class, decodes back to itself |
| `RoundTrip.DecodeAsRoundTrip` | src/main/kotlin/Abi.kt:12-22 | the class of each element, `Enum` included, decodes that element's encoded fields back to it |
| `RoundTrip.ElementRoundTrip` | src/main/kotlin/Abi.kt:22-164 | for every variant but `Enum`, decoding the encoding gives back the same element |
| `RoundTrip.ParamIsNoEventField` | src/main/kotlin/Abi.kt:67-82 | an enum variant's `{name, type}` record is not an event field: it fails for lack of a `kind` |
| `RoundTrip.EnumRecordAsEvent` | src/main/kotlin/Abi.kt:93-96 | an encoded `Enum`, bound to the enum-event class, gives an enum event of the same name when it has no variants and fails at its first variant otherwise |
| `RoundTrip.EnumDecodesAsEnumEvent` | src/main/kotlin/Abi.kt:131-144 | an encoded `Enum` never decodes to itself: with no variants it decodes as an enum event of the same name, otherwise it fails at its first variant's missing `kind` |
| `RoundTrip.EnumClassIdRoundTrip` | src/main/kotlin/Abi.kt:131-144 | an encoded `Enum` whose `type` is replaced by its class name decodes back to itself |
| `RoundTrip.StructEventRecordRoundTrip` | src/main/kotlin/Abi.kt:98-101 | the struct-event class binds the fields of an encoded struct event back to it, whatever `type` they carry |
| `RoundTrip.StructEventClassIdRoundTrip` | src/main/kotlin/Abi.kt:98-101 | an encoded struct event whose `type` is replaced by its class name decodes back to itself through the struct-event class |
| `DecodeProperties.DecodeAsReadsOnlyKnownKeys` | src/main/kotlin/Main.kt:13 | two records that agree on the keys a class binds decode identically under that class |
| `DecodeProperties.DecodeReadsOnlyKnownKeys` | src/main/kotlin/Main.kt:13 | a record's decode depends only on its `type` and on the keys its class binds |
| `DecodeProperties.UnknownKeysIgnored` | src/main/kotlin/Main.kt:13 | inserting fields anywhere in a record, under keys its class does not bind, does not change the decode |
| `DecodeProperties.NestedUnknownKeysIgnored` | src/main/kotlin/Main.kt:13 | inserting fields into an input, member or variant, a function output, an L1-handler output or an event field, under keys that record does not bind, does not change its decode; each record has its own set of bound keys |
| `DecodeProperties.ItemUnknownKeysIgnored` | src/main/kotlin/Main.kt:13 | inserting fields into an interface item, under keys other than `type` and a function's properties, does not change its decode |
| `DecodeProperties.DecodeAsNeedsRequiredKeys` | src/main/kotlin/Abi.kt:23-28 | each class's decoder fails on a record where one of its non-nullable properties is absent or `null` |
| `DecodeProperties.MissingRequiredFieldFails` | src/main/kotlin/Abi.kt:116-128 | an element record missing a non-nullable property of its class (or null there) fails; no default is filled in |
| `DecodeProperties.EventRouting` | src/main/kotlin/Main.kt:10 | a record whose `type` is "event" decodes exactly as the event deserializer decodes it, success and failure alike |
| `DecodeProperties.StructEventNeedsMembers` | src/main/kotlin/Abi.kt:98 | a struct event without `members` fails, whatever else (such as `variants`) it carries |
| `DecodeProperties.DecodedListsFollowInput` | src/main/kotlin/Abi.kt:25-26 | every list of a decoded element (inputs, outputs, members, variants, items) has one entry per input entry, decoded from it, in order |
| `Mapper.DecodeAbi` | src/main/kotlin/Main.kt:19 | a non-array document fails; otherwise it succeeds iff every element decodes, giving one element per entry in input order; a failure names the first failing entry's index and error |
| `Mapper.AbiRoundTrip` | src/main/kotlin/Main.kt:19 | an ABI with no `Enum` element decodes back from its encoding unchanged |
| `Mapper.AbiWithEmptyEnumsDecodes` | src/main/kotlin/Main.kt:19 | an encoded ABI whose `Enum`s have no variants decodes, each `Enum` turned into an enum event of the same name and every other element unchanged |
| `Mapper.AbiWithEnumFails` | src/main/kotlin/Main.kt:19 | an encoded ABI whose earlier `Enum`s have no variants fails as a whole at its first `Enum` with variants, with that `Enum`'s first variant's missing `kind` as the cause |
| `Mapper.AbiWithEnumNeverRoundTrips` | src/main/kotlin/Main.kt:19 | an ABI holding an `Enum` never decodes back from its encoding to itself |
| `Mapper.TagCatalogueIsVariantNames` | src/main/kotlin/Main.kt:38-47 | the tag catalogue is eight distinct names, and these are exactly the `type` names of the element variants |
| `Mapper.TagCatalogueAgainstTable` | src/main/kotlin/Main.kt:38-47 | every catalogue tag resolves in the element id map: each to its own variant's class, except "enum", which selects the enum-event class |

## Left out

- JSON text parsing and Jackson's reflection machinery. The model starts from a parsed value and states only the observable effect of dispatch and binding.
- Duplicate keys within one object. The model resolves a key to its first field. Jackson reads the type id from the first occurrence but binds properties from later ones, and that parser-level detail is not modelled.
- Jackson's default leniencies are not modelled; the model rejects these inputs as type mismatches:
  - a number or boolean accepted where a string is expected;
  - an integer, digit string or padded name accepted for an enum constant;
  - `null` entries inside a list;
  - a top-level `null` document.
- `AbiDecode.DecodeElement`: a `type` that is a number or boolean is reported as a missing id. Jackson reads the scalar's text and rejects it as an unknown id instead; both fail, and only the error differs.
- `AbiDecode.DecodeMutability`: the model does not accept Jackson's numeric enum ordinals or whitespace-trimmed names, because they come from library defaults that the annotated source does not state.
- `AbiDecode.DecodeFieldKind`: does not accept numeric ordinals or trimmed names, for the same reason.
- `FAIL_ON_NULL_FOR_PRIMITIVES` (`Main.kt:12`). No property of the model is a JVM primitive, so the flag has no observable effect.
- Reading `abi.json`, printing the result, and writing `openapi.yaml` (`Main.kt:18`, `20`, `66-68`). These are I/O.
- The OpenAPI document built in `handleOpenApi`. Its component map entry is unterminated, so it does not compile. Only its tag list is modelled (`Mapper.TagCatalogue`).
- `OpenApi.kt`. It holds only declarative output data classes. Their serialization is generic Jackson behaviour, and the source has no function that projects an ABI into them.
- Numbers are modelled as integers only, because no ABI property is numeric. In the model a number is always a shape error; Jackson's coercion of numbers to strings is left out above.
- `AbiDecode.DecodeElement`: does not model Jackson's wrapper-array form. For a value that is not an object, Jackson also accepts the array `[id, value]`, and `[id]` alone, as a typed element. The same applies to interface items. The model rejects every non-object. The form is a library fallback that the annotated source neither states nor uses.
- `AbiDecode.DecodeEnumEventRecord`: a `kind` string on a record bound directly to the enum-event class is checked but not kept. Jackson writes it into the class-body `kind` (`Abi.kt:95`), which is outside the data class's equality and printed form; the model's `Event` has no such field.
- `AbiDecode.DecodeStructEventRecord`: likewise for a `kind` string on a record bound by the struct-event class's name (`Abi.kt:100`).
