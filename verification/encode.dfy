/**
  Serialization of the ABI model: each element becomes an object holding
  its constructor parameters followed by its constant discriminants.
*/
module AbiEncode {
  import opened Wrappers
  import opened JsonValues
  import opened Abi

  /** A JSON array holding `g` of each element of `xs`, in order. */
  function ArrayOf<T>(xs: seq<T>, g: T -> Json): Json {
    JArray(seq(|xs|, i requires 0 <= i < |xs| => g(xs[i])))
  }

  /** A nullable string: absence is written as an explicit null. */
  function NullableString(o: Option<string>): Json {
    match o
    case None => JNull
    case Some(s) => JString(s)
  }

  function EncodeParam(p: Param): Json {
    JObject([Field("name", JString(p.name)), Field("type", JString(p.typ))])
  }

  function EncodeFunctionOutput(o: FunctionOutput): Json {
    JObject([Field("type", NullableString(o.typ))])
  }

  function EncodeHandlerOutput(o: HandlerOutput): Json {
    JObject([Field("output", NullableString(o.output))])
  }

  function EncodeEventField(f: EventField): Json {
    JObject([
      Field("name", JString(f.name)),
      Field("type", JString(f.typ)),
      Field("kind", JString(FieldKindValue(f.kind)))
    ])
  }

  function FunctionFields(f: Function): seq<Field> {
    [
      Field("name", JString(f.name)),
      Field("inputs", ArrayOf(f.inputs, EncodeParam)),
      Field("outputs", ArrayOf(f.outputs, EncodeFunctionOutput)),
      Field("state_mutability", JString(MutabilityValue(f.stateMutability))),
      Field("type", JString("function"))
    ]
  }

  function EncodeFunction(f: Function): Json {
    JObject(FunctionFields(f))
  }

  function EventFields(ev: Event): seq<Field> {
    match ev
    case EnumEvent(name, variants) =>
      [
        Field("name", JString(name)),
        Field("variants", ArrayOf(variants, EncodeEventField)),
        Field("type", JString("event")),
        Field("kind", JString("enum"))
      ]
    case StructEvent(name, members) =>
      [
        Field("name", JString(name)),
        Field("members", ArrayOf(members, EncodeEventField)),
        Field("type", JString("event")),
        Field("kind", JString("struct"))
      ]
  }

  /**
    The fields written for an element, in the order they are written: each
    of its properties once, and nothing else.
  */
  function ElementFields(e: AbiElement): (r: seq<Field>)
    ensures forall i :: 0 <= i < |r| ==> r[i].key in PropertyNames(e)
    ensures forall i, j :: 0 <= i < j < |r| ==> r[i].key != r[j].key
    ensures |r| == |PropertyNames(e)|
  {
    match e
    case FunctionElement(f) => FunctionFields(f)
    case Constructor(inputs, name) =>
      [
        Field("inputs", ArrayOf(inputs, EncodeParam)),
        Field("type", JString("constructor")),
        Field("name", NullableString(name))
      ]
    case L1Handler(name, inputs, outputs, mutability) =>
      [
        Field("name", JString(name)),
        Field("inputs", ArrayOf(inputs, EncodeParam)),
        Field("outputs", ArrayOf(outputs, EncodeHandlerOutput)),
        Field("state_mutability", JString(MutabilityValue(mutability))),
        Field("type", JString("l1_handler"))
      ]
    case EventElement(ev) => EventFields(ev)
    case Struct(name, members) =>
      [
        Field("name", JString(name)),
        Field("members", ArrayOf(members, EncodeParam)),
        Field("type", JString("struct"))
      ]
    case Enum(name, variants) =>
      [
        Field("name", JString(name)),
        Field("variants", ArrayOf(variants, EncodeParam)),
        Field("type", JString("enum"))
      ]
    case Interface(name, items) =>
      [
        Field("name", JString(name)),
        Field("items", ArrayOf(items, EncodeFunction)),
        Field("type", JString("interface"))
      ]
    case Impl(name, interfaceName) =>
      [
        Field("name", JString(name)),
        Field("interface_name", JString(interfaceName)),
        Field("type", JString("impl"))
      ]
  }

  function EncodeElement(e: AbiElement): Json {
    JObject(ElementFields(e))
  }

  /** The property names of each variant: its constructor parameters and its constant discriminants. */
  function PropertyNames(e: AbiElement): set<string> {
    match e
    case FunctionElement(_) => {"name", "inputs", "outputs", "state_mutability", "type"}
    case Constructor(_, _) => {"inputs", "type", "name"}
    case L1Handler(_, _, _, _) => {"name", "inputs", "outputs", "state_mutability", "type"}
    case EventElement(EnumEvent(_, _)) => {"name", "variants", "type", "kind"}
    case EventElement(StructEvent(_, _)) => {"name", "members", "type", "kind"}
    case Struct(_, _) => {"name", "members", "type"}
    case Enum(_, _) => {"name", "variants", "type"}
    case Interface(_, _) => {"name", "items", "type"}
    case Impl(_, _) => {"name", "interface_name", "type"}
  }

  /** Keys are never repeated within an encoded record. */
  ghost predicate DistinctKeys(fields: seq<Field>) {
    forall i, j :: 0 <= i < j < |fields| ==> fields[i].key != fields[j].key
  }

  /** In a record without repeated keys, every field is found by its key. */
  lemma GetDistinct(fields: seq<Field>, i: int)
    requires DistinctKeys(fields) && 0 <= i < |fields|
    ensures Get(fields, fields[i].key) == Some(fields[i].value)
  {
    GetFirst(fields, fields[i].key, i);
  }

  /**
    An encoded element holds exactly its properties, each once, and its
    constant discriminants: `type` is the variant's name, events report their
    `kind`, and the constructor writes the name it holds.
  */
  lemma EncodeDiscriminants(e: AbiElement)
    ensures DistinctKeys(ElementFields(e))
    ensures KeySet(ElementFields(e)) == PropertyNames(e)
    ensures Get(ElementFields(e), "type") == Some(JString(TypeName(e)))
    ensures e.EventElement? ==> Get(ElementFields(e), "kind") == Some(JString(KindName(e.ev)))
    ensures e.Constructor? ==> Get(ElementFields(e), "name") == Some(NullableString(e.constructorName))
  {
    var fs := ElementFields(e);
    var t := TypeIndex(e);
    GetDistinct(fs, t);
    if e.EventElement? {
      GetDistinct(fs, 3);
    }
    if e.Constructor? {
      GetDistinct(fs, 2);
    }
    forall i | 0 <= i < |fs| ensures fs[i].key in KeySet(fs) && fs[i].key in PropertyNames(e) {
      assert i == 0 || i == 1 || i == 2 || i == 3 || i == 4;
    }
    forall k | k in KeySet(fs) ensures k in PropertyNames(e) {
      var i :| 0 <= i < |fs| && fs[i].key == k;
    }
    assert fs[0].key in KeySet(fs) && fs[1].key in KeySet(fs) && fs[2].key in KeySet(fs);
    if |fs| > 3 { assert fs[3].key in KeySet(fs); }
    if |fs| > 4 { assert fs[4].key in KeySet(fs); }
  }

  /** Where `type` sits in an encoded element. */
  function TypeIndex(e: AbiElement): (i: nat)
    ensures i < |ElementFields(e)| && ElementFields(e)[i].key == "type"
  {
    match e
    case FunctionElement(_) => 4
    case Constructor(_, _) => 1
    case L1Handler(_, _, _, _) => 4
    case EventElement(_) => 2
    case Struct(_, _) => 2
    case Enum(_, _) => 2
    case Interface(_, _) => 2
    case Impl(_, _) => 2
  }
}
