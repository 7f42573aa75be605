/** Decoding inverts encoding for every registered variant, and for nothing else. */
module RoundTrip {
  import opened Wrappers
  import opened JsonValues
  import opened Abi
  import opened AbiDecode
  import opened AbiEncode

  /** A list encoded element-wise decodes back, element for element, when each element does. */
  lemma ListRoundTrip<T>(key: string, xs: seq<T>, g: T -> Json, f: Json -> Result<T, ElementError>)
    requires forall i :: 0 <= i < |xs| ==> f(g(xs[i])) == Success(xs[i])
    ensures RequiredList(key, Some(ArrayOf(xs, g)), f) == Success(xs)
  {
    var js := ArrayOf(xs, g).elems;
    assert forall i :: 0 <= i < |js| ==> f(js[i]) == Success(xs[i]);
    var r := DecodeEach(js, f);
    assert r.Success?;
    assert r.value == xs;
  }

  lemma ParamRoundTrip(p: Param)
    ensures DecodeParam(EncodeParam(p)) == Success(p)
  {
    var fs := EncodeParam(p).fields;
    GetFirst(fs, "name", 0);
    GetFirst(fs, "type", 1);
  }

  lemma ParamsRoundTrip(key: string, ps: seq<Param>)
    ensures RequiredList(key, Some(ArrayOf(ps, EncodeParam)), DecodeParam) == Success(ps)
  {
    forall i | 0 <= i < |ps| ensures DecodeParam(EncodeParam(ps[i])) == Success(ps[i]) {
      ParamRoundTrip(ps[i]);
    }
    ListRoundTrip(key, ps, EncodeParam, DecodeParam);
  }

  lemma FunctionOutputsRoundTrip(os: seq<FunctionOutput>)
    ensures RequiredList("outputs", Some(ArrayOf(os, EncodeFunctionOutput)), DecodeFunctionOutput) == Success(os)
  {
    forall i | 0 <= i < |os| ensures DecodeFunctionOutput(EncodeFunctionOutput(os[i])) == Success(os[i]) {
      GetFirst(EncodeFunctionOutput(os[i]).fields, "type", 0);
    }
    ListRoundTrip("outputs", os, EncodeFunctionOutput, DecodeFunctionOutput);
  }

  lemma HandlerOutputsRoundTrip(os: seq<HandlerOutput>)
    ensures RequiredList("outputs", Some(ArrayOf(os, EncodeHandlerOutput)), DecodeHandlerOutput) == Success(os)
  {
    forall i | 0 <= i < |os| ensures DecodeHandlerOutput(EncodeHandlerOutput(os[i])) == Success(os[i]) {
      GetFirst(EncodeHandlerOutput(os[i]).fields, "output", 0);
    }
    ListRoundTrip("outputs", os, EncodeHandlerOutput, DecodeHandlerOutput);
  }

  lemma EventFieldRoundTrip(f: EventField)
    ensures DecodeEventField(EncodeEventField(f)) == Success(f)
  {
    var fs := EncodeEventField(f).fields;
    GetFirst(fs, "name", 0);
    GetFirst(fs, "type", 1);
    GetFirst(fs, "kind", 2);
  }

  lemma EventFieldsRoundTrip(key: string, fs: seq<EventField>)
    ensures RequiredList(key, Some(ArrayOf(fs, EncodeEventField)), DecodeEventField) == Success(fs)
  {
    forall i | 0 <= i < |fs| ensures DecodeEventField(EncodeEventField(fs[i])) == Success(fs[i]) {
      EventFieldRoundTrip(fs[i]);
    }
    ListRoundTrip(key, fs, EncodeEventField, DecodeEventField);
  }

  /** A function decodes back both as an element's fields and as an interface item. */
  lemma FunctionRoundTrip(f: Function)
    ensures DecodeFunction(FunctionFields(f)) == Success(f)
    ensures DecodeInterfaceItem(EncodeFunction(f)) == Success(f)
    ensures DecodeAs(FunctionType, FunctionFields(f)) == Success(FunctionElement(f))
  {
    var fs := FunctionFields(f);
    GetFirst(fs, "name", 0);
    GetFirst(fs, "inputs", 1);
    GetFirst(fs, "outputs", 2);
    GetFirst(fs, "state_mutability", 3);
    GetFirst(fs, "type", 4);
    ParamsRoundTrip("inputs", f.inputs);
    FunctionOutputsRoundTrip(f.outputs);
  }

  lemma EventRoundTrip(ev: Event)
    ensures DecodeEvent(EventFields(ev)) == Success(ev)
    ensures DecodeAs(EventType, EventFields(ev)) == Success(EventElement(ev))
  {
    var fs := EventFields(ev);
    GetFirst(fs, "name", 0);
    GetFirst(fs, "kind", 3);
    match ev
    case EnumEvent(name, variants) =>
      GetFirst(fs, "variants", 1);
      EventFieldsRoundTrip("variants", variants);
    case StructEvent(name, members) =>
      GetFirst(fs, "members", 1);
      EventFieldsRoundTrip("members", members);
  }

  /** A constructor decodes back with its inputs and the name it holds, null included. */
  lemma ConstructorRoundTrip(inputs: seq<Param>, name: Option<string>)
    ensures DecodeConstructor(ElementFields(Constructor(inputs, name))) == Success(Constructor(inputs, name))
    ensures DecodeAs(ConstructorType, ElementFields(Constructor(inputs, name))) == Success(Constructor(inputs, name))
  {
    var fs := ElementFields(Constructor(inputs, name));
    GetFirst(fs, "inputs", 0);
    GetFirst(fs, "name", 2);
    ParamsRoundTrip("inputs", inputs);
  }

  lemma L1HandlerRoundTrip(e: AbiElement)
    requires e.L1Handler?
    ensures DecodeL1Handler(ElementFields(e)) == Success(e)
    ensures DecodeAs(L1HandlerType, ElementFields(e)) == Success(e)
  {
    var fs := ElementFields(e);
    GetFirst(fs, "name", 0);
    GetFirst(fs, "inputs", 1);
    GetFirst(fs, "outputs", 2);
    GetFirst(fs, "state_mutability", 3);
    ParamsRoundTrip("inputs", e.inputs);
    HandlerOutputsRoundTrip(e.outputs);
  }

  lemma StructRoundTrip(e: AbiElement)
    requires e.Struct?
    ensures DecodeStruct(ElementFields(e)) == Success(e)
    ensures DecodeAs(StructType, ElementFields(e)) == Success(e)
  {
    var fs := ElementFields(e);
    GetFirst(fs, "name", 0);
    GetFirst(fs, "members", 1);
    ParamsRoundTrip("members", e.members);
  }

  lemma InterfaceRoundTrip(e: AbiElement)
    requires e.Interface?
    ensures DecodeInterface(ElementFields(e)) == Success((e.name, e.items))
    ensures DecodeAs(InterfaceType, ElementFields(e)) == Success(e)
  {
    var fs := ElementFields(e);
    GetFirst(fs, "name", 0);
    GetFirst(fs, "items", 1);
    forall i | 0 <= i < |e.items| ensures DecodeInterfaceItem(EncodeFunction(e.items[i])) == Success(e.items[i]) {
      FunctionRoundTrip(e.items[i]);
    }
    ListRoundTrip("items", e.items, EncodeFunction, DecodeInterfaceItem);
  }

  lemma ImplRoundTrip(e: AbiElement)
    requires e.Impl?
    ensures DecodeImpl(ElementFields(e)) == Success(e)
    ensures DecodeAs(ImplType, ElementFields(e)) == Success(e)
  {
    var fs := ElementFields(e);
    GetFirst(fs, "name", 0);
    GetFirst(fs, "interface_name", 1);
  }

  /** An encoded `Enum` decodes back to itself when its class is bound to it. */
  lemma EnumRoundTrip(e: AbiElement)
    requires e.Enum?
    ensures DecodeEnum(ElementFields(e)) == Success(e)
    ensures DecodeAs(EnumType, ElementFields(e)) == Success(e)
  {
    var fs := ElementFields(e);
    GetFirst(fs, "name", 0);
    GetFirst(fs, "variants", 1);
    ParamsRoundTrip("variants", e.variants);
  }

  /** Each element's class decodes the fields written for it back to it. */
  lemma DecodeAsRoundTrip(e: AbiElement)
    ensures DecodeAs(ClassOf(e), ElementFields(e)) == Success(e)
  {
    match e
    case FunctionElement(f) => FunctionRoundTrip(f);
    case EventElement(ev) => EventRoundTrip(ev);
    case Constructor(inputs, name) => ConstructorRoundTrip(inputs, name);
    case L1Handler(_, _, _, _) => L1HandlerRoundTrip(e);
    case Struct(_, _) => StructRoundTrip(e);
    case Enum(_, _) => EnumRoundTrip(e);
    case Interface(_, _) => InterfaceRoundTrip(e);
    case Impl(_, _) => ImplRoundTrip(e);
  }

  /** Every variant but `Enum` survives encoding followed by decoding unchanged. */
  lemma ElementRoundTrip(e: AbiElement)
    requires !e.Enum?
    ensures DecodeElement(EncodeElement(e)) == Success(e)
  {
    EncodeDiscriminants(e);
    TableMatchesDiscriminants(e);
    DecodeElementDispatch(ElementFields(e), TypeName(e), ClassOf(e));
    DecodeAsRoundTrip(e);
  }

  /** The fields written for an element, with its `type` replaced by the id `t`. */
  function Retyped(e: AbiElement, t: string): seq<Field> {
    var fs := ElementFields(e);
    fs[..TypeIndex(e)] + [Field("type", JString(t))] + fs[TypeIndex(e) + 1..]
  }

  /** A record whose `type` is the class name of `Enum` or of the struct-event class binds that class. */
  lemma ClassIdDispatch(fs: seq<Field>, st: SubType)
    requires st == EnumType || st == StructEventType
    requires Get(fs, "type") == Some(JString(ClassName(st)))
    ensures st == EnumType ==> DecodeElement(JObject(fs)) == DecodeEnum(fs)
    ensures st == StructEventType ==> DecodeElement(JObject(fs)) == EventAsElement(DecodeStructEventRecord(fs))
  {
    ClassNameIds(ClassName(st));
    DecodeElementDispatch(fs, ClassName(st), st);
  }

  /** An encoded `Enum` whose `type` is its class name decodes back to itself. */
  lemma EnumClassIdRoundTrip(e: AbiElement)
    requires e.Enum?
    ensures DecodeElement(JObject(Retyped(e, ClassName(EnumType)))) == Success(e)
  {
    var t := ClassName(EnumType);
    var gs := Retyped(e, t);
    assert gs == EnumRecord(e, t);
    GetFirst(gs, "type", 2);
    ClassIdDispatch(gs, EnumType);
    EnumRecordRoundTrip(e, t);
  }

  /** The fields written for an `Enum`, with the `type` id `t`. */
  function EnumRecord(e: AbiElement, t: string): seq<Field>
    requires e.Enum?
  {
    [Field("name", JString(e.name)), Field("variants", ArrayOf(e.variants, EncodeParam)), Field("type", JString(t))]
  }

  /** The `Enum` class binds an encoded `Enum`, whatever its `type` says. */
  lemma EnumRecordRoundTrip(e: AbiElement, t: string)
    requires e.Enum?
    ensures DecodeEnum(EnumRecord(e, t)) == Success(e)
  {
    var gs := EnumRecord(e, t);
    GetFirst(gs, "name", 0);
    GetFirst(gs, "variants", 1);
    ParamsRoundTrip("variants", e.variants);
  }

  /**
    An encoded struct event whose `type` is the struct-event class name
    binds that class directly and decodes back to itself.
  */
  lemma StructEventClassIdRoundTrip(ev: Event)
    requires ev.StructEvent?
    ensures DecodeElement(JObject(Retyped(EventElement(ev), ClassName(StructEventType)))) == Success(EventElement(ev))
  {
    var t := ClassName(StructEventType);
    var gs := Retyped(EventElement(ev), t);
    assert gs == StructEventRecord(ev, t);
    GetFirst(gs, "type", 2);
    ClassIdDispatch(gs, StructEventType);
    StructEventRecordRoundTrip(ev, t);
  }

  /** The fields written for a struct event, with the `type` id `t`. */
  function StructEventRecord(ev: Event, t: string): seq<Field>
    requires ev.StructEvent?
  {
    [
      Field("name", JString(ev.name)),
      Field("members", ArrayOf(ev.members, EncodeEventField)),
      Field("type", JString(t)),
      Field("kind", JString("struct"))
    ]
  }

  /** The struct-event class binds an encoded struct event, whatever its `type` says. */
  lemma StructEventRecordRoundTrip(ev: Event, t: string)
    requires ev.StructEvent?
    ensures DecodeStructEventRecord(StructEventRecord(ev, t)) == Success(ev)
  {
    var gs := StructEventRecord(ev, t);
    GetFirst(gs, "name", 0);
    GetFirst(gs, "members", 1);
    GetFirst(gs, "kind", 3);
    EventFieldsRoundTrip("members", ev.members);
  }

  /** A `{name, type}` record has no `kind`, so it is not an event field. */
  lemma ParamIsNoEventField(p: Param)
    ensures DecodeEventField(EncodeParam(p)) == Failure(MissingField("kind"))
  {
    var fs := EncodeParam(p).fields;
    GetSpec(fs, "kind");
    GetFirst(fs, "name", 0);
    GetFirst(fs, "type", 1);
  }

  /**
    `Enum` has a `type` of its own, "enum", but that id selects the
    enum-event class: an encoded `Enum` never comes back as itself. One
    without variants comes back as an enum event of the same name; the
    variants of any other lack the `kind` an event field requires.
  */
  lemma EnumDecodesAsEnumEvent(e: AbiElement)
    requires e.Enum?
    ensures DecodeElement(EncodeElement(e)) != Success(e)
    ensures e.variants == [] ==> DecodeElement(EncodeElement(e)) == Success(EventElement(EnumEvent(e.name, [])))
    ensures e.variants != [] ==> DecodeElement(EncodeElement(e)) == Failure(InList("variants", 0, MissingField("kind")))
  {
    var fs := ElementFields(e);
    EncodeDiscriminants(e);
    EnumIdDispatch(fs);
    EnumRecordAsEvent(e);
  }

  /** A record whose `type` is "enum" binds the enum-event class. */
  lemma EnumIdDispatch(fs: seq<Field>)
    requires Get(fs, "type") == Some(JString("enum"))
    ensures DecodeElement(JObject(fs)) == EventAsElement(DecodeEnumEventRecord(fs))
  {
    TableMatchesDiscriminants(Enum("", []));
    DecodeElementDispatch(fs, "enum", EnumEventType);
  }

  /** How the enum-event class binds the fields written for an `Enum`. */
  lemma EnumRecordAsEvent(e: AbiElement)
    requires e.Enum?
    ensures e.variants == [] ==> DecodeEnumEventRecord(ElementFields(e)) == Success(EnumEvent(e.name, []))
    ensures e.variants != [] ==> DecodeEnumEventRecord(ElementFields(e)) == Failure(InList("variants", 0, MissingField("kind")))
  {
    var fs := ElementFields(e);
    GetSpec(fs, "kind");
    GetFirst(fs, "name", 0);
    GetFirst(fs, "variants", 1);
    assert Get(fs, "kind") == None by {
      forall i | 0 <= i < |fs| ensures fs[i].key != "kind" {
        assert i == 0 || i == 1 || i == 2;
      }
    }
    var js := ArrayOf(e.variants, EncodeParam).elems;
    if e.variants == [] {
      assert DecodeEach(js, DecodeEventField) == Success([]);
    } else {
      ParamIsNoEventField(e.variants[0]);
      assert js[0] == EncodeParam(e.variants[0]);
      var d := DecodeEach(js, DecodeEventField);
      assert d == Failure(Indexed(0, MissingField("kind")));
    }
  }
}
