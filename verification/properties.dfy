/**
  What the decoder promises about one record: which keys it reads, which
  it requires, how events are routed and dispatched on `kind`, and that
  every decoded list follows its input list.
*/
module DecodeProperties {
  import opened Wrappers
  import opened JsonValues
  import opened Abi
  import opened AbiDecode

  /** The keys the class registered under a `type` id binds. */
  function KnownKeys(st: SubType): set<string> {
    match st
    case ConstructorType => {"inputs", "name"}
    case EventType => {"kind", "name", "variants", "members"}
    case FunctionType => {"name", "inputs", "outputs", "state_mutability"}
    case ImplType => {"name", "interface_name"}
    case InterfaceType => {"name", "items"}
    case L1HandlerType => {"name", "inputs", "outputs", "state_mutability"}
    case StructType => {"name", "members"}
    case EnumType => {"name", "variants"}
    case EnumEventType => {"name", "variants", "kind"}
    case StructEventType => {"name", "members", "kind"}
  }

  /** The class a record's `type` id resolves to, if it is a string naming one. */
  function RecordClass(fs: seq<Field>): Option<SubType> {
    match Get(fs, "type")
    case Some(JString(t)) => Resolve(t)
    case _ => None
  }

  /** Every key that can influence how a record decodes. */
  function RecordKeys(fs: seq<Field>): set<string> {
    match RecordClass(fs)
    case Some(st) => {"type"} + KnownKeys(st)
    case None => {"type"}
  }

  /** The keys whose absence (or null) makes a record of class `st` fail. */
  function RequiredKeys(st: SubType, fs: seq<Field>): set<string> {
    match st
    case ConstructorType => {"inputs"}
    case EventType =>
      if Get(fs, "kind") == Some(JString("enum")) then {"kind", "name", "variants"}
      else if Get(fs, "kind") == Some(JString("struct")) then {"kind", "name", "members"}
      else {"kind"}
    case FunctionType => {"name", "inputs", "outputs", "state_mutability"}
    case ImplType => {"name", "interface_name"}
    case InterfaceType => {"name", "items"}
    case L1HandlerType => {"name", "inputs", "outputs", "state_mutability"}
    case StructType => {"name", "members"}
    case EnumType => {"name", "variants"}
    case EnumEventType => {"name", "variants"}
    case StructEventType => {"name", "members"}
  }

  /** A value that a non-nullable property treats as missing. */
  predicate Absent(v: Option<Json>) {
    v.None? || v == Some(JNull)
  }

  /** Once the `type` id resolves, the element decoder is the registered class's decoder. */
  lemma DecodeElementResolves(fs: seq<Field>)
    requires RecordClass(fs).Some?
    ensures DecodeElement(JObject(fs)) == DecodeAs(RecordClass(fs).value, fs)
  {
    DecodeElementDispatch(fs, Get(fs, "type").value.s, RecordClass(fs).value);
  }

  /** Two records agreeing on the keys of class `st` bind to the same value of that class. */
  lemma DecodeAsReadsOnlyKnownKeys(st: SubType, fs: seq<Field>, gs: seq<Field>)
    requires AgreeOn(fs, gs, KnownKeys(st))
    ensures DecodeAs(st, fs) == DecodeAs(st, gs)
  {
    match st
    case ConstructorType =>
      assert Get(fs, "inputs") == Get(gs, "inputs");
      assert Get(fs, "name") == Get(gs, "name");
    case EnumEventType =>
      assert Get(fs, "name") == Get(gs, "name");
      assert Get(fs, "variants") == Get(gs, "variants");
      assert Get(fs, "kind") == Get(gs, "kind");
      assert DecodeEnumEventRecord(fs) == DecodeEnumEventRecord(gs);
    case StructEventType =>
      assert Get(fs, "name") == Get(gs, "name");
      assert Get(fs, "members") == Get(gs, "members");
      assert Get(fs, "kind") == Get(gs, "kind");
      assert DecodeStructEventRecord(fs) == DecodeStructEventRecord(gs);
    case EventType =>
      assert Get(fs, "kind") == Get(gs, "kind");
      assert Get(fs, "name") == Get(gs, "name");
      assert Get(fs, "variants") == Get(gs, "variants");
      assert Get(fs, "members") == Get(gs, "members");
      assert DecodeEvent(fs) == DecodeEvent(gs);
    case FunctionType =>
      assert Get(fs, "name") == Get(gs, "name");
      assert Get(fs, "inputs") == Get(gs, "inputs");
      assert Get(fs, "outputs") == Get(gs, "outputs");
      assert Get(fs, "state_mutability") == Get(gs, "state_mutability");
      assert DecodeFunction(fs) == DecodeFunction(gs);
    case ImplType =>
      assert Get(fs, "name") == Get(gs, "name");
      assert Get(fs, "interface_name") == Get(gs, "interface_name");
    case InterfaceType =>
      assert Get(fs, "name") == Get(gs, "name");
      assert Get(fs, "items") == Get(gs, "items");
      assert DecodeInterface(fs) == DecodeInterface(gs);
    case L1HandlerType =>
      assert Get(fs, "name") == Get(gs, "name");
      assert Get(fs, "inputs") == Get(gs, "inputs");
      assert Get(fs, "outputs") == Get(gs, "outputs");
      assert Get(fs, "state_mutability") == Get(gs, "state_mutability");
    case StructType =>
      assert Get(fs, "name") == Get(gs, "name");
      assert Get(fs, "members") == Get(gs, "members");
    case EnumType =>
      assert Get(fs, "name") == Get(gs, "name");
      assert Get(fs, "variants") == Get(gs, "variants");
  }

  /**
    A record decodes exactly as any other record that gives the same values
    for its `type` and for the keys its class binds: nothing else is read.
  */
  lemma DecodeReadsOnlyKnownKeys(fs: seq<Field>, gs: seq<Field>)
    requires AgreeOn(fs, gs, RecordKeys(fs))
    ensures DecodeElement(JObject(fs)) == DecodeElement(JObject(gs))
  {
    assert Get(fs, "type") == Get(gs, "type");
    assert RecordClass(fs) == RecordClass(gs);
    if RecordClass(fs).Some? {
      var st := RecordClass(fs).value;
      DecodeAsReadsOnlyKnownKeys(st, fs, gs);
      DecodeElementResolves(fs);
      DecodeElementResolves(gs);
    }
  }

  /**
    Unknown properties are ignored: inserting fields anywhere in a record,
    under keys its class does not bind, leaves the decode unchanged.
  */
  lemma UnknownKeysIgnored(pre: seq<Field>, extra: seq<Field>, post: seq<Field>)
    requires forall i :: 0 <= i < |extra| ==> extra[i].key !in RecordKeys(pre + post)
    ensures DecodeElement(JObject(pre + extra + post)) == DecodeElement(JObject(pre + post))
  {
    forall k | k in RecordKeys(pre + post)
      ensures Get(pre + post, k) == Get(pre + extra + post, k)
    {
      GetIgnoresOtherKeys(pre, extra, post, k);
    }
    DecodeReadsOnlyKnownKeys(pre + post, pre + extra + post);
  }

  /** The keys a `{name, type}` record binds. */
  const ParamKeys: set<string> := {"name", "type"}

  /** The key a function output binds. */
  const FunctionOutputKeys: set<string> := {"type"}

  /** The key an L1-handler output binds. */
  const HandlerOutputKeys: set<string> := {"output"}

  /** The keys an event field binds. */
  const EventFieldKeys: set<string> := {"name", "type", "kind"}

  /** The keys an interface item binds: its `type` id and a function's properties. */
  const ItemKeys: set<string> := {"type", "name", "inputs", "outputs", "state_mutability"}

  /** No field of `extra` carries one of `keys`. */
  predicate KeysOutside(extra: seq<Field>, keys: set<string>) {
    forall i :: 0 <= i < |extra| ==> extra[i].key !in keys
  }

  /** Inserting fields under other keys leaves every lookup of `keys` unchanged. */
  lemma InsertOutside(pre: seq<Field>, extra: seq<Field>, post: seq<Field>, keys: set<string>)
    requires KeysOutside(extra, keys)
    ensures AgreeOn(pre + extra + post, pre + post, keys)
  {
    forall k | k in keys ensures Get(pre + extra + post, k) == Get(pre + post, k) {
      GetIgnoresOtherKeys(pre, extra, post, k);
    }
  }

  /**
    Unknown properties of nested records are ignored too: inserting fields
    into an input, member or variant, an output, an event field or an
    interface item, under keys that record does not bind, leaves its decode
    unchanged.
  */
  lemma NestedUnknownKeysIgnored(pre: seq<Field>, extra: seq<Field>, post: seq<Field>)
    ensures KeysOutside(extra, ParamKeys) ==>
      DecodeParam(JObject(pre + extra + post)) == DecodeParam(JObject(pre + post))
    ensures KeysOutside(extra, FunctionOutputKeys) ==>
      DecodeFunctionOutput(JObject(pre + extra + post)) == DecodeFunctionOutput(JObject(pre + post))
    ensures KeysOutside(extra, HandlerOutputKeys) ==>
      DecodeHandlerOutput(JObject(pre + extra + post)) == DecodeHandlerOutput(JObject(pre + post))
    ensures KeysOutside(extra, EventFieldKeys) ==>
      DecodeEventField(JObject(pre + extra + post)) == DecodeEventField(JObject(pre + post))
    ensures KeysOutside(extra, ItemKeys) ==>
      DecodeInterfaceItem(JObject(pre + extra + post)) == DecodeInterfaceItem(JObject(pre + post))
  {
    var fs, gs := pre + extra + post, pre + post;
    if KeysOutside(extra, ParamKeys) {
      InsertOutside(pre, extra, post, ParamKeys);
      assert Get(fs, "name") == Get(gs, "name") && Get(fs, "type") == Get(gs, "type");
    }
    if KeysOutside(extra, FunctionOutputKeys) {
      InsertOutside(pre, extra, post, FunctionOutputKeys);
      assert Get(fs, "type") == Get(gs, "type");
    }
    if KeysOutside(extra, HandlerOutputKeys) {
      InsertOutside(pre, extra, post, HandlerOutputKeys);
      assert Get(fs, "output") == Get(gs, "output");
    }
    if KeysOutside(extra, EventFieldKeys) {
      InsertOutside(pre, extra, post, EventFieldKeys);
      assert Get(fs, "name") == Get(gs, "name") && Get(fs, "type") == Get(gs, "type");
      assert Get(fs, "kind") == Get(gs, "kind");
    }
    if KeysOutside(extra, ItemKeys) {
      ItemUnknownKeysIgnored(pre, extra, post);
    }
  }

  /** An interface item decodes the same with fields under keys it does not bind inserted. */
  lemma ItemUnknownKeysIgnored(pre: seq<Field>, extra: seq<Field>, post: seq<Field>)
    requires KeysOutside(extra, ItemKeys)
    ensures DecodeInterfaceItem(JObject(pre + extra + post)) == DecodeInterfaceItem(JObject(pre + post))
  {
    var fs, gs := pre + extra + post, pre + post;
    InsertOutside(pre, extra, post, ItemKeys);
    assert Get(fs, "type") == Get(gs, "type") && Get(fs, "name") == Get(gs, "name");
    assert Get(fs, "inputs") == Get(gs, "inputs") && Get(fs, "outputs") == Get(gs, "outputs");
    assert Get(fs, "state_mutability") == Get(gs, "state_mutability");
    assert DecodeFunction(fs) == DecodeFunction(gs);
  }

  /** A class's decoder fails on a record missing one of the keys it requires. */
  lemma DecodeAsNeedsRequiredKeys(st: SubType, fs: seq<Field>, k: string)
    requires k in RequiredKeys(st, fs) && Absent(Get(fs, k))
    ensures DecodeAs(st, fs).Failure?
  {
    match st
    case EventType =>
      if Get(fs, "kind") == Some(JString("enum")) {
        assert k == "kind" || k == "name" || k == "variants";
      } else if Get(fs, "kind") == Some(JString("struct")) {
        assert k == "kind" || k == "name" || k == "members";
      }
    case FunctionType =>
      assert k == "name" || k == "inputs" || k == "outputs" || k == "state_mutability";
      assert DecodeFunction(fs).Failure?;
    case L1HandlerType =>
      assert k == "name" || k == "inputs" || k == "outputs" || k == "state_mutability";
    case InterfaceType =>
      assert k == "name" || k == "items";
      assert DecodeInterface(fs).Failure?;
    case _ =>
  }

  /**
    A required property that is absent or null fails the whole record;
    no default is ever filled in.
  */
  lemma MissingRequiredFieldFails(fs: seq<Field>, k: string)
    requires RecordClass(fs).Some?
    requires k in RequiredKeys(RecordClass(fs).value, fs)
    requires Absent(Get(fs, k))
    ensures DecodeElement(JObject(fs)).Failure?
  {
    DecodeElementResolves(fs);
    DecodeAsNeedsRequiredKeys(RecordClass(fs).value, fs, k);
  }

  /** Event records are handed, fields and all, to the event deserializer. */
  lemma EventRouting(fs: seq<Field>)
    requires Get(fs, "type") == Some(JString("event"))
    ensures forall ev :: DecodeElement(JObject(fs)) == Success(EventElement(ev)) <==> DecodeEvent(fs) == Success(ev)
    ensures forall err :: DecodeElement(JObject(fs)) == Failure(err) <==> DecodeEvent(fs) == Failure(err)
  {
    ResolveIds();
    DecodeElementDispatch(fs, "event", EventType);
  }

  /**
    The second dispatch: "enum" yields an enum event and "struct" a struct
    event, each built from that record's own fields; any other `kind`, or
    none, fails.
  */
  lemma EventKindDispatch(fs: seq<Field>)
    ensures Get(fs, "kind") == Some(JString("enum")) && DecodeEvent(fs).Success? ==>
      && DecodeEvent(fs).value.EnumEvent?
      && Get(fs, "name") == Some(JString(DecodeEvent(fs).value.name))
      && ListDecodesTo(Get(fs, "variants"), DecodeEventField, DecodeEvent(fs).value.variants)
    ensures Get(fs, "kind") == Some(JString("struct")) && DecodeEvent(fs).Success? ==>
      && DecodeEvent(fs).value.StructEvent?
      && Get(fs, "name") == Some(JString(DecodeEvent(fs).value.name))
      && ListDecodesTo(Get(fs, "members"), DecodeEventField, DecodeEvent(fs).value.members)
    ensures Get(fs, "kind") !in {Some(JString("enum")), Some(JString("struct"))} ==>
      DecodeEvent(fs) == Failure(UnknownEventKind)
  {
  }

  /** A struct event must carry `members`: `variants` does not stand in for it. */
  lemma StructEventNeedsMembers(fs: seq<Field>)
    requires Get(fs, "kind") == Some(JString("struct"))
    requires Absent(Get(fs, "members"))
    ensures DecodeEvent(fs).Failure?
  {
  }

  /**
    Order preservation: every list in a decoded element has one entry per
    element of the corresponding input list, decoded from it, in order.
  */
  lemma DecodedListsFollowInput(fs: seq<Field>, e: AbiElement)
    requires DecodeElement(JObject(fs)) == Success(e)
    ensures e.FunctionElement? ==>
      && ListDecodesTo(Get(fs, "inputs"), DecodeParam, e.fn.inputs)
      && ListDecodesTo(Get(fs, "outputs"), DecodeFunctionOutput, e.fn.outputs)
    ensures e.Constructor? ==> ListDecodesTo(Get(fs, "inputs"), DecodeParam, e.inputs)
    ensures e.L1Handler? ==>
      && ListDecodesTo(Get(fs, "inputs"), DecodeParam, e.inputs)
      && ListDecodesTo(Get(fs, "outputs"), DecodeHandlerOutput, e.outputs)
    ensures e.EventElement? && e.ev.EnumEvent? ==> ListDecodesTo(Get(fs, "variants"), DecodeEventField, e.ev.variants)
    ensures e.EventElement? && e.ev.StructEvent? ==> ListDecodesTo(Get(fs, "members"), DecodeEventField, e.ev.members)
    ensures e.Struct? ==> ListDecodesTo(Get(fs, "members"), DecodeParam, e.members)
    ensures e.Enum? ==> ListDecodesTo(Get(fs, "variants"), DecodeParam, e.variants)
    ensures e.Interface? ==> ListDecodesTo(Get(fs, "items"), DecodeInterfaceItem, e.items)
  {
    DecodeElementResolves(fs);
    var st := RecordClass(fs).value;
    match st
    case ConstructorType =>
    case EventType =>
      var ev :| DecodeEvent(fs) == Success(ev) && e == EventElement(ev);
      EventKindDispatch(fs);
    case FunctionType =>
      assert DecodeFunction(fs) == Success(e.fn);
    case ImplType =>
    case InterfaceType =>
      assert DecodeInterface(fs) == Success((e.name, e.items));
    case L1HandlerType =>
    case StructType =>
    case EnumType =>
    case EnumEventType =>
      var ev :| DecodeEnumEventRecord(fs) == Success(ev) && e == EventElement(ev);
    case StructEventType =>
  }
}
