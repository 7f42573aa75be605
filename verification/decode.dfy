/**
  The discriminated decoder: the effect of the mapper's polymorphic
  deserialization of one ABI element from an already-parsed JSON value.
  Keys a record does not use are ignored; a non-null field that is absent
  or null fails, as a non-nullable Kotlin constructor parameter does.
*/
module AbiDecode {
  import opened Wrappers
  import opened JsonValues
  import opened Abi

  /** Why an element could not be decoded. The source only throws; the detail is this model's. */
  datatype ElementError =
    | NotAnObject(actual: Shape)
    | MissingTypeId
    | UnknownVariant(typeId: string)
    | NotAFunction(typeId: string)
    | UnknownEventKind
    | MissingField(field: string)
    | TypeMismatch(field: string, expected: Shape, actual: Shape)
    | UnknownConstant(field: string, value: string)
    | InList(field: string, index: nat, cause: ElementError)

  /** A failure at a position of a list. */
  datatype Indexed<+E> = Indexed(index: nat, error: E)

  /**
    Decodes every element of a list with `f`, all or nothing: the result
    has one value per input, in input order, or reports the first failure.
  */
  function DecodeEach<T, E>(js: seq<Json>, f: Json -> Result<T, E>): (r: Result<seq<T>, Indexed<E>>)
    ensures r.Success? <==> forall i :: 0 <= i < |js| ==> f(js[i]).Success?
    ensures r.Success? ==> |r.value| == |js| && forall i :: 0 <= i < |js| ==> f(js[i]) == Success(r.value[i])
    ensures r.Failure? ==>
      && r.error.index < |js|
      && f(js[r.error.index]) == Failure(r.error.error)
      && forall i :: 0 <= i < r.error.index ==> f(js[i]).Success?
  {
    DecodeFrom(js, f, 0)
  }

  /** `DecodeEach` on the suffix of `js` that starts at `k`; failures keep their index in `js`. */
  function DecodeFrom<T, E>(js: seq<Json>, f: Json -> Result<T, E>, k: nat): (r: Result<seq<T>, Indexed<E>>)
    requires k <= |js|
    ensures r.Success? <==> forall i :: k <= i < |js| ==> f(js[i]).Success?
    ensures r.Success? ==> |r.value| == |js| - k && forall i :: k <= i < |js| ==> f(js[i]) == Success(r.value[i - k])
    ensures r.Failure? ==>
      && k <= r.error.index < |js|
      && f(js[r.error.index]) == Failure(r.error.error)
      && forall i :: k <= i < r.error.index ==> f(js[i]).Success?
    decreases |js| - k
  {
    if k == |js| then Success([])
    else
      match f(js[k])
      case Failure(e) => Failure(Indexed(k, e))
      case Success(x) =>
        match DecodeFrom(js, f, k + 1)
        case Failure(ie) => Failure(ie)
        case Success(xs) => Success([x] + xs)
  }

  /** The list under `v` decodes, element by element and in order, to `xs`. */
  ghost predicate ListDecodesTo<T>(v: Option<Json>, f: Json -> Result<T, ElementError>, xs: seq<T>) {
    && v.Some? && v.value.JArray?
    && |v.value.elems| == |xs|
    && forall i :: 0 <= i < |xs| ==> f(v.value.elems[i]) == Success(xs[i])
  }

  /** The list under `v` is an array whose every element decodes with `f`. */
  ghost predicate ListAccepts<T>(v: Option<Json>, f: Json -> Result<T, ElementError>) {
    && v.Some? && v.value.JArray?
    && forall i :: 0 <= i < |v.value.elems| ==> f(v.value.elems[i]).Success?
  }

  /** The property is present and a JSON string. */
  predicate HasString(v: Option<Json>) {
    v.Some? && v.value.JString?
  }

  /** The property is absent, null or a JSON string. */
  predicate StringOrNull(v: Option<Json>) {
    v.None? || v == Some(JNull) || HasString(v)
  }

  /** A non-nullable string property: present, not null, and a JSON string. */
  function RequiredString(key: string, v: Option<Json>): (r: Result<string, ElementError>)
    ensures r.Success? <==> v.Some? && v.value.JString?
    ensures r.Success? ==> v == Some(JString(r.value))
    ensures v.None? || v == Some(JNull) ==> r == Failure(MissingField(key))
  {
    match v
    case None => Failure(MissingField(key))
    case Some(JNull) => Failure(MissingField(key))
    case Some(JString(s)) => Success(s)
    case Some(other) => Failure(TypeMismatch(key, StringShape, ShapeOf(other)))
  }

  /** A nullable string property: absent and null both mean "no value". */
  function OptionalString(key: string, v: Option<Json>): (r: Result<Option<string>, ElementError>)
    ensures r.Success? <==> v.None? || v == Some(JNull) || v.value.JString?
    ensures r == Success(None) <==> v.None? || v == Some(JNull)
    ensures r.Success? && r.value.Some? ==> v == Some(JString(r.value.value))
    ensures v.Some? && v.value.JString? ==> r == Success(Some(v.value.s))
  {
    match v
    case None => Success(None)
    case Some(JNull) => Success(None)
    case Some(JString(s)) => Success(Some(s))
    case Some(other) => Failure(TypeMismatch(key, StringShape, ShapeOf(other)))
  }

  /** A non-nullable list property, each element decoded by `f`. */
  function RequiredList<T>(key: string, v: Option<Json>, f: Json -> Result<T, ElementError>): (r: Result<seq<T>, ElementError>)
    ensures v.None? || v == Some(JNull) ==> r == Failure(MissingField(key))
    ensures r.Success? ==> ListDecodesTo(v, f, r.value)
    ensures r.Success? <==> ListAccepts(v, f)
  {
    match v
    case None => Failure(MissingField(key))
    case Some(JNull) => Failure(MissingField(key))
    case Some(JArray(xs)) =>
      (match DecodeEach(xs, f)
       case Success(ys) => Success(ys)
       case Failure(ie) => Failure(InList(key, ie.index, ie.error)))
    case Some(other) => Failure(TypeMismatch(key, ArrayShape, ShapeOf(other)))
  }

  /**
    A string held in a class-body property that the mapper overwrites when
    the record carries it: absent keeps `initial`, null is stored as null
    (`None`), and a string is stored.
  */
  function FieldString(key: string, v: Option<Json>, initial: string): (r: Result<Option<string>, ElementError>)
    ensures r.Success? <==> StringOrNull(v)
    ensures v.None? ==> r == Success(Some(initial))
    ensures v == Some(JNull) ==> r == Success(None)
    ensures HasString(v) ==> r == Success(Some(v.value.s))
  {
    match v
    case None => Success(Some(initial))
    case Some(JNull) => Success(None)
    case Some(JString(s)) => Success(Some(s))
    case Some(other) => Failure(TypeMismatch(key, StringShape, ShapeOf(other)))
  }

  /** `state_mutability`: a closed vocabulary of two strings. */
  function DecodeMutability(v: Option<Json>): (r: Result<StateMutability, ElementError>)
    ensures r.Success? <==> v == Some(JString("view")) || v == Some(JString("external"))
    ensures r.Success? ==> v == Some(JString(MutabilityValue(r.value)))
  {
    var s :- RequiredString("state_mutability", v);
    if s == "view" then Success(View)
    else if s == "external" then Success(External)
    else Failure(UnknownConstant("state_mutability", s))
  }

  /** An event field's `kind`: a closed vocabulary of three strings. */
  function DecodeFieldKind(v: Option<Json>): (r: Result<EventFieldKind, ElementError>)
    ensures r.Success? <==> v == Some(JString("key")) || v == Some(JString("data")) || v == Some(JString("nested"))
    ensures r.Success? ==> v == Some(JString(FieldKindValue(r.value)))
  {
    var s :- RequiredString("kind", v);
    if s == "key" then Success(Key)
    else if s == "data" then Success(Data)
    else if s == "nested" then Success(Nested)
    else Failure(UnknownConstant("kind", s))
  }

  /** A `{name, type}` record. */
  function DecodeParam(j: Json): (r: Result<Param, ElementError>)
    ensures r.Success? <==>
      j.JObject? && Get(j.fields, "name").Some? && Get(j.fields, "name").value.JString?
      && Get(j.fields, "type").Some? && Get(j.fields, "type").value.JString?
    ensures r.Success? ==>
      Get(j.fields, "name") == Some(JString(r.value.name)) && Get(j.fields, "type") == Some(JString(r.value.typ))
  {
    match j
    case JObject(fs) =>
      var name :- RequiredString("name", Get(fs, "name"));
      var typ :- RequiredString("type", Get(fs, "type"));
      Success(Param(name, typ))
    case _ => Failure(NotAnObject(ShapeOf(j)))
  }

  /** A function output `{type?}`. */
  function DecodeFunctionOutput(j: Json): (r: Result<FunctionOutput, ElementError>)
    ensures r.Success? ==> j.JObject?
    ensures j.JObject? ==> (r == Success(FunctionOutput(None)) <==> Get(j.fields, "type") in {None, Some(JNull)})
    ensures r.Success? && r.value.typ.Some? ==> Get(j.fields, "type") == Some(JString(r.value.typ.value))
    ensures j.JObject? && Get(j.fields, "type").Some? && Get(j.fields, "type").value.JString? ==>
      r == Success(FunctionOutput(Some(Get(j.fields, "type").value.s)))
  {
    match j
    case JObject(fs) =>
      var typ :- OptionalString("type", Get(fs, "type"));
      Success(FunctionOutput(typ))
    case _ => Failure(NotAnObject(ShapeOf(j)))
  }

  /** An L1-handler output `{output?}`. */
  function DecodeHandlerOutput(j: Json): (r: Result<HandlerOutput, ElementError>)
    ensures r.Success? ==> j.JObject?
    ensures j.JObject? ==> (r == Success(HandlerOutput(None)) <==> Get(j.fields, "output") in {None, Some(JNull)})
    ensures r.Success? && r.value.output.Some? ==> Get(j.fields, "output") == Some(JString(r.value.output.value))
    ensures j.JObject? && Get(j.fields, "output").Some? && Get(j.fields, "output").value.JString? ==>
      r == Success(HandlerOutput(Some(Get(j.fields, "output").value.s)))
  {
    match j
    case JObject(fs) =>
      var output :- OptionalString("output", Get(fs, "output"));
      Success(HandlerOutput(output))
    case _ => Failure(NotAnObject(ShapeOf(j)))
  }

  /** An event field `{name, type, kind}`. */
  function DecodeEventField(j: Json): (r: Result<EventField, ElementError>)
    ensures r.Success? <==>
      && j.JObject? && HasString(Get(j.fields, "name")) && HasString(Get(j.fields, "type"))
      && Get(j.fields, "kind") in {Some(JString("key")), Some(JString("data")), Some(JString("nested"))}
    ensures r.Success? ==>
      && j.JObject?
      && Get(j.fields, "name") == Some(JString(r.value.name))
      && Get(j.fields, "type") == Some(JString(r.value.typ))
      && Get(j.fields, "kind") == Some(JString(FieldKindValue(r.value.kind)))
  {
    match j
    case JObject(fs) =>
      var name :- RequiredString("name", Get(fs, "name"));
      var typ :- RequiredString("type", Get(fs, "type"));
      var kind :- DecodeFieldKind(Get(fs, "kind"));
      Success(EventField(name, typ, kind))
    case _ => Failure(NotAnObject(ShapeOf(j)))
  }

  /** The fields of a function record; the `type` id has already been consumed. */
  function DecodeFunction(fs: seq<Field>): (r: Result<Function, ElementError>)
    ensures r.Success? <==>
      && HasString(Get(fs, "name"))
      && ListAccepts(Get(fs, "inputs"), DecodeParam)
      && ListAccepts(Get(fs, "outputs"), DecodeFunctionOutput)
      && Get(fs, "state_mutability") in {Some(JString("view")), Some(JString("external"))}
    ensures r.Success? ==>
      && Get(fs, "name") == Some(JString(r.value.name))
      && ListDecodesTo(Get(fs, "inputs"), DecodeParam, r.value.inputs)
      && ListDecodesTo(Get(fs, "outputs"), DecodeFunctionOutput, r.value.outputs)
      && Get(fs, "state_mutability") == Some(JString(MutabilityValue(r.value.stateMutability)))
  {
    var name :- RequiredString("name", Get(fs, "name"));
    var inputs :- RequiredList("inputs", Get(fs, "inputs"), DecodeParam);
    var outputs :- RequiredList("outputs", Get(fs, "outputs"), DecodeFunctionOutput);
    var mutability :- DecodeMutability(Get(fs, "state_mutability"));
    Success(Function(name, inputs, outputs, mutability))
  }

  /**
    An interface item. Items are declared as functions, and functions
    inherit the element's `type` discriminant, so each item must carry
    `"type": "function"`; another id of the item id map names a class that
    is not a function.
  */
  function DecodeInterfaceItem(j: Json): (r: Result<Function, ElementError>)
    ensures r.Success? <==> j.JObject? && Get(j.fields, "type") == Some(JString("function")) && DecodeFunction(j.fields).Success?
    ensures r.Success? ==> r == DecodeFunction(j.fields)
    ensures j.JObject? && HasString(Get(j.fields, "type")) && Get(j.fields, "type").value.s != "function" ==>
      r == Failure(if ResolveItem(Get(j.fields, "type").value.s).Some? then NotAFunction(Get(j.fields, "type").value.s)
                   else UnknownVariant(Get(j.fields, "type").value.s))
  {
    match j
    case JObject(fs) =>
      (match Get(fs, "type")
       case Some(JString(t)) =>
         if t == "function" then DecodeFunction(fs)
         else if ResolveItem(t).Some? then Failure(NotAFunction(t))
         else Failure(UnknownVariant(t))
       case _ => Failure(MissingTypeId))
    case _ => Failure(NotAnObject(ShapeOf(j)))
  }

  /**
    The hand-written event deserializer: a second dispatch on `kind`.
    Only the JSON strings "enum" and "struct" select a shape.
  */
  function DecodeEvent(fs: seq<Field>): (r: Result<Event, ElementError>)
    ensures r.Success? <==>
      || (Get(fs, "kind") == Some(JString("enum")) && HasString(Get(fs, "name"))
          && ListAccepts(Get(fs, "variants"), DecodeEventField))
      || (Get(fs, "kind") == Some(JString("struct")) && HasString(Get(fs, "name"))
          && ListAccepts(Get(fs, "members"), DecodeEventField))
    ensures r.Success? ==> Get(fs, "kind") == Some(JString(KindName(r.value)))
    ensures r.Success? ==> Get(fs, "name") == Some(JString(r.value.name))
    ensures r.Success? && r.value.EnumEvent? ==> ListDecodesTo(Get(fs, "variants"), DecodeEventField, r.value.variants)
    ensures r.Success? && r.value.StructEvent? ==> ListDecodesTo(Get(fs, "members"), DecodeEventField, r.value.members)
    ensures Get(fs, "kind") !in {Some(JString("enum")), Some(JString("struct"))} ==> r == Failure(UnknownEventKind)
  {
    var kind := Get(fs, "kind");
    if kind == Some(JString("enum")) then
      var name :- RequiredString("name", Get(fs, "name"));
      var variants :- RequiredList("variants", Get(fs, "variants"), DecodeEventField);
      Success(EnumEvent(name, variants))
    else if kind == Some(JString("struct")) then
      var name :- RequiredString("name", Get(fs, "name"));
      var members :- RequiredList("members", Get(fs, "members"), DecodeEventField);
      Success(StructEvent(name, members))
    else
      Failure(UnknownEventKind)
  }

  /**
    A constructor record. Besides `inputs`, the mapper binds a `name`
    property into the class-body field that starts out as "constructor".
  */
  function DecodeConstructor(fs: seq<Field>): (r: Result<AbiElement, ElementError>)
    ensures r.Success? <==> ListAccepts(Get(fs, "inputs"), DecodeParam) && StringOrNull(Get(fs, "name"))
    ensures r.Success? ==> r.value.Constructor? && ListDecodesTo(Get(fs, "inputs"), DecodeParam, r.value.inputs)
    ensures r.Success? && Get(fs, "name").None? ==> r.value.constructorName == Some(ConstructorName)
    ensures r.Success? && Get(fs, "name") == Some(JNull) ==> r.value.constructorName == None
    ensures r.Success? && HasString(Get(fs, "name")) ==> r.value.constructorName == Some(Get(fs, "name").value.s)
  {
    var inputs :- RequiredList("inputs", Get(fs, "inputs"), DecodeParam);
    var name :- FieldString("name", Get(fs, "name"), ConstructorName);
    Success(Constructor(inputs, name))
  }

  function DecodeL1Handler(fs: seq<Field>): (r: Result<AbiElement, ElementError>)
    ensures r.Success? <==>
      && HasString(Get(fs, "name"))
      && ListAccepts(Get(fs, "inputs"), DecodeParam)
      && ListAccepts(Get(fs, "outputs"), DecodeHandlerOutput)
      && Get(fs, "state_mutability") in {Some(JString("view")), Some(JString("external"))}
    ensures r.Success? ==>
      && r.value.L1Handler?
      && Get(fs, "name") == Some(JString(r.value.name))
      && ListDecodesTo(Get(fs, "inputs"), DecodeParam, r.value.inputs)
      && ListDecodesTo(Get(fs, "outputs"), DecodeHandlerOutput, r.value.outputs)
      && Get(fs, "state_mutability") == Some(JString(MutabilityValue(r.value.stateMutability)))
  {
    var name :- RequiredString("name", Get(fs, "name"));
    var inputs :- RequiredList("inputs", Get(fs, "inputs"), DecodeParam);
    var outputs :- RequiredList("outputs", Get(fs, "outputs"), DecodeHandlerOutput);
    var mutability :- DecodeMutability(Get(fs, "state_mutability"));
    Success(L1Handler(name, inputs, outputs, mutability))
  }

  function DecodeStruct(fs: seq<Field>): (r: Result<AbiElement, ElementError>)
    ensures r.Success? <==> HasString(Get(fs, "name")) && ListAccepts(Get(fs, "members"), DecodeParam)
    ensures r.Success? ==>
      && r.value.Struct?
      && Get(fs, "name") == Some(JString(r.value.name))
      && ListDecodesTo(Get(fs, "members"), DecodeParam, r.value.members)
  {
    var name :- RequiredString("name", Get(fs, "name"));
    var members :- RequiredList("members", Get(fs, "members"), DecodeParam);
    Success(Struct(name, members))
  }

  /** A Cairo enum, bound by its class name: a name and its `{name, type}` variants. */
  function DecodeEnum(fs: seq<Field>): (r: Result<AbiElement, ElementError>)
    ensures r.Success? <==> HasString(Get(fs, "name")) && ListAccepts(Get(fs, "variants"), DecodeParam)
    ensures r.Success? ==>
      && r.value.Enum?
      && Get(fs, "name") == Some(JString(r.value.name))
      && ListDecodesTo(Get(fs, "variants"), DecodeParam, r.value.variants)
  {
    var name :- RequiredString("name", Get(fs, "name"));
    var variants :- RequiredList("variants", Get(fs, "variants"), DecodeParam);
    Success(Enum(name, variants))
  }

  function DecodeInterface(fs: seq<Field>): (r: Result<(string, seq<Function>), ElementError>)
    ensures r.Success? <==> HasString(Get(fs, "name")) && ListAccepts(Get(fs, "items"), DecodeInterfaceItem)
    ensures r.Success? ==>
      && Get(fs, "name") == Some(JString(r.value.0))
      && ListDecodesTo(Get(fs, "items"), DecodeInterfaceItem, r.value.1)
  {
    var name :- RequiredString("name", Get(fs, "name"));
    var items :- RequiredList("items", Get(fs, "items"), DecodeInterfaceItem);
    Success((name, items))
  }

  function DecodeImpl(fs: seq<Field>): (r: Result<AbiElement, ElementError>)
    ensures r.Success? <==> HasString(Get(fs, "name")) && HasString(Get(fs, "interface_name"))
    ensures r.Success? ==>
      && r.value.Impl?
      && Get(fs, "name") == Some(JString(r.value.name))
      && Get(fs, "interface_name") == Some(JString(r.value.interfaceName))
  {
    var name :- RequiredString("name", Get(fs, "name"));
    var interfaceName :- RequiredString("interface_name", Get(fs, "interface_name"));
    Success(Impl(name, interfaceName))
  }

  /**
    The enum-event class bound directly, as it is for a record whose `type`
    id is "enum": there is no dispatch on `kind`, and a `kind` property only
    overwrites the class-body constant, so it must be a string or null.
  */
  function DecodeEnumEventRecord(fs: seq<Field>): (r: Result<Event, ElementError>)
    ensures r.Success? <==>
      HasString(Get(fs, "name")) && ListAccepts(Get(fs, "variants"), DecodeEventField) && StringOrNull(Get(fs, "kind"))
    ensures r.Success? ==>
      && r.value.EnumEvent?
      && Get(fs, "name") == Some(JString(r.value.name))
      && ListDecodesTo(Get(fs, "variants"), DecodeEventField, r.value.variants)
  {
    var name :- RequiredString("name", Get(fs, "name"));
    var variants :- RequiredList("variants", Get(fs, "variants"), DecodeEventField);
    var kind :- FieldString("kind", Get(fs, "kind"), "enum");
    Success(EnumEvent(name, variants))
  }

  /**
    The struct-event class bound directly, as it is for a record whose
    `type` id is the class's name, likewise without dispatch on `kind`.
  */
  function DecodeStructEventRecord(fs: seq<Field>): (r: Result<Event, ElementError>)
    ensures r.Success? <==>
      HasString(Get(fs, "name")) && ListAccepts(Get(fs, "members"), DecodeEventField) && StringOrNull(Get(fs, "kind"))
    ensures r.Success? ==>
      && r.value.StructEvent?
      && Get(fs, "name") == Some(JString(r.value.name))
      && ListDecodesTo(Get(fs, "members"), DecodeEventField, r.value.members)
  {
    var name :- RequiredString("name", Get(fs, "name"));
    var members :- RequiredList("members", Get(fs, "members"), DecodeEventField);
    var kind :- FieldString("kind", Get(fs, "kind"), "struct");
    Success(StructEvent(name, members))
  }

  /** An event decode, seen as the element it is. */
  function EventAsElement(r: Result<Event, ElementError>): (o: Result<AbiElement, ElementError>)
    ensures o.Success? <==> r.Success?
    ensures o.Success? ==> o.value == EventElement(r.value)
    ensures o.Failure? ==> o.error == r.error
  {
    match r
    case Success(ev) => Success(EventElement(ev))
    case Failure(e) => Failure(e)
  }

  /** Binds a record's fields to the class the `type` id resolved to; the value is an instance of it. */
  function DecodeAs(st: SubType, fs: seq<Field>): (r: Result<AbiElement, ElementError>)
    ensures r.Success? ==> InstanceOf(r.value, st)
  {
    match st
    case ConstructorType => DecodeConstructor(fs)
    case EventType =>
      EventAsElement(DecodeEvent(fs))
    case FunctionType =>
      (match DecodeFunction(fs)
       case Success(f) => Success(FunctionElement(f))
       case Failure(e) => Failure(e))
    case ImplType => DecodeImpl(fs)
    case InterfaceType =>
      var (name, items) :- DecodeInterface(fs);
      Success(Interface(name, items))
    case L1HandlerType => DecodeL1Handler(fs)
    case StructType => DecodeStruct(fs)
    case EnumType => DecodeEnum(fs)
    case EnumEventType =>
      EventAsElement(DecodeEnumEventRecord(fs))
    case StructEventType =>
      EventAsElement(DecodeStructEventRecord(fs))
  }

  /**
    The value `e` reports the id `t` that selected it as its `type`, except
    where the id is "enum", selecting an enum event, or a class name,
    selecting an `Enum` or a struct event; it is an `Enum` exactly when the
    id is `Enum`'s class name.
  */
  predicate SelectedBy(t: string, e: AbiElement) {
    && (|| t == TypeName(e)
        || (t == "enum" && e.EventElement? && e.ev.EnumEvent?)
        || (t == ClassName(StructEventType) && e.EventElement? && e.ev.StructEvent?)
        || (t == ClassName(EnumType) && e.Enum?))
    && (e.Enum? <==> t == ClassName(EnumType))
  }

  /** A value of the class an id resolves to is selected by that id. */
  lemma ResolvedInstance(t: string, st: SubType, e: AbiElement)
    requires Resolve(t) == Some(st) && InstanceOf(e, st)
    ensures SelectedBy(t, e)
  {
    ClassNameIds(t);
    if st == EnumEventType {
      EnumEventId(t);
    } else if st != StructEventType {
      ResolveInjective(t, e);
    }
  }

  /** The `type` id of a record, when it is a JSON string. */
  function TypeId(j: Json): Option<string> {
    if j.JObject? && HasString(Get(j.fields, "type")) then Some(Get(j.fields, "type").value.s) else None
  }

  /**
    Decodes one ABI element: the `type` id selects a class through the
    element id map, and anything the map does not name is an error, never
    a fallback. Event records go to the event deserializer; "enum" records
    bind the enum-event class directly, and a class-name id binds its class.
  */
  function DecodeElement(j: Json): (r: Result<AbiElement, ElementError>)
    ensures r.Success? ==>
      TypeId(j).Some? && Resolve(TypeId(j).value).Some? && InstanceOf(r.value, Resolve(TypeId(j).value).value)
    ensures TypeId(j).Some? && Resolve(TypeId(j).value).None? ==> r == Failure(UnknownVariant(TypeId(j).value))
    ensures j.JObject? && TypeId(j).None? ==> r == Failure(MissingTypeId)
    ensures !j.JObject? ==> r.Failure?
  {
    match j
    case JObject(fs) =>
      (match Get(fs, "type")
       case Some(JString(t)) =>
         (match Resolve(t)
          case None => Failure(UnknownVariant(t))
          case Some(st) => DecodeAs(st, fs))
       case _ => Failure(MissingTypeId))
    case _ => Failure(NotAnObject(ShapeOf(j)))
  }

  /** A record whose `type` id resolves is decoded by the resolved class, and by nothing else. */
  lemma DecodeElementDispatch(fs: seq<Field>, t: string, st: SubType)
    requires Get(fs, "type") == Some(JString(t)) && Resolve(t) == Some(st)
    ensures DecodeElement(JObject(fs)) == DecodeAs(st, fs)
  {
  }

  /**
    A decoded element is selected by its record's `type` id: it reports that
    id, unless the id is "enum" or a class name, and it is an `Enum` exactly
    when the id is `Enum`'s class name.
  */
  lemma DecodeElementSelected(j: Json)
    ensures DecodeElement(j).Success? ==> SelectedBy(TypeId(j).value, DecodeElement(j).value)
  {
    if DecodeElement(j).Success? {
      var t := TypeId(j).value;
      var st := Resolve(t).value;
      DecodeElementDispatch(j.fields, t, st);
      ResolvedInstance(t, st, DecodeElement(j).value);
    }
  }
}
