/**
  The ABI data model of a Cairo contract: a closed family of element shapes,
  each identified on the wire by a constant `type` discriminant.
*/
module Abi {
  import opened Wrappers

  /** Whether an entry point may only read state or may also write it. */
  datatype StateMutability = View | External

  /**
    A named, typed slot. The source declares five structurally identical
    classes for this (function, constructor and L1-handler inputs, struct
    members, enum variants); they decode identically, so one is shared.
  */
  datatype Param = Param(name: string, typ: string)

  /** A function output; its `type` may be absent, which is not the empty string. */
  datatype FunctionOutput = FunctionOutput(typ: Option<string>)

  /** An L1-handler output; its `output` may be absent. */
  datatype HandlerOutput = HandlerOutput(output: Option<string>)

  datatype Function = Function(
    name: string,
    inputs: seq<Param>,
    outputs: seq<FunctionOutput>,
    stateMutability: StateMutability)

  /** How an event field takes part in event serialization. */
  datatype EventFieldKind = Key | Data | Nested

  datatype EventField = EventField(name: string, typ: string, kind: EventFieldKind)

  /** Events carry a second discriminant, `kind`, that picks one of two shapes. */
  datatype Event =
    | EnumEvent(name: string, variants: seq<EventField>)
    | StructEvent(name: string, members: seq<EventField>)

  /**
    The elements of an ABI. The constructor's `name` is a class-body
    property initialised to "constructor" that the mapper overwrites when
    a record carries one; `None` is a JSON null stored there.
  */
  datatype AbiElement =
    | FunctionElement(fn: Function)
    | Constructor(inputs: seq<Param>, constructorName: Option<string>)
    | L1Handler(name: string, inputs: seq<Param>, outputs: seq<HandlerOutput>, stateMutability: StateMutability)
    | EventElement(ev: Event)
    | Struct(name: string, members: seq<Param>)
    | Enum(name: string, variants: seq<Param>)
    | Interface(name: string, items: seq<Function>)
    | Impl(name: string, interfaceName: string)

  /**
    The constant `type` property each variant reports. That it tells the
    variants apart is `TypeNameIdentifiesVariant`; that every one resolves
    is `TableMatchesDiscriminants`.
  */
  function TypeName(e: AbiElement): (r: string)
  {
    match e
    case FunctionElement(_) => "function"
    case Constructor(_, _) => "constructor"
    case L1Handler(_, _, _, _) => "l1_handler"
    case EventElement(_) => "event"
    case Struct(_, _) => "struct"
    case Enum(_, _) => "enum"
    case Interface(_, _) => "interface"
    case Impl(_, _) => "impl"
  }

  /** The class of each event shape. */
  function EventClass(ev: Event): SubType {
    match ev
    case EnumEvent(_, _) => EnumEventType
    case StructEvent(_, _) => StructEventType
  }

  /**
    The constant `kind` property each event shape reports: the id under
    which the event's own table registers that shape's class.
  */
  function KindName(ev: Event): (r: string)
    ensures LookupName(EventSubTypes, r) == Some(EventClass(ev))
    ensures r == "enum" || r == "struct"
  {
    match ev
    case EnumEvent(_, _) => "enum"
    case StructEvent(_, _) => "struct"
  }

  /** The initial value of the constructor's `name`. */
  const ConstructorName: string := "constructor"

  /** The wire string of each state-mutability constant. */
  function MutabilityValue(m: StateMutability): string {
    match m
    case View => "view"
    case External => "external"
  }

  /** The wire string of each event-field kind. */
  function FieldKindValue(k: EventFieldKind): string {
    match k
    case Key => "key"
    case Data => "data"
    case Nested => "nested"
  }

  /** The classes a `type` id can select: the eight element classes and the two event shapes. */
  datatype SubType =
    | ConstructorType | EventType | FunctionType | ImplType | InterfaceType | L1HandlerType | StructType | EnumType
    | EnumEventType | StructEventType

  /** Every class once, in an order of the model's choosing. */
  const AllClasses: seq<SubType> := [
    ConstructorType, EventType, FunctionType, ImplType, InterfaceType, L1HandlerType, StructType, EnumType,
    EnumEventType, StructEventType]

  /**
    The JVM name of each class. The source declares no package, and a
    nested class is joined to the class enclosing it by `$`.
  */
  function ClassName(st: SubType): string {
    match st
    case ConstructorType => "AbiElement$Constructor"
    case EventType => "AbiElement$Event"
    case FunctionType => "AbiElement$Function"
    case ImplType => "AbiElement$Impl"
    case InterfaceType => "AbiElement$Interface"
    case L1HandlerType => "AbiElement$L1Handler"
    case StructType => "AbiElement$Struct"
    case EnumType => "AbiElement$Enum"
    case EnumEventType => "AbiElement$Event$EnumEvent"
    case StructEventType => "AbiElement$Event$StructEvent"
  }

  /** The registration table of the element hierarchy, in source order. `Enum` is not in it. */
  const SubTypes: seq<(string, SubType)> := [
    ("constructor", ConstructorType),
    ("event", EventType),
    ("function", FunctionType),
    ("impl", ImplType),
    ("interface", InterfaceType),
    ("l1_handler", L1HandlerType),
    ("struct", StructType)
  ]

  /** The registration table of `Event`, keyed by its `kind` discriminant. */
  const EventSubTypes: seq<(string, SubType)> := [
    ("enum", EnumEventType),
    ("struct", StructEventType)
  ]

  /** The table a registered class declares for its own subclasses. */
  function NestedSubTypes(st: SubType): seq<(string, SubType)> {
    if st == EventType then EventSubTypes else []
  }

  /**
    The named registrations the mapper collects for a table, in the order
    it visits them: each entry, then the entries its class registers in turn.
  */
  function Collect(table: seq<(string, SubType)>): seq<(string, SubType)> {
    if |table| == 0 then []
    else [table[0]] + NestedSubTypes(table[0].1) + Collect(table[1..])
  }

  /**
    Collecting keeps every entry of a table and every entry its classes
    register in turn, and adds nothing else.
  */
  lemma {:induction false} CollectEntries(table: seq<(string, SubType)>)
    ensures forall x :: x in table ==> x in Collect(table)
    ensures forall i :: 0 <= i < |table| ==> forall x :: x in NestedSubTypes(table[i].1) ==> x in Collect(table)
    ensures forall x :: x in Collect(table) ==>
      x in table || exists i :: 0 <= i < |table| && x in NestedSubTypes(table[i].1)
  {
    if |table| > 0 {
      CollectEntries(table[1..]);
      var r := Collect(table);
      assert r == [table[0]] + NestedSubTypes(table[0].1) + Collect(table[1..]);
      forall x | x in table ensures x in r {
        if x != table[0] {
          assert x in table[1..];
        }
      }
      forall i | 0 <= i < |table| ensures forall x :: x in NestedSubTypes(table[i].1) ==> x in r {
        if i > 0 {
          assert table[i] == table[1..][i - 1];
        }
      }
      forall x | x in r && x !in table ensures exists i :: 0 <= i < |table| && x in NestedSubTypes(table[i].1) {
        if x !in NestedSubTypes(table[0].1) {
          assert x in Collect(table[1..]);
          var i :| 0 <= i < |table[1..]| && x in NestedSubTypes(table[1..][i].1);
          assert table[1..][i] == table[i + 1];
        }
      }
    }
  }

  /** The named registrations collected from the element table. */
  const CollectedNames: seq<(string, SubType)> := Collect(SubTypes)

  /** The collected names, written out: `Event`'s two entries follow its own. */
  lemma CollectedNamesContents()
    ensures CollectedNames == SubTypes[..2] + EventSubTypes + SubTypes[2..]
  {
  }

  /** The direct subclasses of the sealed element class, in declaration order. */
  const SealedElements: seq<SubType> := [
    FunctionType, ConstructorType, L1HandlerType, EventType, StructType, EnumType, InterfaceType, ImplType]

  /** The direct subclasses a class declares when it is sealed; of the element classes only `Event` is. */
  function SealedSubclasses(st: SubType): seq<SubType> {
    if st == EventType then [EnumEventType, StructEventType] else []
  }

  /**
    The classes the Kotlin module adds, without names, to those the mapper
    visits: each direct subclass of a sealed class, then the subclasses it
    declares in turn.
  */
  function VisitSealed(classes: seq<SubType>): seq<SubType> {
    if |classes| == 0 then []
    else [classes[0]] + SealedSubclasses(classes[0]) + VisitSealed(classes[1..])
  }

  /** The classes a registration list names, in order. */
  function Classes(table: seq<(string, SubType)>): seq<SubType> {
    if |table| == 0 then [] else [table[0].1] + Classes(table[1..])
  }

  /**
    The classes visited from the element class: the registered ones and the
    sealed subclasses. The element class itself is abstract and gets no id.
  */
  const ElementVisited: seq<SubType> := Classes(CollectedNames) + VisitSealed(SealedElements)

  /**
    The classes visited from `Function`, the declared type of interface
    items: it inherits the element's tables and is visited itself, but it
    is not sealed.
  */
  const ItemVisited: seq<SubType> := [FunctionType] + Classes(CollectedNames)

  /** True iff every entry of `table` for class `st` is overwritten by a later entry with the same name. */
  predicate Unnamed(table: seq<(string, SubType)>, st: SubType) {
    forall i | 0 <= i < |table| && table[i].1 == st :: exists j | i < j < |table| :: table[j].0 == table[i].0
  }

  /**
    The ids the mapper adds for classes without a name: the class name of
    each visited class that no collected name selects. The mapper keeps the
    visited classes in a hash set; these ids are distinct, so the order
    `classes` lists them in does not matter.
  */
  function DefaultIds(table: seq<(string, SubType)>, visited: seq<SubType>, classes: seq<SubType>): seq<(string, SubType)> {
    if |classes| == 0 then []
    else
      (if classes[0] in visited && Unnamed(table, classes[0]) then [(ClassName(classes[0]), classes[0])] else [])
      + DefaultIds(table, visited, classes[1..])
  }

  /** The default ids of the element hierarchy. */
  const ElementDefaults: seq<(string, SubType)> := DefaultIds(CollectedNames, ElementVisited, AllClasses)

  /** The default ids of the interface-item hierarchy. */
  const ItemDefaults: seq<(string, SubType)> := DefaultIds(CollectedNames, ItemVisited, AllClasses)

  /**
    The id map of the element hierarchy: the collected names, then the
    default ids, written out here and computed by `IdMapsComputed`.
  */
  const ElementIds: seq<(string, SubType)> :=
    CollectedNames + [(ClassName(EnumType), EnumType), (ClassName(StructEventType), StructEventType)]

  /** The id map of interface items, which are declared as `Function`. */
  const ItemIds: seq<(string, SubType)> := CollectedNames + [(ClassName(StructEventType), StructEventType)]

  /** True iff entry `i` of `table` carries name `t` and no later entry does. */
  ghost predicate LastWithName(table: seq<(string, SubType)>, t: string, i: int) {
    && 0 <= i < |table|
    && table[i].0 == t
    && forall j :: i < j < |table| ==> table[j].0 != t
  }

  /**
    The class registered under a name in `table`, if any. Registering a
    name again overwrites it, as putting a key into a map does, so the
    last entry carrying the name wins.
  */
  function LookupName(table: seq<(string, SubType)>, t: string): Option<SubType> {
    if |table| == 0 then None
    else if table[|table| - 1].0 == t then Some(table[|table| - 1].1)
    else LookupName(table[..|table| - 1], t)
  }

  /** A lookup finds nothing exactly when no entry carries the name, and otherwise the last such entry. */
  lemma {:induction false} LookupNameSpec(table: seq<(string, SubType)>, t: string)
    ensures LookupName(table, t).None? <==> forall i :: 0 <= i < |table| ==> table[i].0 != t
    ensures LookupName(table, t).Some? ==> exists i :: LastWithName(table, t, i) && table[i].1 == LookupName(table, t).value
  {
    if |table| > 0 && table[|table| - 1].0 != t {
      var front := table[..|table| - 1];
      LookupNameSpec(front, t);
      assert forall i :: 0 <= i < |table| - 1 ==> table[i] == front[i];
      var r := LookupName(front, t);
      if r.Some? {
        var i :| LastWithName(front, t, i) && front[i].1 == r.value;
        assert LastWithName(table, t, i);
      }
    }
  }

  /** The last entry carrying a name decides the lookup. */
  lemma LookupLast(table: seq<(string, SubType)>, t: string, i: int)
    requires LastWithName(table, t, i)
    ensures LookupName(table, t) == Some(table[i].1)
  {
    LookupNameSpec(table, t);
    var r := LookupName(table, t);
    var k :| LastWithName(table, t, k) && table[k].1 == r.value;
    assert k == i;
  }

  /** In a concatenation of tables the later one decides wherever it carries the name. */
  lemma {:induction false} LookupAppend(a: seq<(string, SubType)>, b: seq<(string, SubType)>, t: string)
    ensures LookupName(a + b, t) == if LookupName(b, t).Some? then LookupName(b, t) else LookupName(a, t)
    decreases |b|
  {
    if |b| == 0 {
      assert a + b == a;
    } else {
      var ab := a + b;
      assert ab[|ab| - 1] == b[|b| - 1];
      if b[|b| - 1].0 != t {
        assert ab[..|ab| - 1] == a + b[..|b| - 1];
        LookupAppend(a, b[..|b| - 1], t);
      }
    }
  }

  /** A class is unnamed in a table exactly when no name selects it there. */
  lemma UnnamedSpec(table: seq<(string, SubType)>, st: SubType)
    ensures Unnamed(table, st) <==> forall t :: LookupName(table, t) != Some(st)
  {
    if Unnamed(table, st) {
      forall t ensures LookupName(table, t) != Some(st) {
        LookupNameSpec(table, t);
        if LookupName(table, t).Some? {
          var i :| LastWithName(table, t, i) && table[i].1 == LookupName(table, t).value;
          assert !exists j :: i < j < |table| && table[j].0 == table[i].0;
        }
      }
    } else {
      var i :| 0 <= i < |table| && table[i].1 == st && !exists j :: i < j < |table| && table[j].0 == table[i].0;
      LookupLast(table, table[i].0, i);
    }
  }

  /** The default ids are the class names of the listed, visited, unnamed classes. */
  lemma {:induction false} DefaultIdsSpec(table: seq<(string, SubType)>, visited: seq<SubType>, classes: seq<SubType>, e: (string, SubType))
    ensures e in DefaultIds(table, visited, classes) <==>
      e.1 in classes && e.1 in visited && Unnamed(table, e.1) && e.0 == ClassName(e.1)
  {
    if |classes| > 0 {
      DefaultIdsSpec(table, visited, classes[1..], e);
      assert classes == [classes[0]] + classes[1..];
    }
  }

  /** Every name a table finds is one of its entries' names. */
  lemma LookupFindsEntry(table: seq<(string, SubType)>, t: string)
    requires LookupName(table, t).Some?
    ensures exists i :: 0 <= i < |table| && table[i].0 == t
  {
    LookupNameSpec(table, t);
  }

  /** In a table whose names are distinct, each entry's name selects its class. */
  lemma LookupDistinct(table: seq<(string, SubType)>, i: int)
    requires 0 <= i < |table|
    requires forall j, k :: 0 <= j < k < |table| ==> table[j].0 != table[k].0
    ensures LookupName(table, table[i].0) == Some(table[i].1)
  {
    assert LastWithName(table, table[i].0, i);
    LookupLast(table, table[i].0, i);
  }

  /** The names each table registers. */
  lemma RegisteredNames(t: string)
    ensures LookupName(SubTypes[..2], t).Some? ==> t == "constructor" || t == "event"
    ensures LookupName(EventSubTypes, t).Some? ==> t == "enum" || t == "struct"
    ensures LookupName(SubTypes, t).Some? ==>
      t in {"constructor", "event", "function", "impl", "interface", "l1_handler", "struct"}
  {
    if LookupName(SubTypes[..2], t).Some? {
      LookupFindsEntry(SubTypes[..2], t);
    }
    if LookupName(EventSubTypes, t).Some? {
      LookupFindsEntry(EventSubTypes, t);
    }
    if LookupName(SubTypes, t).Some? {
      LookupFindsEntry(SubTypes, t);
      var i :| 0 <= i < |SubTypes| && SubTypes[i].0 == t;
      assert i == 0 || i == 1 || i == 2 || i == 3 || i == 4 || i == 5 || i == 6;
    }
  }

  /**
    Among the collected names the element table's own entry wins where it
    has one, so "struct" selects `Struct`; otherwise `Event`'s table decides.
  */
  lemma CollectedPrecedence(t: string)
    ensures LookupName(CollectedNames, t) ==
      if LookupName(SubTypes, t).Some? then LookupName(SubTypes, t) else LookupName(EventSubTypes, t)
  {
    var head, tail := SubTypes[..2], SubTypes[2..];
    CollectedNamesContents();
    assert SubTypes == head + tail;
    LookupAppend(head + EventSubTypes, tail, t);
    LookupAppend(head, EventSubTypes, t);
    LookupAppend(head, tail, t);
    RegisteredNames(t);
    if t == "struct" {
      LookupDistinct(tail, 4);
    }
  }

  /** Exactly `Enum` and the struct-event class are left without a name among the collected registrations. */
  lemma UnnamedClasses(st: SubType)
    ensures Unnamed(CollectedNames, st) <==> st == EnumType || st == StructEventType
  {
    if st == EnumType || st == StructEventType {
      UnnamedTwo();
    } else {
      NamedClass(st);
    }
  }

  /** No collected entry is `Enum`'s, and the struct-event class's one name is taken over by `Struct`. */
  lemma UnnamedTwo()
    ensures Unnamed(CollectedNames, EnumType) && Unnamed(CollectedNames, StructEventType)
  {
    var c := CollectedNames;
    CollectedNamesContents();
    forall i | 0 <= i < |c| ensures c[i].1 != EnumType {
      assert i == 0 || i == 1 || i == 2 || i == 3 || i == 4 || i == 5 || i == 6 || i == 7 || i == 8;
    }
    forall i | 0 <= i < |c| && c[i].1 == StructEventType ensures exists j | i < j < |c| :: c[j].0 == c[i].0 {
      assert i == 0 || i == 1 || i == 2 || i == 3 || i == 4 || i == 5 || i == 6 || i == 7 || i == 8;
      assert c[8].0 == c[3].0;
    }
  }

  /** Every other class keeps a name that selects it. */
  lemma NamedClass(st: SubType)
    requires st != EnumType && st != StructEventType
    ensures !Unnamed(CollectedNames, st)
  {
    UnnamedSpec(CollectedNames, st);
    if st == EnumEventType {
      LookupDistinct(EventSubTypes, 0);
      CollectedPrecedence("enum");
      RegisteredNames("enum");
    } else {
      var j := match st
        case ConstructorType => 0 case EventType => 1 case FunctionType => 2 case ImplType => 3
        case InterfaceType => 4 case L1HandlerType => 5 case _ => 6;
      LookupDistinct(SubTypes, j);
      CollectedPrecedence(SubTypes[j].0);
    }
  }

  /** Dropping a prefix of classes that all have names does not change the default ids. */
  lemma {:induction false} DefaultIdsSkipNamed(table: seq<(string, SubType)>, visited: seq<SubType>, classes: seq<SubType>, n: nat)
    requires n <= |classes|
    requires forall k :: 0 <= k < n ==> !Unnamed(table, classes[k])
    ensures DefaultIds(table, visited, classes) == DefaultIds(table, visited, classes[n..])
  {
    if n > 0 {
      DefaultIdsSkipNamed(table, visited, classes[1..], n - 1);
      assert classes[1..][n - 1..] == classes[n..];
    }
  }

  /** `Enum` and the struct-event class are visited from the element class; only the latter from `Function`. */
  lemma VisitedUnnamed()
    ensures EnumType in ElementVisited && StructEventType in ElementVisited
    ensures EnumType !in ItemVisited && StructEventType in ItemVisited
  {
    CollectedClasses();
    VisitSealedSpec(SealedElements, EnumType);
    assert SealedElements[5] == EnumType;
  }

  /** The struct-event class is registered by name, `Enum` is not. */
  lemma CollectedClasses()
    ensures StructEventType in Classes(CollectedNames) && EnumType !in Classes(CollectedNames)
  {
    CollectedNamesContents();
    ClassesSpec(CollectedNames, EnumType);
    ClassesSpec(CollectedNames, StructEventType);
    assert CollectedNames[3].1 == StructEventType;
    forall i | 0 <= i < |CollectedNames| ensures CollectedNames[i].1 != EnumType {
      assert i == 0 || i == 1 || i == 2 || i == 3 || i == 4 || i == 5 || i == 6 || i == 7 || i == 8;
    }
  }

  /** The default ids of each hierarchy, written out. */
  lemma DefaultsContents()
    ensures ElementDefaults == [(ClassName(EnumType), EnumType), (ClassName(StructEventType), StructEventType)]
    ensures ItemDefaults == [(ClassName(StructEventType), StructEventType)]
  {
    ElementDefaultsContents();
    ItemDefaultsContents();
  }

  lemma ElementDefaultsContents()
    ensures ElementDefaults == [(ClassName(EnumType), EnumType), (ClassName(StructEventType), StructEventType)]
  {
    VisitedUnnamed();
    DefaultsFor(ElementVisited);
  }

  lemma ItemDefaultsContents()
    ensures ItemDefaults == [(ClassName(StructEventType), StructEventType)]
  {
    VisitedUnnamed();
    DefaultsFor(ItemVisited);
  }

  /** The default ids for the visited classes `visited`, which include the struct-event class. */
  lemma DefaultsFor(visited: seq<SubType>)
    requires StructEventType in visited
    ensures DefaultIds(CollectedNames, visited, AllClasses) ==
      (if EnumType in visited then [(ClassName(EnumType), EnumType)] else []) + [(ClassName(StructEventType), StructEventType)]
  {
    NamedPrefix();
    UnnamedClasses(EnumType);
    UnnamedClasses(EnumEventType);
    UnnamedClasses(StructEventType);
    DefaultIdsSkipNamed(CollectedNames, visited, AllClasses, 7);
    LastDefaults(visited);
  }

  /** The first seven classes, the element classes with their own names, all have one. */
  lemma NamedPrefix()
    ensures forall k :: 0 <= k < 7 ==> !Unnamed(CollectedNames, AllClasses[k])
  {
    forall k | 0 <= k < 7 ensures !Unnamed(CollectedNames, AllClasses[k]) {
      UnnamedClasses(AllClasses[k]);
    }
  }

  /** Which of the last three classes get a default id, for the visited classes `visited`. */
  lemma LastDefaults(visited: seq<SubType>)
    requires Unnamed(CollectedNames, EnumType) && !Unnamed(CollectedNames, EnumEventType)
    requires Unnamed(CollectedNames, StructEventType) && StructEventType in visited
    ensures DefaultIds(CollectedNames, visited, AllClasses[7..]) ==
      (if EnumType in visited then [(ClassName(EnumType), EnumType)] else []) + [(ClassName(StructEventType), StructEventType)]
  {
    var c, rest := CollectedNames, AllClasses[7..];
    assert rest == [EnumType, EnumEventType, StructEventType];
    assert rest[1..][1..][1..] == [];
    assert DefaultIds(c, visited, rest[1..][1..]) == [(ClassName(StructEventType), StructEventType)] + DefaultIds(c, visited, []);
    assert DefaultIds(c, visited, rest[1..]) == [] + DefaultIds(c, visited, rest[1..][1..]);
  }

  /** Each id map is the collected names followed by the default ids the mapper computes for its hierarchy. */
  lemma IdMapsComputed()
    ensures ElementIds == CollectedNames + ElementDefaults
    ensures ItemIds == CollectedNames + ItemDefaults
  {
    DefaultsContents();
  }

  /**
    Resolves an element's `type` id against the element id map. What that
    amounts to for the tables is `ResolvePrecedence`.
  */
  function Resolve(t: string): Option<SubType> {
    LookupName(ElementIds, t)
  }

  /** Resolves an interface item's `type` id against the item id map (`ResolveItemAgrees`). */
  function ResolveItem(t: string): Option<SubType> {
    LookupName(ItemIds, t)
  }

  /** The default ids select by class name only. */
  lemma DefaultLookup(t: string)
    ensures LookupName(ElementDefaults, t) ==
      if t == ClassName(StructEventType) then Some(StructEventType)
      else if t == ClassName(EnumType) then Some(EnumType) else None
    ensures LookupName(ItemDefaults, t) == if t == ClassName(StructEventType) then Some(StructEventType) else None
  {
    DefaultsContents();
    var d, item := ElementDefaults, ItemDefaults;
    assert d[..1] == [(ClassName(EnumType), EnumType)] && d[..1][..0] == [] && item[..0] == [];
    assert LookupName(d, t) == if t == ClassName(StructEventType) then Some(StructEventType) else LookupName(d[..1], t);
    assert LookupName(d[..1], t) == if t == ClassName(EnumType) then Some(EnumType) else LookupName(d[..1][..0], t);
    assert LookupName(item, t) == if t == ClassName(StructEventType) then Some(StructEventType) else LookupName(item[..0], t);
  }

  /**
    Resolving an element id is asking the element table first, `Event`'s
    table second and the default ids last. So "struct" selects `Struct`,
    "enum" selects the enum-event class, and the class names of `Enum` and
    of the struct-event class, which no name still selects, select those
    two classes.
  */
  lemma ResolvePrecedence(t: string)
    ensures var r := Resolve(t);
      && (LookupName(SubTypes, t).Some? ==> r == LookupName(SubTypes, t))
      && (LookupName(SubTypes, t).None? && LookupName(EventSubTypes, t).Some? ==> r == LookupName(EventSubTypes, t))
      && (LookupName(SubTypes, t).None? && LookupName(EventSubTypes, t).None? ==>
            r == if t == ClassName(EnumType) then Some(EnumType)
                 else if t == ClassName(StructEventType) then Some(StructEventType) else None)
  {
    IdMapsComputed();
    CollectedPrecedence(t);
    LookupAppend(CollectedNames, ElementDefaults, t);
    DefaultLookup(t);
    RegisteredNames(t);
  }

  /** An item id resolves as an element id does, except that `Enum`, which is not a function, has no class-name id there. */
  lemma ResolveItemAgrees(t: string)
    ensures ResolveItem(t) == if t == ClassName(EnumType) then None else Resolve(t)
  {
    IdMapsComputed();
    LookupAppend(CollectedNames, ElementDefaults, t);
    LookupAppend(CollectedNames, ItemDefaults, t);
    DefaultLookup(t);
    CollectedPrecedence(t);
    RegisteredNames(t);
  }

  /** Each name of the element table resolves to its class. */
  lemma ResolveRegistered(i: int)
    requires 0 <= i < |SubTypes|
    ensures Resolve(SubTypes[i].0) == Some(SubTypes[i].1)
  {
    LookupDistinct(SubTypes, i);
    ResolvePrecedence(SubTypes[i].0);
  }

  /** What each id of the element id map resolves to. */
  lemma ResolveIds()
    ensures Resolve("constructor") == Some(ConstructorType)
    ensures Resolve("event") == Some(EventType)
    ensures Resolve("function") == Some(FunctionType)
    ensures Resolve("impl") == Some(ImplType)
    ensures Resolve("interface") == Some(InterfaceType)
    ensures Resolve("l1_handler") == Some(L1HandlerType)
    ensures Resolve("struct") == Some(StructType)
    ensures Resolve("enum") == Some(EnumEventType)
    ensures Resolve(ClassName(EnumType)) == Some(EnumType)
    ensures Resolve(ClassName(StructEventType)) == Some(StructEventType)
  {
    ResolveRegistered(0);
    ResolveRegistered(1);
    ResolveRegistered(2);
    ResolveRegistered(3);
    ResolveRegistered(4);
    ResolveRegistered(5);
    ResolveRegistered(6);
    LookupDistinct(EventSubTypes, 0);
    RegisteredNames("enum");
    ResolvePrecedence("enum");
    RegisteredNames(ClassName(EnumType));
    ResolvePrecedence(ClassName(EnumType));
    RegisteredNames(ClassName(StructEventType));
    ResolvePrecedence(ClassName(StructEventType));
  }

  /**
    The mapper gives a class its class name as an id exactly when no
    collected name selects it.
  */
  lemma ElementDefaultsSelectUnnamed(st: SubType)
    ensures (ClassName(st), st) in ElementDefaults <==> forall t :: LookupName(CollectedNames, t) != Some(st)
  {
    ElementDefaultClasses(st);
    UnnamedClasses(st);
    UnnamedSpec(CollectedNames, st);
  }

  /** The element hierarchy's default ids belong to `Enum` and the struct-event class. */
  lemma ElementDefaultClasses(st: SubType)
    ensures (ClassName(st), st) in ElementDefaults <==> st == EnumType || st == StructEventType
  {
    DefaultsContents();
  }

  /** The classes of a registration list are exactly its entries' classes. */
  lemma {:induction false} ClassesSpec(table: seq<(string, SubType)>, st: SubType)
    ensures st in Classes(table) <==> exists i :: 0 <= i < |table| && table[i].1 == st
  {
    if |table| > 0 {
      ClassesSpec(table[1..], st);
      if st != table[0].1 && st in Classes(table[1..]) {
        var i :| 0 <= i < |table[1..]| && table[1..][i].1 == st;
        assert table[i + 1].1 == st;
      }
      if st != table[0].1 && exists i :: 0 <= i < |table| && table[i].1 == st {
        var i :| 0 <= i < |table| && table[i].1 == st;
        assert table[1..][i - 1].1 == st;
      }
    }
  }

  /** The classes visited through sealed subclasses are the listed ones and the subclasses they declare. */
  lemma {:induction false} VisitSealedSpec(classes: seq<SubType>, st: SubType)
    ensures st in VisitSealed(classes) <==> st in classes || exists i :: 0 <= i < |classes| && st in SealedSubclasses(classes[i])
  {
    if |classes| > 0 {
      VisitSealedSpec(classes[1..], st);
      assert classes == [classes[0]] + classes[1..];
      if exists i :: 0 <= i < |classes[1..]| && st in SealedSubclasses(classes[1..][i]) {
        var i :| 0 <= i < |classes[1..]| && st in SealedSubclasses(classes[1..][i]);
        assert classes[1..][i] == classes[i + 1];
      }
      if exists i :: 0 <= i < |classes| && st in SealedSubclasses(classes[i]) {
        var i :| 0 <= i < |classes| && st in SealedSubclasses(classes[i]);
        if i > 0 {
          assert classes[1..][i - 1] == classes[i];
        }
      }
    }
  }

  /** The class of each element. */
  function ClassOf(e: AbiElement): SubType {
    match e
    case FunctionElement(_) => FunctionType
    case Constructor(_, _) => ConstructorType
    case L1Handler(_, _, _, _) => L1HandlerType
    case EventElement(_) => EventType
    case Struct(_, _) => StructType
    case Enum(_, _) => EnumType
    case Interface(_, _) => InterfaceType
    case Impl(_, _) => ImplType
  }

  /** True iff `e` is an instance of class `st`, counting the event shapes as events. */
  predicate InstanceOf(e: AbiElement, st: SubType) {
    match st
    case EventType => e.EventElement?
    case EnumEventType => e.EventElement? && e.ev.EnumEvent?
    case StructEventType => e.EventElement? && e.ev.StructEvent?
    case _ => ClassOf(e) == st
  }

  /**
    The names in the registration tables agree with the constant `type`
    property of each class: resolving an element's own `type` finds its
    class. `Enum`'s "enum" resolves too, but to the enum-event class, which
    `Enum` is not an instance of; `Enum` is reached by its class name.
  */
  lemma TableMatchesDiscriminants(e: AbiElement)
    ensures !e.Enum? ==> Resolve(TypeName(e)) == Some(ClassOf(e))
    ensures e.Enum? ==>
      && Resolve(TypeName(e)) == Some(EnumEventType) && !InstanceOf(e, EnumEventType)
      && Resolve(ClassName(ClassOf(e))) == Some(ClassOf(e))
  {
    ResolveIds();
    match e
    case FunctionElement(_) => assert TypeName(e) == "function";
    case Constructor(_, _) => assert TypeName(e) == "constructor";
    case L1Handler(_, _, _, _) => assert TypeName(e) == "l1_handler";
    case EventElement(_) => assert TypeName(e) == "event";
    case Struct(_, _) => assert TypeName(e) == "struct";
    case Enum(_, _) => assert TypeName(e) == "enum";
    case Interface(_, _) => assert TypeName(e) == "interface";
    case Impl(_, _) => assert TypeName(e) == "impl";
  }

  /** Two elements report the same `type` exactly when they are the same variant. */
  lemma TypeNameIdentifiesVariant(e1: AbiElement, e2: AbiElement)
    ensures TypeName(e1) == TypeName(e2) <==> VariantIndex(e1) == VariantIndex(e2)
  {
  }

  /** The position of each variant in the declaration of `AbiElement`. */
  function VariantIndex(e: AbiElement): nat {
    match e
    case FunctionElement(_) => 0
    case Constructor(_, _) => 1
    case L1Handler(_, _, _, _) => 2
    case EventElement(_) => 3
    case Struct(_, _) => 4
    case Enum(_, _) => 5
    case Interface(_, _) => 6
    case Impl(_, _) => 7
  }

  /** Every class is selected by some element id. */
  lemma EveryClassSelectable(st: SubType)
    ensures exists t :: Resolve(t) == Some(st)
  {
    ResolveIds();
    match st
    case ConstructorType => assert Resolve("constructor") == Some(st);
    case EventType => assert Resolve("event") == Some(st);
    case FunctionType => assert Resolve("function") == Some(st);
    case ImplType => assert Resolve("impl") == Some(st);
    case InterfaceType => assert Resolve("interface") == Some(st);
    case L1HandlerType => assert Resolve("l1_handler") == Some(st);
    case StructType => assert Resolve("struct") == Some(st);
    case EnumEventType => assert Resolve("enum") == Some(st);
    case EnumType => assert Resolve(ClassName(st)) == Some(st);
    case StructEventType => assert Resolve(ClassName(st)) == Some(st);
  }

  /** Each element-table entry is unique, and the only name registered in both tables is "struct". */
  lemma SubTypeTableExhaustive()
    ensures forall i, j :: 0 <= i < j < |SubTypes| ==> SubTypes[i].0 != SubTypes[j].0 && SubTypes[i].1 != SubTypes[j].1
    ensures forall i, j :: 0 <= i < |SubTypes| && 0 <= j < |EventSubTypes| && SubTypes[i].0 == EventSubTypes[j].0 ==>
      SubTypes[i].0 == "struct"
  {
  }

  /** `Event`'s table can only select one of the two event shapes. */
  lemma EventLookupClasses(t: string)
    ensures LookupName(EventSubTypes, t) in {None, Some(EnumEventType), Some(StructEventType)}
  {
    var front := EventSubTypes[..1];
    assert front == [("enum", EnumEventType)];
    assert front[..0] == [];
    assert LookupName(front[..0], t) == None;
    assert LookupName(front, t) in {None, Some(EnumEventType)};
  }

  /** The element table only registers element classes other than `Enum`, never an event shape. */
  lemma SubTypeLookupClasses(t: string)
    ensures LookupName(SubTypes, t) !in {Some(EnumType), Some(EnumEventType), Some(StructEventType)}
  {
    LookupNameSpec(SubTypes, t);
    if LookupName(SubTypes, t).Some? {
      var i :| LastWithName(SubTypes, t, i) && SubTypes[i].1 == LookupName(SubTypes, t).value;
      assert i == 0 || i == 1 || i == 2 || i == 3 || i == 4 || i == 5 || i == 6;
    }
  }

  /** Only "enum" resolves to the enum-event class. */
  lemma EnumEventId(t: string)
    requires Resolve(t) == Some(EnumEventType)
    ensures t == "enum"
  {
    ResolvePrecedence(t);
    SubTypeLookupClasses(t);
    LookupNameSpec(EventSubTypes, t);
    var i :| LastWithName(EventSubTypes, t, i) && EventSubTypes[i].1 == EnumEventType;
    assert i == 0;
  }

  /** Only its class name resolves to `Enum`, and only its class name to the struct-event class. */
  lemma ClassNameIds(t: string)
    ensures Resolve(t) == Some(EnumType) <==> t == ClassName(EnumType)
    ensures Resolve(t) == Some(StructEventType) <==> t == ClassName(StructEventType)
  {
    ResolveIds();
    ResolvePrecedence(t);
    SubTypeLookupClasses(t);
    EventLookupClasses(t);
    RegisteredNames(t);
    LookupDistinct(SubTypes, 6);
  }

  /**
    An id that resolves to an element's class is that element's constant
    `type`, or for `Enum` its class name.
  */
  lemma ResolveInjective(t: string, e: AbiElement)
    requires Resolve(t) == Some(ClassOf(e))
    ensures !e.Enum? ==> t == TypeName(e)
    ensures e.Enum? ==> t == ClassName(EnumType)
  {
    ResolvePrecedence(t);
    EventLookupClasses(t);
    ClassNameIds(t);
    LookupNameSpec(SubTypes, t);
    if LookupName(SubTypes, t).Some? {
      var i :| LastWithName(SubTypes, t, i) && SubTypes[i].1 == ClassOf(e);
      assert i == 0 || i == 1 || i == 2 || i == 3 || i == 4 || i == 5 || i == 6;
    }
  }
}
