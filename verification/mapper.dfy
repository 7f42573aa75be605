/**
  The program's use of the mapper: the whole ABI document is decoded as
  one list of elements, and the generated document's tags are a fixed
  catalogue of element kinds.
*/
module Mapper {
  import opened Wrappers
  import opened JsonValues
  import opened Abi
  import opened AbiDecode
  import opened AbiEncode
  import RoundTrip

  /** Why a whole ABI document could not be decoded. */
  datatype DecodeError =
    | NotAList(actual: Shape)
    | AtElement(index: nat, cause: ElementError)

  /**
    Decodes an ABI document as one list of elements, all or nothing: one
    element per input entry, in input order, or the first entry's failure.
  */
  function DecodeAbi(j: Json): (r: Result<seq<AbiElement>, DecodeError>)
    ensures !j.JArray? ==> r == Failure(NotAList(ShapeOf(j)))
    ensures r.Success? ==>
      && j.JArray?
      && |r.value| == |j.elems|
      && forall i :: 0 <= i < |j.elems| ==> DecodeElement(j.elems[i]) == Success(r.value[i])
    ensures j.JArray? ==> (r.Success? <==> forall i :: 0 <= i < |j.elems| ==> DecodeElement(j.elems[i]).Success?)
    ensures r.Failure? && j.JArray? ==>
      && r.error.AtElement?
      && r.error.index < |j.elems|
      && DecodeElement(j.elems[r.error.index]) == Failure(r.error.cause)
      && forall i :: 0 <= i < r.error.index ==> DecodeElement(j.elems[i]).Success?
  {
    match j
    case JArray(xs) =>
      (match DecodeEach(xs, DecodeElement)
       case Success(abi) => Success(abi)
       case Failure(ie) => Failure(AtElement(ie.index, ie.error)))
    case _ => Failure(NotAList(ShapeOf(j)))
  }

  function EncodeAbi(abi: seq<AbiElement>): Json {
    ArrayOf(abi, EncodeElement)
  }

  /** An ABI made only of registered variants survives encoding and decoding unchanged. */
  lemma AbiRoundTrip(abi: seq<AbiElement>)
    requires forall i :: 0 <= i < |abi| ==> !abi[i].Enum?
    ensures DecodeAbi(EncodeAbi(abi)) == Success(abi)
  {
    var js := EncodeAbi(abi).elems;
    forall i | 0 <= i < |abi| ensures DecodeElement(js[i]) == Success(abi[i]) {
      RoundTrip.ElementRoundTrip(abi[i]);
    }
    var r := DecodeAbi(EncodeAbi(abi));
    assert r.value == abi;
  }

  /** What an element is decoded as once encoded: an `Enum` without variants turns into an enum event. */
  function Reencoded(e: AbiElement): AbiElement {
    if e.Enum? then EventElement(EnumEvent(e.name, [])) else e
  }

  /**
    An encoded ABI whose `Enum`s have no variants decodes, with each such
    `Enum` replaced by the enum event of the same name.
  */
  lemma AbiWithEmptyEnumsDecodes(abi: seq<AbiElement>)
    requires forall i :: 0 <= i < |abi| && abi[i].Enum? ==> abi[i].variants == []
    ensures DecodeAbi(EncodeAbi(abi)) == Success(seq(|abi|, i requires 0 <= i < |abi| => Reencoded(abi[i])))
  {
    var js := EncodeAbi(abi).elems;
    var want := seq(|abi|, i requires 0 <= i < |abi| => Reencoded(abi[i]));
    forall i | 0 <= i < |abi| ensures DecodeElement(js[i]) == Success(want[i]) {
      assert js[i] == EncodeElement(abi[i]);
      if abi[i].Enum? {
        RoundTrip.EnumDecodesAsEnumEvent(abi[i]);
      } else {
        RoundTrip.ElementRoundTrip(abi[i]);
      }
    }
    var r := DecodeAbi(EncodeAbi(abi));
    assert r.value == want;
  }

  /**
    An encoded ABI whose earlier `Enum`s have no variants fails as a whole
    at its first `Enum` with variants, with no partial result.
  */
  lemma AbiWithEnumFails(abi: seq<AbiElement>, k: nat)
    requires k < |abi| && abi[k].Enum? && abi[k].variants != []
    requires forall i :: 0 <= i < k && abi[i].Enum? ==> abi[i].variants == []
    ensures DecodeAbi(EncodeAbi(abi)) == Failure(AtElement(k, InList("variants", 0, MissingField("kind"))))
  {
    var js := EncodeAbi(abi).elems;
    forall i | 0 <= i < k ensures DecodeElement(js[i]).Success? {
      assert js[i] == EncodeElement(abi[i]);
      if abi[i].Enum? {
        RoundTrip.EnumDecodesAsEnumEvent(abi[i]);
      } else {
        RoundTrip.ElementRoundTrip(abi[i]);
      }
    }
    RoundTrip.EnumDecodesAsEnumEvent(abi[k]);
    assert js[k] == EncodeElement(abi[k]);
    var r := DecodeAbi(EncodeAbi(abi));
    assert r.Failure?;
    assert r.error.index == k;
  }

  /** An ABI holding an `Enum` never decodes back from its encoding to itself. */
  lemma AbiWithEnumNeverRoundTrips(abi: seq<AbiElement>, k: nat)
    requires k < |abi| && abi[k].Enum?
    ensures DecodeAbi(EncodeAbi(abi)) != Success(abi)
  {
    var js := EncodeAbi(abi).elems;
    assert js[k] == EncodeElement(abi[k]);
    RoundTrip.EnumDecodesAsEnumEvent(abi[k]);
  }

  /** The tags of the generated document: one per element kind, independent of any ABI. */
  const TagCatalogue: seq<string> :=
    ["function", "constructor", "l1_handler", "event", "struct", "enum", "interface", "impl"]

  /** An element of each variant, listed in the catalogue's order. */
  const Representatives: seq<AbiElement> := [
    FunctionElement(Function("", [], [], View)),
    Constructor([], Some(ConstructorName)),
    L1Handler("", [], [], View),
    EventElement(StructEvent("", [])),
    Struct("", []),
    Enum("", []),
    Interface("", []),
    Impl("", "")
  ]

  /** Each tag of the catalogue is the `type` its representative reports. */
  lemma RepresentativesNameTags()
    ensures |TagCatalogue| == |Representatives| == 8
    ensures forall i :: 0 <= i < |TagCatalogue| ==> TypeName(Representatives[i]) == TagCatalogue[i]
  {
    forall i | 0 <= i < |TagCatalogue| ensures TypeName(Representatives[i]) == TagCatalogue[i] {
      assert i == 0 || i == 1 || i == 2 || i == 3 || i == 4 || i == 5 || i == 6 || i == 7;
    }
  }

  /**
    The catalogue lists eight distinct tags, exactly the `type` names of
    the element variants.
  */
  lemma TagCatalogueIsVariantNames()
    ensures |TagCatalogue| == |Representatives| == 8
    ensures forall i, j :: 0 <= i < j < |TagCatalogue| ==> TagCatalogue[i] != TagCatalogue[j]
    ensures forall e: AbiElement :: TypeName(e) in TagCatalogue
    ensures forall i :: 0 <= i < |TagCatalogue| ==> TypeName(Representatives[i]) == TagCatalogue[i]
  {
    var tags := TagCatalogue;
    forall e: AbiElement ensures TypeName(e) in tags {
      match e
      case FunctionElement(_) => assert tags[0] == TypeName(e);
      case Constructor(_, _) => assert tags[1] == TypeName(e);
      case L1Handler(_, _, _, _) => assert tags[2] == TypeName(e);
      case EventElement(_) => assert tags[3] == TypeName(e);
      case Struct(_, _) => assert tags[4] == TypeName(e);
      case Enum(_, _) => assert tags[5] == TypeName(e);
      case Interface(_, _) => assert tags[6] == TypeName(e);
      case Impl(_, _) => assert tags[7] == TypeName(e);
    }
    RepresentativesNameTags();
  }

  /**
    Every tag resolves in the element id map: each to its own variant's
    class, except "enum", which selects the enum-event class.
  */
  lemma TagCatalogueAgainstTable()
    ensures forall i :: 0 <= i < |TagCatalogue| && i < |Representatives| && TagCatalogue[i] != "enum" ==>
      Resolve(TagCatalogue[i]) == Some(ClassOf(Representatives[i]))
    ensures forall i :: 0 <= i < |TagCatalogue| ==> Resolve(TagCatalogue[i]).Some?
    ensures Resolve("enum") == Some(EnumEventType)
  {
    RepresentativesNameTags();
    forall i | 0 <= i < |TagCatalogue|
      ensures TagCatalogue[i] != "enum" ==> Resolve(TagCatalogue[i]) == Some(ClassOf(Representatives[i]))
      ensures Resolve(TagCatalogue[i]).Some?
    {
      TableMatchesDiscriminants(Representatives[i]);
    }
    assert TypeName(Representatives[5]) == "enum";
    TableMatchesDiscriminants(Representatives[5]);
  }
}
