/**
  An already-parsed JSON document. Objects keep their members as an ordered
  list of fields, as the parser delivers them.
*/
module JsonValues {
  import opened Wrappers

  datatype Json =
    | JNull
    | JBool(b: bool)
    | JNumber(n: int)
    | JString(s: string)
    | JArray(elems: seq<Json>)
    | JObject(fields: seq<Field>)

  datatype Field = Field(key: string, value: Json)

  /** The primitive shape of a JSON value, used to report mismatches. */
  datatype Shape = NullShape | BoolShape | NumberShape | StringShape | ArrayShape | ObjectShape

  function ShapeOf(j: Json): Shape {
    match j
    case JNull => NullShape
    case JBool(_) => BoolShape
    case JNumber(_) => NumberShape
    case JString(_) => StringShape
    case JArray(_) => ArrayShape
    case JObject(_) => ObjectShape
  }

  /** True iff `i` is the position of the first field named `key`. */
  ghost predicate FirstWithKey(fields: seq<Field>, key: string, i: int) {
    && 0 <= i < |fields|
    && fields[i].key == key
    && forall j :: 0 <= j < i ==> fields[j].key != key
  }

  /** The value of the first field named `key`, if any. */
  function Get(fields: seq<Field>, key: string): Option<Json> {
    if |fields| == 0 then None
    else if fields[0].key == key then Some(fields[0].value)
    else Get(fields[1..], key)
  }

  /**
    Lookup finds a key exactly when some field carries it, and then yields
    the value of the first such field.
  */
  lemma {:induction false} GetSpec(fields: seq<Field>, key: string)
    ensures Get(fields, key).None? <==> forall i :: 0 <= i < |fields| ==> fields[i].key != key
    ensures Get(fields, key).Some? ==>
      exists i :: FirstWithKey(fields, key, i) && fields[i].value == Get(fields, key).value
  {
    if |fields| > 0 && fields[0].key != key {
      GetSpec(fields[1..], key);
      assert forall i :: 1 <= i < |fields| ==> fields[i] == fields[1..][i - 1];
      if Get(fields, key).Some? {
        var i :| FirstWithKey(fields[1..], key, i) && fields[1..][i].value == Get(fields, key).value;
        assert FirstWithKey(fields, key, i + 1);
      }
    } else if |fields| > 0 {
      assert FirstWithKey(fields, key, 0);
    }
  }

  /** The first field carrying a key decides the lookup. */
  lemma GetFirst(fields: seq<Field>, key: string, i: int)
    requires FirstWithKey(fields, key, i)
    ensures Get(fields, key) == Some(fields[i].value)
  {
    GetSpec(fields, key);
    var r := Get(fields, key);
    assert r.Some?;
    var k :| FirstWithKey(fields, key, k) && fields[k].value == r.value;
    assert k == i;
  }

  /** Fields whose keys differ from `key` are invisible to its lookup, wherever they sit. */
  lemma {:induction false} GetIgnoresOtherKeys(pre: seq<Field>, extra: seq<Field>, post: seq<Field>, key: string)
    requires forall i :: 0 <= i < |extra| ==> extra[i].key != key
    ensures Get(pre + extra + post, key) == Get(pre + post, key)
    decreases |pre| + |extra|
  {
    if |pre| > 0 {
      assert (pre + extra + post)[0] == pre[0] == (pre + post)[0];
      if pre[0].key != key {
        assert (pre + extra + post)[1..] == pre[1..] + extra + post;
        assert (pre + post)[1..] == pre[1..] + post;
        GetIgnoresOtherKeys(pre[1..], extra, post, key);
      }
    } else if |extra| > 0 {
      assert pre + extra + post == extra + post;
      assert (extra + post)[0] == extra[0];
      assert (extra + post)[1..] == extra[1..] + post;
      GetIgnoresOtherKeys(pre, extra[1..], post, key);
      assert pre + extra[1..] + post == extra[1..] + post;
    } else {
      assert pre + extra + post == pre + post;
    }
  }

  /** Two field lists that give the same value for every key in `keys`. */
  ghost predicate AgreeOn(fs: seq<Field>, gs: seq<Field>, keys: set<string>) {
    forall k :: k in keys ==> Get(fs, k) == Get(gs, k)
  }

  /** The set of keys a field list carries. */
  function KeySet(fields: seq<Field>): set<string> {
    set i | 0 <= i < |fields| :: fields[i].key
  }
}
