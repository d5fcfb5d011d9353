/** `RequestModelBase`: a request model is serialized to a JSON object and
    each of its properties becomes one parameter, by the kind of its token;
    properties that map to null are left out. */
module RequestModel {
  import opened Wrappers
  import opened Json
  import opened Errors
  import opened Values
  import opened Dict

  const Int32Min: int := -0x8000_0000
  const Int32Max: int := 0x7FFF_FFFF

  /** `GetValue`: the parameter value of one token, null for the empty
      kinds, and an error for the kinds a parameter cannot hold. */
  function GetValue(token: Json): (r: Result<Option<Value>>)
    ensures r.Ok? && r.value.Some? && r.value.value.VInt? ==> Int32Min <= r.value.value.i <= Int32Max
    ensures r.Ok? && r.value.Some? && r.value.value.VToken? ==> r.value.value.token == token
  {
    match token
    case JObject(_) => Ok(Some(VToken(token)))
    case JArray(_) => Ok(Some(VToken(token)))
    case JInt(i) => if Int32Min <= i <= Int32Max then Ok(Some(VInt(i))) else Err(Overflow)
    case JFloat(_) => Ok(Some(VOther(token)))
    case JString(s) => Ok(Some(VString(s)))
    case JBool(b) => Ok(Some(VBool(b)))
    case JNull => Ok(None)
    case JDate(seconds, _) => Ok(Some(VDate(seconds)))
    case JOther(kind, _) =>
      match kind
      case KNone => Ok(None)
      case Undefined => Ok(None)
      case Bytes => Ok(Some(VToken(token)))
      case Guid => Ok(Some(VOther(token)))
      case Uri => Ok(Some(VOther(token)))
      case TimeSpan => Ok(Some(VOther(token)))
      case Constructor => Err(NotSupported)
      case Property => Err(NotSupported)
      case Comment => Err(NotSupported)
      case Raw => Err(NotSupported)
      case OutOfRange(_) => Err(InvalidEnumArgument)
  }

  /** The token kinds that map to null. */
  predicate IsEmptyKind(token: Json) {
    token.JNull? || (token.JOther? && token.kind in {KNone, Undefined})
  }

  /** The token kinds a parameter cannot hold. */
  predicate IsUnsupportedKind(token: Json) {
    token.JOther? && token.kind in {Constructor, Property, Comment, Raw}
  }

  /** The kinds that map to null are exactly None, Null and Undefined; the
      result is never a null held as a value. */
  lemma EmptyKinds(token: Json)
    ensures GetValue(token) == Ok(None) <==> IsEmptyKind(token)
    ensures GetValue(token).Ok? && GetValue(token).value.Some? ==> !GetValue(token).value.value.VNull?
  {
  }

  /** Objects, arrays and byte tokens are passed on as the token itself;
      strings, booleans and 32-bit integers as their native values. */
  lemma NativeKinds(token: Json)
    ensures token.JObject? || token.JArray? || (token.JOther? && token.kind == Bytes)
            ==> GetValue(token) == Ok(Some(VToken(token)))
    ensures token.JString? ==> GetValue(token) == Ok(Some(VString(token.s)))
    ensures token.JBool? ==> GetValue(token) == Ok(Some(VBool(token.b)))
    ensures token.JInt? && Int32Min <= token.i <= Int32Max ==> GetValue(token) == Ok(Some(VInt(token.i)))
  {
  }

  /** The failures: not-supported for constructor, property, comment and
      raw tokens, invalid-enum for a kind outside the enumeration, and
      overflow for an integer outside 32 bits; nothing else fails. */
  lemma FailingKinds(token: Json)
    ensures GetValue(token) == Err(NotSupported) <==> IsUnsupportedKind(token)
    ensures GetValue(token) == Err(InvalidEnumArgument) <==> token.JOther? && token.kind.OutOfRange?
    ensures GetValue(token) == Err(Overflow) <==> token.JInt? && !(Int32Min <= token.i <= Int32Max)
    ensures GetValue(token).Err? ==> GetValue(token).error in {NotSupported, InvalidEnumArgument, Overflow}
  {
  }

  /** `ToParams` over the properties of the serialized model: each value
      mapped in property order, nulls dropped, the rest collected by
      `ToDictionary`, which raises on a repeated name. */
  function ToParams(props: seq<Prop>): (r: Result<Entries<Value>>)
    ensures r.Ok? ==> |r.value| <= |props| && Distinct(r.value)
    decreases |props|
  {
    if |props| == 0 then Ok([])
    else
      var acc :- ToParams(props[..|props| - 1]);
      var last := props[|props| - 1];
      var v :- GetValue(last.value);
      if v.None? then Ok(acc) else Add(acc, last.name, v.value)
  }

  /** The parameters a model should give: one per property whose value is
      not null, named as serialized, in property order. */
  function Kept(props: seq<Prop>): Entries<Value>
    requires forall i :: 0 <= i < |props| ==> GetValue(props[i].value).Ok?
    decreases |props|
  {
    if |props| == 0 then []
    else
      var init := Kept(props[..|props| - 1]);
      var last := props[|props| - 1];
      match GetValue(last.value).value
      case None => init
      case Some(v) => init + [(last.name, v)]
  }

  /** With distinct property names (as a `JObject` has), the parameters are
      produced exactly when every value maps, and they are `Kept(props)`. */
  lemma ToParamsKept(props: seq<Prop>)
    requires forall i, j :: 0 <= i < j < |props| ==> props[i].name != props[j].name
    ensures ToParams(props).Ok? <==> forall i :: 0 <= i < |props| ==> GetValue(props[i].value).Ok?
    ensures ToParams(props).Ok? ==> ToParams(props).value == Kept(props)
  {
    if forall i :: 0 <= i < |props| ==> GetValue(props[i].value).Ok? {
      ToParamsAllMap(props);
    } else {
      var i :| 0 <= i < |props| && GetValue(props[i].value).Err?;
      ToParamsFails(props, i);
    }
  }

  /** When every value maps, the distinct names never collide and the
      parameters are `Kept(props)`. */
  lemma {:induction false} ToParamsAllMap(props: seq<Prop>)
    requires forall i, j :: 0 <= i < j < |props| ==> props[i].name != props[j].name
    requires forall i :: 0 <= i < |props| ==> GetValue(props[i].value).Ok?
    ensures ToParams(props) == Ok(Kept(props))
    decreases |props|
  {
    if |props| > 0 {
      var init := props[..|props| - 1];
      var last := props[|props| - 1];
      ToParamsAllMap(init);
      if GetValue(last.value).value.Some? {
        KeptNew(props);
      }
    }
  }

  /** A value that does not map makes the whole conversion fail. */
  lemma {:induction false} ToParamsFails(props: seq<Prop>, i: nat)
    requires i < |props| && GetValue(props[i].value).Err?
    ensures ToParams(props).Err?
    decreases |props|
  {
    var n := |props| - 1;
    if i < n {
      assert props[..n][i] == props[i];
      ToParamsFails(props[..n], i);
    }
  }

  /** The last property's name is not among the names kept before it. */
  lemma KeptNew(props: seq<Prop>)
    requires |props| > 0
    requires forall i, j :: 0 <= i < j < |props| ==> props[i].name != props[j].name
    requires forall i :: 0 <= i < |props| - 1 ==> GetValue(props[i].value).Ok?
    ensures props[|props| - 1].name !in Keys(Kept(props[..|props| - 1]))
  {
    var init := props[..|props| - 1];
    KeptNames(init);
    assert props[|props| - 1].name !in Names(init);
  }

  /** Every kept name is a property name. */
  lemma {:induction false} KeptNames(props: seq<Prop>)
    requires forall i :: 0 <= i < |props| ==> GetValue(props[i].value).Ok?
    ensures forall k :: k in Keys(Kept(props)) ==> k in Names(props)
    decreases |props|
  {
    if |props| > 0 {
      var init := props[..|props| - 1];
      KeptNames(init);
      assert Names(init) == Names(props)[..|props| - 1];
      var last := props[|props| - 1];
      if GetValue(last.value).value.Some? {
        assert Keys(Kept(props)) == Keys(Kept(init)) + [last.name];
      }
    }
  }

  /** A kept parameter is a property whose value does not map to null, and
      no property that maps to null is kept. */
  lemma {:induction false} KeptMembers(props: seq<Prop>, k: string, v: Value)
    requires forall i :: 0 <= i < |props| ==> GetValue(props[i].value).Ok?
    ensures (k, v) in Kept(props) <==> exists i :: 0 <= i < |props| && props[i].name == k
                                                   && GetValue(props[i].value) == Ok(Some(v))
    decreases |props|
  {
    if |props| > 0 {
      var init := props[..|props| - 1];
      KeptMembers(init, k, v);
      if exists i :: 0 <= i < |init| && init[i].name == k && GetValue(init[i].value) == Ok(Some(v)) {
        var i :| 0 <= i < |init| && init[i].name == k && GetValue(init[i].value) == Ok(Some(v));
        assert props[i] == init[i];
      }
      if exists i :: 0 <= i < |props| && props[i].name == k && GetValue(props[i].value) == Ok(Some(v)) {
        var i :| 0 <= i < |props| && props[i].name == k && GetValue(props[i].value) == Ok(Some(v));
        if i < |props| - 1 {
          assert init[i] == props[i];
        }
      }
    }
  }
}
