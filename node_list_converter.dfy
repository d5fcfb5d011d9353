/** `ApiNodeListConverter<T>`: reads one JSON token into an `ApiNodeList<T>`
    by trying the response shapes in a fixed order. `ReadSpec` states the
    outcome as a value; the methods `ReadJson`, `FromObject` and `FromList`
    do what the converter does to the heap and are proved to realise it. */
module NodeListConverter {
  import opened Wrappers
  import opened Json
  import opened Errors
  import opened Paging

  /** What the converter borrows from Newtonsoft: `ToObject<T>(serializer)`,
      `ToObject<T>()` with the default serializer (used once, for a single
      `data` object), and `JToken.ToString()` of a container. */
  datatype Serializer<T> = Serializer(item: Json -> T, plainItem: Json -> T, render: Json -> string)

  /** The three properties of an `ApiNodeList<T>`. */
  datatype ListView<T> = ListView(data: Option<seq<T>>, paging: Option<ApiPaging>, summary: Option<Json>)

  class ApiNodeList<T> {
    var data: Option<seq<T>>
    var paging: Option<ApiPaging>
    var summary: Option<Json>

    constructor ()
      ensures View() == ListView(None, None, None)
    {
      data, paging, summary := None, None, None;
    }

    function View(): ListView<T>
      reads this
    {
      ListView(data, paging, summary)
    }
  }

  /** The view of a nullable list: `None` for null. */
  function ViewOf<T>(l: ApiNodeList?<T>): Option<ListView<T>>
    reads l
  {
    if l == null then None else Some(l.View())
  }

  /** Tokens decoded one by one, in order. */
  function Items<T>(s: Serializer<T>, js: seq<Json>): (r: seq<T>)
    ensures |r| == |js| && forall i :: 0 <= i < |js| ==> r[i] == s.item(js[i])
  {
    seq(|js|, i requires 0 <= i < |js| => s.item(js[i]))
  }

  /** A successful read: the list, and whether it is the caller's
      `existingValue` (when there was one) rather than a new list. */
  datatype Reply<T> = Reply(list: ListView<T>, reused: bool)

  /** A read: its result, and the state it leaves `existingValue` in. */
  datatype Outcome<T> = Outcome(result: Result<Reply<T>>, existingAfter: Option<ListView<T>>)

  /** `FromList`: `existingValue ?? new ApiNodeList<T>()` with `Data` replaced. */
  function FromListSpec<T>(items: seq<T>, existing: Option<ListView<T>>): (v: ListView<T>)
    ensures v.data == Some(items)
    ensures existing.Some? ==> v.paging == existing.value.paging && v.summary == existing.value.summary
    ensures existing.None? ==> v.paging.None? && v.summary.None?
  {
    existing.GetOr(ListView(None, None, None)).(data := Some(items))
  }

  /** A successful read whose reply is the list `FromList` returned. */
  function Reused<T>(v: ListView<T>, existing: Option<ListView<T>>): Outcome<T> {
    Outcome(Ok(Reply(v, true)), if existing.Some? then Some(v) else None)
  }

  /** The id-index test on one property: its value is an object with an `id`
      whose text equals the property's name. */
  predicate IdMatches(p: Prop, render: Json -> string) {
    p.value.JObject? && Get(p.value.props, "id").Some?
    && Text(Get(p.value.props, "id").value, render) == p.name
  }

  /** The index of the first property that fails the id-index test, or the
      number of properties when none fails. */
  function FirstMismatch(props: seq<Prop>, render: Json -> string): (k: nat)
    ensures k <= |props|
    ensures forall j :: 0 <= j < k ==> IdMatches(props[j], render)
    ensures k < |props| ==> !IdMatches(props[k], render)
    decreases |props|
  {
    if |props| == 0 || !IdMatches(props[0], render) then 0
    else 1 + FirstMismatch(props[1..], render)
  }

  /** The `data` rules apply: `data` is an array or an object. */
  predicate DataRuleApplies(props: seq<Prop>) {
    var d := Get(props, "data");
    d.Some? && (d.value.JArray? || d.value.JObject?)
  }

  /** `ReadJson`: objects go to `FromObjectSpec`, arrays become the items,
      anything else is a malformed response. */
  function ReadSpec<T>(token: Json, existing: Option<ListView<T>>, s: Serializer<T>): Outcome<T> {
    match token
    case JObject(props) => FromObjectSpec(props, existing, s)
    case JArray(elems) => Reused(FromListSpec(Items(s, elems), existing), existing)
    case _ => Outcome(Err(MalformedResponse("Invalid response string: " + Text(token, s.render))), existing)
  }

  /** `FromObject`: the `data` rules, then `LaterRulesSpec`. */
  function FromObjectSpec<T>(props: seq<Prop>, existing: Option<ListView<T>>, s: Serializer<T>): Outcome<T> {
    var d := Get(props, "data");
    if d.Some? && d.value.JArray? then
      var v := FromListSpec(Items(s, d.value.elems), existing);
      var p := Get(props, "paging");
      if p.Some? && p.value.JObject? then
        match PagingOfObject(p.value.props, Ignore)
        case Err(e) => Outcome(Err(e), if existing.Some? then Some(v) else None)
        case Ok(pg) => WithSummary(v.(paging := Some(pg)), props, existing)
      else WithSummary(v, props, existing)
    else if d.Some? && d.value.JObject? then
      Outcome(Ok(Reply(ListView(Some([s.plainItem(d.value)]), None, None), false)), existing)
    else LaterRulesSpec(props, existing, s)
  }

  /** The raw `summary` token replaces the summary whenever the key is present. */
  function WithSummary<T>(v: ListView<T>, props: seq<Prop>, existing: Option<ListView<T>>): Outcome<T> {
    Reused(if Has(props, "summary") then v.(summary := Get(props, "summary")) else v, existing)
  }

  /** The rules tried once no `data` rule applied: the `images` quirk, the
      id-indexed map, and the whole object as one item. */
  function LaterRulesSpec<T>(props: seq<Prop>, existing: Option<ListView<T>>, s: Serializer<T>): Outcome<T> {
    var i := Get(props, "images");
    if i.Some? then
      if !i.value.JObject? || exists j :: 0 <= j < |props| && !props[j].value.JObject? then
        Outcome(Err(InvalidCast), existing)
      else Reused(FromListSpec(Items(s, Values(props)), existing), existing)
    else Reused(FromListSpec(IdIndexedItems(props, s), existing), existing)
  }

  /** The id-index rule's items: the values of the properties before the
      first mismatch, then the whole object when there is a mismatch. */
  function IdIndexedItems<T>(props: seq<Prop>, s: Serializer<T>): seq<T> {
    var k := FirstMismatch(props, s.render);
    var items := Items(s, Values(props[..k]));
    if k == |props| then items else items + [s.item(JObject(props))]
  }

  /** The heap effect of a read, against its outcome: the result and its
      error agree, a reused reply is `existingValue` itself and any other
      reply is a new list, and `existingValue` ends in the stated state. */
  twostate predicate Realises<T>(out: Outcome<T>, new r: Result<ApiNodeList<T>>, existing: ApiNodeList?<T>)
    reads existing, if r.Ok? then {r.value} else {}
  {
    && (r.Ok? <==> out.result.Ok?)
    && (r.Err? ==> r.error == out.result.error)
    && (r.Ok? ==> r.value.View() == out.result.value.list)
    && (r.Ok? ==> if existing != null && out.result.value.reused then r.value == existing else fresh(r.value))
    && ViewOf(existing) == out.existingAfter
  }

  /** `FromList`: reuses `existingValue` when given one. */
  method FromList<T>(list: seq<T>, existing: ApiNodeList?<T>) returns (v: ApiNodeList<T>)
    modifies existing
    ensures existing != null ==> v == existing
    ensures existing == null ==> fresh(v)
    ensures v.View() == FromListSpec(list, old(ViewOf(existing)))
  {
    if existing != null {
      v := existing;
    } else {
      v := new ApiNodeList<T>();
    }
    v.data := Some(list);
  }

  method ReadJson<T>(token: Json, existing: ApiNodeList?<T>, s: Serializer<T>) returns (r: Result<ApiNodeList<T>>)
    modifies existing
    ensures Realises(ReadSpec(token, old(ViewOf(existing)), s), r, existing)
  {
    match token {
      case JObject(props) =>
        r := FromObject(props, existing, s);
      case JArray(elems) =>
        var v := FromList(Items(s, elems), existing);
        r := Ok(v);
      case _ =>
        r := Err(MalformedResponse("Invalid response string: " + Text(token, s.render)));
    }
  }

  method FromObject<T>(props: seq<Prop>, existing: ApiNodeList?<T>, s: Serializer<T>) returns (r: Result<ApiNodeList<T>>)
    modifies existing
    ensures Realises(FromObjectSpec(props, old(ViewOf(existing)), s), r, existing)
  {
    var d := Get(props, "data");
    if d.Some? && d.value.JArray? {
      var value := FromList(Items(s, d.value.elems), existing);
      var p := Get(props, "paging");
      if p.Some? && p.value.JObject? {
        var pg := PagingOfObject(p.value.props, Ignore);
        if pg.Err? {
          return Err(pg.error);
        }
        value.paging := Some(pg.value);
      }
      var sm := Get(props, "summary");
      if sm.Some? {
        value.summary := sm;
      }
      return Ok(value);
    }
    if d.Some? && d.value.JObject? {
      var obj := s.plainItem(d.value);
      var single := new ApiNodeList<T>();
      single.data := Some([obj]);
      return Ok(single);
    }

    var images := Get(props, "images");
    if images.Some? {
      if !images.value.JObject? || exists j :: 0 <= j < |props| && !props[j].value.JObject? {
        return Err(InvalidCast);
      }
      var value := FromList(Items(s, Values(props)), existing);
      return Ok(value);
    }

    var data := IdIndexed(props, s);
    var value := FromList(data, existing);
    return Ok(value);
  }

  /** The id-index loop: collects values while each is an object whose
      `id` text is its property's name, and on the first failure adds the
      whole object as one item instead. */
  method IdIndexed<T>(props: seq<Prop>, s: Serializer<T>) returns (data: seq<T>)
    ensures data == IdIndexedItems(props, s)
  {
    var isIdIndexedArray := true;
    data := [];
    var k := 0;
    while k < |props|
      invariant 0 <= k <= |props|
      invariant forall j :: 0 <= j < k ==> IdMatches(props[j], s.render)
      invariant data == Items(s, Values(props[..k]))
    {
      var prop := props[k];
      var id := if prop.value.JObject? then Get(prop.value.props, "id") else None;
      if id.Some? && Text(id.value, s.render) == prop.name {
        data := data + [s.item(prop.value)];
        assert props[..k + 1] == props[..k] + [prop];
      } else {
        assert !IdMatches(props[k], s.render);
        isIdIndexedArray := false;
        break;
      }
      k := k + 1;
    }
    assert isIdIndexedArray ==> props[..k] == props;
    FirstMismatchAt(props, k, s.render);
    if !isIdIndexedArray {
      data := data + [s.item(JObject(props))];
    }
  }

  /** The list a read starts from: `existingValue`, or an empty new one. */
  function Prior<T>(existing: Option<ListView<T>>): ListView<T> {
    existing.GetOr(ListView(None, None, None))
  }

  /** A top-level array: `Data` is its elements decoded in order, and
      `Paging` and `Summary` keep their previous values. */
  lemma ArrayDecodesInOrder<T>(elems: seq<Json>, existing: Option<ListView<T>>, s: Serializer<T>)
    ensures var out := ReadSpec(JArray(elems), existing, s);
      && out.result == Ok(Reply(Prior(existing).(data := Some(Items(s, elems))), true))
      && out.existingAfter == if existing.Some? then Some(out.result.value.list) else None
  {
  }

  /** A top-level scalar fails with a malformed-response error carrying the
      token's text, and leaves `existingValue` alone. */
  lemma ScalarIsMalformed<T>(token: Json, existing: Option<ListView<T>>, s: Serializer<T>)
    requires token.IsScalar()
    ensures ReadSpec(token, existing, s)
      == Outcome(Err(MalformedResponse("Invalid response string: " + ScalarText(token))), existing)
  {
  }

  /** `data` is an array: the items are its elements in order; `Paging` is
      replaced only when `paging` is present and is an object, read with
      the converter's serializer, which ignores nulls (and the read fails
      when that object does not decode); `Summary` is replaced by the
      raw `summary` token whenever that key is present. */
  lemma DataArrayRule<T>(props: seq<Prop>, existing: Option<ListView<T>>, s: Serializer<T>)
    requires Get(props, "data").Some? && Get(props, "data").value.JArray?
    ensures var out := ReadSpec(JObject(props), existing, s);
      var p := Get(props, "paging");
      var pagingApplies := p.Some? && p.value.JObject?;
      && (out.result.Err? <==> pagingApplies && PagingOfObject(p.value.props, Ignore).Err?)
      && (out.result.Err? ==> out.result.error == PagingOfObject(p.value.props, Ignore).error)
      && (out.result.Ok? ==>
            && out.result.value.reused
            && out.result.value.list.data == Some(Items(s, Get(props, "data").value.elems))
            && out.result.value.list.paging
               == (if pagingApplies then Some(PagingOfObject(p.value.props, Ignore).value) else Prior(existing).paging)
            && out.result.value.list.summary
               == (if Has(props, "summary") then Get(props, "summary") else Prior(existing).summary))
  {
  }

  /** `data` is one object: a new single-item list without paging or
      summary, decoded with the default serializer; `existingValue` is
      neither used nor changed. */
  lemma DataObjectRule<T>(props: seq<Prop>, existing: Option<ListView<T>>, s: Serializer<T>)
    requires Get(props, "data").Some? && Get(props, "data").value.JObject?
    ensures ReadSpec(JObject(props), existing, s)
      == Outcome(Ok(Reply(ListView(Some([s.plainItem(Get(props, "data").value)]), None, None), false)), existing)
  {
  }

  /** The `images` quirk: one item per property value of the whole object,
      in property order and including the `images` value itself; the read
      fails when any of those values is not an object. */
  lemma ImagesRule<T>(props: seq<Prop>, existing: Option<ListView<T>>, s: Serializer<T>)
    requires !DataRuleApplies(props) && Has(props, "images")
    ensures var out := ReadSpec(JObject(props), existing, s);
      && (out.result.Err? <==> exists j :: 0 <= j < |props| && !props[j].value.JObject?)
      && (out.result.Err? ==> out.result.error == InvalidCast && out.existingAfter == existing)
      && (out.result.Ok? ==>
            && out.result.value.list.data == Some(Items(s, Values(props)))
            && s.item(Get(props, "images").value) in out.result.value.list.data.value)
  {
    LaterRulesReached(props, existing, s);
    var i := ImagesOutcome(props, existing, s);
    var items := Items(s, Values(props));
    assert items[i] == s.item(Get(props, "images").value);
  }

  /** Without a `data` array or object the later rules decide the read: a
      missing `data`, or one that is a scalar, does not stop them. */
  lemma LaterRulesReached<T>(props: seq<Prop>, existing: Option<ListView<T>>, s: Serializer<T>)
    requires !DataRuleApplies(props)
    ensures ReadSpec(JObject(props), existing, s) == LaterRulesSpec(props, existing, s)
  {
  }

  /** With `images` present, the later rules fail exactly when some value is
      not an object; `i` is the position of the `images` property. */
  lemma ImagesOutcome<T>(props: seq<Prop>, existing: Option<ListView<T>>, s: Serializer<T>) returns (i: nat)
    requires Has(props, "images")
    ensures i < |props| && props[i] == Prop("images", Get(props, "images").value)
    ensures LaterRulesSpec(props, existing, s)
      == if exists j :: 0 <= j < |props| && !props[j].value.JObject?
         then Outcome(Err(InvalidCast), existing)
         else Reused(FromListSpec(Items(s, Values(props)), existing), existing)
  {
    var img := Get(props, "images").value;
    i :| 0 <= i < |props| && props[i] == Prop("images", img);
    if !img.JObject? {
      assert !props[i].value.JObject?;
    }
  }

  /** An id-indexed map: when every property value is an object whose `id`
      text is the property's name, the items are those values in order. */
  lemma IdIndexedRule<T>(props: seq<Prop>, existing: Option<ListView<T>>, s: Serializer<T>)
    requires !DataRuleApplies(props) && !Has(props, "images")
    requires forall j :: 0 <= j < |props| ==> IdMatches(props[j], s.render)
    ensures ReadSpec(JObject(props), existing, s)
      == Reused(FromListSpec(Items(s, Values(props)), existing), existing)
  {
    assert props[..|props|] == props;
  }

  /** An empty object decodes to an empty list. */
  lemma EmptyObjectIsEmptyList<T>(existing: Option<ListView<T>>, s: Serializer<T>)
    ensures ReadSpec(JObject([]), existing, s) == Reused(FromListSpec([], existing), existing)
  {
  }

  /** When the id test first fails at property `k`, the items are the values
      of the properties before `k`, followed by the whole object as one item. */
  lemma IdIndexFirstFailure<T>(props: seq<Prop>, k: nat, existing: Option<ListView<T>>, s: Serializer<T>)
    requires !DataRuleApplies(props) && !Has(props, "images")
    requires k < |props| && !IdMatches(props[k], s.render)
    requires forall j :: 0 <= j < k ==> IdMatches(props[j], s.render)
    ensures ReadSpec(JObject(props), existing, s)
      == Reused(FromListSpec(Items(s, Values(props[..k])) + [s.item(JObject(props))], existing), existing)
  {
    FirstMismatchAt(props, k, s.render);
  }

  /** The first failing property is the one `FirstMismatch` names. */
  lemma {:induction false} FirstMismatchAt(props: seq<Prop>, k: nat, render: Json -> string)
    requires k <= |props|
    requires k < |props| ==> !IdMatches(props[k], render)
    requires forall j :: 0 <= j < k ==> IdMatches(props[j], render)
    ensures FirstMismatch(props, render) == k
    decreases k
  {
    if k > 0 {
      assert IdMatches(props[0], render);
      FirstMismatchAt(props[1..], k - 1, render);
    }
  }

  /** After a successful read `Data` is never null. */
  lemma DataNeverAbsent<T>(token: Json, existing: Option<ListView<T>>, s: Serializer<T>)
    ensures var out := ReadSpec(token, existing, s);
      out.result.Ok? ==> out.result.value.list.data.Some?
  {
  }
}
