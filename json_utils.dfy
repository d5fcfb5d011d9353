/** The nested-edge rewrite `JsonUtils` installs for `ApiNode` types: a
    property the node does not declare lands in its extension data, and a
    value that looks like a paginated edge is first read as an `Edge` and
    written back as a smaller object (no `paging`, no empty `data`, and a
    derived `nextPageCursor`). The serializer ignores null members. */
module JsonUtils {
  import opened Wrappers
  import opened Json
  import opened Errors
  import opened Paging

  /** The private `Edge` class: `data`, `paging` and `summary`. */
  datatype Edge = Edge(data: Option<seq<Json>>, paging: Option<ApiPaging>, summary: Option<Json>) {

    /** The `after` cursor of the paging when its `next` URL is non-empty. */
    function NextPageCursor(): (c: Option<string>)
      ensures c.Some? ==> paging.Some? && paging.value.cursors.Some?
                          && paging.value.cursors.value.after == c
      ensures c.None? <==> paging.None? || paging.value.next.None? || paging.value.next == Some("")
                           || paging.value.cursors.None? || paging.value.cursors.value.after.None?
    {
      if paging.Some? && paging.value.next.Some? && paging.value.next.value != "" then
        if paging.value.cursors.Some? then paging.value.cursors.value.after else None
      else None
    }

    /** `data` is written only when it holds at least one element. */
    predicate ShouldSerializeData() {
      data.Some? && |data.value| > 0
    }

    /** `paging` is never written. */
    predicate ShouldSerializePaging() {
      false
    }
  }

  /** The test that selects a value for the rewrite: an object whose `data`
      is an array and which has a `paging` or a `summary` key. */
  predicate IsNestedEdge(value: Json) {
    && value.JObject?
    && Get(value.props, "data").Some? && Get(value.props, "data").value.JArray?
    && (Has(value.props, "paging") || Has(value.props, "summary"))
  }

  /** An object that passes the test always sets `Edge.Data`, and
      `Edge.Paging` or `Edge.Summary`: the keys it tests are spelt exactly. */
  lemma NestedEdgeSetsMembers(value: Json)
    requires IsNestedEdge(value)
    ensures LastAssigned(value.props, "data").Some?
    ensures LastAssigned(value.props, "paging").Some? || LastAssigned(value.props, "summary").Some?
  {
    GetAssigned(value.props, "data");
    if Has(value.props, "paging") {
      GetAssigned(value.props, "paging");
    } else {
      GetAssigned(value.props, "summary");
    }
  }

  /** The `List<JToken>?` member `m`, nulls included: the elements of every
      array that set it since a null or an empty string last cleared it, in
      order; `None` when it is null at the end. This is the reference the
      stepwise read is proved against. */
  function AppendedArrays(ps: seq<Prop>, m: string): Option<seq<Json>>
    decreases |ps|
  {
    if |ps| == 0 then None
    else
      var prior := AppendedArrays(ps[..|ps| - 1], m);
      var p := ps[|ps| - 1];
      if !MatchesName(p.name, m) then prior
      else match p.value
        case JArray(elems) => Some(prior.GetOr([]) + elems)
        case _ => None
  }

  /** One property read into an `Edge`, nulls included. An array for
      `data` is appended to the list already there, and an object for
      `paging` is read into the paging already there; a null or an empty
      string clears either. Any token replaces `summary`. A token for the
      read-only `nextPageCursor` is first read as a string, which fails
      unless `ReadAsString` accepts it, and is then skipped. */
  function EdgeStep(e: Edge, p: Prop): Result<Edge> {
    if MatchesName(p.name, "data") then
      match p.value
      case JArray(elems) => Ok(e.(data := Some(e.data.GetOr([]) + elems)))
      case _ => if ClearsClass(p.value) then Ok(e.(data := None)) else Err(Serialization)
    else if MatchesName(p.name, "paging") then
      match p.value
      case JObject(q) =>
        var pg :- PopulatePaging(e.paging.GetOr(NoPaging), q, Include);
        Ok(e.(paging := Some(pg)))
      case _ => if ClearsClass(p.value) then Ok(e.(paging := None)) else Err(Serialization)
    else if MatchesName(p.name, "summary") then Ok(e.(summary := Some(p.value)))
    else if MatchesName(p.name, "nextPageCursor") && !ReadsAsString(p.value) then Err(Serialization)
    else Ok(e)
  }

  /** `JsonSerializer.Populate` of an `Edge` holding `e`. */
  function PopulateEdge(e: Edge, ps: seq<Prop>): Result<Edge>
    decreases |ps|
  {
    if |ps| == 0 then Ok(e)
    else
      var prior :- PopulateEdge(e, ps[..|ps| - 1]);
      EdgeStep(prior, ps[|ps| - 1])
  }

  const NoEdge := Edge(None, None, None)

  /** `ToObject<Edge>()` of an object. The default serializer is used, so
      nulls are included. */
  function EdgeOf(props: seq<Prop>): Result<Edge> {
    PopulateEdge(NoEdge, props)
  }

  /** A property that fails an `Edge` read whatever the edge holds: a
      `data` that is no array and does not read as null, a failing
      `paging`, or a `nextPageCursor` that does not read as a string. */
  predicate EdgePropFails(p: Prop) {
    || (MatchesName(p.name, "data") && !p.value.JArray? && !ClearsClass(p.value))
    || (MatchesName(p.name, "paging") && PagingTokenFails(p.value))
    || (MatchesName(p.name, "nextPageCursor") && !ReadsAsString(p.value))
  }

  /** The `paging` member after `ps`: the paging read from every object
      merged into it since it was last cleared. */
  function PagingMember(ps: seq<Prop>): Option<ApiPaging> {
    match MergedObjects(ps, "paging", Include)
    case None => None
    case Some(q) => match PagingOfObject(q, Include) case Ok(pg) => Some(pg) case Err(_) => None
  }

  /** An edge read of `ps` fails exactly when a property fails. */
  predicate EdgeFailsAgree(ps: seq<Prop>) {
    EdgeOf(ps).Err? <==> exists i :: 0 <= i < |ps| && EdgePropFails(ps[i])
  }

  /** An edge read of `ps`, when it succeeds, has the members
      `AppendedArrays`, `PagingMember` and `LastAssigned` give. */
  predicate EdgeMembersAgree(ps: seq<Prop>) {
    var r := EdgeOf(ps);
    r.Ok? ==>
      && r.value.data == AppendedArrays(ps, "data")
      && r.value.paging == PagingMember(ps)
      && (MergedObjects(ps, "paging", Include).Some? ==> PagingOfObject(MergedObjects(ps, "paging", Include).value, Include).Ok?)
      && r.value.summary == LastAssigned(ps, "summary")
  }

  lemma {:induction false} PopulateEdgeSpec(ps: seq<Prop>)
    ensures EdgeFailsAgree(ps) && EdgeMembersAgree(ps)
    decreases |ps|
  {
    if |ps| > 0 {
      PopulateEdgeSpec(ps[..|ps| - 1]);
      SplitLast(ps);
      EdgeFailsSnoc(ps[..|ps| - 1], ps[|ps| - 1]);
      EdgeMembersSnoc(ps[..|ps| - 1], ps[|ps| - 1]);
    }
  }

  /** An edge read with one more property. */
  lemma EdgeSnoc(front: seq<Prop>, p: Prop)
    ensures EdgeOf(front + [p]) == match EdgeOf(front) case Err(e) => Err(e) case Ok(x) => EdgeStep(x, p)
  {
    assert (front + [p])[..|front|] == front;
  }

  /** One edge property fails, whatever the edge holds, exactly when it is
      a failing property. */
  lemma EdgeStepFails(e: Edge, p: Prop)
    ensures EdgeStep(e, p).Err? <==> EdgePropFails(p)
  {
    if MatchesName(p.name, "paging") && p.value.JObject? {
      PopulatePagingFails(e.paging.GetOr(NoPaging), p.value.props, Include);
    }
  }

  /** One more property keeps the failure condition. */
  lemma EdgeFailsSnoc(front: seq<Prop>, p: Prop)
    requires EdgeFailsAgree(front)
    ensures EdgeFailsAgree(front + [p])
  {
    var ps := front + [p];
    EdgeSnoc(front, p);
    assert forall i :: 0 <= i < |front| ==> front[i] == ps[i];
    if EdgeOf(front).Ok? {
      EdgeStepFails(EdgeOf(front).value, p);
    }
  }

  /** One more property read into an edge whose paging is `PagingMember`. */
  lemma PagingStepMerges(front: seq<Prop>, p: Prop, e: Edge)
    requires e.paging == PagingMember(front)
    requires MergedObjects(front, "paging", Include).Some? ==> PagingOfObject(MergedObjects(front, "paging", Include).value, Include).Ok?
    requires EdgeStep(e, p).Ok?
    ensures EdgeStep(e, p).value.paging == PagingMember(front + [p])
    ensures MergedObjects(front + [p], "paging", Include).Some?
            ==> PagingOfObject(MergedObjects(front + [p], "paging", Include).value, Include).Ok?
  {
    var ps := front + [p];
    assert ps[..|ps| - 1] == front;
    if MatchesName(p.name, "paging") && p.value.JObject? {
      var prior := MergedObjects(front, "paging", Include);
      PopulatePagingAppend(NoPaging, prior.GetOr([]), p.value.props, Include);
      assert prior.GetOr([]) + p.value.props == MergedObjects(ps, "paging", Include).value;
      if prior.None? {
        assert [] + p.value.props == p.value.props;
      }
    }
  }

  /** One more property keeps the members in agreement. */
  lemma EdgeMembersSnoc(front: seq<Prop>, p: Prop)
    requires EdgeMembersAgree(front)
    ensures EdgeMembersAgree(front + [p])
  {
    var ps := front + [p];
    EdgeSnoc(front, p);
    assert ps[..|ps| - 1] == front;
    if EdgeOf(front).Ok? && EdgeStep(EdgeOf(front).value, p).Ok? {
      PagingStepMerges(front, p, EdgeOf(front).value);
      LastAssignedSnoc(front, p, "summary");
    }
  }

  /** `ToObject<Edge>()` fails exactly when a `data` is no array and does
      not read as null, when a `paging` fails, or when a `nextPageCursor`
      does not read as a string. Otherwise `data` is
      every array assigned since the last clearing, concatenated; `paging`
      is read from every object merged since the last clearing; and
      `summary` is the last token assigned to it, a JSON null included
      (which becomes a null `JValue` rather than a null reference). */
  lemma EdgeOfSpec(props: seq<Prop>)
    ensures EdgeOf(props).Err? <==> exists i :: 0 <= i < |props| && EdgePropFails(props[i])
    ensures EdgeOf(props).Ok? ==>
      && EdgeOf(props).value.data == AppendedArrays(props, "data")
      && (MergedObjects(props, "paging", Include).Some? ==> PagingOfObject(MergedObjects(props, "paging", Include).value, Include).Ok?)
      && EdgeOf(props).value.paging
         == (match MergedObjects(props, "paging", Include)
             case None => None
             case Some(q) => Some(PagingOfObject(q, Include).value))
      && EdgeOf(props).value.summary == LastAssigned(props, "summary")
  {
    PopulateEdgeSpec(props);
  }

  /** `JObject.FromObject(edge)`: the members in declaration order, each
      only when its `ShouldSerialize` test passes and its value is not null. */
  function EdgeToJson(e: Edge): (r: Json)
    ensures r.JObject? && |r.props| <= 3 && !Has(r.props, "paging")
  {
    var data := if e.ShouldSerializeData() then [Prop("data", JArray(e.data.value))] else [];
    var paging := if e.ShouldSerializePaging() && e.paging.Some? then [Prop("paging", JNull)] else [];
    var summary := if e.summary.Some? then [Prop("summary", e.summary.value)] else [];
    var cursor := if e.NextPageCursor().Some? then [Prop("nextPageCursor", JString(e.NextPageCursor().value))] else [];
    JObject(data + paging + summary + cursor)
  }

  /** `TransformExtensionData`: a nested edge is rewritten, anything else is
      returned as it is; the rewrite fails exactly when reading the edge does. */
  function TransformExtensionData(value: Json): (r: Result<Json>)
    ensures !IsNestedEdge(value) ==> r == Ok(value)
    ensures IsNestedEdge(value) ==> (r.Err? <==> EdgeOf(value.props).Err?)
    ensures r.Ok? && IsNestedEdge(value) ==> r.value.JObject?
  {
    if IsNestedEdge(value) then
      var e :- EdgeOf(value.props);
      Ok(EdgeToJson(e))
    else Ok(value)
  }

  /** A rewritten edge holds `data`, `summary` and `nextPageCursor` in that
      order, each only when it has a value, and never `paging`. */
  lemma RewriteShape(props: seq<Prop>)
    requires IsNestedEdge(JObject(props))
    requires TransformExtensionData(JObject(props)).Ok?
    ensures var out := TransformExtensionData(JObject(props)).value.props;
      var e := EdgeOf(props).value;
      Names(out) == (if e.ShouldSerializeData() then ["data"] else [])
                    + (if LastAssigned(props, "summary").Some? then ["summary"] else [])
                    + (if e.NextPageCursor().Some? then ["nextPageCursor"] else [])
  {
    RewriteIsEdge(JObject(props));
    EdgeOfSpec(props);
    EdgeShape(EdgeOf(props).value);
  }
  /** A nested edge that reads is rewritten to the edge written back. */
  lemma RewriteIsEdge(value: Json)
    requires IsNestedEdge(value) && TransformExtensionData(value).Ok?
    ensures EdgeOf(value.props).Ok?
    ensures TransformExtensionData(value).value == EdgeToJson(EdgeOf(value.props).value)
  {
  }

  /** A nested edge read as `e` is rewritten to `e` written back. */
  lemma RewriteOf(value: Json, e: Edge)
    requires IsNestedEdge(value) && EdgeOf(value.props) == Ok(e)
    ensures TransformExtensionData(value) == Ok(EdgeToJson(e))
  {
  }

  /** The members an edge is written with, in order. */
  lemma EdgeShape(e: Edge)
    ensures Names(EdgeToJson(e).props) == (if e.ShouldSerializeData() then ["data"] else [])
                                          + (if e.summary.Some? then ["summary"] else [])
                                          + (if e.NextPageCursor().Some? then ["nextPageCursor"] else [])
  {
    var out := EdgeToJson(e).props;
    var data := if e.ShouldSerializeData() then [Prop("data", JArray(e.data.value))] else [];
    var summary := if e.summary.Some? then [Prop("summary", e.summary.value)] else [];
    var cursor := if e.NextPageCursor().Some? then [Prop("nextPageCursor", JString(e.NextPageCursor().value))] else [];
    assert out == data + summary + cursor;
    NamesAppend(data, summary);
    NamesAppend(data + summary, cursor);
  }

  lemma NamesAppend(a: seq<Prop>, b: seq<Prop>)
    ensures Names(a + b) == Names(a) + Names(b)
  {
  }

  /** A rewritten edge never contains a `paging` key. */
  lemma NeverPaging(value: Json)
    requires IsNestedEdge(value) && TransformExtensionData(value).Ok?
    ensures !Has(TransformExtensionData(value).value.props, "paging")
  {
    RewriteShape(value.props);
    NotNamed(TransformExtensionData(value).value.props, "paging");
  }

  /** A name absent from `Names(props)` is not a key of the object. */
  lemma {:induction false} NotNamed(props: seq<Prop>, key: string)
    requires key !in Names(props)
    ensures !Has(props, key)
    decreases |props|
  {
    if |props| > 0 {
      assert Names(props[1..]) == Names(props)[1..];
      NotNamed(props[1..], key);
    }
  }

  /** A rewritten edge contains `data` exactly when the arrays assigned
      to the `data` member since it was last cleared hold at least one
      element in all, and then it is their concatenation. */
  lemma DataKeptIffNonEmpty(value: Json)
    requires IsNestedEdge(value) && TransformExtensionData(value).Ok?
    ensures var out := TransformExtensionData(value).value.props;
      var d := AppendedArrays(value.props, "data");
      && (Has(out, "data") <==> d.Some? && |d.value| > 0)
      && (d.Some? && |d.value| > 0 ==> Get(out, "data") == Some(JArray(d.value)))
  {
    RewriteIsEdge(value);
    EdgeOfSpec(value.props);
    EdgeData(EdgeOf(value.props).value);
  }

  /** An edge is written with `data` exactly when its list is non-empty. */
  lemma EdgeData(e: Edge)
    ensures Has(EdgeToJson(e).props, "data") <==> e.ShouldSerializeData()
    ensures e.ShouldSerializeData() ==> Get(EdgeToJson(e).props, "data") == Some(JArray(e.data.value))
  {
    var out := EdgeToJson(e).props;
    if e.ShouldSerializeData() {
      assert out[0] == Prop("data", JArray(e.data.value));
    } else {
      EdgeShape(e);
      NotNamed(out, "data");
    }
  }

  /** When `data`, `paging` and `summary` are each spelt in one way only,
      and exactly so, the rewrite keeps `data` exactly when the array
      `TryGetValue("data")` finds is non-empty. */
  lemma DataKeptExact(value: Json)
    requires IsNestedEdge(value) && TransformExtensionData(value).Ok?
    requires forall i, j :: 0 <= i < |value.props| && 0 <= j < |value.props|
                            && MatchesName(value.props[i].name, "data") && MatchesName(value.props[j].name, "data")
                            ==> i == j && value.props[i].name == "data"
    ensures var out := TransformExtensionData(value).value.props;
      var elems := Get(value.props, "data").value.elems;
      && (Has(out, "data") <==> |elems| > 0)
      && (|elems| > 0 ==> Get(out, "data") == Some(JArray(elems)))
  {
    LastAssignedExact(value.props, "data");
    AppendedSingle(value.props, "data");
    NestedEdgeSetsMembers(value);
    DataKeptIffNonEmpty(value);
  }

  /** With at most one property setting a list member, the member is that
      property's array, and null when it is not one. */
  lemma {:induction false} AppendedSingle(ps: seq<Prop>, m: string)
    requires forall i, j :: 0 <= i < |ps| && 0 <= j < |ps| && MatchesName(ps[i].name, m) && MatchesName(ps[j].name, m)
                            ==> i == j
    ensures AppendedArrays(ps, m) == match LastAssigned(ps, m) case Some(JArray(es)) => Some(es) case _ => None
    decreases |ps|
  {
    if |ps| > 0 {
      var front := ps[..|ps| - 1];
      assert forall i :: 0 <= i < |front| ==> front[i] == ps[i];
      AppendedSingle(front, m);
      if MatchesName(ps[|ps| - 1].name, m) {
        assert forall i :: 0 <= i < |front| ==> !MatchesName(front[i].name, m);
        assert LastAssigned(front, m).None?;
        if ps[|ps| - 1].value.JArray? {
          assert [] + ps[|ps| - 1].value.elems == ps[|ps| - 1].value.elems;
        }
      }
    }
  }

  /** The `nextPageCursor` of a rewritten edge: the `after` cursor when the
      paging's `next` URL is non-empty, absent otherwise. */
  lemma CursorRule(value: Json)
    requires IsNestedEdge(value) && TransformExtensionData(value).Ok?
    ensures var out := TransformExtensionData(value).value.props;
      var pg := EdgeOf(value.props).value.paging;
      Get(out, "nextPageCursor")
        == if pg.Some? && pg.value.next.Some? && pg.value.next.value != ""
              && pg.value.cursors.Some? && pg.value.cursors.value.after.Some?
           then Some(JString(pg.value.cursors.value.after.value))
           else None
  {
    RewriteIsEdge(value);
    EdgeCursor(EdgeOf(value.props).value);
  }
  /** An edge is written with a `nextPageCursor` exactly when it has one. */
  lemma EdgeCursor(e: Edge)
    ensures Get(EdgeToJson(e).props, "nextPageCursor")
      == if e.NextPageCursor().Some? then Some(JString(e.NextPageCursor().value)) else None
  {
    var out := EdgeToJson(e).props;
    EdgeShape(e);
    if e.NextPageCursor().None? {
      NotNamed(out, "nextPageCursor");
    } else {
      assert out[|out| - 1] == Prop("nextPageCursor", JString(e.NextPageCursor().value));
      assert Names(out[..|out| - 1]) == Names(out)[..|out| - 1];
      NotNamed(out[..|out| - 1], "nextPageCursor");
      GetLast(out, "nextPageCursor");
    }
  }

  /** Looking up the last property's name when no earlier property has it. */
  lemma {:induction false} GetLast(props: seq<Prop>, key: string)
    requires |props| > 0 && props[|props| - 1].name == key
    requires !Has(props[..|props| - 1], key)
    ensures Get(props, key) == Some(props[|props| - 1].value)
    decreases |props|
  {
    if |props| > 1 {
      assert props[0] == props[..|props| - 1][0];
      assert props[1..][..|props| - 2] == props[..|props| - 1][1..];
      GetLast(props[1..], key);
    }
  }

  /** The token that set `summary` last is carried into the rewritten
      edge unchanged. */
  lemma SummaryCarried(value: Json)
    requires IsNestedEdge(value) && TransformExtensionData(value).Ok?
    ensures Get(TransformExtensionData(value).value.props, "summary") == LastAssigned(value.props, "summary")
  {
    RewriteIsEdge(value);
    EdgeOfSpec(value.props);
    EdgeSummary(EdgeOf(value.props).value);
  }
  /** An edge is written with its summary, when it has one. */
  lemma EdgeSummary(e: Edge)
    ensures Get(EdgeToJson(e).props, "summary") == e.summary
  {
    var out := EdgeToJson(e).props;
    var data := if e.ShouldSerializeData() then [Prop("data", JArray(e.data.value))] else [];
    var rest := if e.NextPageCursor().Some? then [Prop("nextPageCursor", JString(e.NextPageCursor().value))] else [];
    if e.summary.Some? {
      assert out == data + [Prop("summary", e.summary.value)] + rest;
    } else {
      assert out == data + rest;
      EdgeShape(e);
      NotNamed(out, "summary");
    }
  }

  /** An object with a `data` array but neither `paging` nor `summary` is
      plain data and is left untouched. */
  lemma PlainDataUntouched(props: seq<Prop>)
    requires Get(props, "data").Some? && Get(props, "data").value.JArray?
    requires !Has(props, "paging") && !Has(props, "summary")
    ensures TransformExtensionData(JObject(props)) == Ok(JObject(props))
  {
  }

  /** An edge read of two properties, step by step. */
  lemma EdgeOfTwo(p0: Prop, p1: Prop)
    ensures EdgeOf([p0, p1]) == match EdgeStep(NoEdge, p0) case Err(e) => Err(e) case Ok(x) => EdgeStep(x, p1)
  {
    EdgeSnoc([], p0);
    assert [] + [p0] == [p0];
    EdgeSnoc([p0], p1);
    assert [p0] + [p1] == [p0, p1];
  }

  /** An edge read of three properties, step by step. */
  lemma EdgeOfThree(p0: Prop, p1: Prop, p2: Prop)
    ensures EdgeOf([p0, p1, p2])
      == match EdgeOf([p0, p1]) case Err(e) => Err(e) case Ok(x) => EdgeStep(x, p2)
  {
    EdgeSnoc([p0, p1], p2);
    assert [p0, p1] + [p2] == [p0, p1, p2];
  }

  /** A `next` URL alone does not give a cursor: with no `cursors` member
      the edge `{"data":[{"id":"1"}], "paging":{"next":"https://x?after=C1"}}`
      is rewritten to its one-element `data` and nothing else. */
  lemma NextUrlAloneGivesNoCursor()
    ensures var item := JObject([Prop("id", JString("1"))]);
      var edge := JObject([Prop("data", JArray([item])),
                           Prop("paging", JObject([Prop("next", JString("https://x?after=C1"))]))]);
      TransformExtensionData(edge) == Ok(JObject([Prop("data", JArray([item]))]))
  {
    var item := JObject([Prop("id", JString("1"))]);
    var props := [Prop("data", JArray([item])), Prop("paging", JObject([Prop("next", JString("https://x?after=C1"))]))];
    var e := Edge(Some([item]), Some(ApiPaging(None, None, Some("https://x?after=C1"))), None);
    NextUrlRead();
    NextUrlNested();
    RewriteOf(JObject(props), e);
    NextUrlWritten();
  }

  lemma NextUrlWritten()
    ensures EdgeToJson(Edge(Some([JObject([Prop("id", JString("1"))])]), Some(ApiPaging(None, None, Some("https://x?after=C1"))), None))
            == JObject([Prop("data", JArray([JObject([Prop("id", JString("1"))])]))])
  {
  }

  lemma NextUrlNested()
    ensures IsNestedEdge(JObject([Prop("data", JArray([JObject([Prop("id", JString("1"))])])),
                                  Prop("paging", JObject([Prop("next", JString("https://x?after=C1"))]))]))
  {
    var props := [Prop("data", JArray([JObject([Prop("id", JString("1"))])])),
                  Prop("paging", JObject([Prop("next", JString("https://x?after=C1"))]))];
    assert Get(props, "data") == Some(props[0].value) && Has(props[1..], "paging");
  }

  lemma NextUrlRead()
    ensures EdgeOf([Prop("data", JArray([JObject([Prop("id", JString("1"))])])),
                    Prop("paging", JObject([Prop("next", JString("https://x?after=C1"))]))])
            == Ok(Edge(Some([JObject([Prop("id", JString("1"))])]), Some(ApiPaging(None, None, Some("https://x?after=C1"))), None))
  {
    var item := JObject([Prop("id", JString("1"))]);
    PagingOfOne(NoPaging, Prop("next", JString("https://x?after=C1")), Include);
    EdgeOfTwo(Prop("data", JArray([item])), Prop("paging", JObject([Prop("next", JString("https://x?after=C1"))])));
    assert [] + [item] == [item];
  }

  /** An empty string where the paging belongs reads as no paging:
      `{"data":[], "paging":"", "summary":1}` becomes `{"summary":1}`. */
  lemma EmptyPagingIsNull()
    ensures TransformExtensionData(JObject([Prop("data", JArray([])), Prop("paging", JString("")), Prop("summary", JInt(1))]))
            == Ok(JObject([Prop("summary", JInt(1))]))
  {
    var props := [Prop("data", JArray([])), Prop("paging", JString("")), Prop("summary", JInt(1))];
    EmptyPagingRead();
    EmptyPagingNested();
    RewriteOf(JObject(props), Edge(Some([]), None, Some(JInt(1))));
    SummaryOnlyWritten();
  }

  /** An edge holding an empty list and a summary is written as the summary alone. */
  lemma SummaryOnlyWritten()
    ensures EdgeToJson(Edge(Some([]), None, Some(JInt(1)))) == JObject([Prop("summary", JInt(1))])
  {
  }

  lemma EmptyPagingNested()
    ensures IsNestedEdge(JObject([Prop("data", JArray([])), Prop("paging", JString("")), Prop("summary", JInt(1))]))
  {
    var props := [Prop("data", JArray([])), Prop("paging", JString("")), Prop("summary", JInt(1))];
    assert Get(props, "data") == Some(props[0].value) && Has(props[1..], "paging");
  }

  lemma EmptyPagingRead()
    ensures EdgeOf([Prop("data", JArray([])), Prop("paging", JString("")), Prop("summary", JInt(1))])
            == Ok(Edge(Some([]), None, Some(JInt(1))))
  {
    var none: seq<Json> := [];
    assert NoEdge.data.GetOr([]) + none == none;
    EdgeOfTwo(Prop("data", JArray([])), Prop("paging", JString("")));
    EdgeOfThree(Prop("data", JArray([])), Prop("paging", JString("")), Prop("summary", JInt(1)));
  }

  /** A later spelling of `data` is appended to the list the first one
      made: `{"data":[1], "summary":1, "Data":[2]}` is rewritten with the
      list `[1,2]`. */
  lemma LaterArrayAppends()
    ensures TransformExtensionData(JObject([Prop("data", JArray([JInt(1)])), Prop("summary", JInt(1)), Prop("Data", JArray([JInt(2)]))]))
            == Ok(JObject([Prop("data", JArray([JInt(1), JInt(2)])), Prop("summary", JInt(1))]))
  {
    var props := [Prop("data", JArray([JInt(1)])), Prop("summary", JInt(1)), Prop("Data", JArray([JInt(2)]))];
    LaterArrayRead([JInt(2)]);
    LaterArrayNested([JInt(2)]);
    assert [JInt(1)] + [JInt(2)] == [JInt(1), JInt(2)];
    RewriteOf(JObject(props), Edge(Some([JInt(1), JInt(2)]), None, Some(JInt(1))));
    DataSummaryWritten([JInt(1), JInt(2)]);
  }

  /** An empty later array appends nothing: `{"data":[1], "summary":1,
      "Data":[]}` is rewritten to `{"data":[1], "summary":1}`. */
  lemma LaterEmptyArrayKeepsData()
    ensures TransformExtensionData(JObject([Prop("data", JArray([JInt(1)])), Prop("summary", JInt(1)), Prop("Data", JArray([]))]))
            == Ok(JObject([Prop("data", JArray([JInt(1)])), Prop("summary", JInt(1))]))
  {
    var props := [Prop("data", JArray([JInt(1)])), Prop("summary", JInt(1)), Prop("Data", JArray([]))];
    LaterArrayRead([]);
    LaterArrayNested([]);
    assert [JInt(1)] + [] == [JInt(1)];
    RewriteOf(JObject(props), Edge(Some([JInt(1)]), None, Some(JInt(1))));
    DataSummaryWritten([JInt(1)]);
  }

  /** An edge holding a non-empty list and a summary is written as both. */
  lemma DataSummaryWritten(items: seq<Json>)
    requires |items| > 0
    ensures EdgeToJson(Edge(Some(items), None, Some(JInt(1)))) == JObject([Prop("data", JArray(items)), Prop("summary", JInt(1))])
  {
  }

  lemma LaterArrayNested(later: seq<Json>)
    ensures IsNestedEdge(JObject([Prop("data", JArray([JInt(1)])), Prop("summary", JInt(1)), Prop("Data", JArray(later))]))
  {
    var props := [Prop("data", JArray([JInt(1)])), Prop("summary", JInt(1)), Prop("Data", JArray(later))];
    assert Get(props, "data") == Some(JArray([JInt(1)]));
    assert Get(props[1..], "summary") == Some(JInt(1));
  }

  lemma LaterArrayRead(later: seq<Json>)
    ensures EdgeOf([Prop("data", JArray([JInt(1)])), Prop("summary", JInt(1)), Prop("Data", JArray(later))])
            == Ok(Edge(Some([JInt(1)] + later), None, Some(JInt(1))))
  {
    assert MatchesName("Data", "data");
    assert [] + [JInt(1)] == [JInt(1)];
    EdgeOfTwo(Prop("data", JArray([JInt(1)])), Prop("summary", JInt(1)));
    EdgeOfThree(Prop("data", JArray([JInt(1)])), Prop("summary", JInt(1)), Prop("Data", JArray(later)));
  }

  /** A later spelling of `paging` is merged into the paging the first one
      made: in `{"data":[], "paging":{"next":"u"},
      "Paging":{"cursors":{"after":"C"}}}` the `next` URL of the first and
      the cursor of the second together give `{"nextPageCursor":"C"}`. */
  lemma LaterPagingMerges()
    ensures TransformExtensionData(JObject([Prop("data", JArray([])),
                                            Prop("paging", JObject([Prop("next", JString("u"))])),
                                            Prop("Paging", JObject([Prop("cursors", JObject([Prop("after", JString("C"))]))]))]))
            == Ok(JObject([Prop("nextPageCursor", JString("C"))]))
  {
    var props := [Prop("data", JArray([])),
                  Prop("paging", JObject([Prop("next", JString("u"))])),
                  Prop("Paging", JObject([Prop("cursors", JObject([Prop("after", JString("C"))]))]))];
    var e := Edge(Some([]), Some(ApiPaging(Some(Cursors(Some("C"), None)), None, Some("u"))), None);
    LaterPagingRead();
    assert Get(props, "data") == Some(props[0].value) && Has(props[1..], "paging");
    RewriteOf(JObject(props), e);
    assert EdgeToJson(e) == JObject([Prop("nextPageCursor", JString("C"))]);
  }

  lemma LaterPagingRead()
    ensures EdgeOf([Prop("data", JArray([])),
                    Prop("paging", JObject([Prop("next", JString("u"))])),
                    Prop("Paging", JObject([Prop("cursors", JObject([Prop("after", JString("C"))]))]))])
            == Ok(Edge(Some([]), Some(ApiPaging(Some(Cursors(Some("C"), None)), None, Some("u"))), None))
  {
    var none: seq<Json> := [];
    assert NoEdge.data.GetOr([]) + none == none;
    var p1 := Prop("paging", JObject([Prop("next", JString("u"))]));
    var p2 := Prop("Paging", JObject([Prop("cursors", JObject([Prop("after", JString("C"))]))]));
    var e1 := Edge(Some(none), None, None);
    var e2 := Edge(Some(none), Some(ApiPaging(None, None, Some("u"))), None);
    assert EdgeStep(NoEdge, Prop("data", JArray([]))) == Ok(e1);
    PagingOfOne(NoPaging, Prop("next", JString("u")), Include);
    assert EdgeStep(e1, p1) == Ok(e2);
    LaterPagingStep();
    EdgeOfTwo(Prop("data", JArray([])), p1);
    EdgeOfThree(Prop("data", JArray([])), p1, p2);
  }

  /** The second paging object, read into the first. */
  lemma LaterPagingStep()
    ensures EdgeStep(Edge(Some([]), Some(ApiPaging(None, None, Some("u"))), None),
                     Prop("Paging", JObject([Prop("cursors", JObject([Prop("after", JString("C"))]))])))
            == Ok(Edge(Some([]), Some(ApiPaging(Some(Cursors(Some("C"), None)), None, Some("u"))), None))
  {
    assert MatchesName("Paging", "paging");
    CursorsOfOne(NoCursors, Prop("after", JString("C")), Include);
    PagingOfOne(ApiPaging(None, None, Some("u")), Prop("cursors", JObject([Prop("after", JString("C"))])), Include);
  }

  /** The read-only `nextPageCursor`: an object for it fails the read, so
      `{"data":[], "summary":1, "nextPageCursor":{}}` is not rewritten,
      while a string for it is read and then skipped. */
  lemma ReadOnlyCursor()
    ensures TransformExtensionData(JObject([Prop("data", JArray([])), Prop("summary", JInt(1)),
                                            Prop("nextPageCursor", JObject([]))])).Err?
    ensures EdgeOf([Prop("data", JArray([])), Prop("summary", JInt(1)), Prop("nextPageCursor", JString("X"))])
            == Ok(Edge(Some([]), None, Some(JInt(1))))
  {
    var bad := [Prop("data", JArray([])), Prop("summary", JInt(1)), Prop("nextPageCursor", JObject([]))];
    assert Get(bad, "data") == Some(JArray([])) && Has(bad, "summary");
    CursorObjectRead();
    CursorStringRead();
  }

  lemma CursorObjectRead()
    ensures EdgeOf([Prop("data", JArray([])), Prop("summary", JInt(1)), Prop("nextPageCursor", JObject([]))]).Err?
  {
    var none: seq<Json> := [];
    assert NoEdge.data.GetOr([]) + none == none;
    EdgeOfTwo(Prop("data", JArray([])), Prop("summary", JInt(1)));
    EdgeOfThree(Prop("data", JArray([])), Prop("summary", JInt(1)), Prop("nextPageCursor", JObject([])));
  }

  lemma CursorStringRead()
    ensures EdgeOf([Prop("data", JArray([])), Prop("summary", JInt(1)), Prop("nextPageCursor", JString("X"))])
            == Ok(Edge(Some([]), None, Some(JInt(1))))
  {
    var none: seq<Json> := [];
    assert NoEdge.data.GetOr([]) + none == none;
    EdgeOfTwo(Prop("data", JArray([])), Prop("summary", JInt(1)));
    EdgeOfThree(Prop("data", JArray([])), Prop("summary", JInt(1)), Prop("nextPageCursor", JString("X")));
  }

  /** Another spelling of `data` that does not convert fails the rewrite:
      `{"data":[1], "summary":1, "DATA":5}`. */
  lemma OtherSpellingFails()
    ensures TransformExtensionData(JObject([Prop("data", JArray([JInt(1)])), Prop("summary", JInt(1)), Prop("DATA", JInt(5))])).Err?
  {
    var bad := [Prop("data", JArray([JInt(1)])), Prop("summary", JInt(1)), Prop("DATA", JInt(5))];
    OtherSpellingRead();
    assert Get(bad, "data") == Some(JArray([JInt(1)])) && Has(bad, "summary");
  }

  lemma OtherSpellingRead()
    ensures EdgeOf([Prop("data", JArray([JInt(1)])), Prop("summary", JInt(1)), Prop("DATA", JInt(5))]).Err?
  {
    assert MatchesName("DATA", "data");
    EdgeOfTwo(Prop("data", JArray([JInt(1)])), Prop("summary", JInt(1)));
    EdgeOfThree(Prop("data", JArray([JInt(1)])), Prop("summary", JInt(1)), Prop("DATA", JInt(5)));
  }

  /** A contract as the resolver hands it out: whether its type is an
      `ApiNode`, whether it has an extension-data setter, and how many
      times that setter has been wrapped by the rewrite. The underlying
      resolver caches contracts, so every resolution sees the same object. */
  class ObjectContract {
    const isApiNode: bool
    const hasExtensionData: bool
    var wrappers: nat

    constructor (isApiNode: bool, hasExtensionData: bool)
      ensures this.isApiNode == isApiNode && this.hasExtensionData == hasExtensionData
      ensures wrappers == 0
    {
      this.isApiNode := isApiNode;
      this.hasExtensionData := hasExtensionData;
      wrappers := 0;
    }

    /** What the original setter receives for one extension property:
        nothing when there is no setter, otherwise the key unchanged and
        the value after each installed rewrite. */
    function Stored(key: string, value: Json): Option<Result<(string, Json)>>
      reads this
    {
      if !hasExtensionData then None
      else Some(match Rewritten(wrappers, value) case Ok(v) => Ok((key, v)) case Err(e) => Err(e))
    }
  }

  /** `n` nested setters, each rewriting what it is given. */
  function Rewritten(n: nat, value: Json): Result<Json> {
    if n == 0 then Ok(value)
    else
      var v :- Rewritten(n - 1, value);
      TransformExtensionData(v)
  }

  /** `ResolveContract` as written: an `ApiNode` contract with a setter gets
      one more wrapper on every call. */
  method ResolveContract(c: ObjectContract)
    modifies c
    ensures c.wrappers == old(c.wrappers) + if c.isApiNode && c.hasExtensionData then 1 else 0
  {
    if c.isApiNode && c.hasExtensionData {
      c.wrappers := c.wrappers + 1;
    }
  }

  /** An edge with one item, a next page and a summary. */
  function CursorEdge(): Json {
    JObject([Prop("data", JArray([JObject([Prop("id", JString("1"))])])),
             Prop("paging", JObject([Prop("cursors", JObject([Prop("after", JString("C1"))])),
                                     Prop("next", JString("https://x"))])),
             Prop("summary", JInt(1))])
  }

  /** Its rewrite: the item, the summary and the cursor. */
  function CursorEdgeOnce(): Json {
    JObject([Prop("data", JArray([JObject([Prop("id", JString("1"))])])), Prop("summary", JInt(1)),
             Prop("nextPageCursor", JString("C1"))])
  }

  /** The rewrite applied to its own output can lose the cursor: a rewritten
      edge with data and a summary is itself a nested edge, and reading it
      again finds no paging. */
  lemma RewriteNotIdempotent()
    ensures Rewritten(1, CursorEdge()) == Ok(CursorEdgeOnce())
    ensures Rewritten(2, CursorEdge())
      == Ok(JObject([Prop("data", JArray([JObject([Prop("id", JString("1"))])])), Prop("summary", JInt(1))]))
  {
    RewriteCursorEdge();
    RewriteCursorEdgeOnce();
    assert Rewritten(0, CursorEdge()) == Ok(CursorEdge());
  }

  lemma RewriteCursorEdge()
    ensures TransformExtensionData(CursorEdge()) == Ok(CursorEdgeOnce())
  {
    CursorEdgeRead();
    var props := CursorEdge().props;
    assert Get(props, "data") == Some(props[0].value);
    assert Has(props[1..], "paging");
    CursorEdgeWritten();
  }

  /** The example edge, as `ToObject<Edge>()` reads it. */
  lemma CursorEdgeRead()
    ensures EdgeOf(CursorEdge().props)
      == Ok(Edge(Some([JObject([Prop("id", JString("1"))])]),
                 Some(ApiPaging(Some(Cursors(Some("C1"), None)), None, Some("https://x"))),
                 Some(JInt(1))))
  {
    var props := CursorEdge().props;
    CursorPaging();
    EdgeOfTwo(props[0], props[1]);
    EdgeOfThree(props[0], props[1], props[2]);
    assert [props[0], props[1], props[2]] == props;
    assert [] + [JObject([Prop("id", JString("1"))])] == [JObject([Prop("id", JString("1"))])];
  }

  /** The example edge, written back. */
  lemma CursorEdgeWritten()
    ensures EdgeToJson(Edge(Some([JObject([Prop("id", JString("1"))])]),
                            Some(ApiPaging(Some(Cursors(Some("C1"), None)), None, Some("https://x"))),
                            Some(JInt(1))))
            == CursorEdgeOnce()
  {
  }

  /** The example's paging: an `after` cursor and a `next` URL. */
  lemma CursorPaging()
    ensures PopulatePaging(NoPaging, [Prop("cursors", JObject([Prop("after", JString("C1"))])), Prop("next", JString("https://x"))], Include)
      == Ok(ApiPaging(Some(Cursors(Some("C1"), None)), None, Some("https://x")))
  {
    CursorsOfOne(NoCursors, Prop("after", JString("C1")), Include);
    PagingOfTwo(Prop("cursors", JObject([Prop("after", JString("C1"))])), Prop("next", JString("https://x")), Include);
  }

  lemma RewriteCursorEdgeOnce()
    ensures TransformExtensionData(CursorEdgeOnce())
      == Ok(JObject([Prop("data", JArray([JObject([Prop("id", JString("1"))])])), Prop("summary", JInt(1))]))
  {
    var once := CursorEdgeOnce().props;
    OnceRead();
    assert Get(once, "data") == Some(once[0].value);
    assert Has(once[1..], "summary");
    RewriteOf(CursorEdgeOnce(), Edge(Some([JObject([Prop("id", JString("1"))])]), None, Some(JInt(1))));
    OnceWritten();
  }

  /** The rewritten example, read again as an `Edge`: its string
      `nextPageCursor` is skipped. */
  lemma OnceRead()
    ensures EdgeOf(CursorEdgeOnce().props) == Ok(Edge(Some([JObject([Prop("id", JString("1"))])]), None, Some(JInt(1))))
  {
    var once := CursorEdgeOnce().props;
    EdgeOfTwo(once[0], once[1]);
    EdgeOfThree(once[0], once[1], once[2]);
    assert [once[0], once[1], once[2]] == once;
    assert [] + [JObject([Prop("id", JString("1"))])] == [JObject([Prop("id", JString("1"))])];
  }

  /** The rewritten example without its paging, written back. */
  lemma OnceWritten()
    ensures EdgeToJson(Edge(Some([JObject([Prop("id", JString("1"))])]), None, Some(JInt(1))))
            == JObject([Prop("data", JArray([JObject([Prop("id", JString("1"))])])), Prop("summary", JInt(1))])
  {
  }

  /** A resolution that wraps the setter only once per contract. */
  method ResolveContractOnce(c: ObjectContract)
    modifies c
    ensures c.wrappers == if c.isApiNode && c.hasExtensionData then 1 else old(c.wrappers)
  {
    if c.isApiNode && c.hasExtensionData {
      c.wrappers := 1;
    }
  }

  /** With one wrapper, an extension property reaches the original setter
      under its own key, with its value rewritten once. */
  lemma OnceResolvedStoresRewrite(c: ObjectContract, key: string, value: Json)
    requires c.hasExtensionData && c.wrappers == 1
    ensures c.Stored(key, value)
      == Some(match TransformExtensionData(value) case Ok(v) => Ok((key, v)) case Err(e) => Err(e))
  {
    assert Rewritten(0, value) == Ok(value);
  }

  /** A contract that is not an `ApiNode`'s keeps its setter as it was. */
  lemma NonNodeUntouched(c: ObjectContract, key: string, value: Json)
    requires c.hasExtensionData && !c.isApiNode && c.wrappers == 0
    ensures c.Stored(key, value) == Some(Ok((key, value)))
  {
  }
}
