/** `ApiPaging` and `ApiCursors`, and how Newtonsoft's `ToObject<T>` fills
    a class from a JSON object. A property sets the member whose JSON name
    it equals exactly, and otherwise the one it equals ignoring case; the
    member names of these classes differ even ignoring case, so a property
    sets a member exactly when its name equals the member's ignoring case.
    Properties are read in order into the object being filled, and the read
    fails as soon as one of them does not convert. A string member is read
    by `ReadAsString`, and a scalar it accepts replaces the member; an
    object arriving for a class member that already holds an object is
    read into that object, so its members are merged rather than replaced.
    A JSON null, and for a class member an empty string or an undefined
    too, sets the member to null when nulls are included and leaves it as
    it was when they are ignored. Properties that set no member are
    skipped. */
module Paging {
  import opened Wrappers
  import opened Json
  import opened Errors

  datatype Cursors = Cursors(after: Option<string>, before: Option<string>)

  datatype ApiPaging = ApiPaging(cursors: Option<Cursors>, previous: Option<string>, next: Option<string>)

  /** The serializer's `NullValueHandling`. */
  datatype Nulls = Include | Ignore

  const NoCursors := Cursors(None, None)

  const NoPaging := ApiPaging(None, None, None)

  /** Property `i` of `ps` sets the member `m`, and no later one does. */
  predicate SetsLast(ps: seq<Prop>, i: int, m: string) {
    && 0 <= i < |ps| && MatchesName(ps[i].name, m)
    && forall j :: i < j < |ps| ==> !MatchesName(ps[j].name, m)
  }

  /** The value of the last property of `ps` that sets the member `m`. */
  function LastAssigned(ps: seq<Prop>, m: string): (r: Option<Json>)
    ensures r.None? <==> forall i :: 0 <= i < |ps| ==> !MatchesName(ps[i].name, m)
    ensures r.Some? ==> exists i :: SetsLast(ps, i, m) && ps[i].value == r.value
    decreases |ps|
  {
    if |ps| == 0 then None
    else if MatchesName(ps[|ps| - 1].name, m) then Some(ps[|ps| - 1].value)
    else
      var r := LastAssigned(ps[..|ps| - 1], m);
      SetsLastExtend(ps, ps[..|ps| - 1], m, r);
      r
  }

  /** A property that does not set `m` leaves the last one that does as it was. */
  lemma SetsLastExtend(ps: seq<Prop>, front: seq<Prop>, m: string, r: Option<Json>)
    requires |ps| > 0 && front == ps[..|ps| - 1] && !MatchesName(ps[|ps| - 1].name, m)
    requires r.None? <==> forall i :: 0 <= i < |front| ==> !MatchesName(front[i].name, m)
    requires r.Some? ==> exists i :: SetsLast(front, i, m) && front[i].value == r.value
    ensures r.None? <==> forall i :: 0 <= i < |ps| ==> !MatchesName(ps[i].name, m)
    ensures r.Some? ==> exists i :: SetsLast(ps, i, m) && ps[i].value == r.value
  {
    assert forall i :: 0 <= i < |front| ==> front[i] == ps[i];
    if r.Some? {
      var i :| SetsLast(front, i, m) && front[i].value == r.value;
      assert SetsLast(ps, i, m);
    }
  }

  /** One more property: it is the last to set `m` when it sets `m` at all. */
  lemma LastAssignedSnoc(front: seq<Prop>, p: Prop, m: string)
    ensures LastAssigned(front + [p], m) == if MatchesName(p.name, m) then Some(p.value) else LastAssigned(front, m)
  {
    assert (front + [p])[..|front|] == front;
  }

  /** The properties a `string?` or `JToken?` member sees: under `Ignore`
      the serializer skips a property whose token is a JSON null. */
  function Kept(ps: seq<Prop>, nulls: Nulls): (r: seq<Prop>)
    ensures |r| <= |ps|
    decreases |ps|
  {
    if |ps| == 0 then []
    else Kept(ps[..|ps| - 1], nulls) + if nulls.Ignore? && ps[|ps| - 1].value.JNull? then [] else [ps[|ps| - 1]]
  }

  /** A token `JsonReader.ReadAsString` accepts, which is how a `string?`
      member is read: any scalar except an undefined, a raw value, a
      constructor or a comment. */
  predicate ReadsAsString(j: Json) {
    j.IsScalar() && !(j.JOther? && (j.kind.Undefined? || j.kind.Raw? || j.kind.Constructor? || j.kind.Comment?))
  }

  /** The text a scalar gives a `string?` member: null for a JSON null,
      otherwise the scalar's text (an empty string included). */
  function TextOf(j: Json): Option<string>
    requires j.IsScalar()
  {
    if j.JNull? then None else Some(ScalarText(j))
  }

  /** The `string?` member `m` after all of `ps`, when none fails to
      convert: null when no property it sees sets it, otherwise the text of
      the last one. This is the reference the stepwise read is proved
      against. */
  function StringMember(ps: seq<Prop>, m: string, nulls: Nulls): Option<string> {
    match LastAssigned(Kept(ps, nulls), m)
    case None => None
    case Some(v) => if ReadsAsString(v) then TextOf(v) else None
  }

  /** The properties that are read into the class member `m`: those of the
      objects that set it since the last null (or empty string) that cleared
      it, in order; `None` when it is null at the end. Under `Ignore` a null
      clears nothing. This is the reference the stepwise merge is proved
      against. */
  function MergedObjects(ps: seq<Prop>, m: string, nulls: Nulls): Option<seq<Prop>>
    decreases |ps|
  {
    if |ps| == 0 then None
    else
      var prior := MergedObjects(ps[..|ps| - 1], m, nulls);
      var p := ps[|ps| - 1];
      if !MatchesName(p.name, m) then prior
      else match p.value
        case JObject(q) => Some(prior.GetOr([]) + q)
        case _ => if nulls.Include? then None else prior
  }

  /** One token for a `string?` member holding `cur`: a null clears it
      (or, ignored, leaves it), any other token `ReadAsString` accepts sets
      its text, and the rest fail. */
  function StringStep(cur: Option<string>, j: Json, nulls: Nulls): Result<Option<string>> {
    if !ReadsAsString(j) then Err(Serialization)
    else if j.JNull? then Ok(if nulls.Ignore? then cur else None)
    else Ok(Some(ScalarText(j)))
  }

  /** One token that reads as null for a class member: a null, an
      undefined, or an empty string. */
  predicate ClearsClass(j: Json) {
    j.JNull? || j == JString("") || (j.JOther? && j.kind == Undefined)
  }

  /** One property read into an `ApiCursors`. */
  function CursorsStep(c: Cursors, p: Prop, nulls: Nulls): Result<Cursors> {
    if MatchesName(p.name, "after") then
      var a :- StringStep(c.after, p.value, nulls);
      Ok(c.(after := a))
    else if MatchesName(p.name, "before") then
      var b :- StringStep(c.before, p.value, nulls);
      Ok(c.(before := b))
    else Ok(c)
  }

  /** `JsonSerializer.Populate` of an `ApiCursors` holding `c`: the
      properties one by one, in order. */
  function PopulateCursors(c: Cursors, ps: seq<Prop>, nulls: Nulls): Result<Cursors>
    decreases |ps|
  {
    if |ps| == 0 then Ok(c)
    else
      var prior :- PopulateCursors(c, ps[..|ps| - 1], nulls);
      CursorsStep(prior, ps[|ps| - 1], nulls)
  }

  /** `ToObject<ApiCursors>()` of an object. */
  function CursorsOfObject(ps: seq<Prop>, nulls: Nulls): Result<Cursors> {
    PopulateCursors(NoCursors, ps, nulls)
  }

  /** A property that fails an `ApiCursors` read: a token for `after` or
      `before` that does not read as a string. */
  predicate CursorsPropFails(p: Prop) {
    (MatchesName(p.name, "after") || MatchesName(p.name, "before")) && !ReadsAsString(p.value)
  }

  /** A token that fails as an `ApiCursors?` member: an object whose read
      fails, or anything but an object, a null or an empty string. */
  predicate CursorsTokenFails(j: Json) {
    if j.JObject? then exists i :: 0 <= i < |j.props| && CursorsPropFails(j.props[i])
    else !ClearsClass(j)
  }

  /** One property read into an `ApiPaging`. An object for `cursors` is
      read into the cursors already there, or into new ones. */
  function PagingStep(pg: ApiPaging, p: Prop, nulls: Nulls): Result<ApiPaging> {
    if MatchesName(p.name, "cursors") then
      match p.value
      case JObject(q) =>
        var c :- PopulateCursors(pg.cursors.GetOr(NoCursors), q, nulls);
        Ok(pg.(cursors := Some(c)))
      case _ =>
        if ClearsClass(p.value) then Ok(if nulls.Ignore? then pg else pg.(cursors := None))
        else Err(Serialization)
    else if MatchesName(p.name, "previous") then
      var s :- StringStep(pg.previous, p.value, nulls);
      Ok(pg.(previous := s))
    else if MatchesName(p.name, "next") then
      var s :- StringStep(pg.next, p.value, nulls);
      Ok(pg.(next := s))
    else Ok(pg)
  }

  /** `JsonSerializer.Populate` of an `ApiPaging` holding `pg`. */
  function PopulatePaging(pg: ApiPaging, ps: seq<Prop>, nulls: Nulls): Result<ApiPaging>
    decreases |ps|
  {
    if |ps| == 0 then Ok(pg)
    else
      var prior :- PopulatePaging(pg, ps[..|ps| - 1], nulls);
      PagingStep(prior, ps[|ps| - 1], nulls)
  }

  /** `ToObject<ApiPaging>()` of an object. */
  function PagingOfObject(ps: seq<Prop>, nulls: Nulls): Result<ApiPaging> {
    PopulatePaging(NoPaging, ps, nulls)
  }

  /** A property that fails an `ApiPaging` read. */
  predicate PagingPropFails(p: Prop) {
    || (MatchesName(p.name, "cursors") && CursorsTokenFails(p.value))
    || ((MatchesName(p.name, "previous") || MatchesName(p.name, "next")) && !ReadsAsString(p.value))
  }

  /** A token that fails as an `ApiPaging?` member. */
  predicate PagingTokenFails(j: Json) {
    if j.JObject? then exists i :: 0 <= i < |j.props| && PagingPropFails(j.props[i])
    else !ClearsClass(j)
  }

  /** The last property of a read, split off. */
  lemma SplitLast(ps: seq<Prop>)
    requires |ps| > 0
    ensures ps == ps[..|ps| - 1] + [ps[|ps| - 1]]
  {
  }

  /** What one more property does to `StringMember`. */
  lemma StringMemberSnoc(front: seq<Prop>, p: Prop, m: string, nulls: Nulls)
    requires ReadsAsString(p.value)
    ensures StringMember(front + [p], m, nulls)
      == if !MatchesName(p.name, m) || (nulls.Ignore? && p.value.JNull?) then StringMember(front, m, nulls)
         else TextOf(p.value)
  {
    var ps := front + [p];
    assert ps[..|ps| - 1] == front;
    var k := Kept(front, nulls);
    if nulls.Ignore? && p.value.JNull? {
      assert Kept(ps, nulls) == k;
    } else {
      assert Kept(ps, nulls) == k + [p];
      LastAssignedSnoc(k, p, m);
    }
  }

  /** A cursors read of `ps` into `c` fails exactly when one of its
      properties fails. */
  predicate CursorsFailsAgree(c: Cursors, ps: seq<Prop>, nulls: Nulls) {
    PopulateCursors(c, ps, nulls).Err? <==> exists i :: 0 <= i < |ps| && CursorsPropFails(ps[i])
  }

  /** A cursors read of `ps` from `NoCursors`, when it succeeds, has the
      members `StringMember` gives. */
  predicate CursorsMembersAgree(ps: seq<Prop>, nulls: Nulls) {
    var r := PopulateCursors(NoCursors, ps, nulls);
    r.Ok? ==> r.value.after == StringMember(ps, "after", nulls) && r.value.before == StringMember(ps, "before", nulls)
  }

  /** Whatever it starts from, a cursors read fails exactly when one of its
      properties fails. */
  lemma {:induction false} PopulateCursorsFails(c: Cursors, ps: seq<Prop>, nulls: Nulls)
    ensures CursorsFailsAgree(c, ps, nulls)
    decreases |ps|
  {
    if |ps| > 0 {
      var front, p := ps[..|ps| - 1], ps[|ps| - 1];
      PopulateCursorsFails(c, front, nulls);
      assert forall i :: 0 <= i < |front| ==> front[i] == ps[i];
    }
  }

  lemma {:induction false} PopulateCursorsMembers(ps: seq<Prop>, nulls: Nulls)
    ensures CursorsMembersAgree(ps, nulls)
    decreases |ps|
  {
    if |ps| > 0 {
      var front, p := ps[..|ps| - 1], ps[|ps| - 1];
      PopulateCursorsMembers(front, nulls);
      SplitLast(ps);
      CursorsMembersSnoc(front, p, nulls);
    }
  }

  /** One more property keeps the members in agreement. */
  lemma CursorsMembersSnoc(front: seq<Prop>, p: Prop, nulls: Nulls)
    requires CursorsMembersAgree(front, nulls)
    ensures CursorsMembersAgree(front + [p], nulls)
  {
    var ps := front + [p];
    assert ps[..|ps| - 1] == front;
    if PopulateCursors(NoCursors, ps, nulls).Ok? {
      if MatchesName(p.name, "after") {
        StringMemberSnoc(front, p, "after", nulls);
        StringMemberKept(front, p, "before", nulls);
      } else if MatchesName(p.name, "before") {
        StringMemberKept(front, p, "after", nulls);
        StringMemberSnoc(front, p, "before", nulls);
      } else {
        StringMemberKept(front, p, "after", nulls);
        StringMemberKept(front, p, "before", nulls);
      }
    }
  }

  /** `ToObject<ApiCursors>()` fails exactly when an `after` or `before`
      does not read as a string; otherwise each is the text of the last value
      the serializer sees for it, or null. */
  lemma CursorsOfObjectSpec(ps: seq<Prop>, nulls: Nulls)
    ensures CursorsOfObject(ps, nulls).Err? <==> exists i :: 0 <= i < |ps| && CursorsPropFails(ps[i])
    ensures CursorsOfObject(ps, nulls).Ok? ==>
      && CursorsOfObject(ps, nulls).value.after == StringMember(ps, "after", nulls)
      && CursorsOfObject(ps, nulls).value.before == StringMember(ps, "before", nulls)
  {
    PopulateCursorsFails(NoCursors, ps, nulls);
    PopulateCursorsMembers(ps, nulls);
  }

  /** Reading `a` and then `b` into the same cursors is reading `a + b`. */
  lemma {:induction false} PopulateCursorsAppend(c: Cursors, a: seq<Prop>, b: seq<Prop>, nulls: Nulls)
    ensures PopulateCursors(c, a + b, nulls)
      == match PopulateCursors(c, a, nulls) case Err(e) => Err(e) case Ok(x) => PopulateCursors(x, b, nulls)
    decreases |b|
  {
    if |b| == 0 {
      assert a + b == a;
    } else {
      assert (a + b)[..|a + b| - 1] == a + b[..|b| - 1];
      assert (a + b)[|a + b| - 1] == b[|b| - 1];
      PopulateCursorsAppend(c, a, b[..|b| - 1], nulls);
    }
  }

  /** The `cursors` member after the properties of `ps`: the cursors read
      from every object merged into it since it was last cleared. */
  function CursorsMember(ps: seq<Prop>, nulls: Nulls): Option<Cursors> {
    match MergedObjects(ps, "cursors", nulls)
    case None => None
    case Some(q) => match CursorsOfObject(q, nulls) case Ok(c) => Some(c) case Err(_) => None
  }

  /** One more property read into a paging whose cursors are `CursorsMember`. */
  lemma CursorsStepMerges(front: seq<Prop>, p: Prop, nulls: Nulls, pg: ApiPaging)
    requires pg.cursors == CursorsMember(front, nulls)
    requires MergedObjects(front, "cursors", nulls).Some? ==> CursorsOfObject(MergedObjects(front, "cursors", nulls).value, nulls).Ok?
    requires PagingStep(pg, p, nulls).Ok?
    ensures PagingStep(pg, p, nulls).value.cursors == CursorsMember(front + [p], nulls)
    ensures MergedObjects(front + [p], "cursors", nulls).Some? ==> CursorsOfObject(MergedObjects(front + [p], "cursors", nulls).value, nulls).Ok?
  {
    var ps := front + [p];
    assert ps[..|ps| - 1] == front;
    if MatchesName(p.name, "cursors") && p.value.JObject? {
      var prior := MergedObjects(front, "cursors", nulls);
      PopulateCursorsAppend(NoCursors, prior.GetOr([]), p.value.props, nulls);
      assert prior.GetOr([]) + p.value.props == MergedObjects(ps, "cursors", nulls).value;
      if prior.None? {
        assert [] + p.value.props == p.value.props;
      }
    }
  }

  /** A paging read of `ps` into `pg` fails exactly when one of its
      properties fails. */
  predicate PagingFailsAgree(pg: ApiPaging, ps: seq<Prop>, nulls: Nulls) {
    PopulatePaging(pg, ps, nulls).Err? <==> exists i :: 0 <= i < |ps| && PagingPropFails(ps[i])
  }

  /** A paging read of `ps` from `NoPaging`, when it succeeds, has the
      members `StringMember` and `CursorsMember` give. */
  predicate PagingMembersAgree(ps: seq<Prop>, nulls: Nulls) {
    var r := PopulatePaging(NoPaging, ps, nulls);
    r.Ok? ==>
      && r.value.cursors == CursorsMember(ps, nulls)
      && (MergedObjects(ps, "cursors", nulls).Some? ==> CursorsOfObject(MergedObjects(ps, "cursors", nulls).value, nulls).Ok?)
      && r.value.previous == StringMember(ps, "previous", nulls)
      && r.value.next == StringMember(ps, "next", nulls)
  }

  /** Whatever it starts from, a paging read fails exactly when one of
      its properties fails. */
  lemma {:induction false} PopulatePagingFails(pg: ApiPaging, ps: seq<Prop>, nulls: Nulls)
    ensures PagingFailsAgree(pg, ps, nulls)
    decreases |ps|
  {
    if |ps| > 0 {
      PopulatePagingFails(pg, ps[..|ps| - 1], nulls);
      SplitLast(ps);
      PagingFailsSnoc(pg, ps[..|ps| - 1], ps[|ps| - 1], nulls);
    }
  }

  lemma {:induction false} PopulatePagingSpec(ps: seq<Prop>, nulls: Nulls)
    ensures PagingFailsAgree(NoPaging, ps, nulls) && PagingMembersAgree(ps, nulls)
    decreases |ps|
  {
    PopulatePagingFails(NoPaging, ps, nulls);
    if |ps| > 0 {
      PopulatePagingSpec(ps[..|ps| - 1], nulls);
      SplitLast(ps);
      PagingMembersSnoc(ps[..|ps| - 1], ps[|ps| - 1], nulls);
    }
  }

  /** One more property keeps the failure condition. */
  lemma PagingFailsSnoc(pg: ApiPaging, front: seq<Prop>, p: Prop, nulls: Nulls)
    requires PagingFailsAgree(pg, front, nulls)
    ensures PagingFailsAgree(pg, front + [p], nulls)
  {
    var ps := front + [p];
    assert ps[..|ps| - 1] == front;
    assert forall i :: 0 <= i < |front| ==> front[i] == ps[i];
    var prior := PopulatePaging(pg, front, nulls);
    if prior.Ok? {
      PagingStepFails(prior.value, p, nulls);
    }
  }

  /** One more property keeps the members in agreement. */
  lemma PagingMembersSnoc(front: seq<Prop>, p: Prop, nulls: Nulls)
    requires PagingMembersAgree(front, nulls)
    ensures PagingMembersAgree(front + [p], nulls)
  {
    var ps := front + [p];
    assert ps[..|ps| - 1] == front;
    var prior := PopulatePaging(NoPaging, front, nulls);
    if prior.Ok? && PagingStep(prior.value, p, nulls).Ok? {
      CursorsStepMerges(front, p, nulls, prior.value);
      PagingStringsStep(front, p, nulls, prior.value);
    }
  }

  /** One more property read into a paging whose URLs are `StringMember`. */
  lemma PagingStringsStep(front: seq<Prop>, p: Prop, nulls: Nulls, pg: ApiPaging)
    requires pg.previous == StringMember(front, "previous", nulls) && pg.next == StringMember(front, "next", nulls)
    requires PagingStep(pg, p, nulls).Ok?
    ensures PagingStep(pg, p, nulls).value.previous == StringMember(front + [p], "previous", nulls)
    ensures PagingStep(pg, p, nulls).value.next == StringMember(front + [p], "next", nulls)
  {
    var r := PagingStep(pg, p, nulls).value;
    if MatchesName(p.name, "cursors") {
      assert !MatchesName(p.name, "previous") && !MatchesName(p.name, "next");
      assert r.previous == pg.previous && r.next == pg.next;
      PagingStringsKept(front, p, nulls);
    } else if MatchesName(p.name, "previous") {
      var t := StringStep(pg.previous, p.value, nulls);
      assert t.Ok? && r == pg.(previous := t.value);
      StringMemberSnoc(front, p, "previous", nulls);
      StringMemberKept(front, p, "next", nulls);
    } else if MatchesName(p.name, "next") {
      var t := StringStep(pg.next, p.value, nulls);
      assert t.Ok? && r == pg.(next := t.value);
      StringMemberKept(front, p, "previous", nulls);
      StringMemberSnoc(front, p, "next", nulls);
    } else {
      assert r == pg;
      PagingStringsKept(front, p, nulls);
    }
  }

  /** A property that does not set `m` leaves it as it was. */
  lemma StringMemberKept(front: seq<Prop>, p: Prop, m: string, nulls: Nulls)
    requires !MatchesName(p.name, m)
    ensures StringMember(front + [p], m, nulls) == StringMember(front, m, nulls)
  {
    var ps := front + [p];
    assert ps[..|ps| - 1] == front;
    var k := Kept(front, nulls);
    if nulls.Ignore? && p.value.JNull? {
      assert Kept(ps, nulls) == k;
    } else {
      assert Kept(ps, nulls) == k + [p];
      LastAssignedSnoc(k, p, m);
    }
  }

  /** A property that sets neither URL leaves both as they were. */
  lemma PagingStringsKept(front: seq<Prop>, p: Prop, nulls: Nulls)
    requires !MatchesName(p.name, "previous") && !MatchesName(p.name, "next")
    ensures StringMember(front + [p], "previous", nulls) == StringMember(front, "previous", nulls)
    ensures StringMember(front + [p], "next", nulls) == StringMember(front, "next", nulls)
  {
    StringMemberKept(front, p, "previous", nulls);
    StringMemberKept(front, p, "next", nulls);
  }

  /** One paging property fails whatever the paging holds, exactly when it
      is a failing property. */
  lemma PagingStepFails(pg: ApiPaging, p: Prop, nulls: Nulls)
    ensures PagingStep(pg, p, nulls).Err? <==> PagingPropFails(p)
  {
    if MatchesName(p.name, "cursors") && p.value.JObject? {
      PopulateCursorsFails(pg.cursors.GetOr(NoCursors), p.value.props, nulls);
    }
  }

  /** `ToObject<ApiPaging>()` fails exactly when some property fails;
      otherwise `previous` and `next` are the text of the last value the
      serializer sees for them, and `cursors` is read from the objects
      merged into it since it was last cleared. */
  lemma PagingOfObjectSpec(ps: seq<Prop>, nulls: Nulls)
    ensures PagingOfObject(ps, nulls).Err? <==> exists i :: 0 <= i < |ps| && PagingPropFails(ps[i])
    ensures PagingOfObject(ps, nulls).Ok? ==>
      && PagingOfObject(ps, nulls).value.previous == StringMember(ps, "previous", nulls)
      && PagingOfObject(ps, nulls).value.next == StringMember(ps, "next", nulls)
      && (MergedObjects(ps, "cursors", nulls).Some? ==> CursorsOfObject(MergedObjects(ps, "cursors", nulls).value, nulls).Ok?)
      && PagingOfObject(ps, nulls).value.cursors
         == match MergedObjects(ps, "cursors", nulls)
            case None => None
            case Some(q) => Some(CursorsOfObject(q, nulls).value)
  {
    PopulatePagingSpec(ps, nulls);
  }

  /** Reading `a` and then `b` into the same paging is reading `a + b`. */
  lemma {:induction false} PopulatePagingAppend(pg: ApiPaging, a: seq<Prop>, b: seq<Prop>, nulls: Nulls)
    ensures PopulatePaging(pg, a + b, nulls)
      == match PopulatePaging(pg, a, nulls) case Err(e) => Err(e) case Ok(x) => PopulatePaging(x, b, nulls)
    decreases |b|
  {
    if |b| == 0 {
      assert a + b == a;
    } else {
      assert (a + b)[..|a + b| - 1] == a + b[..|b| - 1];
      assert (a + b)[|a + b| - 1] == b[|b| - 1];
      PopulatePagingAppend(pg, a, b[..|b| - 1], nulls);
    }
  }

  /** Under `Ignore` a JSON null never changes a paging: reading it is a
      no-op, whatever member it names. */
  lemma IgnoredNullUnchanged(pg: ApiPaging, name: string)
    ensures PagingStep(pg, Prop(name, JNull), Ignore) == Ok(pg)
  {
  }

  /** A name equals itself ignoring case. */
  lemma MatchesItself(m: string)
    ensures MatchesName(m, m)
  {
  }

  /** A property spelt exactly `m` sets `m`, so some property does. */
  lemma GetAssigned(ps: seq<Prop>, m: string)
    requires Get(ps, m).Some?
    ensures LastAssigned(ps, m).Some?
  {
    MatchesItself(m);
    var k :| 0 <= k < |ps| && ps[k] == Prop(m, Get(ps, m).value);
    assert MatchesName(ps[k].name, m);
  }

  /** When at most one property of `ps` sets `m` and it is spelt exactly
      `m`, that property is the one `JObject.TryGetValue(m)` finds. */
  lemma LastAssignedExact(ps: seq<Prop>, m: string)
    requires forall i, j :: 0 <= i < |ps| && 0 <= j < |ps| && MatchesName(ps[i].name, m) && MatchesName(ps[j].name, m)
                            ==> i == j && ps[i].name == m
    ensures LastAssigned(ps, m) == Get(ps, m)
  {
    MatchesItself(m);
    var g := Get(ps, m);
    if g.Some? {
      var k :| 0 <= k < |ps| && ps[k] == Prop(m, g.value);
      assert MatchesName(ps[k].name, m);
    }
  }

  /** A paging read with one more property. */
  lemma PagingSnoc(pg: ApiPaging, front: seq<Prop>, p: Prop, nulls: Nulls)
    ensures PopulatePaging(pg, front + [p], nulls)
      == match PopulatePaging(pg, front, nulls) case Err(e) => Err(e) case Ok(x) => PagingStep(x, p, nulls)
  {
    assert (front + [p])[..|front|] == front;
  }

  /** A cursors read with one more property. */
  lemma CursorsSnoc(c: Cursors, front: seq<Prop>, p: Prop, nulls: Nulls)
    ensures PopulateCursors(c, front + [p], nulls)
      == match PopulateCursors(c, front, nulls) case Err(e) => Err(e) case Ok(x) => CursorsStep(x, p, nulls)
  {
    assert (front + [p])[..|front|] == front;
  }

  /** A paging read of two properties, step by step. */
  lemma PagingOfTwo(p0: Prop, p1: Prop, nulls: Nulls)
    ensures PagingOfObject([p0, p1], nulls)
      == match PagingStep(NoPaging, p0, nulls) case Err(e) => Err(e) case Ok(x) => PagingStep(x, p1, nulls)
  {
    PagingSnoc(NoPaging, [], p0, nulls);
    assert [] + [p0] == [p0];
    PagingSnoc(NoPaging, [p0], p1, nulls);
    assert [p0] + [p1] == [p0, p1];
  }

  /** A paging read of one property. */
  lemma PagingOfOne(pg: ApiPaging, p: Prop, nulls: Nulls)
    ensures PopulatePaging(pg, [p], nulls) == PagingStep(pg, p, nulls)
  {
    PagingSnoc(pg, [], p, nulls);
    assert [] + [p] == [p];
  }

  /** A cursors read of one property. */
  lemma CursorsOfOne(c: Cursors, p: Prop, nulls: Nulls)
    ensures PopulateCursors(c, [p], nulls) == CursorsStep(c, p, nulls)
  {
    CursorsSnoc(c, [], p, nulls);
    assert [] + [p] == [p];
  }

  /** A property whose name differs from `next` in case still sets it, and
      of two that do, the later wins, whichever way nulls are handled. */
  lemma NextIgnoresCase(nulls: Nulls)
    ensures PagingOfObject([Prop("NEXT", JString("u"))], nulls) == Ok(ApiPaging(None, None, Some("u")))
    ensures PagingOfObject([Prop("next", JString("a")), Prop("Next", JString("b"))], nulls) == Ok(ApiPaging(None, None, Some("b")))
  {
    UpperNextIsNext(nulls);
    LaterNextWins(nulls);
  }

  lemma UpperNextIsNext(nulls: Nulls)
    ensures PagingOfObject([Prop("NEXT", JString("u"))], nulls) == Ok(ApiPaging(None, None, Some("u")))
  {
    PagingOfOne(NoPaging, Prop("NEXT", JString("u")), nulls);
    assert MatchesName("NEXT", "next");
  }

  lemma LaterNextWins(nulls: Nulls)
    ensures PagingOfObject([Prop("next", JString("a")), Prop("Next", JString("b"))], nulls) == Ok(ApiPaging(None, None, Some("b")))
  {
    PagingOfTwo(Prop("next", JString("a")), Prop("Next", JString("b")), nulls);
    assert MatchesName("Next", "next");
  }

  /** An empty string where the cursors belong reads as null, while an
      empty `next` URL stays an empty string. */
  lemma EmptyStringCoercion(nulls: Nulls)
    ensures PagingOfObject([Prop("cursors", JString("")), Prop("next", JString(""))], nulls) == Ok(ApiPaging(None, None, Some("")))
  {
    PagingOfTwo(Prop("cursors", JString("")), Prop("next", JString("")), nulls);
  }

  /** `ReadAsString` rejects an undefined, so `{"next":undefined}` fails,
      while an undefined where the cursors belong reads as null. */
  lemma UndefinedToken(nulls: Nulls)
    ensures PagingOfObject([Prop("next", JOther(Undefined, "undefined"))], nulls).Err?
    ensures PagingOfObject([Prop("cursors", JOther(Undefined, "undefined"))], nulls) == Ok(NoPaging)
  {
    PagingOfOne(NoPaging, Prop("next", JOther(Undefined, "undefined")), nulls);
    PagingOfOne(NoPaging, Prop("cursors", JOther(Undefined, "undefined")), nulls);
  }

  /** A later null `Next` clears the URL when nulls are included and is
      skipped when they are ignored. */
  lemma NullNext()
    ensures PagingOfObject([Prop("next", JString("u")), Prop("Next", JNull)], Include) == Ok(NoPaging)
    ensures PagingOfObject([Prop("next", JString("u")), Prop("Next", JNull)], Ignore) == Ok(ApiPaging(None, None, Some("u")))
  {
    assert MatchesName("Next", "next");
    PagingOfTwo(Prop("next", JString("u")), Prop("Next", JNull), Include);
    PagingOfTwo(Prop("next", JString("u")), Prop("Next", JNull), Ignore);
  }

  /** A later null `Cursors` clears the cursors when nulls are included and
      is skipped when they are ignored. */
  lemma NullCursors()
    ensures PagingOfObject([Prop("cursors", JObject([Prop("after", JString("a"))])), Prop("Cursors", JNull)], Include) == Ok(NoPaging)
    ensures PagingOfObject([Prop("cursors", JObject([Prop("after", JString("a"))])), Prop("Cursors", JNull)], Ignore)
            == Ok(ApiPaging(Some(Cursors(Some("a"), None)), None, None))
  {
    assert MatchesName("Cursors", "cursors");
    CursorsOfOne(NoCursors, Prop("after", JString("a")), Include);
    CursorsOfOne(NoCursors, Prop("after", JString("a")), Ignore);
    PagingOfTwo(Prop("cursors", JObject([Prop("after", JString("a"))])), Prop("Cursors", JNull), Include);
    PagingOfTwo(Prop("cursors", JObject([Prop("after", JString("a"))])), Prop("Cursors", JNull), Ignore);
  }

  /** A second `cursors` object is merged into the first rather than
      replacing it: `{"cursors":{"after":"a"}, "Cursors":{"before":"b"}}`
      gives both cursors. */
  lemma LaterCursorsMerge(nulls: Nulls)
    ensures PagingOfObject([Prop("cursors", JObject([Prop("after", JString("a"))])),
                            Prop("Cursors", JObject([Prop("before", JString("b"))]))], nulls)
            == Ok(ApiPaging(Some(Cursors(Some("a"), Some("b"))), None, None))
  {
    assert MatchesName("Cursors", "cursors");
    CursorsOfOne(NoCursors, Prop("after", JString("a")), nulls);
    CursorsOfOne(Cursors(Some("a"), None), Prop("before", JString("b")), nulls);
    PagingOfTwo(Prop("cursors", JObject([Prop("after", JString("a"))])), Prop("Cursors", JObject([Prop("before", JString("b"))])), nulls);
  }
}
