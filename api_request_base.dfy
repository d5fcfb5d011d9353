/** `ApiRequestBase<T>`: a request under construction (the stored
    parameters and a set of requested fields) and its execution up to the
    transport call: the final parameters, the URL and the body. */
module RequestBase {
  import opened Wrappers
  import opened Strings
  import opened Json
  import opened Errors
  import opened Values
  import opened Dict
  import opened RequestUtils
  import opened RequestModel
  import opened Credentials

  datatype HttpMethod = HttpGet | HttpDelete | HttpPost

  /** What `ExecuteInternal` is handed: the method, the URL and the body. */
  datatype HttpRequest = HttpRequest(verb: HttpMethod, url: string, content: Option<Content>)

  /** No element occurs twice. */
  predicate NoDuplicates(xs: seq<string>) {
    forall i, j :: 0 <= i < j < |xs| ==> xs[i] != xs[j]
  }

  /** `HashSet.Add`: the element is appended unless already present. */
  function SetInsert(xs: seq<string>, x: string): (r: seq<string>)
    ensures NoDuplicates(xs) ==> NoDuplicates(r)
    ensures forall y :: y in r <==> y in xs || y == x
  {
    if x in xs then xs else xs + [x]
  }

  /** Adding each name in turn. */
  function InsertAll(xs: seq<string>, names: seq<string>): (r: seq<string>)
    ensures NoDuplicates(xs) ==> NoDuplicates(r)
    decreases |names|
  {
    if |names| == 0 then xs else SetInsert(InsertAll(xs, names[..|names| - 1]), names[|names| - 1])
  }

  /** After adding a batch of names, the set holds exactly the old names
      and the batch's names. */
  lemma {:induction false} InsertAllMembers(xs: seq<string>, names: seq<string>, y: string)
    ensures y in InsertAll(xs, names) <==> y in xs || y in names
    decreases |names|
  {
    if |names| > 0 {
      InsertAllMembers(xs, names[..|names| - 1], y);
      assert names == names[..|names| - 1] + [names[|names| - 1]];
    }
  }

  /** Requesting a field twice leaves one copy. */
  lemma SetInsertTwice(xs: seq<string>, x: string)
    ensures SetInsert(SetInsert(xs, x), x) == SetInsert(xs, x)
    ensures |SetInsert(xs, x)| == |xs| + if x in xs then 0 else 1
  {
  }

  /** Text of a nullable string in a concatenation: null adds nothing. */
  function OrEmpty(s: Option<string>): string {
    s.GetOr("")
  }

  /** The parameters `ExecuteAsync` sends: a copy of the stored ones, plus
      `fields` (added, so a stored `fields` raises) when any field was
      requested, `access_token` always assigned, and `appsecret_proof`
      assigned when there is a proof. */
  function AssembleParams(stored: Entries<Value>, fields: seq<string>, token: string, proof: Option<string>)
    : (r: Result<Entries<Value>>)
    ensures r.Ok? ==> forall k :: k in Keys(stored) ==> k in Keys(r.value)
    ensures r.Ok? && Distinct(stored) ==> Distinct(r.value)
  {
    FieldsAdded(stored, fields);
    var withFields :- if |fields| > 0 then Add(stored, "fields", VString(Join(",", fields))) else Ok(stored);
    var withToken := Put(withFields, "access_token", VString(token));
    Ok(if proof.Some? then Put(withToken, "appsecret_proof", VString(proof.value)) else withToken)
  }

  /** Adding `fields` keeps every stored key and keeps the keys distinct. */
  lemma FieldsAdded(stored: Entries<Value>, fields: seq<string>)
    ensures var w := if |fields| > 0 then Add(stored, "fields", VString(Join(",", fields))) else Ok(stored);
      && (w.Ok? ==> forall k :: k in Keys(stored) ==> k in Keys(w.value))
      && (w.Ok? && Distinct(stored) ==> Distinct(w.value))
  {
    if |fields| > 0 && "fields" !in Keys(stored) {
      var w := stored + [("fields", VString(Join(",", fields)))];
      assert Keys(w) == Keys(stored) + ["fields"];
    }
  }

  /** The outcome of `ExecuteAsync()`: the assembled parameters go into the
      query string of a GET or DELETE, into the body of a POST, and any
      other method name raises. */
  function Prepare(stored: Entries<Value>, fields: seq<string>, token: string, proof: Option<string>,
                   verb: string, nodeId: Option<string>, endpoint: string, codec: Codec): (r: Result<HttpRequest>)
    ensures r.Ok? ==> verb == "GET" || verb == "DELETE" || verb == "POST"
    ensures r.Ok? ==> (r.value.content.Some? <==> verb == "POST")
  {
    var ps :- AssembleParams(stored, fields, token, proof);
    if verb == "GET" || verb == "DELETE" then
      Ok(HttpRequest(if verb == "GET" then HttpGet else HttpDelete, OrEmpty(nodeId) + endpoint + QueryOf(ps, codec), None))
    else if verb == "POST" then
      var body :- CreateContentSpec(ps, codec);
      Ok(HttpRequest(HttpPost, OrEmpty(nodeId) + endpoint, Some(body)))
    else Err(InvalidMethod(verb))
  }

  /** `fields` is the comma-joined requested fields when any were
      requested, and otherwise whatever was stored. */
  lemma FieldsParam(stored: Entries<Value>, fields: seq<string>, token: string, proof: Option<string>)
    requires AssembleParams(stored, fields, token, proof).Ok?
    ensures Lookup(AssembleParams(stored, fields, token, proof).value, "fields")
      == if |fields| > 0 then Some(VString(Join(",", fields))) else Lookup(stored, "fields")
  {
    var withFields := if |fields| > 0 then Add(stored, "fields", VString(Join(",", fields))).value else stored;
    PutLookup(withFields, "access_token", VString(token), "fields");
    if proof.Some? {
      PutLookup(Put(withFields, "access_token", VString(token)), "appsecret_proof", VString(proof.value), "fields");
    }
  }

  /** Requested fields next to a stored `fields` parameter raise a
      duplicate-key error; without either, assembling never fails. */
  lemma FieldsDuplicate(stored: Entries<Value>, fields: seq<string>, token: string, proof: Option<string>)
    ensures AssembleParams(stored, fields, token, proof).Err?
      <==> |fields| > 0 && "fields" in Keys(stored)
    ensures AssembleParams(stored, fields, token, proof).Err?
      ==> AssembleParams(stored, fields, token, proof).error == DuplicateKey("fields")
  {
  }

  /** `access_token` is always the context's token, `appsecret_proof` is
      the proof when there is one, and every other key keeps its stored
      value. */
  lemma CredentialParams(stored: Entries<Value>, fields: seq<string>, token: string, proof: Option<string>, k: string)
    requires AssembleParams(stored, fields, token, proof).Ok?
    ensures var ps := AssembleParams(stored, fields, token, proof).value;
      && Lookup(ps, "access_token") == Some(VString(token))
      && Lookup(ps, "appsecret_proof")
         == (if proof.Some? then Some(VString(proof.value)) else Lookup(stored, "appsecret_proof"))
      && (k != "fields" && k != "access_token" && k != "appsecret_proof" ==> Lookup(ps, k) == Lookup(stored, k))
  {
    var withFields := if |fields| > 0 then Add(stored, "fields", VString(Join(",", fields))).value else stored;
    var withToken := Put(withFields, "access_token", VString(token));
    PutLookup(withFields, "access_token", VString(token), k);
    PutLookup(withFields, "access_token", VString(token), "access_token");
    PutLookup(withFields, "access_token", VString(token), "appsecret_proof");
    if proof.Some? {
      PutLookup(withToken, "appsecret_proof", VString(proof.value), k);
      PutLookup(withToken, "appsecret_proof", VString(proof.value), "access_token");
      PutLookup(withToken, "appsecret_proof", VString(proof.value), "appsecret_proof");
    }
  }

  /** Distinct stored parameters stay distinct, so a POST body never fails. */
  lemma PostBodyBuilds(stored: Entries<Value>, fields: seq<string>, token: string, proof: Option<string>,
                       nodeId: Option<string>, endpoint: string, codec: Codec)
    requires Distinct(stored)
    requires AssembleParams(stored, fields, token, proof).Ok?
    ensures Prepare(stored, fields, token, proof, "POST", nodeId, endpoint, codec).Ok?
  {
    var ps := AssembleParams(stored, fields, token, proof).value;
    assert Distinct(ps);
    DistinctPartitions(ps, codec);
  }

  /** GET and DELETE put the parameters in the query string after the node
      id and the endpoint; POST sends them as the body of a URL without a
      query; any other method raises an argument error naming it. */
  lemma MethodDispatch(stored: Entries<Value>, fields: seq<string>, token: string, proof: Option<string>,
                       verb: string, nodeId: Option<string>, endpoint: string, codec: Codec)
    requires AssembleParams(stored, fields, token, proof).Ok?
    ensures var ps := AssembleParams(stored, fields, token, proof).value;
      var r := Prepare(stored, fields, token, proof, verb, nodeId, endpoint, codec);
      && (verb == "GET" ==> r == Ok(HttpRequest(HttpGet, OrEmpty(nodeId) + endpoint + QueryOf(ps, codec), None)))
      && (verb == "DELETE" ==> r == Ok(HttpRequest(HttpDelete, OrEmpty(nodeId) + endpoint + QueryOf(ps, codec), None)))
      && (verb == "POST" && r.Ok? ==> r.value == HttpRequest(HttpPost, OrEmpty(nodeId) + endpoint, Some(CreateContentSpec(ps, codec).value)))
      && (verb !in {"GET", "DELETE", "POST"} ==> r == Err(InvalidMethod(verb)))
  {
  }

  /** `ExecuteAsync(url)`: the given URL verbatim and no body for GET and
      DELETE; POST is an invalid operation; any other method raises. */
  function ExecuteUrl(verb: string, url: string): (r: Result<HttpRequest>)
    ensures r.Ok? <==> verb == "GET" || verb == "DELETE"
    ensures r.Ok? ==> r.value.url == url && r.value.content.None?
                      && (r.value.verb == HttpGet <==> verb == "GET")
    ensures verb == "POST" ==> r == Err(InvalidOperation)
    ensures verb !in {"GET", "DELETE", "POST"} ==> r == Err(InvalidMethod(verb))
  {
    if verb == "GET" then Ok(HttpRequest(HttpGet, url, None))
    else if verb == "DELETE" then Ok(HttpRequest(HttpDelete, url, None))
    else if verb == "POST" then Err(InvalidOperation)
    else Err(InvalidMethod(verb))
  }

  /** `ThrowError`: the error a failed response raises. */
  function ThrowError(body: Json, render: Json -> string): (e: Error)
    ensures e.ApiError? || e.ApiErrorText?
  {
    if body.JObject? && Get(body.props, "error").Some? && Get(body.props, "error").value.JObject? then
      ApiError(Get(body.props, "error").value.props)
    else ApiErrorText(Text(body, render))
  }

  /** The error is structured exactly when the body is an object whose
      `error` is an object, and carries the body's text otherwise. */
  lemma ErrorClassification(body: Json, render: Json -> string)
    ensures ThrowError(body, render).ApiError?
      <==> body.JObject? && exists e :: Get(body.props, "error") == Some(JObject(e))
    ensures ThrowError(body, render).ApiError? ==> Get(body.props, "error") == Some(JObject(ThrowError(body, render).error))
    ensures ThrowError(body, render).ApiErrorText? ==> ThrowError(body, render).text == Text(body, render)
  {
    if body.JObject? && Get(body.props, "error").Some? && Get(body.props, "error").value.JObject? {
      assert Get(body.props, "error") == Some(JObject(Get(body.props, "error").value.props));
    }
  }

  /** A Graph API error body gives the structured error with its fields. */
  lemma GraphErrorBody(render: Json -> string)
    ensures var e := [Prop("message", JString("Invalid OAuth access token.")), Prop("type", JString("OAuthException")),
                      Prop("code", JInt(190)), Prop("fbtrace_id", JString("A1"))];
      ThrowError(JObject([Prop("error", JObject(e))]), render) == ApiError(e)
  {
  }

  class ApiRequestBase {
    const context: ApiContext
    const nodeId: Option<string>
    const endpoint: string
    const verb: string
    const fieldNames: seq<string>
    const paramNames: seq<string>
    var requestParams: Entries<Value>
    var returnFields: seq<string>
    var useVideoEndpoint: bool

    /** The stored parameters have distinct keys and the fields form a set. */
    predicate Valid()
      reads this
    {
      Distinct(requestParams) && NoDuplicates(returnFields)
    }

    constructor (context: ApiContext, nodeId: Option<string>, endpoint: string, verb: string,
                 fieldNames: seq<string>, paramNames: seq<string>)
      ensures this.context == context && this.nodeId == nodeId && this.endpoint == endpoint
      ensures this.verb == verb && this.fieldNames == fieldNames && this.paramNames == paramNames
      ensures requestParams == [] && returnFields == [] && !useVideoEndpoint
      ensures Valid()
    {
      this.context := context;
      this.nodeId := nodeId;
      this.endpoint := endpoint;
      this.verb := verb;
      this.fieldNames := fieldNames;
      this.paramNames := paramNames;
      requestParams := [];
      returnFields := [];
      useVideoEndpoint := false;
    }

    /** `RequestField`: adds the name to the field set. */
    method RequestField(name: string)
      requires Valid()
      modifies this
      ensures Valid()
      ensures returnFields == SetInsert(old(returnFields), name)
      ensures requestParams == old(requestParams) && useVideoEndpoint == old(useVideoEndpoint)
    {
      returnFields := SetInsert(returnFields, name);
    }

    /** `SetParam`: `RequestParams[name] = value`. */
    method SetParam(name: string, value: Value)
      requires Valid()
      modifies this
      ensures Valid()
      ensures requestParams == Put(old(requestParams), name, value)
      ensures returnFields == old(returnFields) && useVideoEndpoint == old(useVideoEndpoint)
    {
      requestParams := Put(requestParams, name, value);
    }

    /** `SetModelInternal`: the model's parameters, assigned one by one;
      when the model does not flatten, nothing is assigned. */
    method SetModelInternal(model: seq<Prop>) returns (r: Result<()>)
      requires Valid()
      modifies this
      ensures Valid()
      ensures r.Err? <==> ToParams(model).Err?
      ensures r.Err? ==> r.error == ToParams(model).error && requestParams == old(requestParams)
      ensures r.Ok? ==> requestParams == PutAll(old(requestParams), ToParams(model).value)
      ensures returnFields == old(returnFields) && useVideoEndpoint == old(useVideoEndpoint)
    {
      var ps := ToParams(model);
      if ps.Err? {
        return Err(ps.error);
      }
      var kvs := ps.value;
      for i := 0 to |kvs|
        invariant requestParams == PutAll(old(requestParams), kvs[..i])
        invariant Distinct(requestParams)
        invariant returnFields == old(returnFields) && useVideoEndpoint == old(useVideoEndpoint)
      {
        PutAllNext(old(requestParams), kvs, i);
        requestParams := Put(requestParams, kvs[i].0, kvs[i].1);
      }
      assert kvs[..|kvs|] == kvs;
      return Ok(());
    }

    /** `ExecuteAsync()`, up to the transport call. Unless the `fields`
      parameter clashes first, the proof is read from the context, which
      may compute and cache it; the stored parameters and fields are not
      changed. */
    method ExecuteAsync(codec: Codec) returns (r: Result<HttpRequest>)
      modifies context
      ensures context.appSecretProof
        == if |returnFields| > 0 && "fields" in Keys(requestParams) then old(context.appSecretProof)
           else NextCache(old(context.appSecretProof), context.sendAppSecretProof, context.appSecret, context.ProofFor)
      ensures context.sendAppSecretProof == old(context.sendAppSecretProof)
      ensures r == Prepare(requestParams, returnFields, context.accessToken, context.appSecretProof,
                           verb, nodeId, endpoint, codec)
    {
      var ps := requestParams;
      if |returnFields| > 0 {
        var added := Add(ps, "fields", VString(Join(",", returnFields)));
        if added.Err? {
          return Err(added.error);
        }
        ps := added.value;
      }
      ps := Put(ps, "access_token", VString(context.accessToken));
      var proof := context.GetAppSecretProof();
      if proof.Some? {
        var again := context.GetAppSecretProof();
        ps := Put(ps, "appsecret_proof", VString(again.value));
      }
      assert AssembleParams(requestParams, returnFields, context.accessToken, context.appSecretProof) == Ok(ps);
      if verb == "GET" || verb == "DELETE" {
        var query := ToQueryString(ps, codec);
        return Ok(HttpRequest(if verb == "GET" then HttpGet else HttpDelete, OrEmpty(nodeId) + endpoint + query, None));
      } else if verb == "POST" {
        var body := CreateContent(ps, codec);
        if body.Err? {
          return Err(body.error);
        }
        return Ok(HttpRequest(HttpPost, OrEmpty(nodeId) + endpoint, Some(body.value)));
      } else {
        return Err(InvalidMethod(verb));
      }
    }

    /** `ExecuteAsync(url)`. */
    method ExecuteAsyncUrl(url: string) returns (r: Result<HttpRequest>)
      ensures r == ExecuteUrl(verb, url)
    {
      if verb == "GET" {
        return Ok(HttpRequest(HttpGet, url, None));
      } else if verb == "DELETE" {
        return Ok(HttpRequest(HttpDelete, url, None));
      } else if verb == "POST" {
        return Err(InvalidOperation);
      }
      return Err(InvalidMethod(verb));
    }
  }

  /** `ApiRequestExtensions.SetParams`: `SetParam` for each pair in turn. */
  method SetParams(req: ApiRequestBase, values: Entries<Value>)
    requires req.Valid()
    modifies req
    ensures req.Valid()
    ensures req.requestParams == PutAll(old(req.requestParams), values)
    ensures req.returnFields == old(req.returnFields)
  {
    for i := 0 to |values|
      invariant req.Valid()
      invariant req.requestParams == PutAll(old(req.requestParams), values[..i])
      invariant req.returnFields == old(req.returnFields)
    {
      assert values[..i + 1][..i] == values[..i];
      req.SetParam(values[i].0, values[i].1);
    }
    assert values[..|values|] == values;
  }

  /** `ApiRequestExtensions.RequestFields`: `RequestField` for each name. */
  method RequestFields(req: ApiRequestBase, names: seq<string>)
    requires req.Valid()
    modifies req
    ensures req.Valid()
    ensures req.returnFields == InsertAll(old(req.returnFields), names)
    ensures req.requestParams == old(req.requestParams)
  {
    for i := 0 to |names|
      invariant req.Valid()
      invariant req.returnFields == InsertAll(old(req.returnFields), names[..i])
      invariant req.requestParams == old(req.requestParams)
    {
      assert names[..i + 1][..i] == names[..i];
      req.RequestField(names[i]);
    }
    assert names[..|names|] == names;
  }

  /** `ApiRequestExtensions.RequestAllFields`: every declared field name. */
  method RequestAllFields(req: ApiRequestBase)
    requires req.Valid()
    modifies req
    ensures req.Valid()
    ensures req.returnFields == InsertAll(old(req.returnFields), req.fieldNames)
    ensures req.requestParams == old(req.requestParams)
  {
    RequestFields(req, req.fieldNames);
  }
}
