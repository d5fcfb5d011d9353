/** `ApiRequest<T>`: a request whose requested fields are a list (order
    and repeats kept) and whose parameters are a dictionary. */
module Request {
  import opened Wrappers
  import opened Values
  import opened Dict
  import opened Credentials

  class ApiRequest {
    const context: ApiContext
    const nodeId: Option<string>
    const endpoint: string
    const verb: string
    const fieldNames: seq<string>
    const paramNames: seq<string>
    var returnFields: seq<string>
    var requestParams: Entries<Value>
    var useVideoEndpoint: bool

    constructor (context: ApiContext, nodeId: Option<string>, endpoint: string, verb: string,
                 fieldNames: seq<string>, paramNames: seq<string>)
      ensures this.context == context && this.nodeId == nodeId && this.endpoint == endpoint
      ensures this.verb == verb && this.fieldNames == fieldNames && this.paramNames == paramNames
      ensures returnFields == [] && requestParams == [] && !useVideoEndpoint
    {
      this.context := context;
      this.nodeId := nodeId;
      this.endpoint := endpoint;
      this.verb := verb;
      this.fieldNames := fieldNames;
      this.paramNames := paramNames;
      returnFields := [];
      requestParams := [];
      useVideoEndpoint := false;
    }

    /** `RequestField`: appends the name, even when already requested. */
    method RequestField(name: string)
      modifies this
      ensures returnFields == old(returnFields) + [name]
      ensures requestParams == old(requestParams) && useVideoEndpoint == old(useVideoEndpoint)
    {
      returnFields := returnFields + [name];
    }

    /** `RequestFields`: appends the names in order. */
    method RequestFields(names: seq<string>)
      modifies this
      ensures returnFields == old(returnFields) + names
      ensures requestParams == old(requestParams) && useVideoEndpoint == old(useVideoEndpoint)
    {
      returnFields := returnFields + names;
    }

    /** `RequestAllFields`: appends every declared field name in order. */
    method RequestAllFields()
      modifies this
      ensures returnFields == old(returnFields) + fieldNames
      ensures requestParams == old(requestParams) && useVideoEndpoint == old(useVideoEndpoint)
    {
      returnFields := returnFields + fieldNames;
    }

    /** `SetParam`: `RequestParams[name] = value`. */
    method SetParam(name: string, value: Value)
      modifies this
      ensures requestParams == Put(old(requestParams), name, value)
      ensures Distinct(old(requestParams)) ==> Distinct(requestParams)
      ensures returnFields == old(returnFields) && useVideoEndpoint == old(useVideoEndpoint)
    {
      requestParams := Put(requestParams, name, value);
    }

    /** `SetParams`: each pair assigned through the indexer, in order. */
    method SetParams(values: Entries<Value>)
      modifies this
      ensures requestParams == PutAll(old(requestParams), values)
      ensures returnFields == old(returnFields) && useVideoEndpoint == old(useVideoEndpoint)
    {
      var i := 0;
      while i < |values|
        invariant 0 <= i <= |values|
        invariant requestParams == PutAll(old(requestParams), values[..i])
        invariant returnFields == old(returnFields) && useVideoEndpoint == old(useVideoEndpoint)
      {
        assert values[..i + 1][..i] == values[..i];
        requestParams := Put(requestParams, values[i].0, values[i].1);
        i := i + 1;
      }
      assert values[..i] == values;
    }
  }
}
