# A verified model of the Graph API C# SDK runtime and its generator processor

The project has two parts, both modelled here:

- **The hand-written C# runtime** that every generated C# SDK ships. It:
  - decodes Graph API list responses into `ApiNodeList<T>`;
  - rewrites nested paginated edges found in a node's extension data;
  - turns request parameters into query strings and POST bodies;
  - assembles and dispatches a request (`ApiRequestBase`, `ApiRequest`);
  - computes and caches the app-secret proof (`ApiContext`);
  - flattens a request model into parameters (`RequestModelBase`).
- **The C# language processor of the JavaScript code generator.** It annotates the API specifications in place before the templates run. It:
  - gives every class its file name;
  - merges the capability-gated visibility flag;
  - removes file-upload parameters;
  - records the enums each class references, once each;
  - assigns C# types and member names.

JSON tokens are a datatype whose objects keep their properties in order. A .NET `Dictionary` is an insertion-ordered list of entries (module `Dict`). Exceptions are `Result` values (module `Errors`).

Stateful code is modelled as Dafny classes with methods:
- the request builders;
- the credential context;
- the node-list converter;
- the contract resolver;
- the specification dictionary the generator rewrites.

Each such method is proved equal to a specification function. The properties of the source are then lemmas about those functions.

Library behaviour that cannot be seen is passed in as function parameters:
- Newtonsoft's `ToObject<T>` of a list item and `JToken.ToString()` of a container (`NodeListConverter.Serializer`);
- `UrlEncoder.Default.Encode` and `JsonUtils.SerializeObject` (`RequestUtils.Codec`);
- HMAC-SHA256 (the `hmac` of `Credentials.ApiContext`);
- the regular-expression type table of `getTypeForCSharp` (`mapType`).

Reading an `ApiPaging`, an `ApiCursors` or an `Edge` from a JSON object is not injected but written out as Newtonsoft populates an object (module `Paging`, and `EdgeStep` in `JsonUtils`):
- the properties are read in order into the object being filled, and the read fails at the first one that does not convert;
- a property sets the member whose name it equals, exactly or ignoring case;
- a string member is read by `JsonReader.ReadAsString`: a scalar replaces it, and an array, an object, an undefined, a raw value, a constructor or a comment fails;
- any token replaces the `JToken` member `summary`;
- an array for the list member `data` is appended to the list already there;
- an object for a class member (`paging`, `cursors`) that already holds one is read into it, so members are merged;
- a JSON null, and for a class or list member an empty string or an undefined, sets the member to null when nulls are included and leaves it alone when they are ignored;
- properties that set no member are skipped. A token for the read-only `nextPageCursor` is first read as a string, so one that `ReadAsString` rejects fails the read; any other is then skipped.

`ToObject<Edge>()` (JsonUtils.cs:93) uses the default serializer, which includes nulls. `paging.ToObject<ApiPaging>(serializer)` in the node-list converter uses the SDK's serializer, which ignores them (JsonUtils.cs:24-28). `Paging.Nulls` says which applies.

Modules:
- `Wrappers`, `Errors`, `Json`, `Values`, `Dict`, `Strings` and `Paging` hold the values shared by the rest.
- `NodeListConverter` is `ApiNodeListConverter.cs`.
- `JsonUtils` is the extension-data rewrite and the contract resolver of `JsonUtils.cs`.
- `RequestUtils`, `RequestModel`, `RequestBase`, `Request` and `Credentials` are the files of the same names.
- `BaseType` and `CodeGenCSharp` are `CodeGenLanguageCSharp.js`.

## Model

| member | source | states |
|---|---|---|
| NodeListConverter.ReadJson | templates/csharp/src/Facebook.Business/ApiNodeListConverter.cs:17-31 | the heap effect of a read realises `ReadSpec`: same result, the reused list is `existingValue` itself, any other list is new, and `existingValue` ends as stated |
| NodeListConverter.FromObject | templates/csharp/src/Facebook.Business/ApiNodeListConverter.cs:38-102 | the object rules in order (data array, data object, images, id-indexed map, whole object) realise `FromObjectSpec` on the heap |
| NodeListConverter.IdIndexed | templates/csharp/src/Facebook.Business/ApiNodeListConverter.cs:75-98 | the id-index loop yields the values before the first failing property, then the whole object as one item when some property fails |
| NodeListConverter.FromList | templates/csharp/src/Facebook.Business/ApiNodeListConverter.cs:104-109 | returns `existingValue` itself when given one, else a fresh list; `Data` becomes the items and `Paging`/`Summary` keep their values |
| NodeListConverter.ApiNodeList.constructor | templates/csharp/src/Facebook.Business/ApiNodeList.cs:8-18 | a new list has null `Data`, `Paging` and `Summary` |
| NodeListConverter.ArrayDecodesInOrder | templates/csharp/src/Facebook.Business/ApiNodeListConverter.cs:24-28 | a top-level array gives its elements decoded in order, with `Paging` and `Summary` untouched |
| NodeListConverter.ScalarIsMalformed | templates/csharp/src/Facebook.Business/ApiNodeListConverter.cs:30 | a scalar fails with `"Invalid response string: "` followed by its text, leaving `existingValue` alone |
| NodeListConverter.DataArrayRule | templates/csharp/src/Facebook.Business/ApiNodeListConverter.cs:42-54 | with a `data` array: the items are its elements in order; `Paging` is replaced only when `paging` is an object, read with nulls ignored, and a paging that does not decode fails the read; `Summary` is the raw token whenever the key is present |
| NodeListConverter.DataObjectRule | templates/csharp/src/Facebook.Business/ApiNodeListConverter.cs:56-61 | a `data` object gives a new one-item list without paging or summary, and `existingValue` is neither used nor changed |
| NodeListConverter.LaterRulesReached | templates/csharp/src/Facebook.Business/ApiNodeListConverter.cs:40-64 | when `data` is absent or a scalar, the `images`, id-index and whole-object rules decide |
| NodeListConverter.ImagesRule | templates/csharp/src/Facebook.Business/ApiNodeListConverter.cs:64-73 | with `images` and no data rule: one item per property value in order, the `images` value included; the read fails with an invalid cast exactly when some value is not an object |
| NodeListConverter.ImagesOutcome | templates/csharp/src/Facebook.Business/ApiNodeListConverter.cs:64-73 | the images rule fails exactly when some value is not an object, and otherwise decodes every value |
| NodeListConverter.IdIndexedRule | templates/csharp/src/Facebook.Business/ApiNodeListConverter.cs:75-100 | when every value is an object whose `id` text is its key, `Data` is those values in property order |
| NodeListConverter.EmptyObjectIsEmptyList | templates/csharp/src/Facebook.Business/ApiNodeListConverter.cs:75-100 | an empty object gives an empty list |
| NodeListConverter.IdIndexFirstFailure | templates/csharp/src/Facebook.Business/ApiNodeListConverter.cs:78-98 | when the id test first fails at property k, the items are the values before k followed by the whole object |
| NodeListConverter.FirstMismatchAt | templates/csharp/src/Facebook.Business/ApiNodeListConverter.cs:78-98 | the loop's first failing property is the index `FirstMismatch` finds |
| NodeListConverter.DataNeverAbsent | templates/csharp/src/Facebook.Business/ApiNodeListConverter.cs:17-109 | a successful read never leaves `Data` null |
| JsonUtils.Edge.NextPageCursor | templates/csharp/src/Facebook.Business/JsonUtils.cs:112-123 | the cursor is `paging.cursors.after` and is null exactly when paging, a non-empty `next`, the cursors or `after` are missing |
| JsonUtils.EdgeStepFails | templates/csharp/src/Facebook.Business/JsonUtils.cs:101-123 | one property read into an `Edge` fails, whatever the edge holds, exactly when a `data` is no array and does not read as null, a `paging` does not convert, or a token for the read-only `nextPageCursor` does not read as a string |
| JsonUtils.EdgeOfSpec | templates/csharp/src/Facebook.Business/JsonUtils.cs:93-123 | `ToObject<Edge>()`, nulls included, fails exactly when some property fails; otherwise `data` is every array assigned since the last null, `""` or undefined, concatenated, `paging` is read from every object merged since the last clearing, and `summary` is the last token assigned, in any letter case |
| JsonUtils.TransformExtensionData | templates/csharp/src/Facebook.Business/JsonUtils.cs:88-98 | a value that is not a nested edge is returned unchanged; a nested edge is rewritten to an object, and the rewrite fails exactly when `EdgeOf` does |
| JsonUtils.NestedEdgeSetsMembers | templates/csharp/src/Facebook.Business/JsonUtils.cs:90-93 | an object that passes the `IsNestedEdge` test sets the edge's `data` member, and its `paging` or its `summary` |
| JsonUtils.PlainDataUntouched | templates/csharp/src/Facebook.Business/JsonUtils.cs:90-91 | `IsNestedEdge` rejects a `data` array with neither `paging` nor `summary`, which is returned unchanged |
| JsonUtils.RewriteIsEdge | templates/csharp/src/Facebook.Business/JsonUtils.cs:90-97 | a nested edge is rewritten to `EdgeToJson` of its `Edge` |
| JsonUtils.RewriteShape | templates/csharp/src/Facebook.Business/JsonUtils.cs:101-134 | a rewritten edge holds `data`, `summary` and `nextPageCursor`, in that order, each only when it has a value; `summary` is there exactly when some property named so in any case is |
| JsonUtils.EdgeToJson | templates/csharp/src/Facebook.Business/JsonUtils.cs:94 | an edge is written as an object of at most three members, never with `paging` |
| JsonUtils.EdgeShape | templates/csharp/src/Facebook.Business/JsonUtils.cs:101-134 | `EdgeToJson` writes the members in declaration order, with nulls and suppressed members left out |
| JsonUtils.NeverPaging | templates/csharp/src/Facebook.Business/JsonUtils.cs:130-133 | a rewritten edge never contains `paging` |
| JsonUtils.EdgeData | templates/csharp/src/Facebook.Business/JsonUtils.cs:125-128 | `EdgeToJson` writes `data` exactly when the edge's list is non-empty, and then writes that list |
| JsonUtils.DataKeptIffNonEmpty | templates/csharp/src/Facebook.Business/JsonUtils.cs:125-128 | a rewritten edge contains `data` exactly when the arrays assigned to it since the last clearing, concatenated, are non-empty, and then it is that concatenation |
| JsonUtils.DataKeptExact | templates/csharp/src/Facebook.Business/JsonUtils.cs:90-128 | when `data` is spelt only once and exactly, `data` is kept exactly when the array `TryGetValue` finds is non-empty |
| JsonUtils.CursorRule | templates/csharp/src/Facebook.Business/JsonUtils.cs:112-123 | `nextPageCursor` is the edge's `paging.cursors.after` when `paging.next` is non-empty, and absent otherwise |
| JsonUtils.EdgeCursor | templates/csharp/src/Facebook.Business/JsonUtils.cs:112-123 | `EdgeToJson` writes `nextPageCursor` exactly when the edge has one |
| JsonUtils.SummaryCarried | templates/csharp/src/Facebook.Business/JsonUtils.cs:109-110 | the token of the last property setting `summary` is carried into the rewritten edge unchanged |
| JsonUtils.EdgeSummary | templates/csharp/src/Facebook.Business/JsonUtils.cs:109-110 | `EdgeToJson` writes the edge's summary, when it has one |
| JsonUtils.NextUrlAloneGivesNoCursor | templates/csharp/src/Facebook.Business/JsonUtils.cs:112-123 | a `next` URL without `cursors` gives no cursor, even when the URL carries `after=` |
| JsonUtils.EmptyPagingIsNull | templates/csharp/src/Facebook.Business/JsonUtils.cs:106-107 | an empty-string `paging` reads as null: `{"data":[], "paging":"", "summary":1}` becomes `{"summary":1}` |
| JsonUtils.LaterArrayAppends | templates/csharp/src/Facebook.Business/JsonUtils.cs:90-104 | `{"data":[1], "summary":1, "Data":[2]}` is rewritten to `{"data":[1,2], "summary":1}`: the later array is appended |
| JsonUtils.LaterEmptyArrayKeepsData | templates/csharp/src/Facebook.Business/JsonUtils.cs:90-104 | `{"data":[1], "summary":1, "Data":[]}` is rewritten to `{"data":[1], "summary":1}`: an empty later array does not clear the list |
| JsonUtils.LaterPagingMerges | templates/csharp/src/Facebook.Business/JsonUtils.cs:101-123 | `{"data":[], "paging":{"next":"u"}, "Paging":{"cursors":{"after":"C"}}}` is rewritten to `{"nextPageCursor":"C"}`: the second paging object is merged into the first |
| JsonUtils.ReadOnlyCursor | templates/csharp/src/Facebook.Business/JsonUtils.cs:90-123 | `{"data":[], "summary":1, "nextPageCursor":{}}` is not rewritten, because an object for the read-only string fails the read; a string for it is read and skipped |
| JsonUtils.AppendedSingle | templates/csharp/src/Facebook.Business/JsonUtils.cs:90-104 | when at most one property sets `data`, the appended list is that property's array, or null |
| JsonUtils.OtherSpellingFails | templates/csharp/src/Facebook.Business/JsonUtils.cs:90-104 | `{"data":[1], "summary":1, "DATA":5}` fails to rewrite |
| JsonUtils.ObjectContract.constructor | templates/csharp/src/Facebook.Business/JsonUtils.cs:68-70 | a contract starts with its own setter, unwrapped |
| JsonUtils.ResolveContract | templates/csharp/src/Facebook.Business/JsonUtils.cs:68-86 | as written: every resolution wraps the setter of an `ApiNode` contract once more, and leaves other contracts alone |
| JsonUtils.RewriteNotIdempotent | templates/csharp/src/Facebook.Business/JsonUtils.cs:74-82 | two wrappers rewrite the example edge twice and lose its `nextPageCursor` |
| JsonUtils.ResolveContractOnce | templates/csharp/src/Facebook.Business/JsonUtils.cs:68-86 | the corrected resolution gives an `ApiNode` contract exactly one wrapper |
| JsonUtils.OnceResolvedStoresRewrite | templates/csharp/src/Facebook.Business/JsonUtils.cs:74-82 | with one wrapper, the setter receives the key unchanged and the value rewritten once |
| JsonUtils.NonNodeUntouched | templates/csharp/src/Facebook.Business/JsonUtils.cs:71 | a contract that is not an `ApiNode`'s stores key and value as given |
| RequestUtils.ToQueryString | templates/csharp/src/Facebook.Business/RequestUtils.cs:15-40 | the loop builds `?` and the encoded `key=value` pairs in enumeration order, `&` between them; the result is empty exactly when there are no parameters |
| RequestUtils.QuerySplits | templates/csharp/src/Facebook.Business/RequestUtils.cs:18-32 | when the encoder never emits `&`, the query splits back into its pairs after the leading `?` |
| RequestUtils.ParamToString | templates/csharp/src/Facebook.Business/RequestUtils.cs:91-118 | booleans print as `true` and `false`, each for its own value only; a date's text reads back as its Unix time and an integer's as the integer |
| RequestUtils.DateRoundTrip | templates/csharp/src/Facebook.Business/RequestUtils.cs:107-110 | the Unix epoch prints as `0` |
| RequestUtils.StringsRoundTrip | templates/csharp/src/Facebook.Business/RequestUtils.cs:112-115 | a list of strings without commas splits back at the commas |
| RequestUtils.CreateContent | templates/csharp/src/Facebook.Business/RequestUtils.cs:42-77 | the partition loop and the body built from it equal `CreateContentSpec` |
| RequestUtils.Partition | templates/csharp/src/Facebook.Business/RequestUtils.cs:46-56 | the partition fails only on a duplicate key |
| RequestUtils.PartitionDistinct | templates/csharp/src/Facebook.Business/RequestUtils.cs:44-56 | a partition places each parameter in exactly one dictionary, and neither holds a key twice |
| RequestUtils.PartitionContents | templates/csharp/src/Facebook.Business/RequestUtils.cs:46-56 | a successful partition puts every non-stream parameter, as text, among the form values and every stream among the files, each in order |
| RequestUtils.FormEntriesMembers | templates/csharp/src/Facebook.Business/RequestUtils.cs:46-56 | a form entry is exactly a non-stream parameter with its text |
| RequestUtils.DistinctPartitions | templates/csharp/src/Facebook.Business/RequestUtils.cs:46-56 | parameters with distinct keys always partition |
| RequestUtils.PartitionErrSticks | templates/csharp/src/Facebook.Business/RequestUtils.cs:46-56 | a failing `Add` fails the whole partition |
| RequestUtils.MultipartIffStream | templates/csharp/src/Facebook.Business/RequestUtils.cs:61-76 | the body is multipart exactly when some value is a stream; it then holds the form part first and one part per stream, named by its key, in order |
| RequestUtils.ContentOfParts | templates/csharp/src/Facebook.Business/RequestUtils.cs:61-76 | the body built from the two dictionaries, part by part |
| RequestUtils.StreamEntriesNonEmpty | templates/csharp/src/Facebook.Business/RequestUtils.cs:46-56 | there are stream entries exactly when some parameter is a stream |
| RequestUtils.AddQueryString | templates/csharp/src/Facebook.Business/RequestUtils.cs:79-89 | the URL is kept as a prefix and followed by `&` or `?` |
| RequestUtils.AddQueryStringCases | templates/csharp/src/Facebook.Business/RequestUtils.cs:79-89 | joins with `&` only when `?` occurs past index 0; otherwise appends `?`, so a URL starting with `?` gets a second one |
| RequestModel.GetValue | templates/csharp/src/Facebook.Business/RequestModelBase.cs:19-67 | a token kept as a token is that token, and an integer value always fits in 32 bits |
| RequestModel.ToParams | templates/csharp/src/Facebook.Business/RequestModelBase.cs:11-17 | the parameters are at most the properties and hold no key twice |
| RequestModel.EmptyKinds | templates/csharp/src/Facebook.Business/RequestModelBase.cs:39-42 | exactly None, Null and Undefined map to null |
| RequestModel.NativeKinds | templates/csharp/src/Facebook.Business/RequestModelBase.cs:23-48 | objects, arrays and bytes stay as the token; strings, booleans and 32-bit integers become native values |
| RequestModel.FailingKinds | templates/csharp/src/Facebook.Business/RequestModelBase.cs:59-65 | constructor, property, comment and raw tokens are not supported; an undeclared kind is an invalid-enum error; an integer outside 32 bits overflows; nothing else fails |
| RequestModel.ToParamsKept | templates/csharp/src/Facebook.Business/RequestModelBase.cs:11-17 | with distinct property names the parameters exist exactly when every value maps, and they are the non-null ones in order |
| RequestModel.KeptMembers | templates/csharp/src/Facebook.Business/RequestModelBase.cs:13-16 | a parameter is exactly a property, named as serialized, whose value does not map to null |
| RequestBase.SetInsert | templates/csharp/src/Facebook.Business/ApiRequestBase.cs:92-96 | adding to the field set keeps it free of repeats and holds exactly the old names and the new one |
| RequestBase.SetInsertTwice | templates/csharp/src/Facebook.Business/ApiRequestBase.cs:92-96 | requesting a field twice leaves one copy |
| RequestBase.InsertAllMembers | templates/csharp/src/Facebook.Business/ApiRequestBase.cs:157-177 | after adding a batch the set holds exactly the old names and the batch's |
| RequestBase.ApiRequestBase.constructor | templates/csharp/src/Facebook.Business/ApiRequestBase.cs:22-31 | the arguments are stored; no parameters and no fields yet |
| RequestBase.ApiRequestBase.RequestField | templates/csharp/src/Facebook.Business/ApiRequestBase.cs:92-96 | adds the name to the field set; the parameters are untouched |
| RequestBase.ApiRequestBase.SetParam | templates/csharp/src/Facebook.Business/ApiRequestBase.cs:98-102 | the indexer write, keeping keys distinct; the fields are untouched |
| RequestBase.ApiRequestBase.SetModelInternal | templates/csharp/src/Facebook.Business/ApiRequestBase.cs:104-111 | fails exactly when the model does not flatten, changing nothing; otherwise every model parameter is assigned in order |
| RequestBase.ApiRequestBase.ExecuteAsync | templates/csharp/src/Facebook.Business/ApiRequestBase.cs:33-67 | the request handed to the transport is `Prepare` of the stored state; stored parameters and fields are not changed; the context's proof cache is read as its getter does |
| RequestBase.ApiRequestBase.ExecuteAsyncUrl | templates/csharp/src/Facebook.Business/ApiRequestBase.cs:69-90 | equals `ExecuteUrl` of the method and the URL |
| RequestBase.AssembleParams | templates/csharp/src/Facebook.Business/ApiRequestBase.cs:35-44 | every stored key is still there after assembly, and distinct keys stay distinct |
| RequestBase.Prepare | templates/csharp/src/Facebook.Business/ApiRequestBase.cs:33-67 | a request is prepared only for GET, DELETE and POST, and carries a body exactly for POST |
| RequestBase.FieldsParam | templates/csharp/src/Facebook.Business/ApiRequestBase.cs:36-39 | `fields` is the comma-joined requested fields when any were requested, and otherwise what was stored |
| RequestBase.FieldsDuplicate | templates/csharp/src/Facebook.Business/ApiRequestBase.cs:36-39 | assembly fails, with a duplicate-key error on `fields`, exactly when fields were requested and `fields` was stored |
| RequestBase.CredentialParams | templates/csharp/src/Facebook.Business/ApiRequestBase.cs:35-44 | `access_token` is always the context's token; `appsecret_proof` is set only when there is a proof; every other key keeps its stored value |
| RequestBase.PostBodyBuilds | templates/csharp/src/Facebook.Business/ApiRequestBase.cs:58-63 | a POST body of distinct stored parameters never fails |
| RequestBase.MethodDispatch | templates/csharp/src/Facebook.Business/ApiRequestBase.cs:49-66 | GET and DELETE use node id, endpoint and query string; POST uses node id and endpoint with a body; any other method raises an argument error naming it |
| RequestBase.ExecuteUrl | templates/csharp/src/Facebook.Business/ApiRequestBase.cs:69-90 | GET and DELETE use the URL verbatim with no body; POST is an invalid operation; any other method raises |
| RequestBase.ThrowError | templates/csharp/src/Facebook.Business/ApiRequestBase.cs:131-141 | a failed response always raises an `ApiRequestException`, structured or with the body's text |
| RequestBase.ErrorClassification | templates/csharp/src/Facebook.Business/ApiRequestBase.cs:131-141 | the error is structured exactly when the body is an object whose `error` is an object, and otherwise carries the body's text |
| RequestBase.GraphErrorBody | templates/csharp/src/Facebook.Business/ApiRequestBase.cs:131-141 | an OAuth error body gives the structured error with its members |
| RequestBase.SetParams | templates/csharp/src/Facebook.Business/ApiRequestBase.cs:146-155 | each pair assigned in turn, keys kept distinct; the fields are untouched |
| RequestBase.RequestFields | templates/csharp/src/Facebook.Business/ApiRequestBase.cs:157-177 | each name added to the field set in turn |
| RequestBase.RequestAllFields | templates/csharp/src/Facebook.Business/ApiRequestBase.cs:179-183 | every declared field name added to the field set |
| Request.ApiRequest.constructor | templates/csharp/src/Facebook.Business/ApiRequest.cs:27-36 | the arguments are stored; no parameters and no fields yet |
| Request.ApiRequest.RequestField | templates/csharp/src/Facebook.Business/ApiRequest.cs:38-41 | appends the name, repeats and order kept; the parameters are untouched |
| Request.ApiRequest.RequestFields | templates/csharp/src/Facebook.Business/ApiRequest.cs:43-46 | appends the names in order; the parameters are untouched |
| Request.ApiRequest.RequestAllFields | templates/csharp/src/Facebook.Business/ApiRequest.cs:48-51 | appends the declared field names in order |
| Request.ApiRequest.SetParam | templates/csharp/src/Facebook.Business/ApiRequest.cs:53-56 | the indexer write, keeping keys distinct; the fields are untouched |
| Request.ApiRequest.SetParams | templates/csharp/src/Facebook.Business/ApiRequest.cs:58-64 | the loop assigns each pair in turn; the fields are untouched |
| Dict.PutLookup | templates/csharp/src/Facebook.Business/ApiRequest.cs:53-56 | after `m[k] = v`, `k` holds `v` and every other key its old value |
| Dict.PutAllLastWins | templates/csharp/src/Facebook.Business/ApiRequest.cs:58-64 | after a batch of assignments each key holds its last assigned value, or its old one |
| Dict.PutAllDistinct | templates/csharp/src/Facebook.Business/ApiRequestBase.cs:146-155 | a batch of assignments keeps keys distinct |
| Dict.Add | templates/csharp/src/Facebook.Business/ApiRequestBase.cs:38 | `Add` raises a duplicate-key error exactly on a present key; otherwise it appends, and only that key changes |
| Credentials.ApiContext.constructor | templates/csharp/src/Facebook.Business/ApiContext.cs:36-42 | token, secret, app id and channel are stored unchanged; the flag starts off and nothing is cached |
| Credentials.ApiContext.GetAppSecretProof | templates/csharp/src/Facebook.Business/ApiContext.cs:23-34 | the getter returns the cache after filling it as `NextCache` says; the flag is unchanged |
| Credentials.ApiContext.SetSendAppSecretProof | templates/csharp/src/Facebook.Business/ApiContext.cs:13-21 | sets the flag and leaves the cache alone |
| Credentials.NextCache | templates/csharp/src/Facebook.Business/ApiContext.cs:27-32 | after a read a proof is cached exactly when one already was, or the flag is on and a secret is set |
| Credentials.EmptyCacheRead | templates/csharp/src/Facebook.Business/ApiContext.cs:27-32 | with nothing cached, the read is null exactly when the flag is off or there is no secret, and the secret's proof otherwise |
| Credentials.ReadIdempotent | templates/csharp/src/Facebook.Business/ApiContext.cs:27-32 | a second read changes nothing: the proof is computed at most once |
| Credentials.CachedIsFinal | templates/csharp/src/Facebook.Business/ApiContext.cs:27-32 | a cached proof is returned whatever the flag and the secret later are |
| Credentials.ApiContext.GenerateAppSecretProof | templates/csharp/src/Facebook.Business/ApiContext.cs:44-54 | the hex loop writes the HMAC of the ASCII secret over the ASCII token, two digits per byte in byte order |
| Credentials.HexLower | templates/csharp/src/Facebook.Business/ApiContext.cs:49-52 | two lower-case hex digits per byte |
| Credentials.Ascii | templates/csharp/src/Facebook.Business/ApiContext.cs:46-47 | one byte per character, with `?` in place of a non-ASCII character |
| Credentials.ProofShape | templates/csharp/src/Facebook.Business/ApiContext.cs:49-52 | the proof is 64 lower-case hex digits and reads back as the HMAC |
| Credentials.HexRoundTrip | templates/csharp/src/Facebook.Business/ApiContext.cs:49-52 | lower-case hex of any byte string reads back as that byte string |
| Strings.SplitJoin | templates/csharp/src/Facebook.Business/RequestUtils.cs:112-115 | joining items without the separator, then splitting, gives the items back |
| Strings.IntToStringRoundTrip | templates/csharp/src/Facebook.Business/RequestUtils.cs:107-110 | invariant-culture decimal text of an integer reads back as the integer |
| Json.Get | templates/csharp/src/Facebook.Business/ApiNodeListConverter.cs:40-41 | `TryGetValue` finds a property with that name, and finds nothing exactly when no property has it |
| Paging.LastAssigned | templates/csharp/src/Facebook.Business/ApiPaging.cs:8-15 | the value of the last property whose name equals the member's ignoring case, absent exactly when there is none |
| Paging.CursorsOfObjectSpec | templates/csharp/src/Facebook.Business/ApiCursors.cs:6-12 | `ToObject<ApiCursors>()` fails exactly when an `after` or `before`, in any case, is a token `ReadAsString` rejects; otherwise each is the text of the last value the serializer sees for it (nulls skipped when ignored), or null |
| Paging.PopulateCursorsAppend | templates/csharp/src/Facebook.Business/ApiCursors.cs:6-12 | reading `a` and then `b` into the same cursors is reading `a + b`, an error in `a` stopping the read |
| Paging.PagingOfObjectSpec | templates/csharp/src/Facebook.Business/ApiPaging.cs:6-16 | `ToObject<ApiPaging>()` fails exactly when some property fails; otherwise `previous` and `next` are the text of the last value the serializer sees for them, and `cursors` is read from every object merged into it since it was last cleared |
| Paging.PagingStepFails | templates/csharp/src/Facebook.Business/ApiPaging.cs:6-16 | one paging property fails, whatever the paging holds, exactly when it is a token `ReadAsString` rejects for `previous` or `next`, or a `cursors` that is no object and does not read as null, or an object whose cursors fail |
| Paging.PopulatePagingAppend | templates/csharp/src/Facebook.Business/ApiPaging.cs:6-16 | reading `a` and then `b` into the same paging is reading `a + b`, an error in `a` stopping the read |
| Paging.IgnoredNullUnchanged | templates/csharp/src/Facebook.Business/JsonUtils.cs:24-28 | with nulls ignored, a null property leaves a paging as it was, whatever member it names |
| Paging.LastAssignedExact | templates/csharp/src/Facebook.Business/ApiNodeListConverter.cs:46-48 | when at most one property sets a member and it is spelt exactly, it is the one `TryGetValue` finds |
| Paging.NextIgnoresCase | templates/csharp/src/Facebook.Business/ApiPaging.cs:14-15 | `{"NEXT":"u"}` sets `next`, and of `next` and `Next` the later wins |
| Paging.EmptyStringCoercion | templates/csharp/src/Facebook.Business/ApiPaging.cs:8-15 | an empty string reads as null where a paging or cursors object belongs, and stays an empty string in `next` |
| Paging.UndefinedToken | templates/csharp/src/Facebook.Business/ApiPaging.cs:8-15 | `{"next":undefined}` fails, because `ReadAsString` rejects an undefined, while an undefined `cursors` reads as null |
| Paging.NullNext | templates/csharp/src/Facebook.Business/JsonUtils.cs:24-28 | a later null `Next` after `next:"u"` clears the URL when nulls are included, and keeps `"u"` when they are ignored, as the converter's serializer does |
| Paging.NullCursors | templates/csharp/src/Facebook.Business/JsonUtils.cs:24-28 | a later null `Cursors` after a cursors object clears the cursors when nulls are included, and keeps them when they are ignored |
| Paging.LaterCursorsMerge | templates/csharp/src/Facebook.Business/ApiPaging.cs:8-9 | `{"cursors":{"after":"a"}, "Cursors":{"before":"b"}}` gives both cursors: the second object is merged into the first |
| BaseType.GetBaseType | src/processors/CodeGenLanguageCSharp.js:9-11 | when the type changes, the result is a run of the middle group's characters |
| BaseType.PlainNameUnchanged | src/processors/CodeGenLanguageCSharp.js:9-11 | a plain name is its own base type |
| BaseType.ListStripped | src/processors/CodeGenLanguageCSharp.js:9-11 | one `list<...>` wrapper, in any letter case, is stripped from a word |
| BaseType.NestedListUnchanged | src/processors/CodeGenLanguageCSharp.js:9-11 | `list<list<Foo>>` is left as it is |
| BaseType.Idempotent | src/processors/CodeGenLanguageCSharp.js:9-11 | the base type of a base type is itself |
| CodeGenCSharp.FormatFileName | src/processors/CodeGenLanguageCSharp.js:14-16 | the file name ends in `.cs` |
| CodeGenCSharp.FileNameRoundTrip | src/processors/CodeGenLanguageCSharp.js:14-16 | the file name without `.cs` is the pascal-case name |
| CodeGenCSharp.OrFlagsTruthy | src/processors/CodeGenLanguageCSharp.js:25 | the or of the two flags is truthy exactly when either operand, read as a 32-bit integer, is non-zero |
| CodeGenCSharp.OrFlagsIdempotent | src/processors/CodeGenLanguageCSharp.js:25 | or-ing the same override in again changes nothing |
| CodeGenCSharp.OverrideAll | src/processors/CodeGenLanguageCSharp.js:18-29 | the override keeps every class, in order, under its key and name |
| CodeGenCSharp.OverrideOnlyVisibility | src/processors/CodeGenLanguageCSharp.js:18-29 | no key, no class property but the fields and no field property but `not_visible` changes; `not_visible` becomes truthy exactly when either flag is non-zero |
| CodeGenCSharp.OverrideIdempotent | src/processors/CodeGenLanguageCSharp.js:18-29 | running the override twice is the same as once |
| CodeGenCSharp.ApiSpecs.SpecOverrideProcessing | src/processors/CodeGenLanguageCSharp.js:18-29 | the loops leave `OverrideAll` of the classes |
| CodeGenCSharp.GetTypeForCSharp | src/processors/CodeGenLanguageCSharp.js:159-162 | null exactly for a falsy type |
| CodeGenCSharp.PushEnum | src/processors/CodeGenLanguageCSharp.js:72-83 | creates the reference and list when absent, records the enum, and pushes it only when its `field_or_param` is not yet listed |
| CodeGenCSharp.RecordedUnique | src/processors/CodeGenLanguageCSharp.js:76-83 | a reference its list records holds each `field_or_param` once |
| CodeGenCSharp.EnumReferenceUnique | src/processors/CodeGenLanguageCSharp.js:129-138 | after processing, each `field_or_param` appears at most once in a class's enum reference |
| CodeGenCSharp.ParamStep | src/processors/CodeGenLanguageCSharp.js:46-101 | a file parameter is removed; any other keeps name and type, `params` is flagged, and a typed one gets a C# type, `mapType` of its type when its base type is no enum; the enum records stay consistent |
| CodeGenCSharp.ParamTypeRules | src/processors/CodeGenLanguageCSharp.js:66-101 | an enum base type makes an enum parameter whose C# base type names the enum and whose C# type is the mapped type with the enum in place of the base type, recorded unless a node declares it; otherwise the mapped type, with `String` flagging a string |
| CodeGenCSharp.ParamsStepAt | src/processors/CodeGenLanguageCSharp.js:45-102 | every slot after the loop keeps the promise about its parameter |
| CodeGenCSharp.PresentNames | src/processors/CodeGenLanguageCSharp.js:103-105 | after the filter the kept parameters are exactly the non-file ones, in order |
| CodeGenCSharp.PresentMembers | src/processors/CodeGenLanguageCSharp.js:103-105 | the filter keeps exactly the values left in the slots |
| CodeGenCSharp.ApiFiltering | src/processors/CodeGenLanguageCSharp.js:45-105 | uploads are allowed exactly when they were or a file parameter was removed; the others are kept in order, flagged and typed, a parameter whose base type is no enum by `mapType` of its type |
| CodeGenCSharp.ApiStep | src/processors/CodeGenLanguageCSharp.js:43-106 | an API without parameters is unchanged, one with parameters keeps a parameter list, and the enum records stay consistent |
| CodeGenCSharp.ApisStep | src/processors/CodeGenLanguageCSharp.js:43-106 | one API comes out for each API of a class, and the enum records stay consistent |
| CodeGenCSharp.ApisStepAt | src/processors/CodeGenLanguageCSharp.js:43-106 | the API at each position keeps the `ApiFiltering` rules, or is unchanged without parameters |
| CodeGenCSharp.ApisStepApis | src/processors/CodeGenLanguageCSharp.js:43-106 | every API of a class keeps the `ApiFiltering` rules, or is unchanged without parameters |
| CodeGenCSharp.ProcessParam | src/processors/CodeGenLanguageCSharp.js:46-101 | the loop body equals `ParamStep` |
| CodeGenCSharp.ProcessParams | src/processors/CodeGenLanguageCSharp.js:45-105 | the parameter loop and the filter equal `ApiStep` |
| CodeGenCSharp.ProcessApis | src/processors/CodeGenLanguageCSharp.js:43-106 | the API loop equals `ApisStep`, so every API keeps the `ApiFiltering` rules |
| CodeGenCSharp.NameAvoidsClass | src/processors/CodeGenLanguageCSharp.js:147-153 | a regular field's C# name never equals its class name, and is the pascal name unless they clash |
| CodeGenCSharp.FieldFlagRules | src/processors/CodeGenLanguageCSharp.js:114-122 | an enum type makes an enum field; a class base type makes a node with the mapped base type |
| CodeGenCSharp.FieldFlags | src/processors/CodeGenLanguageCSharp.js:114-122 | only the enum, node and node-base-type flags of a field change |
| CodeGenCSharp.FieldTypeRules | src/processors/CodeGenLanguageCSharp.js:123-146 | the C# type puts the enum of the base type in its place and records the enum; otherwise `List<KeyValue>` for a key-value field, or the mapped type |
| CodeGenCSharp.TypeField | src/processors/CodeGenLanguageCSharp.js:114-146 | only the flags and the C# type change; a key-value field without an enum gets `List<KeyValue>`; the enum records stay consistent |
| CodeGenCSharp.FieldStep | src/processors/CodeGenLanguageCSharp.js:109-153 | a field keeps its own properties, is a root node exactly when its type is a class with get and id, gets `mapType` of its type (or `List<KeyValue>`) when its base type is no enum, and gets its C# name |
| CodeGenCSharp.FieldsStepAt | src/processors/CodeGenLanguageCSharp.js:108-154 | every field after the loop keeps the promise about fields |
| CodeGenCSharp.ProcessFieldType | src/processors/CodeGenLanguageCSharp.js:114-146 | the typed part of the loop body equals `TypeField` |
| CodeGenCSharp.ProcessField | src/processors/CodeGenLanguageCSharp.js:109-153 | the field loop body equals `FieldStep` |
| CodeGenCSharp.ProcessFields | src/processors/CodeGenLanguageCSharp.js:108-154 | the field loop equals `FieldsStep` |
| CodeGenCSharp.ClassStep | src/processors/CodeGenLanguageCSharp.js:41-155 | a class keeps its name, `has_get`, `has_id` and numbers of APIs and fields; every API keeps the `ApiFiltering` rules, so no file parameter is left, and every field keeps the field promise |
| CodeGenCSharp.ProcessAll | src/processors/CodeGenLanguageCSharp.js:41-155 | which classes exist, with their `has_get` and `has_id`, is unchanged, so root-node tests see the input's classes; every class keeps the class promise, APIs and fields included |
| CodeGenCSharp.ApiSpecs.PreMustacheProcess | src/processors/CodeGenLanguageCSharp.js:31-157 | the class loop over the live dictionary equals `ProcessAll`, and consistent enum records stay consistent |

## Left out

- Transport and async plumbing: `ExecuteInternal` and `SendAsync` (ApiRequestBase.cs:113-129), and stream reading in `GetJson`/`GetJToken` (JsonUtils.cs:41-55). These are I/O. Execution ends at the `HttpRequest` value handed to the transport. The status test feeding `ThrowError` goes with it.
- Newtonsoft internals, because they are library code:
  - reflection-based `ToObject<T>` of the item types `T`;
  - camelCase contract resolution;
  - `SerializeObject` and its `StringBuilder`;
  - the indented text of a container.

  These are the injected `Serializer` and `Codec`. The extension-data setter is modelled only as how many times it has been wrapped. `ReadJson`'s `hasExistingValue` is ignored, as in the source.
- `UrlEncoder.Default.Encode` is an injected function, because its safe set is library-defined. The byte layout of `FormUrlEncodedContent` and `MultipartFormDataContent` is left out; only the choice of parts and their order are modelled.
- HMAC-SHA256 is an injected function returning 32 bytes, because it is a foreign crypto call.
- Floating point:
  - `ToUnixTime` uses whole seconds, so the double rounding of `TotalSeconds` is not modelled;
  - Float tokens, Guid, Uri and TimeSpan are opaque values;
  - a date is its whole seconds.
- The regular-expression table and fixpoint loop of `getTypeForCSharp` (CodeGenLanguageCSharp.js:164-192) are the injected `mapType`, because their termination is not evident. Only the null guard is modelled.
- The `codeGenNameConventions` parameter and the `keywords` list are not used by the processor.
- JavaScript object semantics the model does not reproduce:
  - prototype keys such as `constructor` make `enumMetadataMap[x]` and `APISpecs[x]` truthy for absent names; lookups here see own keys only;
  - `for...in` visits integer-like keys first; the model uses the given key order;
  - a missing field type looks up the class named `undefined`; here it looks up the empty name;
  - `$` patterns in `replace` replacement strings are not modelled;
  - enum metadata is always a truthy object.
- Specification values the model does not admit:
  - a `null` element in a parameter array (the source would throw on it);
  - a non-string type (a missing or empty type is the empty string);
  - a non-integral visibility flag.
- Specification objects are values: an enum metadata object pushed into several classes is copied, not shared.
- `UseVideoEndpoint` is stored but never read by the modelled code.
- `ReturnFields` of `ApiRequestBase` is a `HashSet` enumerated in insertion order. That is what .NET does for a set that is only added to, but it is not documented.
- `url.IndexOf("?")` is culture-sensitive in .NET; it is modelled as ordinal, which agrees for `?`.
- Json.MatchesName compares names by an upper-case map that is exact only for the characters that reach ASCII letters (the ASCII letters, dotless `ı` and long `ſ`). Member names are ASCII, so other characters matter only in matching each other, and the model treats them as distinct.
- Paging.PagingOfObject, Paging.CursorsOfObject and JsonUtils.EdgeOf do not model Newtonsoft's metadata properties. A leading `$ref`, `$id`, `$type` or `$values` is read by `ReadMetadataProperties` before the members: `{"$ref":"x","data":[1],"summary":1}` makes `ToObject<Edge>()` throw, and a leading `$id` is consumed. The model reads such a property as one more unmatched name. Reference resolution is serializer state this model does not have.
- Paging.ReadsAsString: tokens of kind `KNone`, `Property` and `OutOfRange`, which parsing JSON text never produces, are read as their literal text. A comment token fails a string member. For `summary` and for unmatched properties it is modelled as an ordinary value, whereas the reader skips comments and reads the token after them.
- A `JObject` cannot hold two properties of one name. The model's objects can, and `RequestModel.ToParamsKept` requires distinct names accordingly.
- The exception classes (`ApiRequestException`, `MalformedResponseException`) and `ErrorResponse` are the `Error` datatype. The wire-name mapping of `ErrorResponse` is not modelled.
- `ApiNode`, `ApiNodeRequest` and the data-only classes `ApiPaging`, `ApiCursors` and `ApiNodeList` appear only as the values the modelled code reads and writes.
- Thread safety of the `AppSecretProof` getter is not modelled.
- RequestUtils.ParamToString: an integer is written as its invariant decimal digits. This takes the serializer's output for an integer as given; other values go through the injected `serialize`.
- CodeGenCSharp.OverrideAll: its own contract keeps only the classes' order, keys and names. What changes inside a class is stated by `OverrideOnlyVisibility` and `OverrideIdempotent`.

## Findings

| source | as written | input that shows it | evidently intended | confidence | as-written member | corrected member |
|---|---|---|---|---|---|---|
| templates/csharp/src/Facebook.Business/JsonUtils.cs:68-86 | `ResolveContract` wraps the contract's extension-data setter each time it is called. The default resolver caches contracts, so a second resolution of the same `ApiNode` type makes the rewrite run twice, and the second run drops the `nextPageCursor` the first derived. | resolving an `ApiNode` type twice, then reading the extension value `{"data":[{"id":"1"}],"paging":{"cursors":{"after":"C1"},"next":"https://x"},"summary":1}`: one rewrite gives data, summary and `nextPageCursor` `"C1"`; two give only data and summary | each contract is wrapped once, so the value is rewritten once | medium, not executed | JsonUtils.ResolveContract, JsonUtils.RewriteNotIdempotent | JsonUtils.ResolveContractOnce, JsonUtils.OnceResolvedStoresRewrite |

Where the code and its description differ, this model follows the code:
- `nextPageCursor` comes only from `paging.cursors.after`. It is never parsed out of the `next` URL (`JsonUtils.NextUrlAloneGivesNoCursor`).
- A nested edge's items are kept as raw tokens and are not decoded recursively.
