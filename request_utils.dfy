/** `RequestUtils`: the text of a parameter value, the query string of a
    GET or DELETE, the body of a POST (form-encoded, or multipart when a
    stream is among the parameters) and appending one pair to a URL. */
module RequestUtils {
  import opened Wrappers
  import opened Strings
  import opened Errors
  import opened Values
  import opened Dict

  /** Seconds from 0001-01-01T00:00:00 to the Unix epoch 1970-01-01T00:00:00. */
  const EpochSeconds: int := 62135596800

  /** What the encoding borrows from libraries: `UrlEncoder.Default.Encode`,
      and `JsonUtils.SerializeObject` for a value with no plainer text. */
  datatype Codec = Codec(urlEncode: string -> string, serialize: Value -> string)

  /** `ToUnixTime`: whole seconds since the Unix epoch. */
  function ToUnixTime(seconds: int): int {
    seconds - EpochSeconds
  }

  /** `ParamToString`. An integer goes through the JSON serializer, which
      writes its invariant-culture decimal digits. */
  function ParamToString(v: Value, c: Codec): (r: string)
    ensures v.VBool? ==> (r == "true" <==> v.b) && (r == "false" <==> !v.b)
    ensures v.VDate? ==> ParseInt(r) == Some(v.seconds - EpochSeconds)
    ensures v.VInt? ==> ParseInt(r) == Some(v.i)
  {
    match v
    case VNull => "null"
    case VString(s) => s
    case VBool(b) => if b then "true" else "false"
    case VDate(seconds) => IntToStringRoundTrip(ToUnixTime(seconds)); IntToString(ToUnixTime(seconds))
    case VStrings(items) => Join(",", items)
    case VInt(i) => IntToStringRoundTrip(i); IntToString(i)
    case _ => c.serialize(v)
  }

  /** The Unix epoch prints as `0`. */
  lemma DateRoundTrip(c: Codec)
    ensures ParamToString(VDate(EpochSeconds), c) == "0"
  {
  }

  /** A list of strings without commas splits back at the commas. */
  lemma StringsRoundTrip(items: seq<string>, c: Codec)
    requires |items| > 0 && forall i :: 0 <= i < |items| ==> ',' !in items[i]
    ensures Split(ParamToString(VStrings(items), c), ',') == items
  {
    SplitJoin(items, ',');
  }

  /** One `key=value` pair of a query string, both halves URL-encoded. */
  function Pair(kv: (string, Value), c: Codec): string {
    c.urlEncode(kv.0) + "=" + c.urlEncode(ParamToString(kv.1, c))
  }

  function Pairs(ps: Entries<Value>, c: Codec): (r: seq<string>)
    ensures |r| == |ps| && forall i :: 0 <= i < |ps| ==> r[i] == Pair(ps[i], c)
  {
    seq(|ps|, i requires 0 <= i < |ps| => Pair(ps[i], c))
  }

  /** The query string of a parameter sequence: empty when there are no
      parameters, otherwise `?` and the pairs in order, `&` between them. */
  function QueryOf(ps: Entries<Value>, c: Codec): string {
    if |ps| == 0 then "" else "?" + Join("&", Pairs(ps, c))
  }

  /** `ToQueryString`. */
  method ToQueryString(ps: Entries<Value>, c: Codec) returns (q: string)
    ensures q == QueryOf(ps, c)
    ensures q == "" <==> |ps| == 0
  {
    var builder := "";
    var i := 0;
    while i < |ps|
      invariant 0 <= i <= |ps|
      invariant builder == QueryOf(ps[..i], c)
      invariant |builder| == 0 <==> i == 0
    {
      if |builder| == 0 {
        builder := builder + "?";
      } else {
        builder := builder + "&";
      }
      builder := builder + c.urlEncode(ps[i].0) + "=" + c.urlEncode(ParamToString(ps[i].1, c));
      assert Pairs(ps[..i + 1], c) == Pairs(ps[..i], c) + [Pair(ps[i], c)];
      JoinSnoc("&", Pairs(ps[..i], c), Pair(ps[i], c));
      i := i + 1;
    }
    assert ps[..i] == ps;
    if |builder| == 0 {
      return "";
    }
    return builder;
  }

  /** When the encoder never emits `&`, a query string splits back into its
      pairs after the leading `?`. */
  lemma QuerySplits(ps: Entries<Value>, c: Codec)
    requires |ps| > 0
    requires forall s :: '&' !in c.urlEncode(s)
    ensures var q := QueryOf(ps, c);
      q[0] == '?' && Split(q[1..], '&') == Pairs(ps, c)
  {
    var pairs := Pairs(ps, c);
    forall i | 0 <= i < |pairs|
      ensures '&' !in pairs[i]
    {
      var k := c.urlEncode(ps[i].0);
      var v := c.urlEncode(ParamToString(ps[i].1, c));
      assert pairs[i] == k + "=" + v;
      assert '&' !in k && '&' !in v;
    }
    SplitJoin(pairs, '&');
    assert QueryOf(ps, c)[1..] == Join("&", pairs);
  }

  /** One part of a multipart body. */
  datatype Part = FormPart(values: Entries<string>) | StreamPart(name: string, stream: nat)

  /** The body of a POST. */
  datatype Content = FormUrlEncoded(values: Entries<string>) | Multipart(parts: seq<Part>)

  /** The two dictionaries `CreateContent` fills, after the given
      parameters: streams by key, and every other value as its text. Each
      `Add` raises on a key already in the same dictionary. */
  function Partition(ps: Entries<Value>, c: Codec): (r: Result<(Entries<string>, Entries<nat>)>)
    ensures r.Err? ==> r.error.DuplicateKey?
    decreases |ps|
  {
    if |ps| == 0 then Ok(([], []))
    else
      var acc :- Partition(ps[..|ps| - 1], c);
      var kv := ps[|ps| - 1];
      if kv.1.VStream? then
        var files :- Add(acc.1, kv.0, kv.1.handle);
        Ok((acc.0, files))
      else
        var values :- Add(acc.0, kv.0, ParamToString(kv.1, c));
        Ok((values, acc.1))
  }

  /** The body built from the two dictionaries: multipart, with the form
      part first and one part per stream named by its key, when there is a
      stream; form-encoded otherwise. */
  function ContentOf(values: Entries<string>, files: Entries<nat>): Content {
    if |files| > 0 then
      Multipart([FormPart(values)] + seq(|files|, i requires 0 <= i < |files| => StreamPart(files[i].0, files[i].1)))
    else FormUrlEncoded(values)
  }

  function CreateContentSpec(ps: Entries<Value>, c: Codec): Result<Content> {
    var acc :- Partition(ps, c);
    Ok(ContentOf(acc.0, acc.1))
  }

  /** `CreateContent`. */
  method CreateContent(ps: Entries<Value>, c: Codec) returns (r: Result<Content>)
    ensures r == CreateContentSpec(ps, c)
  {
    var files: Entries<nat> := [];
    var values: Entries<string> := [];
    var i := 0;
    while i < |ps|
      invariant 0 <= i <= |ps|
      invariant Partition(ps[..i], c) == Ok((values, files))
    {
      var (key, value) := ps[i];
      PartitionNext(ps, i, c);
      if value.VStream? {
        var added := Add(files, key, value.handle);
        if added.Err? {
          PartitionErrSticks(ps, i + 1, c);
          return Err(added.error);
        }
        files := added.value;
      } else {
        var added := Add(values, key, ParamToString(value, c));
        if added.Err? {
          PartitionErrSticks(ps, i + 1, c);
          return Err(added.error);
        }
        values := added.value;
      }
      i := i + 1;
    }
    assert ps[..i] == ps;
    r := Ok(ContentOf(values, files));
  }

  /** One more parameter: added to the files when it is a stream, to the
      form values as text otherwise. */
  lemma PartitionNext(ps: Entries<Value>, i: nat, c: Codec)
    requires i < |ps| && Partition(ps[..i], c).Ok?
    ensures var (values, files) := Partition(ps[..i], c).value;
      var (key, value) := ps[i];
      Partition(ps[..i + 1], c)
        == if value.VStream? then
             match Add(files, key, value.handle) case Err(e) => Err(e) case Ok(f) => Ok((values, f))
           else
             match Add(values, key, ParamToString(value, c)) case Err(e) => Err(e) case Ok(v) => Ok((v, files))
  {
    var pre := ps[..i + 1];
    assert pre[..|pre| - 1] == ps[..i] && pre[|pre| - 1] == ps[i];
  }

  /** A partition places every parameter in exactly one of the two
      dictionaries, and neither holds a key twice. */
  lemma {:induction false} PartitionDistinct(ps: Entries<Value>, c: Codec)
    ensures var r := Partition(ps, c);
      r.Ok? ==> |r.value.0| + |r.value.1| == |ps| && Distinct(r.value.0) && Distinct(r.value.1)
    decreases |ps|
  {
    if |ps| > 0 {
      PartitionDistinct(ps[..|ps| - 1], c);
    }
  }

  /** A failure on a prefix is the failure of the whole. */
  lemma {:induction false} PartitionErrSticks(ps: Entries<Value>, n: nat, c: Codec)
    requires n <= |ps| && Partition(ps[..n], c).Err?
    ensures Partition(ps, c) == Partition(ps[..n], c)
    decreases |ps| - n
  {
    if n < |ps| {
      assert ps[..n + 1][..n] == ps[..n];
      PartitionErrSticks(ps, n + 1, c);
    } else {
      assert ps[..n] == ps;
    }
  }

  /** The non-stream parameters with their text, in order. */
  function FormEntries(ps: Entries<Value>, c: Codec): Entries<string>
    decreases |ps|
  {
    if |ps| == 0 then []
    else if ps[|ps| - 1].1.VStream? then FormEntries(ps[..|ps| - 1], c)
    else FormEntries(ps[..|ps| - 1], c) + [(ps[|ps| - 1].0, ParamToString(ps[|ps| - 1].1, c))]
  }

  /** The stream parameters, in order. */
  function StreamEntries(ps: Entries<Value>): Entries<nat>
    decreases |ps|
  {
    if |ps| == 0 then []
    else if ps[|ps| - 1].1.VStream? then StreamEntries(ps[..|ps| - 1]) + [(ps[|ps| - 1].0, ps[|ps| - 1].1.handle)]
    else StreamEntries(ps[..|ps| - 1])
  }

  /** A successful partition puts every non-stream parameter, as text, in
      the form values and every stream among the files, each in order. */
  lemma {:induction false} PartitionContents(ps: Entries<Value>, c: Codec)
    ensures Partition(ps, c).Ok? ==> Partition(ps, c).value == (FormEntries(ps, c), StreamEntries(ps))
    decreases |ps|
  {
    if |ps| > 0 {
      PartitionContents(ps[..|ps| - 1], c);
    }
  }

  /** Parameters with distinct keys always partition. */
  lemma {:induction false} DistinctPartitions(ps: Entries<Value>, c: Codec)
    requires Distinct(ps)
    ensures Partition(ps, c).Ok?
    decreases |ps|
  {
    if |ps| > 0 {
      var init := ps[..|ps| - 1];
      assert Distinct(init);
      DistinctPartitions(init, c);
      PartitionContents(init, c);
      var k := ps[|ps| - 1].0;
      KeysFiltered(init, c, k);
    }
  }

  /** A key that no parameter has is a key of neither dictionary. */
  lemma {:induction false} KeysFiltered(ps: Entries<Value>, c: Codec, k: string)
    requires k !in Keys(ps)
    ensures k !in Keys(FormEntries(ps, c)) && k !in Keys(StreamEntries(ps))
    decreases |ps|
  {
    if |ps| > 0 {
      var init := ps[..|ps| - 1];
      assert Keys(init) == Keys(ps)[..|ps| - 1];
      KeysFiltered(init, c, k);
      var last := ps[|ps| - 1];
      if last.1.VStream? {
        assert Keys(StreamEntries(init) + [(last.0, last.1.handle)]) == Keys(StreamEntries(init)) + [last.0];
      } else {
        assert Keys(FormEntries(init, c) + [(last.0, ParamToString(last.1, c))]) == Keys(FormEntries(init, c)) + [last.0];
      }
    }
  }

  /** There are stream entries exactly when some parameter is a stream. */
  lemma {:induction false} StreamEntriesNonEmpty(ps: Entries<Value>)
    ensures |StreamEntries(ps)| > 0 <==> exists i :: 0 <= i < |ps| && ps[i].1.VStream?
    decreases |ps|
  {
    if |ps| > 0 {
      var init := ps[..|ps| - 1];
      StreamEntriesNonEmpty(init);
      if exists i :: 0 <= i < |init| && init[i].1.VStream? {
        var i :| 0 <= i < |init| && init[i].1.VStream?;
        assert ps[i].1.VStream?;
      }
    }
  }

  /** The body is multipart exactly when at least one value is a stream;
      its first part is the form part holding every non-stream parameter,
      followed by one part per stream, named by its key, in order. */
  lemma MultipartIffStream(ps: Entries<Value>, c: Codec)
    requires CreateContentSpec(ps, c).Ok?
    ensures var body := CreateContentSpec(ps, c).value;
      && (body.Multipart? <==> exists i :: 0 <= i < |ps| && ps[i].1.VStream?)
      && (body.FormUrlEncoded? ==> body.values == FormEntries(ps, c))
      && (body.Multipart? ==>
            && |body.parts| == 1 + |StreamEntries(ps)|
            && body.parts[0] == FormPart(FormEntries(ps, c))
            && forall i :: 0 <= i < |StreamEntries(ps)| ==>
                 body.parts[i + 1] == StreamPart(StreamEntries(ps)[i].0, StreamEntries(ps)[i].1))
  {
    PartitionContents(ps, c);
    StreamEntriesNonEmpty(ps);
    assert CreateContentSpec(ps, c).value == ContentOf(FormEntries(ps, c), StreamEntries(ps));
    ContentOfParts(FormEntries(ps, c), StreamEntries(ps));
  }

  /** The shape of a body built from its two dictionaries. */
  lemma ContentOfParts(values: Entries<string>, files: Entries<nat>)
    ensures var body := ContentOf(values, files);
      && (body.Multipart? <==> |files| > 0)
      && (body.FormUrlEncoded? ==> body.values == values)
      && (body.Multipart? ==>
            && |body.parts| == 1 + |files|
            && body.parts[0] == FormPart(values)
            && forall i :: 0 <= i < |files| ==> body.parts[i + 1] == StreamPart(files[i].0, files[i].1))
  {
  }

  /** A form entry is exactly a non-stream parameter with its text. */
  lemma {:induction false} FormEntriesMembers(ps: Entries<Value>, c: Codec, kv: (string, string))
    ensures kv in FormEntries(ps, c)
      <==> exists i :: 0 <= i < |ps| && !ps[i].1.VStream? && kv == (ps[i].0, ParamToString(ps[i].1, c))
    decreases |ps|
  {
    if |ps| > 0 {
      var init := ps[..|ps| - 1];
      FormEntriesMembers(init, c, kv);
      if exists i :: 0 <= i < |init| && !init[i].1.VStream? && kv == (init[i].0, ParamToString(init[i].1, c)) {
        var i :| 0 <= i < |init| && !init[i].1.VStream? && kv == (init[i].0, ParamToString(init[i].1, c));
        assert ps[i] == init[i];
      }
      if exists i :: 0 <= i < |ps| && !ps[i].1.VStream? && kv == (ps[i].0, ParamToString(ps[i].1, c)) {
        var i :| 0 <= i < |ps| && !ps[i].1.VStream? && kv == (ps[i].0, ParamToString(ps[i].1, c));
        if i < |ps| - 1 {
          assert init[i] == ps[i];
        }
      }
    }
  }

  /** `AddQueryString`: the encoded pair joins with `&` when `?` occurs at
      an index greater than 0, and with `?` otherwise. */
  function AddQueryString(url: string, name: string, value: Value, c: Codec): (r: string)
    ensures |r| > |url| && r[..|url|] == url && (r[|url|] == '&' || r[|url|] == '?')
  {
    var encoded := c.urlEncode(name) + "=" + c.urlEncode(ParamToString(value, c));
    if IndexOf(url, "?") > 0 then url + "&" + encoded else url + "?" + encoded
  }

  /** The three cases of `AddQueryString`: a URL with a query joins with
      `&`, one without gets `?`, and one that starts with `?` gets a second
      `?`. */
  lemma AddQueryStringCases(url: string, name: string, value: Value, c: Codec)
    ensures var encoded := c.urlEncode(name) + "=" + c.urlEncode(ParamToString(value, c));
      && ('?' !in url ==> AddQueryString(url, name, value, c) == url + "?" + encoded)
      && (|url| > 0 && url[0] == '?' ==> AddQueryString(url, name, value, c) == url + "?" + encoded)
      && (|url| > 0 && url[0] != '?' && '?' in url ==> AddQueryString(url, name, value, c) == url + "&" + encoded)
  {
    IndexOfChar(url, '?');
  }

  /** Where a one-character string first occurs. */
  lemma IndexOfChar(s: string, ch: char)
    ensures IndexOf(s, [ch]) == -1 <==> ch !in s
    ensures IndexOf(s, [ch]) == 0 <==> |s| > 0 && s[0] == ch
  {
    forall j | 0 <= j < |s|
      ensures OccursAt(s, [ch], j) <==> s[j] == ch
    {
      assert s[j..j + 1] == [s[j]];
    }
  }
}
