/**
 * Request bodies: form URL encoding and multipart/form-data framing. The URL
 * encoder and the file-name-to-content-type guess are parameters.
 */
module Content {
  import opened Wrappers
  import opened Text
  import opened Errors

  /** A request body and its content type. */
  datatype HttpContent = HttpContent(contentType: string, content: seq<byte>)

  const FormContentType: string := "application/x-www-form-urlencoded"
  const LineBreak: string := "\r\n"

  // ---------------------------------------------------------------------------
  // Form URL encoding

  function EncodedPair(pair: (string, string), enc: string -> string): string {
    enc(pair.0) + "=" + enc(pair.1)
  }

  function EncodedPairs(params: seq<(string, string)>, enc: string -> string): (r: seq<string>)
    ensures |r| == |params|
  {
    seq(|params|, i requires 0 <= i < |params| => EncodedPair(params[i], enc))
  }

  /** The form body: the encoded pairs in order, joined by "&"; empty exactly when there are no parameters. */
  function FormBody(params: Option<seq<(string, string)>>, enc: string -> string): (r: string)
    ensures |r| == 0 <==> params.None? || |params.value| == 0
  {
    match params
    case None => ""
    case Some(ps) => Join(EncodedPairs(ps, enc), "&")
  }

  /** The specification of buildFormURLEncodedContent. */
  function FormContent(params: Option<seq<(string, string)>>, enc: string -> string): HttpContent {
    HttpContent(FormContentType, Utf8(FormBody(params, enc)))
  }

  /**
   * buildFormURLEncodedContent: append "&" before every pair but the first,
   * then the encoded key, "=" and the encoded value; the body goes out as UTF-8.
   */
  method BuildFormURLEncodedContent(params: Option<seq<(string, string)>>, enc: string -> string)
    returns (c: HttpContent)
    ensures c == FormContent(params, enc)
  {
    var sb := "";
    if params.Some? {
      var ps := params.value;
      for i := 0 to |ps|
        invariant sb == Join(EncodedPairs(ps[..i], enc), "&")
        invariant |sb| != 0 <==> i > 0
      {
        FormBodySnoc(ps, i, enc);
        if |sb| != 0 {
          sb := sb + "&";
        }
        sb := sb + enc(ps[i].0) + "=" + enc(ps[i].1);
      }
      assert ps[..|ps|] == ps;
    }
    c := HttpContent(FormContentType, Utf8(sb));
  }

  /** One more pair appends "&" (unless it is the first) and then "key=value". */
  lemma FormBodySnoc(ps: seq<(string, string)>, i: nat, enc: string -> string)
    requires i < |ps|
    ensures |Join(EncodedPairs(ps[..i], enc), "&")| != 0 <==> i > 0
    ensures Join(EncodedPairs(ps[..i + 1], enc), "&") ==
      (if i > 0 then Join(EncodedPairs(ps[..i], enc), "&") + "&" else "") + enc(ps[i].0) + "=" + enc(ps[i].1)
  {
    var done, pair := EncodedPairs(ps[..i], enc), EncodedPair(ps[i], enc);
    assert EncodedPairs(ps[..i + 1], enc) == done + [pair];
    var prefix := if i > 0 then Join(done, "&") + "&" else "";
    if i > 0 {
      JoinAppend(done, pair, "&");
      assert |done[|done| - 1]| > 0;
    } else {
      assert done + [pair] == [pair];
    }
    assert Join(done + [pair], "&") == prefix + pair;
    assert prefix + pair == prefix + enc(ps[i].0) + "=" + enc(ps[i].1);
  }

  /**
   * With an encoder that never emits '&' or '=' (as URL encoding does not),
   * the body splits at '&' into exactly one "key=value" piece per pair, and
   * each piece splits at '=' into the encoded key and value: no leading,
   * trailing or doubled '&', and the pairs can be read back in order.
   */
  lemma FormBodyPieces(ps: seq<(string, string)>, enc: string -> string)
    requires |ps| > 0
    requires forall s :: '&' !in enc(s) && '=' !in enc(s)
    ensures SplitOn(FormBody(Some(ps), enc), '&') == EncodedPairs(ps, enc)
    ensures forall i :: 0 <= i < |ps| ==> SplitOn(EncodedPairs(ps, enc)[i], '=') == [enc(ps[i].0), enc(ps[i].1)]
  {
    var pieces := EncodedPairs(ps, enc);
    forall i | 0 <= i < |ps|
      ensures '&' !in pieces[i]
      ensures SplitOn(pieces[i], '=') == [enc(ps[i].0), enc(ps[i].1)]
    {
      var k, v := enc(ps[i].0), enc(ps[i].1);
      assert '&' !in k && '&' !in v && '=' !in k && '=' !in v;
      assert pieces[i] == k + ['='] + v;
      SplitOnPair(k, v, '=');
    }
    SplitOnJoin(pieces, '&');
  }

  // ---------------------------------------------------------------------------
  // Multipart framing

  /** The value of a multipart field: a string, a named stream, or anything else. */
  datatype FieldValue =
    | Text(text: string)
    | Stream(fileName: string, data: seq<byte>)
    | OtherValue(typeName: string)
    | NullValue

  /** The header lines and blank line that precede a stream field's raw bytes. */
  function StreamHeader(boundary: string, key: string, fileName: string, contentType: Option<string>): string {
    var probableContentType := match contentType case Some(t) => t case None => "null";
    "--" + boundary + LineBreak +
    "Content-Disposition: form-data; name=\"" + key + "\"; filename=\"" + fileName + "\"" + LineBreak +
    "Content-Type: " + probableContentType + LineBreak +
    "Content-Transfer-Encoding: binary" + LineBreak +
    LineBreak
  }

  /** The whole of a string field. */
  function TextPart(boundary: string, key: string, text: string): string {
    "--" + boundary + LineBreak +
    "Content-Disposition: form-data; name=\"" + key + "\"" + LineBreak +
    LineBreak +
    text + LineBreak
  }

  /** The bytes one field contributes, or the exception it raises. */
  function Part(boundary: string, field: (string, FieldValue), guess: string -> Option<string>): Result<seq<byte>, Error> {
    match field.1
    case Stream(fileName, data) =>
      Success(Utf8(StreamHeader(boundary, field.0, fileName, guess(fileName))) + data + Utf8(LineBreak))
    case Text(text) => Success(Utf8(TextPart(boundary, field.0, text)))
    case OtherValue(typeName) => Failure(BuildFailed(typeName))
    case NullValue => Failure(NullReference)
  }

  /** The outcome so far followed by one more part's: the first exception wins. */
  function Then(sofar: Result<seq<byte>, Error>, next: Result<seq<byte>, Error>): (r: Result<seq<byte>, Error>)
    ensures r.Success? <==> sofar.Success? && next.Success?
    ensures r.Success? ==> r.value == sofar.value + next.value
    ensures sofar.Failure? ==> r == sofar
  {
    match sofar
    case Failure(e) => Failure(e)
    case Success(init) =>
      match next
      case Failure(e) => Failure(e)
      case Success(last) => Success(init + last)
  }

  /** The outcomes of f on xs, one after the other: the bytes in order, or the first exception. */
  function Fold<T>(xs: seq<T>, f: T -> Result<seq<byte>, Error>): Result<seq<byte>, Error> {
    if |xs| == 0 then Success([])
    else Then(Fold(xs[..|xs| - 1], f), f(xs[|xs| - 1]))
  }

  /** Part with the boundary and the content-type guess fixed. */
  function PartWith(boundary: string, guess: string -> Option<string>): ((string, FieldValue)) -> Result<seq<byte>, Error> {
    field => Part(boundary, field, guess)
  }

  /** The fields' parts in order, or the exception of the first field that has none. */
  function Parts(boundary: string, fields: seq<(string, FieldValue)>, guess: string -> Option<string>): Result<seq<byte>, Error> {
    Fold(fields, PartWith(boundary, guess))
  }

  predicate EndsWithBytes(s: seq<byte>, suffix: seq<byte>) {
    |suffix| <= |s| && s[|s| - |suffix|..] == suffix
  }

  function ClosingLine(boundary: string): string {
    "--" + boundary + "--" + LineBreak
  }

  function MultipartContentType(boundary: string): string {
    "multipart/form-data; boundary=" + boundary
  }

  /**
   * The specification of buildMultipartFormDataContent(params, boundary): a
   * built body ends with the closing line "--boundary--\r\n" and its content
   * type names the boundary.
   */
  function Multipart(params: Option<seq<(string, FieldValue)>>, boundary: string, guess: string -> Option<string>)
    : (r: Result<HttpContent, Error>)
    ensures r.Success? ==> r.value.contentType == "multipart/form-data; boundary=" + boundary
    ensures r.Success? ==> EndsWithBytes(r.value.content, Utf8(ClosingLine(boundary)))
  {
    var fields := match params case None => [] case Some(ps) => ps;
    match Parts(boundary, fields, guess)
    case Failure(e) => Failure(e)
    case Success(body) => Success(HttpContent(MultipartContentType(boundary), body + Utf8(ClosingLine(boundary))))
  }

  /**
   * buildMultipartFormDataContent(params, boundary): write each field's part
   * to the stream in order, then the closing boundary line.
   */
  method BuildMultipartFormDataContent(params: Option<seq<(string, FieldValue)>>, boundary: string,
                                       guess: string -> Option<string>)
    returns (r: Result<HttpContent, Error>)
    ensures r == Multipart(params, boundary, guess)
  {
    var stream: seq<byte> := [];
    var fields := match params case None => [] case Some(ps) => ps;
    for i := 0 to |fields|
      invariant Parts(boundary, fields[..i], guess) == Success(stream)
    {
      assert fields[..i + 1][..i] == fields[..i];
      assert fields[..i + 1][i] == fields[i];
      ghost var before := stream;
      var key := fields[i].0;
      var value := fields[i].1;
      match value {
        case Stream(fileName, data) =>
          var probableContentType := guess(fileName);
          stream := stream + Utf8(StreamHeader(boundary, key, fileName, probableContentType));
          stream := stream + data;
          stream := stream + Utf8(LineBreak);
          assert stream == before + Part(boundary, fields[i], guess).value;
        case Text(text) =>
          stream := stream + Utf8(TextPart(boundary, key, text));
          assert stream == before + Part(boundary, fields[i], guess).value;
        case OtherValue(typeName) =>
          PartsFailureSticks(boundary, fields, i + 1, guess);
          return Failure(BuildFailed(typeName));
        case NullValue =>
          PartsFailureSticks(boundary, fields, i + 1, guess);
          return Failure(NullReference);
      }
    }
    assert fields[..|fields|] == fields;
    stream := stream + Utf8(ClosingLine(boundary));
    return Success(HttpContent(MultipartContentType(boundary), stream));
  }

  /** Once a prefix fails, so does the whole sequence, with the same exception. */
  lemma {:induction false} FoldFailureSticks<T>(xs: seq<T>, n: nat, f: T -> Result<seq<byte>, Error>)
    requires n <= |xs| && Fold(xs[..n], f).Failure?
    ensures Fold(xs, f) == Fold(xs[..n], f)
    decreases |xs|
  {
    if n == |xs| {
      assert xs[..n] == xs;
    } else {
      var init := xs[..|xs| - 1];
      assert init[..n] == xs[..n];
      FoldFailureSticks(init, n, f);
    }
  }

  /** Once a prefix of the fields fails to build, so do all the fields, with the same exception. */
  lemma PartsFailureSticks(boundary: string, fields: seq<(string, FieldValue)>, n: nat, guess: string -> Option<string>)
    requires n <= |fields| && Parts(boundary, fields[..n], guess).Failure?
    ensures Parts(boundary, fields, guess) == Parts(boundary, fields[..n], guess)
  {
    FoldFailureSticks(fields, n, PartWith(boundary, guess));
  }

  lemma FoldSnoc<T>(xs: seq<T>, x: T, f: T -> Result<seq<byte>, Error>)
    ensures Fold(xs + [x], f) == Then(Fold(xs, f), f(x))
  {
    assert (xs + [x])[..|xs|] == xs;
  }

  /** One field alone is framed as its own part. */
  lemma PartsSingle(boundary: string, field: (string, FieldValue), guess: string -> Option<string>)
    ensures Parts(boundary, [field], guess) == Part(boundary, field, guess)
  {
    FoldSnoc([], field, PartWith(boundary, guess));
    assert [] + [field] == [field];
    if Part(boundary, field, guess).Success? {
      assert [] + Part(boundary, field, guess).value == Part(boundary, field, guess).value;
    }
  }

  /** Folding a concatenation concatenates the two folds. */
  lemma {:induction false} FoldAppend<T>(a: seq<T>, b: seq<T>, f: T -> Result<seq<byte>, Error>)
    requires Fold(a, f).Success? && Fold(b, f).Success?
    ensures Fold(a + b, f) == Success(Fold(a, f).value + Fold(b, f).value)
    decreases |b|
  {
    var pa := Fold(a, f).value;
    if |b| == 0 {
      assert a + b == a;
      assert pa + [] == pa;
    } else {
      var init, x := b[..|b| - 1], b[|b| - 1];
      assert b == init + [x];
      assert a + b == (a + init) + [x];
      FoldSnoc(init, x, f);
      FoldAppend(a, init, f);
      FoldSnoc(a + init, x, f);
      var pi, last := Fold(init, f).value, f(x).value;
      assert (pa + pi) + last == pa + (pi + last);
    }
  }

  /** Parts of a concatenation are the concatenation of the parts: fields are framed in order. */
  lemma PartsAppend(boundary: string, a: seq<(string, FieldValue)>, b: seq<(string, FieldValue)>,
                    guess: string -> Option<string>)
    requires Parts(boundary, a, guess).Success? && Parts(boundary, b, guess).Success?
    ensures Parts(boundary, a + b, guess) == Success(Parts(boundary, a, guess).value + Parts(boundary, b, guess).value)
  {
    FoldAppend(a, b, PartWith(boundary, guess));
  }

  /** A fold fails exactly when some element fails, and then with the first failing element's exception. */
  lemma {:induction false} FoldFailure<T>(xs: seq<T>, f: T -> Result<seq<byte>, Error>)
    ensures Fold(xs, f).Success? <==> forall i :: 0 <= i < |xs| ==> f(xs[i]).Success?
    ensures Fold(xs, f).Failure? ==>
      exists i :: 0 <= i < |xs| && f(xs[i]).Failure? &&
        (forall j :: 0 <= j < i ==> f(xs[j]).Success?) && Fold(xs, f).error == f(xs[i]).error
    decreases |xs|
  {
    if |xs| > 0 {
      var init := xs[..|xs| - 1];
      FoldFailure(init, f);
      assert forall i :: 0 <= i < |init| ==> init[i] == xs[i];
    }
  }

  /** The fields that make building fail: those that are neither a string nor a named stream. */
  predicate IsFramable(field: (string, FieldValue)) { field.1.Text? || field.1.Stream? }

  /**
   * Building fails exactly when some field is neither a string nor a named
   * stream, and then with the exception of the first such field.
   */
  lemma PartsFailure(boundary: string, fields: seq<(string, FieldValue)>, guess: string -> Option<string>)
    ensures Parts(boundary, fields, guess).Success? <==> forall i :: 0 <= i < |fields| ==> IsFramable(fields[i])
    ensures Parts(boundary, fields, guess).Failure? ==>
      exists i :: 0 <= i < |fields| && !IsFramable(fields[i]) &&
        (forall j :: 0 <= j < i ==> IsFramable(fields[j])) &&
        Parts(boundary, fields, guess).error == Part(boundary, fields[i], guess).error
  {
    var f := PartWith(boundary, guess);
    FoldFailure(fields, f);
    assert forall i :: 0 <= i < |fields| ==> f(fields[i]) == Part(boundary, fields[i], guess);
  }
}
