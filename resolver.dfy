/**
 * The redirect handler (lambdas/lambda-redirect-url.py): a CloudFront
 * viewer request carries a short code in its URI; the code is looked up in
 * the table and answered with a 302 to the stored target, or to a freshly
 * pre-signed S3 URL when the target is an `s3://` object, or with an
 * error response. Errors travel as exceptions whose text is
 * "status|message" and are turned into responses in one `except` block.
 *
 * Everything is a function of the code and of the collaborators: the
 * table lookup, the S3 pre-signer, `urlparse(...).netloc` and the clock.
 */
module Resolver {
  import opened Wrappers
  import opened Table
  import opened PyText

  // ---------------------------------------------------------------------
  // Responses
  // ---------------------------------------------------------------------

  /** One CloudFront header entry: `name: [{"key": key, "value": value}]`. */
  datatype Header = Header(name: string, key: string, value: string)

  datatype Response = Response(status: int, headers: seq<Header>, body: string)

  /** A response, or an exception that escapes the handler (the invocation fails). */
  datatype Outcome = Reply(response: Response) | Unhandled(exception: string)

  /** The value of the first header entry called `name`. */
  function HeaderValue(headers: seq<Header>, name: string): Option<string>
    decreases |headers|
  {
    if |headers| == 0 then None
    else if headers[0].name == name then Some(headers[0].value)
    else HeaderValue(headers[1..], name)
  }

  predicate HasHeader(headers: seq<Header>, name: string) {
    HeaderValue(headers, name).Some?
  }

  /** Entries that do not carry `name` can be passed over when looking `name` up. */
  lemma {:induction false} HeaderValueSkip(p: seq<Header>, q: seq<Header>, r: seq<Header>, name: string)
    requires forall i :: 0 <= i < |q| ==> q[i].name != name
    ensures HeaderValue(p + q + r, name) == HeaderValue(p + r, name)
    decreases |p| + |q|
  {
    if |p| > 0 {
      assert (p + q + r)[1..] == p[1..] + q + r;
      assert (p + r)[1..] == p[1..] + r;
      HeaderValueSkip(p[1..], q, r, name);
    } else if |q| > 0 {
      assert (p + q + r)[1..] == p + q[1..] + r;
      HeaderValueSkip(p, q[1..], r, name);
    } else {
      assert p + q + r == p + r;
    }
  }

  /** The first entry carrying `name` gives its value. */
  lemma HeaderValueAt(p: seq<Header>, h: Header, r: seq<Header>)
    requires forall i :: 0 <= i < |p| ==> p[i].name != h.name
    ensures HeaderValue(p + [h] + r, h.name) == Some(h.value)
  {
    HeaderValueSkip([], p, [h] + r, h.name);
    assert [] + p + ([h] + r) == p + [h] + r;
    assert [] + ([h] + r) == [h] + r;
  }

  /** A name no entry carries has no value. */
  lemma HeaderValueNone(hs: seq<Header>, name: string)
    requires forall i :: 0 <= i < |hs| ==> hs[i].name != name
    ensures !HasHeader(hs, name)
  {
    HeaderValueSkip([], hs, [], name);
    assert [] + hs + [] == hs;
  }

  const ContentType := Header("content-type", "Content-Type", "text/html; charset=utf-8")
  const AllowOrigin := Header("access-control-allow-origin", "Access-Control-Allow-Origin", "*")
  const Allow := Header("allow", "Allow", "GET, OPTIONS")
  const AllowMethods := Header("access-control-allow-methods", "Access-Control-Allow-Methods", "GET, OPTIONS")
  const AllowHeaders := Header("access-control-allow-headers", "Access-Control-Allow-Headers", "*")

  /** The five headers of every error response. */
  function ErrorHeaders(): (hs: seq<Header>)
    ensures |hs| == 5
  {
    [ContentType, AllowOrigin, Allow, AllowMethods, AllowHeaders]
  }

  /** The seven headers of a redirect: the error headers with Location and Host after Allow. */
  function RedirectHeaders(target: string, host: string): (hs: seq<Header>)
    ensures |hs| == 7
  {
    [ContentType, AllowOrigin, Allow,
     Header("location", "Location", target),
     Header("host", "Host", host),
     AllowMethods, AllowHeaders]
  }

  /** The error headers: content type, CORS and Allow, and neither Location nor Host. */
  lemma ErrorHeadersFacts()
    ensures HeaderValue(ErrorHeaders(), "content-type") == Some("text/html; charset=utf-8")
    ensures HeaderValue(ErrorHeaders(), "access-control-allow-origin") == Some("*")
    ensures HeaderValue(ErrorHeaders(), "allow") == Some("GET, OPTIONS")
    ensures HeaderValue(ErrorHeaders(), "access-control-allow-methods") == Some("GET, OPTIONS")
    ensures HeaderValue(ErrorHeaders(), "access-control-allow-headers") == Some("*")
    ensures !HasHeader(ErrorHeaders(), "location") && !HasHeader(ErrorHeaders(), "host")
  {
    var hs := ErrorHeaders();
    assert "access-control-allow-methods"[21] != "access-control-allow-headers"[21];
    HeaderValueAt([], ContentType, hs[1..]);
    HeaderValueAt(hs[..1], AllowOrigin, hs[2..]);
    HeaderValueAt(hs[..2], Allow, hs[3..]);
    HeaderValueAt(hs[..3], AllowMethods, hs[4..]);
    HeaderValueAt(hs[..4], AllowHeaders, []);
    HeaderValueNone(hs, "location");
    HeaderValueNone(hs, "host");
  }

  /**
   * The redirect headers: Location is the target, Host its network location,
   * and every other name has the value the error headers give it.
   */
  lemma RedirectHeadersFacts(target: string, host: string)
    ensures HeaderValue(RedirectHeaders(target, host), "location") == Some(target)
    ensures HeaderValue(RedirectHeaders(target, host), "host") == Some(host)
    ensures forall name :: name != "location" && name != "host" ==>
              HeaderValue(RedirectHeaders(target, host), name) == HeaderValue(ErrorHeaders(), name)
  {
    var hs := RedirectHeaders(target, host);
    assert hs == hs[..3] + [hs[3]] + hs[4..];
    assert hs == hs[..4] + [hs[4]] + hs[5..];
    HeaderValueAt(hs[..3], hs[3], hs[4..]);
    HeaderValueAt(hs[..4], hs[4], hs[5..]);
    forall name | name != "location" && name != "host"
      ensures HeaderValue(hs, name) == HeaderValue(ErrorHeaders(), name)
    {
      HeaderValueSkip(hs[..3], hs[3..5], hs[5..], name);
      assert hs[..3] + hs[3..5] + hs[5..] == hs;
      assert hs[..3] + hs[5..] == ErrorHeaders();
    }
  }

  // The two fixed error messages.
  const BadRequestMessage := "ERRO 400: " + "Dados " + "necessários " + "não " + "informados."
  const NotFoundMessage := "ERRO 404: " + "O endereço " + "informado " + "não foi " + "localizado."
  const RedirectingBody := "Redirecionando..."

  // ---------------------------------------------------------------------
  // The "status|message" exception encoding
  // ---------------------------------------------------------------------

  /** The text of `raise Exception(f"{status}|{message}")`. */
  function ErrorText(status: nat, message: string): string {
    Decimal(status) + "|" + message
  }

  /**
   * The `except` block: `error = str(err).split("|")`, status `int(error[0])`,
   * body `error[1]`. `int()` on a non-numeric head raises ValueError and a
   * text with no '|' has no `error[1]` (IndexError); both escape the handler.
   */
  function HandleError(text: string): Outcome {
    var parts := Split(text, '|');
    match ParseInt(parts[0])
    case None => Unhandled("ValueError")
    case Some(status) =>
      if |parts| < 2 then Unhandled("IndexError")
      else Reply(Response(status, ErrorHeaders(), parts[1]))
  }

  /** Decoding an encoded error gives its status back, and its message up to the first '|'. */
  lemma ErrorRoundTrip(status: nat, message: string)
    ensures HandleError(ErrorText(status, message))
              == Reply(Response(status, ErrorHeaders(), Split(message, '|')[0]))
    ensures '|' !in message ==>
              HandleError(ErrorText(status, message)) == Reply(Response(status, ErrorHeaders(), message))
  {
    var d := Decimal(status);
    assert '|' !in d by {
      assert forall i :: 0 <= i < |d| ==> IsDigit(d[i]);
    }
    assert ErrorText(status, message) == d + ['|'] + message;
    SplitAtFirst(d, '|', message);
    ParseDecimal(status);
    if '|' !in message {
      SplitWithoutSep(message, '|');
    }
  }

  /** A message that holds a '|' does not survive decoding whole: the body stops at its first '|'. */
  lemma BarInMessageTruncates(status: nat, message: string)
    requires '|' in message
    ensures HandleError(ErrorText(status, message)) != Reply(Response(status, ErrorHeaders(), message))
  {
    ErrorRoundTrip(status, message);
    SplitPiecesLackSep(message, '|');
  }

  /**
   * A text whose head is not a number (such as a KeyError's "'urlOriginal'",
   * or one that starts with '|' and so has an empty head) escapes the handler.
   */
  lemma NonNumericErrorEscapes(text: string)
    requires |text| > 0 && !IsDigit(text[0]) && text[0] != '-' && text[0] != '+'
    ensures HandleError(text) == Unhandled("ValueError")
  {
    var parts := Split(text, '|');
    var rest := Split(text[1..], '|');
    if text[0] == '|' {
      assert parts[0] == "";
    } else {
      assert parts[0] == [text[0]] + rest[0];
      assert parts[0][0] == text[0];
    }
  }

  // ---------------------------------------------------------------------
  // generateS3PreSignedURL
  // ---------------------------------------------------------------------

  const S3Scheme := "s3://"

  /** `urlOriginal[:5].lower() == "s3://"`. */
  predicate IsS3Uri(u: string) {
    Lower(Take(u, 5)) == S3Scheme
  }

  /** The scheme test ignores the case of the 's' and nothing else. */
  lemma S3SchemeCases(u: string)
    ensures IsS3Uri(u) <==> |u| >= 5 && (u[0] == 's' || u[0] == 'S') && u[1..5] == "3://"
  {
    if |u| >= 5 {
      var l := Lower(Take(u, 5));
      if IsS3Uri(u) {
        assert l[0] == 's' && l[1] == '3' && l[2] == ':' && l[3] == '/' && l[4] == '/';
        assert u[1..5] == [u[1], u[2], u[3], u[4]];
      }
      if (u[0] == 's' || u[0] == 'S') && u[1..5] == "3://" {
        assert u[1] == '3' && u[2] == ':' && u[3] == '/' && u[4] == '/';
        assert l == [l[0], l[1], l[2], l[3], l[4]];
      }
    }
  }

  /** `s3URI.replace('s3://', '').split('/')[0]`. */
  function S3Bucket(uri: string): string {
    Split(Replace(uri, S3Scheme, ""), '/')[0]
  }

  /** `s3URI.replace(f"s3://{bucket}/", '')`. */
  function S3Key(uri: string): string {
    Replace(uri, S3Scheme + S3Bucket(uri) + "/", "")
  }

  /** The parameters handed to `generate_presigned_url`. */
  datatype Presign = Presign(bucket: string, key: string, expiresIn: int)

  /** What the pre-signer answers: a URL, or the text of the exception it raised. */
  datatype Signed = SignedUrl(url: string) | SignFailed(message: string)

  /** The request for `uri`, valid until the record's `ttl` as seen at `now` (`int(ttl) - int(time.time())`). */
  function PresignFor(uri: string, ttl: int, now: int): (p: Presign)
    ensures now + p.expiresIn == ttl
    ensures p.bucket == S3Bucket(uri) && p.key == S3Key(uri)
  {
    Presign(S3Bucket(uri), S3Key(uri), ttl - now)
  }

  /** `s3://b/k` splits into bucket `b` and key `k` when `b` has no '/' and no "s3://" follows the scheme. */
  lemma S3UriSplit(b: string, k: string)
    requires '/' !in b
    requires !Contains(b + "/" + k, S3Scheme)
    ensures S3Bucket(S3Scheme + b + "/" + k) == b
    ensures S3Key(S3Scheme + b + "/" + k) == k
  {
    StripThenSplit(S3Scheme, b, '/', k);
    StripLonger(S3Scheme, b, '/', k);
  }

  /** A reference that spells "s3://" again after the scheme loses it on replace: "s3://xs3://y" names bucket "xy". */
  lemma RepeatedSchemeMergesBucket()
    ensures S3Bucket("s3://xs3://y") == "xy"
  {
    var uri := "s3://xs3://y";
    assert uri == S3Scheme + ("x" + (S3Scheme + "y"));
    ReplaceLeading(S3Scheme, "x" + (S3Scheme + "y"), "");
    var t := "x" + (S3Scheme + "y");
    assert t[..5] == "xs3:/";
    assert t[1..] == S3Scheme + "y";
    ReplaceLeading(S3Scheme, "y", "");
    assert Replace("y", S3Scheme, "") == "y";
    assert Replace(uri, S3Scheme, "") == "xy";
    assert Split("xy", '/') == ["xy"] by {
      SplitWithoutSep("xy", '/');
    }
  }

  /**
   * The scheme test is case-insensitive but the replace is not: for
   * "S3://b/k" the pre-signer is asked for bucket "S3:" and the whole URI as key.
   */
  lemma UpperCaseSchemeKept(b: string, k: string)
    requires !Contains(b + "/" + k, S3Scheme)
    ensures IsS3Uri("S3://" + b + "/" + k)
    ensures S3Bucket("S3://" + b + "/" + k) == "S3:"
    ensures S3Key("S3://" + b + "/" + k) == "S3://" + b + "/" + k
  {
    var tail := b + "/" + k;
    var uri := "S3://" + b + "/" + k;
    assert uri == "S3://" + tail;
    S3SchemeCases(uri);
    NoNewOccurrence("S3://", tail, S3Scheme);
    ReplaceAbsent(uri, S3Scheme, "");
    SplitHead(uri, '/', 3);
    assert uri[..3] == "S3:";
    assert S3Scheme + "S3:" + "/" == S3Scheme + "S3:/";
    if Contains(uri, S3Scheme + "S3:/") {
      ContainsLonger(uri, S3Scheme, "S3:/");
    }
    ReplaceAbsent(uri, S3Scheme + "S3:" + "/", "");
  }

  // ---------------------------------------------------------------------
  // redirectURL
  // ---------------------------------------------------------------------

  /**
   * The collaborators of one invocation: the table lookup by `id`, the S3
   * pre-signer, `urlparse(url).netloc`, and `int(time.time())`.
   */
  datatype Env = Env(get: string -> Lookup, presign: Presign -> Signed, netloc: string -> string, now: int)

  /** How the `try` block ends: it returns a response, or raises with this text. */
  datatype Attempt = Returned(response: Response) | Raised(text: string)

  /** The 302 response for a redirect target. */
  function RedirectTo(target: string, env: Env): (r: Response)
    ensures r.status == 302 && r.body == RedirectingBody
    ensures HeaderValue(r.headers, "location") == Some(target)
    ensures HeaderValue(r.headers, "host") == Some(env.netloc(target))
    ensures |r.headers| == 7
  {
    RedirectHeadersFacts(target, env.netloc(target));
    Response(302, RedirectHeaders(target, env.netloc(target)), RedirectingBody)
  }

  // The texts of the ValueError and TypeError that `int()` raises.
  const InvalidLiteral := "invalid literal " + "for int() " + "with base 10: '"
  const IntOfNone := "int() argument " + "must be a string, " + "a bytes-like object " + "or a real number, " + "not 'NoneType'"

  /** `int(v)` for an attribute read from the table. */
  function IntOf(v: Value): Result<int> {
    match v
    case Num(n) => Ok(n)
    case Str(s) =>
      (match ParseInt(s)
       case Some(n) => Ok(n)
       case None => Err(InvalidLiteral + s + "'"))
    case Null => Err(IntOfNone)
  }

  /** The text of the KeyError raised by `item[name]` on a missing attribute. */
  function KeyErrorText(name: string): string {
    "'" + name + "'"
  }

  /** The branch taken once a non-empty item was found for the code. */
  function Dispatch(item: Item, env: Env): Attempt {
    if "urlOriginal" !in item then Raised(KeyErrorText("urlOriginal"))
    else
      match item["urlOriginal"]
      case Num(_) => Raised("'int' object is not subscriptable")
      case Null => Raised("'NoneType' object is not subscriptable")
      case Str(u) =>
        if IsS3Uri(u) then
          if "dataExclusao" !in item then Raised(KeyErrorText("dataExclusao"))
          else
            match IntOf(item["dataExclusao"])
            case Err(t) => Raised(t)
            case Ok(ttl) =>
              match env.presign(PresignFor(u, ttl, env.now))
              case SignFailed(m) => Raised(ErrorText(500, "ERRO 500: " + m))
              case SignedUrl(url) => Returned(RedirectTo(url, env))
        else Returned(RedirectTo(u, env))
  }

  /** The `try` block of `redirectURL(code)`. */
  function TryRedirect(code: Option<string>, env: Env): Attempt {
    if code.Some? && |code.value| > 0 then
      match env.get(code.value)
      case LookupFailed(m) => Raised(ErrorText(500, "ERRO 500: " + m))
      case Missing => Raised(ErrorText(404, NotFoundMessage))
      case Found(item) =>
        if item == map[] then Raised(ErrorText(404, NotFoundMessage))
        else Dispatch(item, env)
    else Raised(ErrorText(400, BadRequestMessage))
  }

  /** `redirectURL(code)`: the `try` block followed by the `except` block. */
  function RedirectURL(code: Option<string>, env: Env): Outcome {
    match TryRedirect(code, env)
    case Returned(r) => Reply(r)
    case Raised(t) => HandleError(t)
  }

  lemma NoBarInBadRequest()
    ensures '|' !in BadRequestMessage
  {
  }

  lemma NoBarInNotFound()
    ensures '|' !in NotFoundMessage
  {
  }

  /** A null or empty code is answered 400 whatever the collaborators would say: no lookup is made. */
  lemma EmptyCodeIs400(code: Option<string>, env: Env, other: Env)
    requires code.None? || code.value == ""
    ensures RedirectURL(code, env) == Reply(Response(400, ErrorHeaders(), BadRequestMessage))
    ensures RedirectURL(code, env) == RedirectURL(code, other)
  {
    NoBarInBadRequest();
    ErrorRoundTrip(400, BadRequestMessage);
  }

  /** A failed lookup is answered 500 with the lookup's message (up to its first '|'). */
  lemma LookupFailureIs500(code: string, env: Env)
    requires code != "" && env.get(code).LookupFailed?
    ensures RedirectURL(Some(code), env)
              == Reply(Response(500, ErrorHeaders(), "ERRO 500: " + Split(env.get(code).message, '|')[0]))
    ensures '|' !in env.get(code).message ==>
              RedirectURL(Some(code), env)
                == Reply(Response(500, ErrorHeaders(), "ERRO 500: " + env.get(code).message))
  {
    var m := env.get(code).message;
    ErrorRoundTrip(500, "ERRO 500: " + m);
    assert '|' !in "ERRO 500: ";
    SplitPrefixWithoutSep("ERRO 500: ", m, '|');
  }

  /** Prepending text without a separator extends the first piece only. */
  lemma {:induction false} SplitPrefixWithoutSep(p: string, m: string, sep: char)
    requires sep !in p
    ensures Split(p + m, sep)[0] == p + Split(m, sep)[0]
    ensures sep !in m ==> sep !in p + m
    decreases |p|
  {
    if |p| > 0 {
      assert sep !in p[1..] by {
        forall k | 0 <= k < |p[1..]| ensures p[1..][k] != sep {
          assert p[1..][k] == p[k + 1];
        }
      }
      SplitPrefixWithoutSep(p[1..], m, sep);
      assert (p + m)[1..] == p[1..] + m;
      assert [p[0]] + p[1..] == p;
    } else {
      assert p + m == m;
    }
  }

  /** A successful lookup that finds nothing (or an empty item) is answered 404. */
  lemma MissingRecordIs404(code: string, env: Env)
    requires code != ""
    requires env.get(code).Missing? || env.get(code) == Found(map[])
    ensures RedirectURL(Some(code), env) == Reply(Response(404, ErrorHeaders(), NotFoundMessage))
  {
    NoBarInNotFound();
    ErrorRoundTrip(404, NotFoundMessage);
  }

  /** A record whose target is not an `s3://` reference redirects to that target verbatim. */
  lemma PlainTargetRedirects(code: string, env: Env, item: Item, u: string)
    requires code != "" && env.get(code) == Found(item)
    requires "urlOriginal" in item && item["urlOriginal"] == Str(u) && !IsS3Uri(u)
    ensures RedirectURL(Some(code), env) == Reply(RedirectTo(u, env))
  {
  }

  /**
   * A record whose target is an `s3://` reference goes to the pre-signer with
   * the record's `dataExclusao`; the signed URL becomes the redirect, and a
   * signer failure is answered 500 with the signer's message.
   */
  lemma S3TargetIsSigned(code: string, env: Env, item: Item, u: string, ttl: int)
    requires code != "" && env.get(code) == Found(item)
    requires "urlOriginal" in item && item["urlOriginal"] == Str(u) && IsS3Uri(u)
    requires "dataExclusao" in item && item["dataExclusao"] == Num(ttl)
    ensures var p := PresignFor(u, ttl, env.now);
            && env.now + p.expiresIn == ttl
            && (env.presign(p).SignedUrl? ==>
                  RedirectURL(Some(code), env) == Reply(RedirectTo(env.presign(p).url, env)))
            && (env.presign(p).SignFailed? ==>
                  RedirectURL(Some(code), env)
                    == Reply(Response(500, ErrorHeaders(), "ERRO 500: " + Split(env.presign(p).message, '|')[0])))
  {
    var p := PresignFor(u, ttl, env.now);
    if env.presign(p).SignFailed? {
      var m := env.presign(p).message;
      ErrorRoundTrip(500, "ERRO 500: " + m);
      SplitPrefixWithoutSep("ERRO 500: ", m, '|');
    }
  }

  /** A found record without a usable text `urlOriginal` makes the handler fail instead of answering. */
  lemma MalformedRecordEscapes(code: string, env: Env, item: Item)
    requires code != "" && env.get(code) == Found(item) && item != map[]
    requires "urlOriginal" !in item || !item["urlOriginal"].Str?
    ensures RedirectURL(Some(code), env).Unhandled?
  {
    var t := TryRedirect(Some(code), env).text;
    assert t[0] == '\'';
    NonNumericErrorEscapes(t);
  }

  /**
   * The two shapes an answer can take: a 302 redirect with its seven
   * headers, or a 400, 404 or 500 with the five error headers and neither
   * Location nor Host.
   */
  ghost predicate WellShaped(o: Outcome, env: Env) {
    o.Reply? ==>
      var r := o.response;
      || (r.status == 302 && exists target :: r == RedirectTo(target, env))
      || (r.status in {400, 404, 500} && r.headers == ErrorHeaders()
          && !HasHeader(r.headers, "location") && !HasHeader(r.headers, "host"))
  }

  /** The text of a failed `int()` on a stored value starts with 'i'. */
  lemma IntOfErrorText(v: Value)
    requires IntOf(v).Err?
    ensures |IntOf(v).message| > 0 && IntOf(v).message[0] == 'i'
  {
    if v.Str? {
      assert IntOf(v).message == InvalidLiteral + (v.text + "'");
    }
  }

  /** Whatever a found record holds, the answer is well shaped or the handler fails. */
  lemma DispatchShapes(item: Item, env: Env)
    ensures Dispatch(item, env).Returned? ==>
              var r := Dispatch(item, env).response;
              r.status == 302 && exists target :: r == RedirectTo(target, env)
    ensures Dispatch(item, env).Raised? ==> WellShaped(HandleError(Dispatch(item, env).text), env)
  {
    ErrorHeadersFacts();
    var a := Dispatch(item, env);
    if a.Raised? {
      if "urlOriginal" !in item || !item["urlOriginal"].Str? {
        assert a.text[0] == '\'';
        NonNumericErrorEscapes(a.text);
      } else {
        var u := item["urlOriginal"].text;
        if "dataExclusao" !in item {
          assert a.text[0] == '\'';
          NonNumericErrorEscapes(a.text);
        } else if IntOf(item["dataExclusao"]).Err? {
          IntOfErrorText(item["dataExclusao"]);
          NonNumericErrorEscapes(a.text);
        } else {
          var ttl := IntOf(item["dataExclusao"]).value;
          var m := env.presign(PresignFor(u, ttl, env.now)).message;
          assert a.text == ErrorText(500, "ERRO 500: " + m);
          ErrorRoundTrip(500, "ERRO 500: " + m);
        }
      }
    }
  }

  /** Every answer of `redirectURL` is well shaped, or the handler fails. */
  lemma ResponseShapes(code: Option<string>, env: Env)
    ensures WellShaped(RedirectURL(code, env), env)
  {
    ErrorHeadersFacts();
    if code.None? || |code.value| == 0 {
      EmptyCodeIs400(code, env, env);
    } else {
      match env.get(code.value)
      case LookupFailed(m) => LookupFailureIs500(code.value, env);
      case Missing => MissingRecordIs404(code.value, env);
      case Found(item) =>
        if item == map[] {
          MissingRecordIs404(code.value, env);
        } else {
          DispatchShapes(item, env);
        }
    }
  }

  // ---------------------------------------------------------------------
  // lambda_handler
  // ---------------------------------------------------------------------

  /** `record['cf']['request']`: present and truthy, or not. */
  datatype ViewerRequest = ViewerRequest(uri: Option<string>)
  datatype CfRecord = CfRecord(request: Option<ViewerRequest>)
  datatype Event = Event(records: seq<CfRecord>)

  /** `lambda_handler(event, context)`. */
  function HandleEvent(event: Event, env: Env): Outcome {
    if |event.records| == 0 then Unhandled("IndexError")
    else
      var record := event.records[0];
      if record.request.Some? && record.request.value.uri.Some? && record.request.value.uri.value != "" then
        RedirectURL(Some(record.request.value.uri.value[1..]), env)
      else
        Reply(Response(400, ErrorHeaders(), BadRequestMessage))
  }

  /** A request URI "/c" is resolved as the code `c`. */
  lemma HandlerStripsSlash(event: Event, env: Env, c: string)
    requires |event.records| > 0 && event.records[0].request == Some(ViewerRequest(Some("/" + c)))
    ensures HandleEvent(event, env) == RedirectURL(Some(c), env)
  {
    assert ("/" + c)[1..] == c;
  }

  /**
   * A missing, null or empty URI, and the bare URI "/", are answered with
   * the same 400 that `redirectURL` gives an empty code, whatever the
   * collaborators would say: `redirectURL` is never asked.
   */
  lemma MissingUriIs400(event: Event, env: Env, other: Env)
    requires |event.records| > 0
    requires var rq := event.records[0].request;
             rq.None? || rq.value.uri.None? || rq.value.uri.value in {"", "/"}
    ensures HandleEvent(event, env) == Reply(Response(400, ErrorHeaders(), BadRequestMessage))
    ensures HandleEvent(event, env) == HandleEvent(event, other)
    ensures HandleEvent(event, env) == RedirectURL(Some(""), env)
  {
    EmptyCodeIs400(Some(""), env, other);
  }
}
