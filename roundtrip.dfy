/**
 * The two handlers share the table: what the creation handler writes under
 * a code is what the redirect handler finds when the short link's path is
 * requested. These lemmas follow a created record from one to the other.
 */
module RoundTrip {
  import opened Wrappers
  import opened Table
  import Allocator
  import Resolver

  /** The redirect handler's lookups see the table `items` (and meet no fault). */
  ghost predicate ReadsFrom(env: Resolver.Env, items: map<string, Item>) {
    forall k :: env.get(k) == (if k in items then Found(items[k]) else Missing)
  }

  /** The viewer request CloudFront passes on for the path of a URL. */
  function RequestFor(path: string): Resolver.Event {
    Resolver.Event([Resolver.CfRecord(Some(Resolver.ViewerRequest(Some(path))))])
  }

  /** The short link ends in the path `/code`, which is what the viewer request carries. */
  lemma ShortUrlPath(domain: string, code: string)
    ensures var url := Allocator.ShortUrl(domain, code);
            url == "https://" + domain + url[8 + |domain|..] && url[8 + |domain|..] == "/" + code
  {
  }

  /**
   * Once a record for a plain target has been written, requesting its short
   * link redirects to that target.
   */
  lemma CreatedLinkRedirects(items: map<string, Item>, d: Allocator.Draft, code: string, domain: string, env: Resolver.Env)
    requires code != ""
    requires ReadsFrom(env, items[code := Allocator.WrittenItem(d, code, domain)])
    requires d.urlOriginal != "" && !Resolver.IsS3Uri(d.urlOriginal)
    ensures Resolver.HandleEvent(RequestFor("/" + code), env) == Resolver.Reply(Resolver.RedirectTo(d.urlOriginal, env))
    ensures Resolver.HeaderValue(Resolver.RedirectTo(d.urlOriginal, env).headers, "location") == Some(d.urlOriginal)
  {
    var item := Allocator.WrittenItem(d, code, domain);
    assert env.get(code) == Found(item);
    Allocator.WrittenItemFields(d, code, domain);
    Resolver.HandlerStripsSlash(RequestFor("/" + code), env, code);
    Resolver.PlainTargetRedirects(code, env, item, d.urlOriginal);
  }

  /**
   * For an S3 target the redirect handler presigns it for the time left
   * until the record's expiry, and redirects to the presigned URL.
   */
  lemma CreatedS3LinkIsSigned(items: map<string, Item>, d: Allocator.Draft, code: string, domain: string, env: Resolver.Env)
    requires code != ""
    requires ReadsFrom(env, items[code := Allocator.WrittenItem(d, code, domain)])
    requires Resolver.IsS3Uri(d.urlOriginal)
    ensures var p := Resolver.PresignFor(d.urlOriginal, d.dataExclusao, env.now);
            && p.expiresIn == d.dataExclusao - env.now
            && (env.presign(p).SignedUrl? ==>
                  Resolver.HandleEvent(RequestFor("/" + code), env)
                    == Resolver.Reply(Resolver.RedirectTo(env.presign(p).url, env)))
  {
    var item := Allocator.WrittenItem(d, code, domain);
    assert env.get(code) == Found(item);
    Allocator.WrittenItemFields(d, code, domain);
    assert d.urlOriginal != "";
    Resolver.HandlerStripsSlash(RequestFor("/" + code), env, code);
    Resolver.S3TargetIsSigned(code, env, item, d.urlOriginal, d.dataExclusao);
  }

  /**
   * The creation handler accepts "" as the URL; the record it writes then
   * has no `urlOriginal`, and requesting its short link makes the redirect
   * handler fail instead of answering.
   */
  lemma EmptyTargetEscapes(items: map<string, Item>, d: Allocator.Draft, code: string, domain: string, env: Resolver.Env)
    requires code != ""
    requires ReadsFrom(env, items[code := Allocator.WrittenItem(d, code, domain)])
    requires d.urlOriginal == ""
    ensures Resolver.HandleEvent(RequestFor("/" + code), env).Unhandled?
  {
    var item := Allocator.WrittenItem(d, code, domain);
    assert env.get(code) == Found(item);
    Allocator.WrittenItemFields(d, code, domain);
    assert "id" in item;
    Resolver.HandlerStripsSlash(RequestFor("/" + code), env, code);
    Resolver.MalformedRecordEscapes(code, env, item);
  }

  /** A code that was never written answers 404 through the short-link path. */
  lemma UnknownCodeIs404(items: map<string, Item>, code: string, env: Resolver.Env)
    requires code != "" && code !in items && ReadsFrom(env, items)
    ensures Resolver.HandleEvent(RequestFor("/" + code), env)
              == Resolver.Reply(Resolver.Response(404, Resolver.ErrorHeaders(), Resolver.NotFoundMessage))
  {
    assert env.get(code) == Missing;
    Resolver.HandlerStripsSlash(RequestFor("/" + code), env, code);
    Resolver.MissingRecordIs404(code, env);
  }

  /**
   * A creation followed by a request for the short link it answered with,
   * resolved against the table the creation left behind (with the signer,
   * `netloc` and the clock `later` of the redirect handler). A plain target
   * redirects to itself, an S3 target is signed for the time left until the
   * record expires, and the empty URL makes the redirect handler fail.
   */
  method CreateThenResolve(store: Store, event: Allocator.Event, now: int, domain: string,
                           sampler: nat -> Allocator.Draw, format: int -> string,
                           presign: Resolver.Presign -> Resolver.Signed, netloc: string -> string, later: int)
    returns (created: Allocator.Answer, resolved: Option<Resolver.Outcome>, env: Resolver.Env)
    requires store.Valid() && event.url.Some?
    requires !Allocator.TruthyText(event.alias) ==>
               exists n: nat :: Allocator.Settles(store.items, store.faults, sampler, n)
    modifies store
    ensures env.presign == presign && env.netloc == netloc && env.now == later
    ensures ReadsFrom(env, store.items)
    ensures !created.success ==> resolved.None? && store.items == old(store.items)
    ensures var url := event.url.value;
            created.success && url != "" && !Resolver.IsS3Uri(url) ==>
              resolved == Some(Resolver.Reply(Resolver.RedirectTo(url, env)))
    ensures var url := event.url.value;
            var p := Resolver.PresignFor(url, Allocator.Normalise(event, now).dataExclusao, later);
            created.success && Resolver.IsS3Uri(url) ==>
              && p.expiresIn == Allocator.Normalise(event, now).dataExclusao - later
              && (presign(p).SignedUrl? ==> resolved == Some(Resolver.Reply(Resolver.RedirectTo(presign(p).url, env))))
    ensures created.success && event.url.value == "" ==> resolved.Some? && resolved.value.Unhandled?
  {
    ghost var items0 := store.items;
    ghost var outcome, attempts;
    created, outcome, attempts := Allocator.HandleEvent(store, event, now, domain, sampler, format);
    var items := store.items;
    env := Resolver.Env(k => if k in items then Found(items[k]) else Missing, presign, netloc, later);
    if created.success {
      var link := created.data.value;
      var path := link.urlEncurtada[8 + |domain|..];
      resolved := Some(Resolver.HandleEvent(RequestFor(path), env));
      ghost var d := Allocator.Normalise(event, now);
      ghost var code := outcome.value.code;
      Allocator.OutcomeMeaning(items0, old(store.faults), sampler, d.id, attempts);
      ShortUrlPath(domain, code);
      if event.url.value == "" {
        EmptyTargetEscapes(items0, d, code, domain, env);
      } else if Resolver.IsS3Uri(event.url.value) {
        CreatedS3LinkIsSigned(items0, d, code, domain, env);
      } else {
        CreatedLinkRedirects(items0, d, code, domain, env);
      }
    } else {
      resolved := None;
    }
  }
}
