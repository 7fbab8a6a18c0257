/** The session request assembler: a jar updated in place by responses and read by requests
    (src/connection/client/request_assembler.cc:184-236, 305-403, 531-545). */
module RequestAssembler {
  import opened Text
  import opened CookieParse
  import opened CookieJar
  import opened CookieHeader

  lemma {:induction false} RunSnoc(es: seq<Event>, e: Event, lib: Readers)
    ensures Run(es + [e], lib) == Next(Run(es, lib), e, lib)
  {
  }

  class SessionRequestAssembler {
    const lib: Readers
    var cookies: Jar
    /** Everything that has happened to this jar. */
    ghost var history: seq<Event>

    ghost predicate Valid()
      reads this
    {
      cookies == Run(history, lib)
    }

    constructor (lib: Readers)
      ensures Valid() && history == [] && this.lib == lib
    {
      this.lib := lib;
      cookies := [];
      history := [];
    }

    method UpsertCookie(incoming: Cookie)
      modifies this`cookies
      ensures cookies == Upserted(old(cookies), incoming)
    {
      hide Position;
      var i := 0;
      while i < |cookies|
        invariant i <= |cookies| && cookies == old(cookies)
        invariant forall j :: 0 <= j < i ==> KeyFor(cookies[j]) != KeyFor(incoming)
      {
        var c := cookies[i];
        if KeyFor(c) == KeyFor(incoming) {
          cookies := cookies[i := c.(value := incoming.value, secure := incoming.secure, expiry := incoming.expiry)];
          return;
        }
        i := i + 1;
      }
      cookies := cookies + [incoming];
    }

    /** One Set-Cookie value of a response. */
    method SyncSetCookie(host: string, target: string, header: string, sweep: int, read: int, decide: int)
      requires Valid()
      modifies this
      ensures Valid() && history == old(history) + [SetCookie(host, target, header, sweep, read, decide)]
    {
      hide Run, Parsed, Upserted, Filter, Removal;
      ghost var e := SetCookie(host, target, header, sweep, read, decide);
      RunSnoc(history, e, lib);
      history := history + [e];
      cookies := Swept(cookies, sweep);
      var c := ParseSetCookieValue(host, target, header, read, lib);
      if c.None? { return; }
      if Removal(c.value, decide) {
        cookies := Erased(cookies, KeyFor(c.value));
      } else {
        UpsertCookie(c.value);
      }
    }

    method ClearCookies()
      requires Valid()
      modifies this
      ensures Valid() && history == old(history) + [Clear]
    {
      RunSnoc(history, Clear, lib);
      cookies := [];
      history := history + [Clear];
    }

    method CookieCount(now: int) returns (n: nat)
      requires Valid()
      modifies this
      ensures Valid() && history == old(history) + [Sweep(now)] && n == |Run(history, lib)|
    {
      hide Run, Filter;
      RunSnoc(history, Sweep(now), lib);
      cookies := Swept(cookies, now);
      history := history + [Sweep(now)];
      n := |cookies|;
    }

    method CollectMatchingCookies(host: string, target: string, https: bool) returns (candidates: seq<Cookie>)
      ensures candidates == Matching(cookies, host, target, https)
    {
      hide Sendable;
      candidates := [];
      ghost var keep := (c: Cookie) => Sendable(c, host, target, https);
      for i := 0 to |cookies|
        invariant candidates == Filter(cookies[..i], keep)
      {
        assert cookies[..i + 1][..i] == cookies[..i];
        if Sendable(cookies[i], host, target, https) {
          candidates := candidates + [cookies[i]];
        }
      }
      assert cookies[..|cookies|] == cookies;
    }

    /** A request that already has a Cookie header is left alone and the jar is not touched. Otherwise the header
        lists exactly the cookies due, longer paths first, so that the server reads exactly them;
        no header is set when none is due. */
    method MaybeInjectCookies(hasCookie: bool, host: string, target: string, https: bool, now: int)
      returns (header: Option<string>, ghost order: seq<Cookie>)
      requires Valid()
      modifies this
      ensures Valid()
      ensures hasCookie ==> header == None && history == old(history)
      ensures !hasCookie ==> history == old(history) + [Sweep(now)]
      ensures !hasCookie ==>
                multiset(order) == multiset(Sent(old(history), now, host, target, https, lib)) && LongestPathFirst(order)
      ensures !hasCookie ==> header == (if order == [] then None else Some(Written(order)))
      ensures header.Some? ==> ReadHeader(header.value) == Seen(order)
    {
      hide Run, Filter, Written, ReadHeader, LongestPathFirst, Seen;
      if hasCookie { return None, []; }
      RunSnoc(history, Sweep(now), lib);
      cookies := Swept(cookies, now);
      history := history + [Sweep(now)];
      var candidates := CollectMatchingCookies(host, target, https);
      var sorted := SortByPath(candidates);
      order := sorted;
      var out := SerializeCookieCandidates(sorted);
      header := if out == "" then None else Some(out);
      HeaderPresent(old(history), now, host, target, https, sorted, lib);
    }
  }

  /** The header text is empty exactly when no cookie is due. */
  lemma {:induction false} HeaderPresent(es: seq<Event>, now: int, host: string, target: string, https: bool,
                                         order: seq<Cookie>, lib: Readers)
    requires multiset(order) == multiset(Sent(es, now, host, target, https, lib))
    ensures Written(order) == "" <==> order == []
    ensures ReadHeader(Written(order)) == Seen(order)
  {
    hide Sent, ReadHeader, LastWins, Dequoted;
    ServerSeesJar(es, now, host, target, https, order, lib);
    if order != [] {
      assert Seen(order) != [];
      EmptyHeaderReadsNothing();
    }
  }

  lemma {:induction false} EmptyHeaderReadsNothing()
    ensures ReadHeader("") == []
  {
  }
}
