/** The cookie jar over whole runs: which cookies are in it and which are sent where
    (src/connection/client/request_assembler.cc:184-236, 305-403, 531-545).
    Every reading of the system clock is an input of the event it belongs to. */
module CookieJar {
  import opened Text
  import opened CookieRules
  import opened CookieParse

  type Jar = seq<Cookie>

  datatype Key = Key(name: string, domain: string, hostOnly: bool, path: string)

  function KeyFor(c: Cookie): Key {
    Key(c.name, c.domain, c.hostOnly, c.path)
  }

  predicate Expired(c: Cookie, now: int) {
    c.expiry.Some? && c.expiry.value <= now
  }

  /** A parsed cookie that deletes instead of storing. */
  predicate Removal(c: Cookie, now: int) {
    c.value == "" && Expired(c, now)
  }

  ghost predicate UniqueKeys(jar: Jar) {
    forall i, j :: 0 <= i < j < |jar| ==> KeyFor(jar[i]) != KeyFor(jar[j])
  }

  function Filter(jar: Jar, keep: Cookie -> bool): Jar {
    if jar == [] then []
    else
      var last := |jar| - 1;
      Filter(jar[..last], keep) + (if keep(jar[last]) then [jar[last]] else [])
  }

  function Swept(jar: Jar, now: int): Jar {
    Filter(jar, (c: Cookie) => !Expired(c, now))
  }

  function Erased(jar: Jar, k: Key): Jar {
    Filter(jar, (c: Cookie) => KeyFor(c) != k)
  }

  /** First position holding the key, or the length. */
  function Position(jar: Jar, k: Key): (i: nat)
    ensures i <= |jar|
    ensures i < |jar| ==> KeyFor(jar[i]) == k
    ensures forall j :: 0 <= j < i ==> KeyFor(jar[j]) != k
  {
    if jar == [] || KeyFor(jar[0]) == k then 0 else 1 + Position(jar[1..], k)
  }

  function Upserted(jar: Jar, c: Cookie): Jar {
    var i := Position(jar, KeyFor(c));
    if i < |jar| then jar[i := c] else jar + [c]
  }

  // ----- one step -----

  /** A response's Set-Cookie with its three clock readings, a sweep before a request or a count, a clear. */
  datatype Event =
    | SetCookie(host: string, target: string, header: string, sweep: int, read: int, decide: int)
    | Sweep(now: int)
    | Clear

  function Next(jar: Jar, e: Event, lib: Readers): Jar {
    match e
    case SetCookie(host, target, header, sweep, read, decide) =>
      var swept := Swept(jar, sweep);
      (match Parsed(host, target, header, read, lib)
       case None => swept
       case Some(c) => if Removal(c, decide) then Erased(swept, KeyFor(c)) else Upserted(swept, c))
    case Sweep(now) => Swept(jar, now)
    case Clear => []
  }

  function Run(es: seq<Event>, lib: Readers): Jar {
    if es == [] then [] else Next(Run(es[..|es| - 1], lib), es[|es| - 1], lib)
  }

  /** The event stores exactly this cookie. */
  predicate Puts(e: Event, c: Cookie, lib: Readers) {
    e.SetCookie? && Parsed(e.host, e.target, e.header, e.read, lib) == Some(c) && !Removal(c, e.decide)
  }

  /** The event ends the life of this cookie: it has expired, its key is set again or removed, or all is cleared. */
  predicate Drops(e: Event, c: Cookie, lib: Readers) {
    match e
    case SetCookie(host, target, header, sweep, read, decide) =>
      Expired(c, sweep) ||
      (var p := Parsed(host, target, header, read, lib); p.Some? && KeyFor(p.value) == KeyFor(c))
    case Sweep(now) => Expired(c, now)
    case Clear => true
  }

  lemma {:induction false} FilterIn(jar: Jar, keep: Cookie -> bool, c: Cookie)
    ensures c in Filter(jar, keep) <==> c in jar && keep(c)
  {
    if jar != [] {
      var last := |jar| - 1;
      assert jar == jar[..last] + [jar[last]];
      FilterIn(jar[..last], keep, c);
    }
  }

  lemma {:induction false} FilterUnique(jar: Jar, keep: Cookie -> bool)
    requires UniqueKeys(jar)
    ensures UniqueKeys(Filter(jar, keep))
  {
    if jar != [] {
      var last := |jar| - 1;
      FilterUnique(jar[..last], keep);
      var rest := Filter(jar[..last], keep);
      forall i | 0 <= i < |rest| ensures KeyFor(rest[i]) != KeyFor(jar[last]) {
        FilterIn(jar[..last], keep, rest[i]);
        assert rest[i] in jar[..last];
      }
    }
  }

  lemma {:induction false} UpsertedContents(jar: Jar, p: Cookie, c: Cookie)
    requires UniqueKeys(jar)
    ensures UniqueKeys(Upserted(jar, p))
    ensures c in Upserted(jar, p) <==> c == p || (c in jar && KeyFor(c) != KeyFor(p))
  {
    hide Position;
    var i := Position(jar, KeyFor(p));
    var up := Upserted(jar, p);
    if i < |jar| {
      assert up[i] == p;
      if c in jar && KeyFor(c) != KeyFor(p) {
        var j :| 0 <= j < |jar| && jar[j] == c;
        assert up[j] == c;
      }
    } else {
      assert up[|jar|] == p;
    }
  }

  /** A step keeps one cookie per key; it holds what the event puts and what the event does not drop. */
  lemma {:induction false} NextContents(jar: Jar, e: Event, c: Cookie, lib: Readers)
    requires UniqueKeys(jar)
    ensures UniqueKeys(Next(jar, e, lib))
    ensures c in Next(jar, e, lib) <==> Puts(e, c, lib) || (c in jar && !Drops(e, c, lib))
  {
    hide Parsed, Upserted, UniqueKeys, Filter;
    match e
    case SetCookie(host, target, header, sweep, read, decide) =>
      FilterIn(jar, (c: Cookie) => !Expired(c, sweep), c);
      FilterUnique(jar, (c: Cookie) => !Expired(c, sweep));
      var swept := Swept(jar, sweep);
      match Parsed(host, target, header, read, lib) {
        case None =>
        case Some(p) =>
          FilterIn(swept, (c: Cookie) => KeyFor(c) != KeyFor(p), c);
          FilterUnique(swept, (c: Cookie) => KeyFor(c) != KeyFor(p));
          UpsertedContents(swept, p, c);
      }
    case Sweep(now) =>
      FilterIn(jar, (c: Cookie) => !Expired(c, now), c);
      FilterUnique(jar, (c: Cookie) => !Expired(c, now));
    case Clear =>
      UniqueNothing();
  }

  lemma UniqueNothing()
    ensures UniqueKeys([])
  {}

  // ----- whole runs -----

  /** Event `i` put the cookie and no later event dropped it. */
  ghost predicate Survives(es: seq<Event>, i: nat, c: Cookie, lib: Readers) {
    i < |es| && Puts(es[i], c, lib) && forall j :: i < j < |es| ==> !Drops(es[j], c, lib)
  }

  lemma {:induction false} SurvivesStep(es: seq<Event>, c: Cookie, lib: Readers)
    requires es != []
    ensures var last := |es| - 1;
      (exists i: nat :: Survives(es, i, c, lib)) <==>
      Puts(es[last], c, lib) || ((exists i: nat :: Survives(es[..last], i, c, lib)) && !Drops(es[last], c, lib))
  {
    hide Puts, Drops;
    var last := |es| - 1;
    if i: nat :| Survives(es, i, c, lib) {
      if i < last { assert Survives(es[..last], i, c, lib); }
    }
    if Puts(es[last], c, lib) { assert Survives(es, last, c, lib); }
    if i: nat :| Survives(es[..last], i, c, lib) && !Drops(es[last], c, lib) {
      assert Survives(es, i, c, lib);
    }
  }

  /** After any run the jar holds one cookie per key: exactly those some event put and no later event dropped. */
  lemma {:induction false} JarContents(es: seq<Event>, c: Cookie, lib: Readers)
    ensures UniqueKeys(Run(es, lib))
    ensures c in Run(es, lib) <==> exists i: nat :: Survives(es, i, c, lib)
  {
    hide Next, Puts, Drops;
    if es != [] {
      JarContents(es[..|es| - 1], c, lib);
      NextContents(Run(es[..|es| - 1], lib), es[|es| - 1], c, lib);
      SurvivesStep(es, c, lib);
    }
  }

  /** Every cookie ever in the jar has a clean name and value and a scope its own setter was entitled to. */
  lemma {:induction false} ReachableCookies(es: seq<Event>, c: Cookie, lib: Readers)
    requires c in Run(es, lib)
    ensures CleanPair(c)
    ensures exists i: nat :: i < |es| && Puts(es[i], c, lib) && InScope(c, es[i].host)
  {
    hide Run, Parsed, InScope, CleanPair, Removal, Drops;
    JarContents(es, c, lib);
    var i: nat :| Survives(es, i, c, lib);
    AcceptedShape(es[i].host, es[i].target, es[i].header, es[i].read, lib);
    assert Puts(es[i], c, lib);
  }

  /** A Set-Cookie whose lifetime is over when it is read leaves no cookie with its key. */
  lemma {:induction false} ExpiredHeaderRemoves(jar: Jar, e: Event, d: Cookie, lib: Readers)
    requires UniqueKeys(jar) && e.SetCookie? && 0 <= e.read <= e.decide
    requires var p := Parsed(e.host, e.target, e.header, e.read, lib);
             p.Some? && Expired(p.value, e.read) && KeyFor(d) == KeyFor(p.value)
    ensures d !in Next(jar, e, lib)
  {
    hide Parsed, Next, UniqueKeys;
    PastMeansEmpty(e.host, e.target, e.header, e.read, lib);
    NextContents(jar, e, d, lib);
  }

  /** A stored cookie was alive when it was read. */
  lemma {:induction false} PutIsAlive(e: Event, c: Cookie, lib: Readers)
    requires Puts(e, c, lib) && 0 <= e.read <= e.decide
    ensures !Expired(c, e.read)
  {
    hide Parsed;
    PastMeansEmpty(e.host, e.target, e.header, e.read, lib);
  }

  // ----- sending -----

  predicate Sendable(c: Cookie, host: string, target: string, https: bool) {
    && (c.secure ==> https)
    && (if c.hostOnly then Lower(host) == c.domain else DomainMatches(Lower(host), c.domain))
    && PathMatches(StripQuery(target), c.path)
  }

  function Matching(jar: Jar, host: string, target: string, https: bool): Jar {
    Filter(jar, (c: Cookie) => Sendable(c, host, target, https))
  }

  /** The cookies a request made at time `now` after the run carries. */
  function Sent(es: seq<Event>, now: int, host: string, target: string, https: bool, lib: Readers): Jar {
    Matching(Swept(Run(es, lib), now), host, target, https)
  }

  /** Exactly the unexpired survivors whose secure, domain and path tests pass are sent. */
  lemma {:induction false} SentExactly(es: seq<Event>, now: int, host: string, target: string, https: bool, c: Cookie,
                                       lib: Readers)
    ensures c in Sent(es, now, host, target, https, lib) <==>
      (exists i: nat :: Survives(es, i, c, lib)) && !Expired(c, now) && Sendable(c, host, target, https)
  {
    hide Run, Filter, Survives, Sendable, Expired;
    var jar := Run(es, lib);
    JarContents(es, c, lib);
    FilterIn(jar, (c: Cookie) => !Expired(c, now), c);
    FilterIn(Swept(jar, now), (c: Cookie) => Sendable(c, host, target, https), c);
  }

  /** The rule spelled out: a survivor goes with a request exactly when its expiry is not reached, it is not secure or the
      request is https, the host is its domain or, unless it is host-only, a name below it, and its path is the root,
      the request path, or a prefix of it that ends at a slash. */
  lemma {:induction false} SentIff(es: seq<Event>, now: int, host: string, target: string, https: bool, c: Cookie,
                                   lib: Readers)
    requires c in Run(es, lib)
    ensures c.path != ""
    ensures var path := StripQuery(target);
            c in Sent(es, now, host, target, https, lib) <==>
      && (c.expiry.Some? ==> c.expiry.value > now) && (c.secure ==> https)
      && (Lower(host) == c.domain || (!c.hostOnly && exists below: string :: Lower(host) == below + "." + c.domain))
      && (c.path == "/" || path == c.path ||
          (c.path < path && (c.path[|c.path| - 1] == '/' || path[|c.path|] == '/')))
  {
    hide Run, Sent, Survives, Parsed, Lower, StripQuery, Removal, CleanPair;
    SentExactly(es, now, host, target, https, c, lib);
    JarContents(es, c, lib);
    ReachableCookies(es, c, lib);
    DomainMatchIff(Lower(host), c.domain);
    PathRule(StripQuery(target), c.path);
  }

  lemma {:induction false} PathRule(path: string, cookiePath: string)
    requires cookiePath != "" && cookiePath[0] == '/'
    ensures PathMatches(path, cookiePath) <==>
              cookiePath == "/" || path == cookiePath ||
              (cookiePath < path && (cookiePath[|cookiePath| - 1] == '/' || path[|cookiePath|] == '/'))
  {
  }

  /** Back on https to the host and target that set it, a live cookie is sent exactly when its path matches. */
  lemma {:induction false} SentBackIff(es: seq<Event>, i: nat, c: Cookie, now: int, lib: Readers)
    requires Survives(es, i, c, lib) && !Expired(c, now)
    ensures c in Sent(es, now, es[i].host, es[i].target, true, lib) <==> PathMatches(StripQuery(es[i].target), c.path)
  {
    hide Parsed, Sent, PathMatches, StripQuery, Lower, DomainMatches;
    assert Puts(es[i], c, lib);
    AcceptedShape(es[i].host, es[i].target, es[i].header, es[i].read, lib);
    SentExactly(es, now, es[i].host, es[i].target, true, c, lib);
  }

  /** A cookie stored without a Path attribute goes back on the next https request for the same host and target. */
  lemma {:induction false} StoreThenSend(es: seq<Event>, i: nat, c: Cookie, now: int, lib: Readers)
    requires Survives(es, i, c, lib) && !Expired(c, now)
    requires NoPathAttribute(Tokens(Trim(es[i].header))[1..])
    ensures c in Sent(es, now, es[i].host, es[i].target, true, lib)
  {
    hide Parsed, Sent, PathMatches, DefaultPath, StripQuery, Tokens, Trim, NoPathAttribute, Expired;
    assert Puts(es[i], c, lib);
    DefaultPathTaken(es[i].host, es[i].target, es[i].header, es[i].read, lib);
    DefaultPathMatches(es[i].target);
    SentBackIff(es, i, c, now, lib);
  }

  /** Event `i` put the cookie, and its host and the receiving host both lie in the cookie's domain. */
  ghost predicate SharesDomain(es: seq<Event>, i: nat, c: Cookie, host: string, lib: Readers) {
    && i < |es| && Puts(es[i], c, lib)
    && DomainMatches(Lower(host), c.domain) && DomainMatches(Lower(es[i].host), c.domain)
    && (c.hostOnly ==> Lower(es[i].host) == Lower(host))
  }

  /** A cookie is sent only to hosts of its domain, which its setter belonged to; a host-only cookie only to its setter. */
  lemma {:induction false} SentOnlyInDomain(es: seq<Event>, now: int, host: string, target: string, https: bool,
                                            c: Cookie, lib: Readers)
    requires c in Sent(es, now, host, target, https, lib)
    ensures c.secure ==> https
    ensures exists i: nat :: SharesDomain(es, i, c, host, lib)
  {
    hide Run, Sent, Survives, Parsed, PathMatches, Lower, Expired;
    SentExactly(es, now, host, target, https, c, lib);
    JarContents(es, c, lib);
    ReachableCookies(es, c, lib);
    var i: nat :| i < |es| && Puts(es[i], c, lib) && InScope(c, es[i].host);
    assert SharesDomain(es, i, c, host, lib);
  }
}
