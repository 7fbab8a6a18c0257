/** What the attributes of a Set-Cookie value mean (src/connection/client/request_assembler.cc:78-92, 407-545), stated
    on its tokens, the library readers and the clock. */
module CookieAttributes {
  import opened Text
  import opened CookieRules
  import opened CookieParse
  import opened CookieJar

  /** The token is the attribute `name`, written in any case. */
  predicate Named(token: string, name: string) {
    Lower(KeyOf(token)) == name
  }

  /** The value of the last attribute of that name. */
  function LastNamed(tokens: seq<string>, name: string): Option<string> {
    if tokens == [] then None
    else if Named(tokens[|tokens| - 1], name) then Some(ValueOf(tokens[|tokens| - 1]))
    else LastNamed(tokens[..|tokens| - 1], name)
  }

  /** The last absolute path among the Path attributes. */
  function LastPath(tokens: seq<string>): Option<string> {
    if tokens == [] then None
    else
      var token := tokens[|tokens| - 1];
      if Named(token, "path") && ValueOf(token) != "" && ValueOf(token)[0] == '/' then Some(ValueOf(token))
      else LastPath(tokens[..|tokens| - 1])
  }

  function Number(text: Option<string>, reader: string -> Option<int>): Option<int> {
    match text
    case None => None
    case Some(t) => reader(t)
  }

  // ----- all attributes together -----

  /** The draft with every field given by the key of one attribute. */
  function OneApplied(k: string, value: string, d: Draft, lib: Readers): Draft {
    Draft(Cookie(d.cookie.name, d.cookie.value,
                 if k == "domain" then NormalizeDomain(value) else d.cookie.domain,
                 k != "domain" && d.cookie.hostOnly,
                 if k == "path" && value != "" && value[0] == '/' then value else d.cookie.path,
                 k == "secure" || d.cookie.secure, d.cookie.expiry),
          Lifetime(if k == "max-age" then lib.seconds(value) else d.life.maxAge,
                   if k == "expires" then lib.date(value) else d.life.expires))
  }

  /** The domain of a Domain attribute is refused. */
  ghost predicate BadDomain(k: string, value: string, host: string) {
    k == "domain" &&
    (NormalizeDomain(value) == "" ||
     (host != NormalizeDomain(value) && !exists below: string :: host == below + "." + NormalizeDomain(value)))
  }

  lemma {:induction false} AttributeApplied(key: string, value: string, host: string, d: Draft, lib: Readers)
    ensures ApplyAttribute(key, value, host, d, lib) ==
            if BadDomain(Lower(key), value, host) then None else Some(OneApplied(Lower(key), value, d, lib))
  {
    hide Lower, NormalizeDomain, DomainMatches;
    DomainMatchIff(host, NormalizeDomain(value));
  }

  /** The draft with every field given by the attributes. */
  function AllApplied(tokens: seq<string>, d: Draft, lib: Readers): Draft {
    var domain, path := LastNamed(tokens, "domain"), LastPath(tokens);
    var maxAge, expires := LastNamed(tokens, "max-age"), LastNamed(tokens, "expires");
    Draft(Cookie(d.cookie.name, d.cookie.value,
                 if domain.Some? then NormalizeDomain(domain.value) else d.cookie.domain,
                 domain.None? && d.cookie.hostOnly,
                 if path.Some? then path.value else d.cookie.path,
                 LastNamed(tokens, "secure").Some? || d.cookie.secure, d.cookie.expiry),
          Lifetime(if maxAge.Some? then lib.seconds(maxAge.value) else d.life.maxAge,
                   if expires.Some? then lib.date(expires.value) else d.life.expires))
  }

  lemma {:induction false} AllAppliedStep(tokens: seq<string>, d: Draft, lib: Readers)
    requires tokens != []
    ensures var last := |tokens| - 1;
            AllApplied(tokens, d, lib) ==
            OneApplied(Lower(KeyOf(tokens[last])), ValueOf(tokens[last]), AllApplied(tokens[..last], d, lib), lib)
  {
    hide Lower, KeyOf, ValueOf, NormalizeDomain;
  }

  lemma {:induction false} EmptyTokenApplied(d: Draft, lib: Readers)
    ensures OneApplied(Lower(KeyOf("")), ValueOf(""), d, lib) == d
  {
    assert KeyOf("") == "";
  }

  /** Some attribute is a refused Domain. */
  ghost predicate AnyBadDomain(tokens: seq<string>, host: string) {
    exists k :: 0 <= k < |tokens| && BadDomain(Lower(KeyOf(tokens[k])), ValueOf(tokens[k]), host)
  }

  lemma {:induction false} AnyBadDomainStep(tokens: seq<string>, host: string)
    requires tokens != []
    ensures var last := |tokens| - 1;
            AnyBadDomain(tokens, host) <==>
            AnyBadDomain(tokens[..last], host) || BadDomain(Lower(KeyOf(tokens[last])), ValueOf(tokens[last]), host)
  {
    hide Lower, KeyOf, ValueOf, BadDomain;
    var last := |tokens| - 1;
    if k :| 0 <= k < last && BadDomain(Lower(KeyOf(tokens[..last][k])), ValueOf(tokens[..last][k]), host) {
      assert tokens[..last][k] == tokens[k];
    }
    if k :| 0 <= k < last && BadDomain(Lower(KeyOf(tokens[k])), ValueOf(tokens[k]), host) {
      assert tokens[..last][k] == tokens[k];
    }
  }

  lemma {:induction false} EmptyTokenGood(host: string)
    ensures !BadDomain(Lower(KeyOf("")), ValueOf(""), host)
  {
    assert KeyOf("") == "";
  }

  lemma {:induction false} AttributesApplied(tokens: seq<string>, host: string, d: Draft, lib: Readers)
    ensures ApplyAll(tokens, host, d, lib) ==
            if AnyBadDomain(tokens, host) then None else Some(AllApplied(tokens, d, lib))
  {
    hide Lower, KeyOf, ValueOf, BadDomain, AnyBadDomain, AllApplied, OneApplied, ApplyAttribute;
    if tokens == [] {
      NothingApplied(host, d, lib);
    } else {
      var last := |tokens| - 1;
      AttributesApplied(tokens[..last], host, d, lib);
      AllAppliedStep(tokens, d, lib);
      AnyBadDomainStep(tokens, host);
      var e := AllApplied(tokens[..last], d, lib);
      AttributeApplied(KeyOf(tokens[last]), ValueOf(tokens[last]), host, e, lib);
      EmptyTokenApplied(e, lib);
      EmptyTokenGood(host);
    }
  }

  lemma {:induction false} NothingApplied(host: string, d: Draft, lib: Readers)
    ensures !AnyBadDomain([], host) && AllApplied([], d, lib) == d
  {
  }

  // ----- a whole header -----

  /** The pieces of a Set-Cookie value: the name-value pair first, then the attributes. */
  function Pieces(header: string): seq<string> {
    Tokens(Trim(header))
  }

  /** A Set-Cookie value is refused exactly when it has no name or one of its Domain attributes is empty or is neither
      the host nor a parent of it. */
  lemma {:induction false} RefusedIff(host: string, target: string, header: string, now: int, lib: Readers)
    ensures Parsed(host, target, header, now, lib).None? <==>
            Pieces(header) == [] || KeyOf(Pieces(header)[0]) == "" || AnyBadDomain(Pieces(header)[1..], Lower(host))
  {
    hide Lower, KeyOf, ValueOf, Tokens, Trim, ApplyAll, AnyBadDomain, AllApplied, Settle, Fresh;
    var tokens := Pieces(header);
    if tokens != [] {
      AttributesApplied(tokens[1..], Lower(host), Fresh(host, target, tokens[0]), lib);
      NoKey(tokens[0]);
    }
  }

  lemma NoKey(token: string)
    ensures token == "" ==> KeyOf(token) == ""
  {
  }

  lemma {:induction false} Drafted(host: string, target: string, header: string, now: int, lib: Readers)
    requires Parsed(host, target, header, now, lib).Some?
    ensures var tokens := Pieces(header);
            tokens != [] && Parsed(host, target, header, now, lib).value ==
                            Settle(AllApplied(tokens[1..], Fresh(host, target, tokens[0]), lib), now)
  {
    hide Lower, KeyOf, ValueOf, Tokens, Trim, ApplyAll, AnyBadDomain, AllApplied, Settle, Fresh;
    var tokens := Pieces(header);
    AttributesApplied(tokens[1..], Lower(host), Fresh(host, target, tokens[0]), lib);
  }

  /** Name, domain, path and secure flag of an accepted cookie: the last Domain and the last absolute Path decide, any
      Secure counts, and without them the cookie is bound to the host, to the directory of the request, and not
      secure. */
  lemma {:induction false} ScopeRead(host: string, target: string, header: string, now: int, lib: Readers)
    requires Parsed(host, target, header, now, lib).Some?
    ensures var c, tokens := Parsed(host, target, header, now, lib).value, Pieces(header);
            && tokens != [] && c.name == KeyOf(tokens[0])
            && (match LastNamed(tokens[1..], "domain")
                case None => c.domain == Lower(host) && c.hostOnly
                case Some(v) => c.domain == NormalizeDomain(v) && !c.hostOnly)
            && (match LastPath(tokens[1..])
                case None => c.path == DefaultPath(target)
                case Some(v) => c.path == v)
            && (c.secure <==> exists k :: 0 <= k < |tokens[1..]| && Named(tokens[1..][k], "secure"))
  {
    hide Lower, KeyOf, ValueOf, Tokens, Trim, LastNamed, LastPath, Named, NormalizeDomain, DefaultPath, Parsed;
    Drafted(host, target, header, now, lib);
    LastNamedIff(Pieces(header)[1..], "secure");
  }

  lemma {:induction false} LastNamedIff(tokens: seq<string>, name: string)
    ensures LastNamed(tokens, name).Some? <==> exists k :: 0 <= k < |tokens| && Named(tokens[k], name)
  {
    hide Named, ValueOf;
    if tokens != [] {
      var last := |tokens| - 1;
      LastNamedIff(tokens[..last], name);
      if k :| 0 <= k < last && Named(tokens[k], name) { assert tokens[..last][k] == tokens[k]; }
    }
  }

  /** Lifetime of an accepted cookie. The last Max-Age decides if it is a number: in the past it empties the value,
      otherwise it counts from now. Then the last Expires decides if it is a date. Otherwise the cookie does not
      expire. */
  lemma {:induction false} LifetimeRead(host: string, target: string, header: string, now: int, lib: Readers)
    requires Parsed(host, target, header, now, lib).Some?
    ensures var c, tokens := Parsed(host, target, header, now, lib).value, Pieces(header);
            && tokens != []
            && match Number(LastNamed(tokens[1..], "max-age"), lib.seconds)
               case Some(n) =>
                 if n <= 0 then c.value == "" && c.expiry == Some(0)
                 else c.value == ValueOf(tokens[0]) && c.expiry == Some(now + n * 1_000_000_000)
               case None =>
                 match Number(LastNamed(tokens[1..], "expires"), lib.date)
                 case Some(when) =>
                   c.value == (if when <= now then "" else ValueOf(tokens[0])) && c.expiry == Some(when)
                 case None => c.value == ValueOf(tokens[0]) && c.expiry == None
  {
    hide Lower, KeyOf, ValueOf, Tokens, Trim, LastNamed, LastPath, NormalizeDomain, DefaultPath, Parsed;
    Drafted(host, target, header, now, lib);
  }

  // ----- and in the jar -----

  /** A response header read last in a run, with its clock readings in order. */
  ghost predicate ReadLast(es: seq<Event>, lib: Readers) {
    && es != [] && es[|es| - 1].SetCookie?
    && 0 <= es[|es| - 1].read <= es[|es| - 1].decide
    && var e := es[|es| - 1]; Parsed(e.host, e.target, e.header, e.read, lib).Some?
  }

  /** Two cookies with the same name, domain, host-only flag and path. */
  predicate SameKey(c: Cookie, d: Cookie) {
    c.name == d.name && c.domain == d.domain && c.hostOnly == d.hostOnly && c.path == d.path
  }

  lemma {:induction false} OverIsGone(es: seq<Event>, d: Cookie, lib: Readers)
    requires ReadLast(es, lib)
    requires var e := es[|es| - 1];
             var c := Parsed(e.host, e.target, e.header, e.read, lib).value;
             SameKey(c, d) && c.value == "" && c.expiry.Some? && c.expiry.value <= e.read
    ensures d !in Run(es, lib)
  {
    hide Parsed, Next;
    var before := es[..|es| - 1];
    JarContents(before, d, lib);
    NextContents(Run(before, lib), es[|es| - 1], d, lib);
  }

  /** After any run, a header with a Max-Age of zero or less leaves no cookie of its name, domain and path. */
  lemma {:induction false} MaxAgeOverRemoves(es: seq<Event>, d: Cookie, n: int, lib: Readers)
    requires ReadLast(es, lib)
    requires var e := es[|es| - 1];
             && Pieces(e.header) != []
             && Number(LastNamed(Pieces(e.header)[1..], "max-age"), lib.seconds) == Some(n) && n <= 0
             && SameKey(Parsed(e.host, e.target, e.header, e.read, lib).value, d)
    ensures d !in Run(es, lib)
  {
    hide Parsed, Run, Pieces, LastNamed, Number;
    var e := es[|es| - 1];
    LifetimeRead(e.host, e.target, e.header, e.read, lib);
    OverIsGone(es, d, lib);
  }

  /** So does a header without a Max-Age number whose Expires is past. */
  lemma {:induction false} PastExpiresRemoves(es: seq<Event>, d: Cookie, when: int, lib: Readers)
    requires ReadLast(es, lib)
    requires var e := es[|es| - 1];
             && Pieces(e.header) != []
             && Number(LastNamed(Pieces(e.header)[1..], "max-age"), lib.seconds) == None
             && Number(LastNamed(Pieces(e.header)[1..], "expires"), lib.date) == Some(when) && when <= e.read
             && SameKey(Parsed(e.host, e.target, e.header, e.read, lib).value, d)
    ensures d !in Run(es, lib)
  {
    hide Parsed, Run, Pieces, LastNamed, Number;
    var e := es[|es| - 1];
    LifetimeRead(e.host, e.target, e.header, e.read, lib);
    OverIsGone(es, d, lib);
  }

  lemma {:induction false} AliveIsStored(es: seq<Event>, lib: Readers)
    requires ReadLast(es, lib)
    ensures var e := es[|es| - 1];
            var c := Parsed(e.host, e.target, e.header, e.read, lib).value;
            c.value != "" || c.expiry == None || c.expiry.value > e.decide ==> c in Run(es, lib)
  {
    hide Parsed, Next;
    var e := es[|es| - 1];
    var c := Parsed(e.host, e.target, e.header, e.read, lib).value;
    var before := es[..|es| - 1];
    JarContents(before, c, lib);
    NextContents(Run(before, lib), e, c, lib);
  }

  /** A header with a positive Max-Age stores its value under that lease, whatever its Expires says. */
  lemma {:induction false} MaxAgeStores(es: seq<Event>, n: int, lib: Readers)
    requires ReadLast(es, lib)
    requires var e := es[|es| - 1];
             && Pieces(e.header) != [] && ValueOf(Pieces(e.header)[0]) != ""
             && Number(LastNamed(Pieces(e.header)[1..], "max-age"), lib.seconds) == Some(n) && n > 0
    ensures var e := es[|es| - 1];
            exists c :: c in Run(es, lib) && c.name == KeyOf(Pieces(e.header)[0]) &&
                        c.value == ValueOf(Pieces(e.header)[0]) &&
                        c.expiry == Some(e.read + n * 1_000_000_000)
  {
    hide Parsed, Run, Pieces, LastNamed, LastPath, Number, KeyOf, ValueOf, NormalizeDomain, DefaultPath, Named, Lower;
    var e := es[|es| - 1];
    LifetimeRead(e.host, e.target, e.header, e.read, lib);
    ScopeRead(e.host, e.target, e.header, e.read, lib);
    AliveIsStored(es, lib);
  }

  /** A header with neither stores its value for good: the cookie has no expiry. */
  lemma {:induction false} SessionCookieStored(es: seq<Event>, lib: Readers)
    requires ReadLast(es, lib)
    requires var e := es[|es| - 1];
             && Pieces(e.header) != []
             && Number(LastNamed(Pieces(e.header)[1..], "max-age"), lib.seconds) == None
             && Number(LastNamed(Pieces(e.header)[1..], "expires"), lib.date) == None
    ensures var e := es[|es| - 1];
            exists c :: c in Run(es, lib) && c.name == KeyOf(Pieces(e.header)[0]) &&
                        c.value == ValueOf(Pieces(e.header)[0]) &&
                        c.expiry == None
  {
    hide Parsed, Run, Pieces, LastNamed, LastPath, Number, KeyOf, ValueOf, NormalizeDomain, DefaultPath, Named, Lower;
    var e := es[|es| - 1];
    LifetimeRead(e.host, e.target, e.header, e.read, lib);
    ScopeRead(e.host, e.target, e.header, e.read, lib);
    AliveIsStored(es, lib);
  }

  /** An accepted header replaces the cookies of its own name, domain, host-only flag and path, and no others. */
  lemma {:induction false} OnlySameKeyReplaced(es: seq<Event>, d: Cookie, lib: Readers)
    requires ReadLast(es, lib) && d in Run(es[..|es| - 1], lib)
    ensures var e := es[|es| - 1];
            var c := Parsed(e.host, e.target, e.header, e.read, lib).value;
            && (SameKey(c, d) && c != d ==> d !in Run(es, lib))
            && (!SameKey(c, d) && (d.expiry.None? || d.expiry.value > e.sweep) ==> d in Run(es, lib))
  {
    hide Parsed, Next;
    var before := es[..|es| - 1];
    JarContents(before, d, lib);
    NextContents(Run(before, lib), es[|es| - 1], d, lib);
  }

  // ----- texts -----

  predicate Piece(s: string) {
    s != "" && Trimmed(s) && ';' !in s
  }

  /** Pieces separated by a semicolon and a space. */
  function Joined(pieces: seq<string>): string
    requires pieces != []
  {
    if |pieces| == 1 then pieces[0] else pieces[0] + "; " + Joined(pieces[1..])
  }

  lemma {:induction false} TokensCons(a: string, b: string)
    requires ';' !in a
    ensures Tokens(a + ";" + b) == [Trim(a)] + Tokens(b)
  {
    hide Trim;
    var s := a + ";" + b;
    IndexOfAt(s, ';', |a|) by { assert s[..|a|] == a; }
    assert s[..|a|] == a && s[|a| + 1..] == b;
  }

  lemma {:induction false} TokensOne(a: string)
    requires a != "" && ';' !in a
    ensures Tokens(a) == [Trim(a)]
  {
    hide Trim;
    assert a[..|a|] == a;
    IndexOfAt(a, ';', |a|);
  }

  lemma {:induction false} JoinedRead(pieces: seq<string>, gap: string)
    requires pieces != [] && (gap == "" || gap == " ") && forall k :: 0 <= k < |pieces| ==> Piece(pieces[k])
    ensures Tokens(gap + Joined(pieces)) == pieces
    decreases |pieces|
  {
    hide Trim, Tokens;
    var first := pieces[0];
    TrimTrimmed(first);
    assert "" + first == first;
    assert Trim(gap + first) == first;
    if |pieces| == 1 {
      TokensOne(gap + first);
    } else {
      JoinedRead(pieces[1..], " ");
      assert gap + Joined(pieces) == (gap + first) + ";" + (" " + Joined(pieces[1..]));
      TokensCons(gap + first, " " + Joined(pieces[1..]));
    }
  }

  lemma {:induction false} JoinedTrimmed(pieces: seq<string>)
    requires pieces != [] && forall k :: 0 <= k < |pieces| ==> Piece(pieces[k])
    ensures Joined(pieces) != "" && Trimmed(Joined(pieces))
  {
    assert Piece(pieces[0]);
    if |pieces| > 1 { JoinedTrimmed(pieces[1..]); }
  }

  /** Printed pieces come back as the pieces of the header. */
  lemma {:induction false} PiecesRoundTrip(pieces: seq<string>)
    requires pieces != [] && forall k :: 0 <= k < |pieces| ==> Piece(pieces[k])
    ensures Pieces(Joined(pieces)) == pieces
  {
    hide Joined, Trim, Tokens;
    JoinedTrimmed(pieces);
    TrimTrimmed(Joined(pieces));
    JoinedRead(pieces, "");
    assert "" + Joined(pieces) == Joined(pieces);
  }

  /** Key and value of a printed attribute. */
  lemma {:induction false} AttributeRoundTrip(key: string, value: string)
    requires Trimmed(key) && Trimmed(value) && '=' !in key
    ensures KeyOf(key + "=" + value) == key && ValueOf(key + "=" + value) == value
    ensures KeyOf(key) == key && ValueOf(key) == ""
  {
    hide Trim;
    var t := key + "=" + value;
    IndexOfAt(t, '=', |key|) by { assert t[..|key|] == key; }
    assert t[..|key|] == key && t[|key| + 1..] == value;
    assert key[..|key|] == key;
    IndexOfAt(key, '=', |key|);
    TrimTrimmed(key);
    TrimTrimmed(value);
  }

  predicate Blanks(s: string) {
    forall i :: 0 <= i < |s| ==> s[i] in " \t\r\n"
  }

  lemma {:induction false} TrimLeftDrops(before: string, s: string)
    requires Blanks(before) && (s != "" ==> !Blank(s[0]))
    ensures TrimLeft(before + s) == s
  {
    if before == "" {
      assert before + s == s;
    } else {
      assert (before + s)[1..] == before[1..] + s;
      TrimLeftDrops(before[1..], s);
    }
  }

  lemma {:induction false} TrimRightDrops(s: string, after: string)
    requires Blanks(after) && (s != "" ==> !Blank(s[|s| - 1]))
    ensures TrimRight(s + after) == s
    decreases |after|
  {
    if after == "" {
      assert s + after == s;
    } else {
      assert (s + after)[..|s + after| - 1] == s + after[..|after| - 1];
      TrimRightDrops(s, after[..|after| - 1]);
    }
  }

  /** Trimming removes the white space around a text and nothing else. */
  lemma {:induction false} TrimExact(before: string, s: string, after: string)
    requires Blanks(before) && Blanks(after) && Trimmed(s)
    ensures Trim(before + s + after) == s
  {
    if s == "" {
      assert Blanks(before + after) && before + s + after == before + after;
      TrimLeftDrops(before + after, "");
      assert before + after + "" == before + after;
    } else {
      assert before + s + after == before + (s + after);
      TrimLeftDrops(before, s + after);
      TrimRightDrops(s, after);
    }
  }

  /** Lower-casing changes exactly the letters A to Z. */
  lemma {:induction false} LowerExact(s: string, i: nat)
    requires i < |s|
    ensures 'A' <= s[i] <= 'Z' ==> Lower(s)[i] as int == s[i] as int + 32
    ensures !('A' <= s[i] <= 'Z') ==> Lower(s)[i] == s[i]
  {
    if i > 0 { LowerExact(s[1..], i - 1); }
  }

  /** One leading dot of a Domain attribute is ignored. */
  lemma {:induction false} LeadingDotIgnored(domain: string)
    requires Trimmed(domain) && domain != "" && domain[0] != '.'
    ensures NormalizeDomain("." + domain) == NormalizeDomain(domain) == Lower(domain)
  {
    hide Trim, Lower;
    TrimTrimmed(domain);
    TrimTrimmed("." + domain);
    assert ("." + domain)[1..] == domain;
  }

  /** The default path of a request is everything before the last slash of its path, the root if that is nothing. */
  lemma {:induction false} DefaultPathExact(directory: string, leaf: string, query: string)
    requires '?' !in directory && '?' !in leaf && '/' !in leaf && (directory != "" ==> directory[0] == '/')
    requires query == "" || query[0] == '?'
    ensures DefaultPath(directory + "/" + leaf + query) == if directory == "" then "/" else directory
  {
    hide LastSlash;
    var path := directory + "/" + leaf;
    assert path[..|path|] == path;
    IndexOfAt(path + query, '?', |path|) by { assert (path + query)[..|path|] == path; }
    assert StripQuery(path + query) == path;
    var i := LastSlash(path);
    assert path[|directory| + 1..] == leaf && path[|directory|] == '/';
    assert i == |directory|;
    assert path[..|directory|] == directory;
  }
}
