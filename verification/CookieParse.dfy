/** Reading one Set-Cookie value (src/connection/client/request_assembler.cc:78-92, 407-529).
    The number and date readers of the C++ library are parameters; time is counted in clock ticks. */
module CookieParse {
  import opened Text
  import opened CookieRules

  const TICKS_PER_SECOND := 1_000_000_000

  datatype Cookie = Cookie(
    name: string,
    value: string,
    domain: string,
    hostOnly: bool,
    path: string,
    secure: bool,
    expiry: Option<int>)

  /** What the attributes said about the lifetime; a Max-Age that is no number counts as absent. */
  datatype Lifetime = Lifetime(maxAge: Option<int>, expires: Option<int>)

  datatype Draft = Draft(cookie: Cookie, life: Lifetime)

  /** `std::stoll` and the IMF date parser. */
  datatype Readers = Readers(seconds: string -> Option<int>, date: string -> Option<int>)

  /** The trimmed pieces between semicolons; nothing follows a final semicolon. */
  function Tokens(s: string): seq<string>
    decreases |s|
  {
    if s == "" then []
    else
      var i := IndexOf(s, ';');
      [Trim(s[..i])] + (if i == |s| then [] else Tokens(s[i + 1..]))
  }

  /** One more token read from position `start`. */
  lemma {:induction false} TokensStep(s: string, start: nat, i: nat)
    requires start < |s| && i == IndexOf(s[start..], ';')
    ensures i < |s| - start ==> Tokens(s[start..]) == [Trim(s[start..start + i])] + Tokens(s[start + i + 1..])
    ensures i == |s| - start ==> Tokens(s[start..]) == [Trim(s[start..start + i])]
  {
    hide Trim, IndexOf;
    assert s[start..][..i] == s[start..start + i];
    if i < |s| - start { assert s[start..][i + 1..] == s[start + i + 1..]; }
  }

  method SplitSetCookieTokens(s: string) returns (tokens: seq<string>)
    ensures tokens == Tokens(s)
  {
    hide Trim, IndexOf, Tokens;
    tokens := [];
    var start := 0;
    assert s[start..] == s;
    while start < |s|
      invariant start <= |s| && tokens + Tokens(s[start..]) == Tokens(s)
    {
      var i := IndexOf(s[start..], ';');
      TokensStep(s, start, i);
      tokens := tokens + [Trim(s[start..start + i])];
      if start + i == |s| { return; }
      start := start + i + 1;
    }
    TokensOfNothing(s[start..]);
  }

  lemma TokensOfNothing(s: string)
    requires s == ""
    ensures Tokens(s) == []
  {}

  function KeyOf(token: string): string {
    Trim(token[..IndexOf(token, '=')])
  }

  function ValueOf(token: string): string {
    var i := IndexOf(token, '=');
    if i == |token| then "" else Trim(token[i + 1..])
  }

  /** Equality up to case with a name written in lower case. */
  predicate IEquals(a: string, lowered: string) {
    Lower(a) == lowered
  }

  /** One attribute; None rejects the whole cookie. */
  function ApplyAttribute(key: string, value: string, host: string, d: Draft, lib: Readers): Option<Draft> {
    if IEquals(key, "secure") then Some(d.(cookie := d.cookie.(secure := true)))
    else if IEquals(key, "httponly") || IEquals(key, "samesite") then Some(d)
    else if IEquals(key, "domain") then
      var domain := NormalizeDomain(value);
      if domain != "" && DomainMatches(host, domain)
      then Some(d.(cookie := d.cookie.(domain := domain, hostOnly := false)))
      else None
    else if IEquals(key, "path") then
      Some(if value != "" && value[0] == '/' then d.(cookie := d.cookie.(path := value)) else d)
    else if IEquals(key, "max-age") then Some(d.(life := d.life.(maxAge := lib.seconds(value))))
    else if IEquals(key, "expires") then Some(d.(life := d.life.(expires := lib.date(value))))
    else Some(d)
  }

  function ApplyAll(tokens: seq<string>, host: string, d: Draft, lib: Readers): Option<Draft> {
    if tokens == [] then Some(d)
    else
      var last := |tokens| - 1;
      match ApplyAll(tokens[..last], host, d, lib)
      case None => None
      case Some(e) =>
        if tokens[last] == "" then Some(e)
        else ApplyAttribute(KeyOf(tokens[last]), ValueOf(tokens[last]), host, e, lib)
  }

  /** Max-Age before Expires; a lifetime that is over empties the value. */
  function Settle(d: Draft, now: int): Cookie {
    match d.life
    case Lifetime(Some(seconds), _) =>
      if seconds <= 0 then d.cookie.(value := "", expiry := Some(0))
      else d.cookie.(expiry := Some(now + seconds * TICKS_PER_SECOND))
    case Lifetime(None, Some(when)) =>
      if when <= now then d.cookie.(value := "", expiry := Some(when)) else d.cookie.(expiry := Some(when))
    case _ => d.cookie
  }

  function Fresh(host: string, target: string, token: string): Draft {
    Draft(Cookie(KeyOf(token), ValueOf(token), Lower(host), true, DefaultPath(target), false, None), Lifetime(None, None))
  }

  /** The cookie a Set-Cookie value asks for, or None when the value is refused. */
  function Parsed(host: string, target: string, header: string, now: int, lib: Readers): Option<Cookie> {
    var tokens := Tokens(Trim(header));
    if tokens == [] || tokens[0] == "" || KeyOf(tokens[0]) == "" then None
    else
      match ApplyAll(tokens[1..], Lower(host), Fresh(host, target, tokens[0]), lib)
      case None => None
      case Some(d) => Some(Settle(d, now))
  }

  lemma {:induction false} ApplyAllRejects(tokens: seq<string>, n: nat, host: string, d: Draft, lib: Readers)
    requires n <= |tokens| && ApplyAll(tokens[..n], host, d, lib).None?
    ensures ApplyAll(tokens, host, d, lib).None?
    decreases |tokens| - n
  {
    if n == |tokens| {
      assert tokens[..n] == tokens;
    } else {
      assert tokens[..n + 1][..n] == tokens[..n];
      ApplyAllRejects(tokens, n + 1, host, d, lib);
    }
  }

  method ParseSetCookieValue(host: string, target: string, header: string, now: int, lib: Readers)
    returns (r: Option<Cookie>)
    ensures r == Parsed(host, target, header, now, lib)
  {
    hide Lower, ApplyAttribute, KeyOf, ValueOf, Trim, Fresh, Settle;
    var value := Trim(header);
    if value == "" { return None; }
    var tokens := SplitSetCookieTokens(value);
    if tokens == [] || tokens[0] == "" { return None; }
    if KeyOf(tokens[0]) == "" { return None; }
    ghost var start := Fresh(host, target, tokens[0]);
    var d := Fresh(host, target, tokens[0]);
    var attributes := tokens[1..];
    for i := 0 to |attributes|
      invariant ApplyAll(attributes[..i], Lower(host), start, lib) == Some(d)
    {
      assert attributes[..i + 1][..i] == attributes[..i];
      if attributes[i] != "" {
        var next := ApplyAttribute(KeyOf(attributes[i]), ValueOf(attributes[i]), Lower(host), d, lib);
        if next.None? {
          ApplyAllRejects(attributes, i + 1, Lower(host), start, lib);
          return None;
        }
        d := next.value;
      }
    }
    assert attributes[..|attributes|] == attributes;
    return Some(Settle(d, now));
  }

  // ----- what every accepted cookie satisfies -----

  /** A name and value that survive being written in a Cookie header. */
  predicate CleanPair(c: Cookie) {
    && c.name != "" && Trimmed(c.name) && ';' !in c.name && '=' !in c.name
    && Trimmed(c.value) && ';' !in c.value
  }

  /** Domain and path a cookie set by `host` may have. */
  predicate InScope(c: Cookie, host: string) {
    && DomainMatches(Lower(host), c.domain)
    && (c.hostOnly ==> c.domain == Lower(host))
    && c.path != "" && c.path[0] == '/'
  }

  lemma {:induction false} TokensClean(s: string, k: nat)
    requires k < |Tokens(s)|
    ensures ';' !in Tokens(s)[k]
    decreases |s|
  {
    var i := IndexOf(s, ';');
    if k == 0 {
      TrimShape(s[..i]);
    } else {
      TokensClean(s[i + 1..], k - 1);
    }
  }

  lemma {:induction false} PairClean(token: string)
    requires ';' !in token
    ensures Trimmed(KeyOf(token)) && ';' !in KeyOf(token) && '=' !in KeyOf(token)
    ensures Trimmed(ValueOf(token)) && ';' !in ValueOf(token)
  {
    var i := IndexOf(token, '=');
    TrimShape(token[..i]);
    if i < |token| { TrimShape(token[i + 1..]); }
  }

  /** What no attribute changes, and the scope every attribute keeps. */
  predicate Kept(d: Draft, e: Draft, host: string) {
    && InScope(e.cookie, host) && e.cookie.name == d.cookie.name
    && e.cookie.value == d.cookie.value && e.cookie.expiry == d.cookie.expiry
  }

  lemma {:induction false} AttributeKeeps(key: string, value: string, host: string, d: Draft, lib: Readers)
    requires InScope(d.cookie, host) && ApplyAttribute(key, value, Lower(host), d, lib).Some?
    ensures Kept(d, ApplyAttribute(key, value, Lower(host), d, lib).value, host)
  {
    hide Lower, NormalizeDomain, DomainMatches;
  }

  lemma {:induction false} ApplyAllKeeps(tokens: seq<string>, host: string, d: Draft, lib: Readers)
    requires InScope(d.cookie, host)
    requires ApplyAll(tokens, Lower(host), d, lib).Some?
    ensures Kept(d, ApplyAll(tokens, Lower(host), d, lib).value, host)
  {
    hide Lower, ApplyAttribute, KeyOf, ValueOf, DomainMatches;
    if tokens != [] {
      var last := |tokens| - 1;
      ApplyAllKeeps(tokens[..last], host, d, lib);
      if tokens[last] != "" {
        var e := ApplyAll(tokens[..last], Lower(host), d, lib).value;
        AttributeKeeps(KeyOf(tokens[last]), ValueOf(tokens[last]), host, e, lib);
      }
    }
  }

  /** Every accepted cookie has a clean, non-empty name, a domain matched by the host that set it, an absolute path. */
  lemma {:induction false} AcceptedShape(host: string, target: string, header: string, now: int, lib: Readers)
    requires Parsed(host, target, header, now, lib).Some?
    ensures var c := Parsed(host, target, header, now, lib).value; CleanPair(c) && InScope(c, host)
  {
    hide Lower, ApplyAll, KeyOf, ValueOf, Tokens, Trim, DefaultPath;
    var tokens := Tokens(Trim(header));
    TokensClean(Trim(header), 0);
    PairClean(tokens[0]);
    DefaultPathMatches(target);
    ApplyAllKeeps(tokens[1..], host, Fresh(host, target, tokens[0]), lib);
  }

  /** A cookie whose expiry is already past when it is read has an empty value. */
  lemma {:induction false} PastMeansEmpty(host: string, target: string, header: string, now: int, lib: Readers)
    requires 0 <= now && Parsed(host, target, header, now, lib).Some?
    ensures var c := Parsed(host, target, header, now, lib).value; c.expiry.Some? && c.expiry.value <= now ==>
              c.value == ""
  {
    hide Lower, ApplyAll, KeyOf, ValueOf, Tokens, Trim, DefaultPath;
    var tokens := Tokens(Trim(header));
    DefaultPathMatches(target);
    ApplyAllKeeps(tokens[1..], host, Fresh(host, target, tokens[0]), lib);
  }

  /** No attribute of the Set-Cookie value is a Path. */
  predicate NoPathAttribute(tokens: seq<string>) {
    forall k :: 0 <= k < |tokens| ==> !IEquals(KeyOf(tokens[k]), "path")
  }

  lemma {:induction false} AttributeKeepsPath(key: string, value: string, host: string, d: Draft, lib: Readers)
    requires !IEquals(key, "path") && ApplyAttribute(key, value, host, d, lib).Some?
    ensures ApplyAttribute(key, value, host, d, lib).value.cookie.path == d.cookie.path
  {
    hide Lower, NormalizeDomain, DomainMatches;
  }

  lemma {:induction false} ApplyAllKeepsPath(tokens: seq<string>, host: string, d: Draft, lib: Readers)
    requires NoPathAttribute(tokens) && ApplyAll(tokens, host, d, lib).Some?
    ensures ApplyAll(tokens, host, d, lib).value.cookie.path == d.cookie.path
  {
    hide ApplyAttribute, KeyOf, ValueOf, IEquals;
    if tokens != [] {
      var last := |tokens| - 1;
      ApplyAllKeepsPath(tokens[..last], host, d, lib);
      if tokens[last] != "" {
        var e := ApplyAll(tokens[..last], host, d, lib).value;
        AttributeKeepsPath(KeyOf(tokens[last]), ValueOf(tokens[last]), host, e, lib);
      }
    }
  }

  /** Without a Path attribute the cookie gets the default path of the request that set it. */
  lemma {:induction false} DefaultPathTaken(host: string, target: string, header: string, now: int, lib: Readers)
    requires Parsed(host, target, header, now, lib).Some?
    requires NoPathAttribute(Tokens(Trim(header))[1..])
    ensures Parsed(host, target, header, now, lib).value.path == DefaultPath(target)
  {
    hide Lower, ApplyAll, KeyOf, ValueOf, Tokens, Trim, DefaultPath, NoPathAttribute;
    var tokens := Tokens(Trim(header));
    ApplyAllKeepsPath(tokens[1..], Lower(host), Fresh(host, target, tokens[0]), lib);
  }
}
