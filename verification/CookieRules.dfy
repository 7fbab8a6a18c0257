/** Host, domain and path rules of the cookie jar (src/connection/client/request_assembler.cc:45-303),
    compared with sections 5.1.3 and 5.1.4 of RFC 6265. */
module CookieRules {
  import opened Text

  predicate Blank(c: char) {
    c == ' ' || c == '\t' || c == '\r' || c == '\n'
  }

  /** Not starting or ending with white space. */
  predicate Trimmed(s: string) {
    s != "" ==> !Blank(s[0]) && !Blank(s[|s| - 1])
  }

  function TrimLeft(s: string): string {
    if s != "" && Blank(s[0]) then TrimLeft(s[1..]) else s
  }

  function TrimRight(s: string): string {
    if s != "" && Blank(s[|s| - 1]) then TrimRight(s[..|s| - 1]) else s
  }

  function Trim(s: string): string {
    TrimRight(TrimLeft(s))
  }

  lemma {:induction false} TrimLeftShape(s: string)
    ensures TrimLeft(s) != "" ==> !Blank(TrimLeft(s)[0])
    ensures forall c :: c in TrimLeft(s) ==> c in s
  {
    if s != "" && Blank(s[0]) { TrimLeftShape(s[1..]); }
  }

  lemma {:induction false} TrimRightShape(s: string)
    ensures TrimRight(s) <= s
    ensures TrimRight(s) != "" ==> !Blank(TrimRight(s)[|TrimRight(s)| - 1])
  {
    if s != "" && Blank(s[|s| - 1]) { TrimRightShape(s[..|s| - 1]); }
  }

  /** Trimming gives a trimmed string made of characters of the original. */
  lemma {:induction false} TrimShape(s: string)
    ensures Trimmed(Trim(s))
    ensures forall c :: c in Trim(s) ==> c in s
  {
    TrimLeftShape(s);
    TrimRightShape(TrimLeft(s));
  }

  lemma {:induction false} TrimTrimmed(s: string)
    requires Trimmed(s)
    ensures Trim(s) == s && (s != "" ==> Trim(" " + s) == s)
  {
  }

  function LowerChar(c: char): char {
    if 'A' <= c <= 'Z' then (c as int + 32) as char else c
  }

  function Lower(s: string): (r: string)
    ensures |r| == |s|
  {
    if s == "" then "" else [LowerChar(s[0])] + Lower(s[1..])
  }

  /** A Domain attribute: trimmed, without one leading dot, in lower case. */
  function NormalizeDomain(s: string): string {
    var t := Trim(s);
    Lower(if t != "" && t[0] == '.' then t[1..] else t)
  }

  // ----- domain matching -----

  predicate DomainMatches(host: string, domain: string) {
    host == domain ||
    (|host| > |domain| && host[|host| - |domain|..] == domain && host[|host| - |domain| - 1] == '.')
  }

  /** A host matches a domain exactly when it is that domain or a name below it. */
  lemma {:induction false} DomainMatchIff(host: string, domain: string)
    ensures DomainMatches(host, domain) <==> host == domain || exists below: string :: host == below + "." + domain
  {
    if DomainMatches(host, domain) && host != domain {
      var below := host[..|host| - |domain| - 1];
      assert host == below + "." + domain;
    }
    if below: string :| host == below + "." + domain {
      assert host[|host| - |domain|..] == domain;
      assert host[|host| - |domain| - 1] == '.';
    }
  }

  /** Matching is transitive: a name below a subdomain is below the domain. */
  lemma {:induction false} DomainMatchTransitive(a: string, b: string, c: string)
    requires DomainMatches(a, b) && DomainMatches(b, c)
    ensures DomainMatches(a, c)
  {
  }

  // ----- paths -----

  /** Index of the last slash; the string starts with one. */
  function LastSlash(path: string): (i: nat)
    requires path != "" && path[0] == '/'
    ensures i < |path| && path[i] == '/' && '/' !in path[i + 1..]
  {
    if path[|path| - 1] == '/' then |path| - 1
    else
      var i := LastSlash(path[..|path| - 1]);
      assert path[i + 1..] == path[..|path| - 1][i + 1..] + [path[|path| - 1]];
      i
  }

  /** The directory of the request path; a path without a second slash gives the root. */
  function DefaultPath(target: string): string {
    var path := StripQuery(target);
    if path == "" || path[0] != '/' then "/"
    else
      var last := LastSlash(path);
      if last == 0 then "/" else path[..last]
  }

  predicate PathMatches(requestPath: string, cookiePath: string) {
    var c := if cookiePath == "" || cookiePath[0] != '/' then "/" else cookiePath;
    c == "/" ||
    (c <= requestPath &&
     (|requestPath| == |c| || c[|c| - 1] == '/' || requestPath[|c|] == '/'))
  }

  /** Path-match of section 5.1.4 of RFC 6265. */
  predicate RfcPathMatches(requestPath: string, cookiePath: string) {
    || requestPath == cookiePath
    || (cookiePath <= requestPath && cookiePath != "" && cookiePath[|cookiePath| - 1] == '/')
    || (cookiePath <= requestPath && |requestPath| > |cookiePath| && requestPath[|cookiePath|] == '/')
  }

  /** On absolute paths the test is that of the standard; otherwise only the root cookie path matches. */
  lemma {:induction false} PathMatchIsStandard(requestPath: string, cookiePath: string)
    requires cookiePath != "" && cookiePath[0] == '/'
    ensures requestPath != "" && requestPath[0] == '/' ==>
              (PathMatches(requestPath, cookiePath) <==> RfcPathMatches(requestPath, cookiePath))
    ensures requestPath == "" || requestPath[0] != '/' ==> (PathMatches(requestPath, cookiePath) <==> cookiePath == "/")
  {
  }

  /** The default path of a target always matches that target. */
  lemma {:induction false} DefaultPathMatches(target: string)
    ensures DefaultPath(target) != "" && DefaultPath(target)[0] == '/'
    ensures PathMatches(StripQuery(target), DefaultPath(target))
  {
  }
}
