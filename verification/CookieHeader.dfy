/** Writing the Cookie header in the client (src/connection/client/request_assembler.cc:305-379) and reading
    it in the server (src/connection/include/internal/server/http_server_task_detail.h:186-234). */
module CookieHeader {
  import opened Text
  import opened CookieRules
  import opened CookieParse
  import opened CookieJar
  import CookieAttributes

  // ----- order -----

  /** More specific paths first. */
  ghost predicate LongestPathFirst(cs: seq<Cookie>) {
    forall i, j :: 0 <= i < j < |cs| ==> |cs[i].path| >= |cs[j].path|
  }

  lemma {:induction false} InsertKeepsOrder(order: seq<Cookie>, k: nat, c: Cookie)
    requires k <= |order| && LongestPathFirst(order)
    requires forall j :: 0 <= j < k ==> |order[j].path| >= |c.path|
    requires k < |order| ==> |order[k].path| < |c.path|
    ensures LongestPathFirst(order[..k] + [c] + order[k..])
  {
  }

  lemma {:induction false} InsertKeepsContents(order: seq<Cookie>, k: nat, c: Cookie)
    requires k <= |order|
    ensures multiset(order[..k] + [c] + order[k..]) == multiset(order) + multiset{c}
  {
    assert order == order[..k] + order[k..];
  }

  method InsertByPath(order: seq<Cookie>, c: Cookie) returns (r: seq<Cookie>)
    requires LongestPathFirst(order)
    ensures multiset(r) == multiset(order) + multiset{c}
    ensures LongestPathFirst(r)
  {
    hide LongestPathFirst;
    var k := 0;
    while k < |order| && |order[k].path| >= |c.path|
      invariant k <= |order|
      invariant forall j :: 0 <= j < k ==> |order[j].path| >= |c.path|
    {
      k := k + 1;
    }
    InsertKeepsOrder(order, k, c);
    InsertKeepsContents(order, k, c);
    r := order[..k] + [c] + order[k..];
  }

  /** Some order of the candidates with longer paths first; nothing is promised about equal lengths. */
  method SortByPath(cs: seq<Cookie>) returns (order: seq<Cookie>)
    ensures multiset(order) == multiset(cs)
    ensures LongestPathFirst(order)
  {
    hide LongestPathFirst;
    order := [];
    NothingToOrder();
    for i := 0 to |cs|
      invariant multiset(order) == multiset(cs[..i])
      invariant LongestPathFirst(order)
    {
      assert cs[..i + 1] == cs[..i] + [cs[i]];
      order := InsertByPath(order, cs[i]);
    }
    assert cs[..|cs|] == cs;
  }

  lemma NothingToOrder()
    ensures LongestPathFirst([])
  {}

  // ----- writing -----

  function Pair(c: Cookie): string {
    c.name + "=" + c.value
  }

  function Written(cs: seq<Cookie>): string {
    if cs == [] then ""
    else
      var out, c := Written(cs[..|cs| - 1]), cs[|cs| - 1];
      if c.name == "" then out else out + (if out == "" then "" else "; ") + Pair(c)
  }

  method SerializeCookieCandidates(cs: seq<Cookie>) returns (out: string)
    ensures out == Written(cs)
  {
    out := "";
    for i := 0 to |cs|
      invariant out == Written(cs[..i])
    {
      assert cs[..i + 1][..i] == cs[..i];
      var c := cs[i];
      if c.name != "" {
        if out != "" { out := out + "; "; }
        out := out + Pair(c);
      }
    }
    assert cs[..|cs|] == cs;
  }

  // ----- reading -----

  function Dequoted(s: string): string {
    if |s| >= 2 && s[0] == '"' && s[|s| - 1] == '"' then s[1..|s| - 1] else s
  }

  /** The name and value of one token of a Cookie header; the name is empty for a blank token. */
  function ReadToken(token: string): (string, string) {
    var t := Trim(token);
    var i := IndexOf(t, '=');
    if i == |t| then (t, "") else (Trim(t[..i]), Dequoted(Trim(t[i + 1..])))
  }

  function ReadTokens(tokens: seq<string>): seq<(string, string)> {
    if tokens == [] then []
    else
      var last := |tokens| - 1;
      var pair := ReadToken(tokens[last]);
      ReadTokens(tokens[..last]) + (if pair.0 == "" then [] else [pair])
  }

  function ReadHeader(header: string): seq<(string, string)> {
    ReadTokens(Split(header, ';'))
  }

  /** Later pairs replace earlier ones of the same name. */
  function LastWins(pairs: seq<(string, string)>): map<string, string> {
    if pairs == [] then map[] else LastWins(pairs[..|pairs| - 1])[pairs[|pairs| - 1].0 := pairs[|pairs| - 1].1]
  }

  method GenerateCookiePairs(header: string) returns (cookies: map<string, string>)
    ensures cookies == LastWins(ReadHeader(header))
  {
    hide ReadToken, Split;
    var tokens := Split(header, ';');
    cookies := map[];
    for i := 0 to |tokens|
      invariant cookies == LastWins(ReadTokens(tokens[..i]))
    {
      assert tokens[..i + 1][..i] == tokens[..i];
      var pair := ReadToken(tokens[i]);
      if pair.0 != "" {
        var before := ReadTokens(tokens[..i]);
        assert (before + [pair])[..|before|] == before;
        cookies := cookies[pair.0 := pair.1];
      } else {
        assert ReadTokens(tokens[..i + 1]) == ReadTokens(tokens[..i]);
      }
    }
    assert tokens[..|tokens|] == tokens;
  }

  // ----- the server reads back what the client wrote -----

  function Seen(cs: seq<Cookie>): seq<(string, string)> {
    seq(|cs|, i requires 0 <= i < |cs| => (cs[i].name, Dequoted(cs[i].value)))
  }

  lemma {:induction false} PairShape(c: Cookie)
    requires CleanPair(c)
    ensures Trimmed(Pair(c)) && |Pair(c)| > |c.name| && ';' !in Pair(c)
    ensures IndexOf(Pair(c), '=') == |c.name|
    ensures Pair(c)[..|c.name|] == c.name && Pair(c)[|c.name| + 1..] == c.value
  {
    hide IndexOf;
    var p := Pair(c);
    assert p[..|c.name|] == c.name && p[|c.name| + 1..] == c.value;
    assert p[0] == c.name[0];
    if c.value != "" { assert p[|p| - 1] == c.value[|c.value| - 1]; }
    IndexOfAt(p, '=', |c.name|);
  }

  /** One written pair, with or without the space before it, reads as its name and unquoted value. */
  lemma {:induction false} TokenReadBack(c: Cookie, token: string)
    requires CleanPair(c) && (token == Pair(c) || token == " " + Pair(c))
    ensures ReadToken(token) == (c.name, Dequoted(c.value))
  {
    hide IndexOf, Trim, Pair, Dequoted;
    PairShape(c);
    TrimTrimmed(Pair(c));
    TrimTrimmed(c.name);
    TrimTrimmed(c.value);
  }

  lemma {:induction false} ReadTokensSnoc(tokens: seq<string>, t: string)
    requires ReadToken(t).0 != ""
    ensures ReadTokens(tokens + [t]) == ReadTokens(tokens) + [ReadToken(t)]
  {
  }

  lemma {:induction false} WrittenNonEmpty(cs: seq<Cookie>)
    requires cs != [] && cs[|cs| - 1].name != ""
    ensures Written(cs) != ""
  {}

  /** The tokens of the header are those written before and the last pair. */
  lemma {:induction false} WrittenSplit(cs: seq<Cookie>)
    requires |cs| > 1 && CleanPair(cs[|cs| - 1]) && CleanPair(cs[|cs| - 2])
    ensures var last := |cs| - 1;
      Split(Written(cs), ';') == Split(Written(cs[..last]), ';') + [" " + Pair(cs[last])]
  {
    hide Split;
    var last := |cs| - 1;
    var out, token := Written(cs[..last]), " " + Pair(cs[last]);
    WrittenNonEmpty(cs[..last]);
    assert Written(cs) == out + [';'] + token;
    SplitConcat(out, token, ';');
    PairShape(cs[last]);
    SplitWhole(token, ';');
  }

  /** For clean cookies, reading the written header gives every name with its value, in order. */
  lemma {:induction false} HeaderRoundTrip(cs: seq<Cookie>)
    requires forall i :: 0 <= i < |cs| ==> CleanPair(cs[i])
    ensures ReadHeader(Written(cs)) == Seen(cs)
  {
    hide Split, ReadToken, CleanPair, ReadTokens;
    if |cs| > 1 {
      var last := |cs| - 1;
      HeaderRoundTrip(cs[..last]);
      WrittenSplit(cs);
      TokenReadBack(cs[last], " " + Pair(cs[last]));
      NameNonEmpty(cs[last]);
      ReadTokensSnoc(Split(Written(cs[..last]), ';'), " " + Pair(cs[last]));
      assert Seen(cs) == Seen(cs[..last]) + [(cs[last].name, Dequoted(cs[last].value))];
    } else if cs != [] {
      assert cs == [cs[0]];
      HeaderRoundTripOne(cs[0]);
    } else {
      HeaderRoundTripNone();
    }
  }

  lemma NameNonEmpty(c: Cookie)
    requires CleanPair(c)
    ensures c.name != ""
  {}

  lemma {:induction false} HeaderRoundTripNone()
    ensures ReadHeader(Written([])) == Seen([])
  {
  }

  lemma {:induction false} HeaderRoundTripOne(c: Cookie)
    requires CleanPair(c)
    ensures ReadHeader(Written([c])) == Seen([c])
  {
    hide Split, ReadToken, CleanPair, Dequoted, ReadTokens, Pair;
    NameNonEmpty(c);
    assert [c][..0] == [];
    assert Written([c]) == Pair(c);
    PairShape(c);
    SplitWhole(Pair(c), ';');
    TokenReadBack(c, Pair(c));
    ReadTokensSnoc([], Pair(c));
    assert [] + [Pair(c)] == [Pair(c)];
    NoTokens();
  }

  lemma NoTokens()
    ensures ReadTokens([]) == []
  {}

  /** One pair of quotes around a value is dropped, and nothing else. */
  lemma {:induction false} DequotedExact(s: string)
    ensures Dequoted("\"" + s + "\"") == s
    ensures s == "" || s[0] != '"' || s[|s| - 1] != '"' ==> Dequoted(s) == s
  {
    var q := "\"" + s + "\"";
    assert q[1..|q| - 1] == s;
  }

  /** White space around a name and around a value is dropped; a token without an equals sign is a name with no value. */
  lemma {:induction false} TokenExact(b0: string, name: string, b1: string, b2: string, value: string, b3: string)
    requires CookieAttributes.Blanks(b0) && CookieAttributes.Blanks(b1) && CookieAttributes.Blanks(b2)
    requires CookieAttributes.Blanks(b3) && Trimmed(name) && Trimmed(value) && name != "" && value != "" && '=' !in name
    ensures ReadToken(b0 + (name + b1 + "=" + (b2 + value)) + b3) == (name, Dequoted(value))
    ensures ReadToken(b0 + name + b3) == (name, "")
  {
    hide Trim, Dequoted;
    var t := name + b1 + "=" + (b2 + value);
    CookieAttributes.TrimExact(b0, t, b3);
    CookieAttributes.TrimExact(b0, name, b3);
    var left := name + b1;
    IndexOfAt(t, '=', |left|) by { assert t[..|left|] == left; NoEquals(b1); }
    assert t[..|left|] == left && t[|left| + 1..] == b2 + value;
    CookieAttributes.TrimExact("", name, b1);
    assert "" + name + b1 == left;
    CookieAttributes.TrimExact(b2, value, "");
    assert b2 + value + "" == b2 + value;
    assert name[..|name|] == name;
    IndexOfAt(name, '=', |name|);
  }

  lemma NoEquals(blanks: string)
    requires CookieAttributes.Blanks(blanks)
    ensures '=' !in blanks
  {
  }

  lemma {:induction false} LastWinsAt(pairs: seq<(string, string)>, i: nat)
    requires i < |pairs| && forall j :: i < j < |pairs| ==> pairs[j].0 != pairs[i].0
    ensures pairs[i].0 in LastWins(pairs) && LastWins(pairs)[pairs[i].0] == pairs[i].1
  {
    if i < |pairs| - 1 { LastWinsAt(pairs[..|pairs| - 1], i); }
  }

  /** From jar to server: any order of any cookies sent after any run is read by the server as those cookies,
      and among cookies of one name the server keeps the one written last. */
  lemma {:induction false} ServerSeesJar(es: seq<Event>, now: int, host: string, target: string, https: bool,
                                         order: seq<Cookie>, lib: Readers)
    requires multiset(order) == multiset(Sent(es, now, host, target, https, lib))
    ensures ReadHeader(Written(order)) == Seen(order)
    ensures forall i :: 0 <= i < |order| && (forall j :: i < j < |order| ==> order[j].name != order[i].name) ==>
      var seen := LastWins(ReadHeader(Written(order)));
      order[i].name in seen && seen[order[i].name] == Dequoted(order[i].value)
  {
    hide ReadHeader, Written, LastWins, Sent, Run, CleanPair, Survives, Sendable;
    forall i | 0 <= i < |order| ensures CleanPair(order[i]) {
      assert order[i] in multiset(order);
      SentExactly(es, now, host, target, https, order[i], lib);
      JarContents(es, order[i], lib);
      ReachableCookies(es, order[i], lib);
    }
    HeaderRoundTrip(order);
    forall i | 0 <= i < |order| && (forall j :: i < j < |order| ==> order[j].name != order[i].name)
      ensures order[i].name in LastWins(Seen(order)) && LastWins(Seen(order))[order[i].name] == Dequoted(order[i].value)
    {
      LastWinsAt(Seen(order), i);
    }
  }
}
