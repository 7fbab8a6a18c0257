/** Route targets as strings: validation, segmentation, parameter names and template joining
    (src/route/impl/http_route_target_validator.cc, http_route_table_detail.h,
    JoinRouteTemplate). */
module RouteTarget {
  import opened Text

  /** An edge of the route tree: a literal child, or the one shared parameter child. */
  datatype Edge = Lit(word: string) | Wild

  /** A position in the forest of per-method route trees: a method bucket, then edges.
      The last edge is outermost. */
  datatype Path = Root(bucket: nat) | Step(up: Path, edge: Edge)

  function Bucket(p: Path): nat {
    match p case Root(m) => m case Step(u, _) => Bucket(u)
  }

  function Depth(p: Path): nat {
    match p case Root(_) => 0 case Step(u, _) => Depth(u) + 1
  }

  /** Number of parameter edges on a path. */
  function Wilds(p: Path): nat {
    match p case Root(_) => 0 case Step(u, e) => Wilds(u) + (if e.Wild? then 1 else 0)
  }

  /** `p` is `a` or a descendant of `a`. */
  predicate Under(a: Path, p: Path) {
    p == a || (p.Step? && Under(a, p.up))
  }

  lemma {:induction false} UnderIsDeeper(a: Path, p: Path)
    requires Under(a, p)
    ensures Depth(a) <= Depth(p) && Bucket(a) == Bucket(p)
    ensures Depth(a) == Depth(p) ==> a == p
  {
    if p != a { UnderIsDeeper(a, p.up); }
  }

  lemma {:induction false} UnderTransitive(a: Path, b: Path, p: Path)
    requires Under(a, b) && Under(b, p)
    ensures Under(a, p)
  {
    if p != b { UnderTransitive(a, b, p.up); }
  }

  /** A node below `a` is `a` itself or below exactly one child of `a`. */
  lemma {:induction false} UnderSplit(a: Path, p: Path) returns (e: Edge)
    requires Under(a, p) && p != a
    ensures Under(Step(a, e), p)
    ensures forall f :: Under(Step(a, f), p) ==> f == e
  {
    if p.up == a {
      e := p.edge;
      forall f | Under(Step(a, f), p) ensures f == e { UnderIsDeeper(Step(a, f), p); }
    } else {
      e := UnderSplit(a, p.up);
      forall f | Under(Step(a, f), p) ensures f == e {
        UnderIsDeeper(a, p.up);
        if p == Step(a, f) { assert false; }
      }
    }
  }

  // ----- segments of a target -----

  predicate IsParam(segment: string) {
    |segment| >= 2 && segment[0] == '{' && segment[|segment| - 1] == '}'
  }

  function ParamName(segment: string): string {
    if IsParam(segment) then segment[1..|segment| - 1] else ""
  }

  function EdgeOf(segment: string): Edge {
    if IsParam(segment) then Wild else Lit(segment)
  }

  /** The non-empty pieces of the target's path part. */
  function Segments(target: string): seq<string> {
    NonEmpty(Split(StripQuery(target), '/'))
  }

  /** The segment loop: cut at each slash, keep non-empty pieces, stop at the end of the path part. */
  method SplitTargetSegments(target: string) returns (segments: seq<string>)
    ensures segments == Segments(target)
    ensures forall k :: 0 <= k < |segments| ==> segments[k] != "" && '/' !in segments[k]
  {
    segments := [];
    var url := StripQuery(target);
    while url != ""
      invariant segments + NonEmpty(Split(url, '/')) == Segments(target)
      invariant forall k :: 0 <= k < |segments| ==> segments[k] != "" && '/' !in segments[k]
      decreases |url|
    {
      var slash := IndexOf(url, '/');
      var part := url[..slash];
      if part != "" {
        segments := segments + [part];
      }
      if slash == |url| {
        assert part == url;
        assert NonEmpty([part]) == [part];
        return;
      }
      NonEmptyConcat([part], Split(url[slash + 1..], '/'));
      url := url[slash + 1..];
    }
    assert Split("", '/') == [""];
  }

  /** Names of the parameter segments; a segment `{}` has none. */
  function ParamNames(segments: seq<string>): seq<string> {
    if segments == [] then []
    else if ParamName(segments[0]) == "" then ParamNames(segments[1..])
    else [ParamName(segments[0])] + ParamNames(segments[1..])
  }

  /** The name-extraction loop. */
  method ExtractParamNames(target: string) returns (names: seq<string>)
    ensures names == ParamNames(Segments(target))
  {
    names := [];
    var segments := SplitTargetSegments(target);
    for i := 0 to |segments|
      invariant names + ParamNames(segments[i..]) == ParamNames(segments)
    {
      assert segments[i..][0] == segments[i] && segments[i..][1..] == segments[i + 1..];
      if ParamName(segments[i]) != "" {
        names := names + [ParamName(segments[i])];
      }
    }
  }

  /** The tree position reached from `p` along target segments. */
  function PathFrom(p: Path, segments: seq<string>): Path
    decreases |segments|
  {
    if segments == [] then p else PathFrom(Step(p, EdgeOf(segments[0])), segments[1..])
  }

  function TargetPath(m: nat, target: string): Path {
    PathFrom(Root(m), Segments(target))
  }

  lemma {:induction false} PathFromConcat(p: Path, xs: seq<string>, ys: seq<string>)
    ensures PathFrom(p, xs + ys) == PathFrom(PathFrom(p, xs), ys)
    decreases |xs|
  {
    if xs == [] {
      assert xs + ys == ys;
    } else {
      PathFromConcat(Step(p, EdgeOf(xs[0])), xs[1..], ys);
      assert (xs + ys)[1..] == xs[1..] + ys;
    }
  }

  lemma {:induction false} PathFromShape(p: Path, segments: seq<string>)
    ensures Bucket(PathFrom(p, segments)) == Bucket(p)
    ensures Depth(PathFrom(p, segments)) == Depth(p) + |segments|
    ensures Under(p, PathFrom(p, segments))
    decreases |segments|
  {
    if segments != [] {
      var q := Step(p, EdgeOf(segments[0]));
      PathFromShape(q, segments[1..]);
      UnderTransitive(p, q, PathFrom(q, segments[1..]));
    }
  }

  /** Where a mount at prefix segments `pre` puts the source path `r`. */
  function Graft(pre: seq<string>, r: Path): Path {
    match r
    case Root(m) => PathFrom(Root(m), pre)
    case Step(u, e) => Step(Graft(pre, u), e)
  }

  predicate Grafted(pre: seq<string>, p: Path) {
    p == PathFrom(Root(Bucket(p)), pre) || (p.Step? && Grafted(pre, p.up))
  }

  function Ungraft(pre: seq<string>, p: Path): (r: Path)
    requires Grafted(pre, p)
    ensures Bucket(r) == Bucket(p)
    ensures Graft(pre, r) == p
  {
    if p == PathFrom(Root(Bucket(p)), pre) then Root(Bucket(p))
    else Step(Ungraft(pre, p.up), p.edge)
  }

  /** Grafting shifts depth and parameter count, and `Ungraft` undoes it, so it is injective. */
  lemma {:induction false} UngraftOfGraft(pre: seq<string>, r: Path)
    ensures Bucket(Graft(pre, r)) == Bucket(r)
    ensures Depth(Graft(pre, r)) == Depth(r) + |pre|
    ensures Grafted(pre, Graft(pre, r)) && Ungraft(pre, Graft(pre, r)) == r
  {
    PathFromShape(Root(Bucket(r)), pre);
    if r.Step? { UngraftOfGraft(pre, r.up); }
  }

  lemma {:induction false} GraftWilds(pre: seq<string>, r: Path)
    ensures Wilds(Graft(pre, r)) == Wilds(PathFrom(Root(Bucket(r)), pre)) + Wilds(r)
  {
    if r.Step? { GraftWilds(pre, r.up); }
  }

  lemma {:induction false} GraftPathFrom(pre: seq<string>, p: Path, segments: seq<string>)
    ensures PathFrom(Graft(pre, p), segments) == Graft(pre, PathFrom(p, segments))
    decreases |segments|
  {
    if segments != [] {
      GraftPathFrom(pre, Step(p, EdgeOf(segments[0])), segments[1..]);
    }
  }

  predicate AllLiteral(segments: seq<string>) {
    forall k :: 0 <= k < |segments| ==> !IsParam(segments[k])
  }

  /** No parameter segment is the anonymous `{}`. */
  predicate AllNamed(segments: seq<string>) {
    forall k :: 0 <= k < |segments| ==> segments[k] != "{}"
  }

  /** One name per parameter edge, unless some parameter is anonymous: then there are fewer. */
  lemma {:induction false} NamesPerWild(p: Path, segments: seq<string>)
    ensures |ParamNames(segments)| + Wilds(p) <= Wilds(PathFrom(p, segments))
    ensures |ParamNames(segments)| + Wilds(p) == Wilds(PathFrom(p, segments)) <==> AllNamed(segments)
    decreases |segments|
  {
    if segments != [] {
      NamesPerWild(Step(p, EdgeOf(segments[0])), segments[1..]);
      assert AllNamed(segments) <==> segments[0] != "{}" && AllNamed(segments[1..]) by {
        assert segments == [segments[0]] + segments[1..];
      }
      assert IsParam(segments[0]) && ParamName(segments[0]) == "" ==> segments[0] == "{}";
    }
  }

  // ----- templates -----

  function Template(target: string): string {
    if StripQuery(target) == "" then "/" else StripQuery(target)
  }

  function JoinTemplate(prefix: string, tmpl: string): string {
    var p0 := Template(prefix);
    var r := Template(tmpl);
    var p := if |p0| > 1 && p0[|p0| - 1] == '/' then p0[..|p0| - 1] else p0;
    if p == "/" then r else if r == "/" then p else p + r
  }

  lemma {:induction false} StripQueryIdempotent(s: string)
    ensures StripQuery(StripQuery(s)) == StripQuery(s)
    ensures '?' !in s ==> StripQuery(s) == s
  {
  }

  /** Normalising a target keeps its segments. */
  lemma {:induction false} TemplateSegments(target: string)
    ensures Segments(Template(target)) == Segments(target)
    ensures '?' !in Template(target) && Template(target) != ""
  {
    var t := StripQuery(target);
    StripQueryIdempotent(target);
    if t == "" {
      StripQueryIdempotent("/");
      SplitConcat("", "", '/');
      assert "" + ['/'] + "" == "/";
      assert NonEmpty(["", ""]) == [] by { assert ["", ""][1..] == [""]; }
    }
  }

  /** A trailing slash adds no segment. */
  lemma {:induction false} TrailingSlash(s: string)
    requires '?' !in s
    ensures Segments(s + "/") == Segments(s)
  {
    StripQueryIdempotent(s);
    StripQueryIdempotent(s + "/");
    SplitConcat(s, "", '/');
    assert s + ['/'] + "" == s + "/";
    NonEmptyConcat(Split(s, '/'), Split("", '/'));
    assert NonEmpty([""]) == [];
  }

  lemma {:induction false} SegmentsConcat(a: string, b: string)
    requires '?' !in a && '?' !in b && b != "" && b[0] == '/'
    ensures Segments(a + b) == Segments(a) + Segments(b)
  {
    StripQueryIdempotent(a);
    StripQueryIdempotent(b);
    StripQueryIdempotent(a + b);
    var tail := b[1..];
    assert a + b == a + ['/'] + tail && b == "" + ['/'] + tail;
    SplitConcat(a, tail, '/');
    SplitConcat("", tail, '/');
    NonEmptyConcat(Split(a, '/'), Split(tail, '/'));
    NonEmptyConcat(Split("", '/'), Split(tail, '/'));
    assert NonEmpty([""]) == [];
  }

  /** The joined template names the prefix's segments followed by the route's, and starts with a slash. */
  lemma {:induction false} JoinTemplateSegments(prefix: string, tmpl: string)
    requires prefix != "" && prefix[0] == '/'
    requires tmpl != "" && tmpl[0] == '/' && '?' !in tmpl
    ensures Segments(JoinTemplate(prefix, tmpl)) == Segments(prefix) + Segments(tmpl)
    ensures JoinTemplate(prefix, tmpl) != "" && JoinTemplate(prefix, tmpl)[0] == '/'
    ensures '?' !in JoinTemplate(prefix, tmpl)
  {
    var p0, r := Template(prefix), Template(tmpl);
    TemplateSegments(prefix);
    StripQueryIdempotent(tmpl);
    assert r == tmpl;
    var p := if |p0| > 1 && p0[|p0| - 1] == '/' then p0[..|p0| - 1] else p0;
    assert p0[0] == '/';
    if p != p0 {
      assert p + "/" == p0;
      TrailingSlash(p);
    }
    assert Segments("/") == [] by { TemplateSegments(""); StripQueryIdempotent(""); assert NonEmpty([""]) == []; }
    if p != "/" && r != "/" {
      SegmentsConcat(p, r);
    }
  }

  // ----- validation -----

  predicate AllowedChar(c: char) {
    'a' <= c <= 'z' || 'A' <= c <= 'Z' || '0' <= c <= '9' || c in "-._~!$&'()*+,;=:@/?%#[]"
  }

  predicate NameChar(c: char) {
    'a' <= c <= 'z' || 'A' <= c <= 'Z' || '0' <= c <= '9' || c in "_-"
  }

  /** The target regex after its leading slash: allowed characters and `{name}` groups. */
  predicate Pattern(s: string)
    decreases |s|
  {
    if s == "" then true
    else if s[0] == '{' then
      var j := IndexOf(s, '}');
      j < |s| && (forall k :: 1 <= k < j ==> NameChar(s[k])) && Pattern(s[j + 1..])
    else AllowedChar(s[0]) && Pattern(s[1..])
  }

  /** The characters outside braces. */
  function OutsideBraces(s: string, inBrace: bool): string {
    if s == "" then ""
    else if s[0] == '{' then OutsideBraces(s[1..], true)
    else if s[0] == '}' then OutsideBraces(s[1..], false)
    else (if inBrace then "" else [s[0]]) + OutsideBraces(s[1..], inBrace)
  }

  predicate HasDotDot(s: string) {
    exists k :: 0 <= k < |s| - 1 && s[k] == '.' && s[k + 1] == '.'
  }

  /** The brace counter of the validator: it never goes negative and ends at zero. */
  predicate Balanced(s: string, open: nat) {
    if s == "" then open == 0
    else if s[0] == '{' then Balanced(s[1..], open + 1)
    else if s[0] == '}' then open > 0 && Balanced(s[1..], open - 1)
    else Balanced(s[1..], open)
  }

  predicate IsValidTarget(target: string) {
    && 0 < |target| <= 2048 && target[0] == '/'
    && Pattern(target[1..])
    && Balanced(target, 0)
    && !HasDotDot(OutsideBraces(target, false))
  }

  lemma {:induction false} SkipName(s: string, j: nat, open: nat)
    requires j <= |s| && forall k :: 0 <= k < j ==> NameChar(s[k])
    ensures Balanced(s, open) == Balanced(s[j..], open)
    decreases j
  {
    if j > 0 {
      SkipName(s[1..], j - 1, open);
      assert s[1..][j - 1..] == s[j..];
    } else {
      assert s[0..] == s;
    }
  }

  /** A whole parameter leaves the brace count as it was. */
  lemma {:induction false} SkipParameter(s: string, j: nat)
    requires 1 <= j < |s| && s[0] == '{' && s[j] == '}' && forall k :: 1 <= k < j ==> NameChar(s[k])
    ensures Balanced(s, 0) == Balanced(s[j + 1..], 0)
  {
    var t := s[1..];
    SkipName(t, j - 1, 1);
    assert t[j - 1..] == s[j..];
    assert s[j..][1..] == s[j + 1..];
  }

  /** The brace counting pass rejects nothing the regex accepts. */
  lemma {:induction false} PatternBalances(s: string)
    requires Pattern(s)
    ensures Balanced(s, 0)
    decreases |s|
  {
    hide IndexOf;
    if s != "" && s[0] == '{' {
      var j := IndexOf(s, '}');
      PatternBalances(s[j + 1..]);
      SkipParameter(s, j);
    } else if s != "" {
      PatternBalances(s[1..]);
    }
  }

  lemma {:induction false} NonEmptyMembers(xs: seq<string>)
    ensures forall k :: 0 <= k < |NonEmpty(xs)| ==> NonEmpty(xs)[k] != "" && NonEmpty(xs)[k] in xs
  {
    if xs != [] { NonEmptyMembers(xs[1..]); }
  }

  /** Segments are non-empty and hold no slash. */
  lemma {:induction false} SegmentsNonEmpty(target: string)
    ensures forall k :: 0 <= k < |Segments(target)| ==> Segments(target)[k] != "" && '/' !in Segments(target)[k]
  {
    NonEmptyMembers(Split(StripQuery(target), '/'));
  }
}
