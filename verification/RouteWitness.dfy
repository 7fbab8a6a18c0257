/** Tables, made by registrations and mounts alone, on which the plain promises of the route table fail. */
module RouteWitness {
  import opened Text
  import opened RouteTarget
  import opened RouteTree
  import opened RouteLaws
  import opened RouteHistory

  // ----- targets of one segment -----

  lemma {:induction false} WordSegments(w: string)
    requires w != "" && '/' !in w && '?' !in w
    ensures Segments("/" + w) == [w]
  {
    var t := "/" + w;
    assert t[..|t|] == t;
    IndexOfAt(t, '?', |t|);
    assert t == "" + ['/'] + w;
    SplitConcat("", w, '/');
    SplitWhole("", '/');
    SplitWhole(w, '/');
    assert Split(t, '/') == ["", w];
    assert ["", w][1..] == [w] && [w][1..] == [];
    assert NonEmpty([w]) == [w];
  }

  lemma {:induction false} RootSegments()
    ensures Segments("/") == [] && Template("/") == "/" && ParamNames([]) == []
  {
    IndexOfAt("/", '?', 1);
    assert "/"[..1] == "/";
    assert "/" == "" + ['/'] + "";
    SplitConcat("", "", '/');
    SplitWhole("", '/');
    assert [""] + [""] == ["", ""];
    assert ["", ""][1..] == [""] && [""][1..] == [];
  }

  /** The target /{name}, or /{} for an empty name. */
  function Parameter(name: string): string {
    "/{" + name + "}"
  }

  predicate PlainName(name: string) {
    |name| <= 1 && forall k :: 0 <= k < |name| ==> 'a' <= name[k] <= 'z'
  }

  lemma {:induction false} PatternParameter(name: string)
    requires PlainName(name)
    ensures Pattern("{" + name + "}") && Balanced(Parameter(name), 0)
  {
    var s := "{" + name + "}";
    var j := |name| + 1;
    IndexOfAt(s, '}', j) by { assert s[..j] == "{" + name; }
    assert s[j + 1..] == "";
    PatternBalances(s);
    assert Parameter(name) == "/" + s && Parameter(name)[1..] == s;
  }

  lemma {:induction false} OutsideParameter(name: string)
    requires PlainName(name)
    ensures OutsideBraces(Parameter(name), false) == "/"
  {
    var t := Parameter(name);
    var s := t[1..];
    assert s[1..] == name + "}";
    if name == "" {
      assert s[1..] == "}" && s[1..][1..] == "";
    } else {
      assert s[1..][1..] == "}" && s[1..][1..][1..] == "";
      assert OutsideBraces(s[1..][1..], true) == "";
    }
    assert OutsideBraces(s[1..], true) == "";
    assert OutsideBraces(s, false) == "";
  }

  /** A parameter target is valid and has one parameter segment, named unless the name is empty. */
  lemma {:induction false} ParameterTarget(name: string)
    requires PlainName(name)
    ensures IsValidTarget(Parameter(name)) && Segments(Parameter(name)) == ["{" + name + "}"]
    ensures IsParam("{" + name + "}") && ParamName("{" + name + "}") == name
    ensures Template(Parameter(name)) == Parameter(name)
  {
    var s := "{" + name + "}";
    assert Parameter(name) == "/" + s && Parameter(name)[1..] == s;
    PatternParameter(name);
    OutsideParameter(name);
    WordSegments(s);
    assert s[1..|s| - 1] == name;
    IndexOfAt(Parameter(name), '?', |Parameter(name)|);
    assert Parameter(name)[..|Parameter(name)|] == Parameter(name);
  }

  lemma {:induction false} LiteralTarget()
    ensures IsValidTarget("/a") && Segments("/a") == ["a"] && !IsParam("a")
    ensures IsValidTarget("/")
  {
    WordSegments("a");
    assert "/a"[1..] == "a" && "a"[1..] == "" && "/"[1..] == "";
    assert Pattern("a");
    assert OutsideBraces("/a", false) == "/a";
  }

  // ----- registering one segment -----

  /** A handler registered under a valid target of one segment sits at that child of the root, labelled with the
      target; no other node changes and none is added. */
  lemma {:induction false} RegisteredWord(b: Build, m: nat, target: string, word: string, h: Handler)
    requires m < METHODS && IsValidTarget(target) && Segments(target) == [word]
    ensures var t, t', p := Built(b), Built(Register(b, m, target, Route(Some(h)))), Step(Root(m), EdgeOf(word));
            && WellFormed(t) && WellFormed(t') && TargetPath(m, target) == p
            && t'.Keys == t.Keys + {p} && t'[p].handler == Some(h) && t'[p].tmpl == Template(target)
            && (forall q :: q in t && q != p ==> t'[q] == t[q])
  {
    hide IsValidTarget, Segments, Template, WellFormed;
    TemplatesLeadToTheirNode(b);
    TemplatesLeadToTheirNode(Register(b, m, target, Route(Some(h))));
    RegisterFrame(Built(b), m, target, Route(Some(h)));
    assert [word][1..] == [];
    assert Trail(Root(m), [word]) == {Step(Root(m), EdgeOf(word))};
    assert PathFrom(Root(m), [word]) == Step(Root(m), EdgeOf(word));
  }

  lemma {:induction false} FreshNodes()
    ensures forall p :: p in Built(Fresh) <==> p.Root? && p.bucket < METHODS
    ensures forall p :: p in Built(Fresh) ==> Built(Fresh)[p] == BLANK
  {
  }

  lemma {:induction false} OneParameter(name: string)
    requires name == "x" || name == "p" || name == ""
    ensures Parameter("x") == "/{x}" && Parameter("p") == "/{p}" && Parameter("") == "/{}"
    ensures "{" + "x" + "}" == "{x}" && "{" + "p" + "}" == "{p}" && "{" + "" + "}" == "{}"
    ensures IsValidTarget(Parameter(name)) && Segments(Parameter(name)) == ["{" + name + "}"]
    ensures EdgeOf("{" + name + "}") == Wild && Template(Parameter(name)) == Parameter(name)
    ensures name == "" ==> !AllNamed(["{" + name + "}"])
    ensures !AllLiteral(["{" + name + "}"])
  {
    hide IsValidTarget, Segments, Template;
    ParameterTarget(name);
    assert ["{" + name + "}"][0] == "{" + name + "}";
  }

  // ----- an obstructed instance -----

  /** Both /{x} and /a are registered; /a is an instance of /{x} but is routed to the other. */
  lemma {:induction false} ObstructedInstance(h: Handler)
    ensures var b := Register(Register(Fresh, 0, "/{x}", Route(Some(h))), 0, "/a", Route(Some(h)));
            && WellFormed(Built(b)) && Instance(Segments("/{x}"), ["a"])
            && var r := Walk(Built(b), Root(0), ["a"]);
               r.Some? && r.value.leaf != TargetPath(0, "/{x}")
  {
    hide Built, IsValidTarget, Segments, Template, TargetPath;
    OneParameter("x");
    LiteralTarget();
    RegisteredWord(Fresh, 0, "/{x}", "{x}", h);
    var first := Register(Fresh, 0, "/{x}", Route(Some(h)));
    RegisteredWord(first, 0, "/a", "a", h);
    var t := Built(Register(first, 0, "/a", Route(Some(h))));
    assert ["a"][1..] == [];
    assert Walk(t, Step(Root(0), Lit("a")), []) == Some(Hit(Step(Root(0), Lit("a")), [], []));
  }

  // ----- names that do not line up -----

  /** The valid target /{} gives a handler that captures a value and has no name for it. */
  lemma {:induction false} AnonymousParameter(h: Handler)
    ensures IsValidTarget("/{}") && !AllNamed(Segments("/{}"))
    ensures var t := Built(Register(Fresh, 0, "/{}", Route(Some(h))));
            var p := TargetPath(0, "/{}");
            p in t && t[p].handler == Some(h) && !AlignedAt(t, p)
  {
    hide IsValidTarget, Segments, Template, TargetPath, AlignedAt, AllNamed, Registered;
    OneParameter("");
    RegisteredWord(Fresh, 0, "/{}", "{}", h);
    RegistrationAlignment(Built(Fresh), 0, "/{}", Route(Some(h)));
  }

  /** A table that serves / is mounted at the valid prefix /{p}: the handler now has a value without a name. */
  lemma {:induction false} ParametricPrefix(h: Handler)
    ensures IsValidTarget("/{p}") && !AllLiteral(Segments("/{p}"))
    ensures var source := Register(Fresh, 1, "/", Route(Some(h)));
            var t := Built(Mount(Fresh, "/{p}", source, false));
            && Aligned(Built(source))
            && Step(Root(1), Wild) in t && t[Step(Root(1), Wild)].handler == Some(h) && !AlignedAt(t, Step(Root(1), Wild))
  {
    hide IsValidTarget, Segments, Template, Registered, Mounted, AllLiteral, Aligned;
    var d, s := Built(Fresh), Built(Source(h));
    OneParameter("p");
    SourceNodes(h);
    FreshNodes();
    SourceAligned(h);
    NothingInTheWay(d, s, ["{p}"]);
    MountAlignment(d, s, "/{p}", Root(1));
    assert ["{p}"][1..] == [];
    assert Graft(["{p}"], Root(1)) == Step(Root(1), Wild);
  }

  lemma {:induction false} SourceAligned(h: Handler)
    ensures Aligned(Built(Source(h))) && (Root(1) in Built(Source(h)) ==> AlignedAt(Built(Source(h)), Root(1)))
  {
    hide IsValidTarget, Template, Built, AlignedAt;
    RootSegments();
    ParametersAligned(Source(h));
  }

  lemma {:induction false} NothingInTheWay(d: Forest, s: Forest, pre: seq<string>)
    requires forall p :: p in d ==> d[p] == BLANK
    ensures Mountable(d, s, pre)
  {
  }

  // ----- a rejected mount that changes routing -----

  /** Bucket 0 serves /{x} and bucket 1 serves /a. */
  function Destination(h: Handler): Build {
    Register(Register(Fresh, 0, "/{x}", Route(Some(h))), 1, "/a", Route(Some(h)))
  }

  /** Bucket 1 serves /. */
  function Source(h: Handler): Build {
    Register(Fresh, 1, "/", Route(Some(h)))
  }

  lemma {:induction false} DestinationNodes(h: Handler)
    ensures var d := Built(Destination(h));
            && WellFormed(d) && Root(0) in d && !d[Root(0)].exclusive
            && Step(Root(0), Lit("a")) !in d
            && Step(Root(0), Wild) in d && d[Step(Root(0), Wild)].handler == Some(h) && d[Step(Root(0), Wild)].tmpl == "/{x}"
            && Step(Root(1), Lit("a")) in d && Terminal(d[Step(Root(1), Lit("a"))])
  {
    hide Built, IsValidTarget, Segments, Template, WellFormed, TargetPath;
    OneParameter("x");
    LiteralTarget();
    FreshNodes();
    RegisteredWord(Fresh, 0, "/{x}", "{x}", h);
    RegisteredWord(Register(Fresh, 0, "/{x}", Route(Some(h))), 1, "/a", "a", h);
  }

  lemma {:induction false} SourceNodes(h: Handler)
    ensures var s := Built(Source(h));
            WellFormed(s) && Root(1) in s && s[Root(1)].handler == Some(h) && Terminal(s[Root(1)])
  {
    hide Template, WellFormed;
    LiteralTarget();
    RootSegments();
    TemplatesLeadToTheirNode(Fresh);
    TemplatesLeadToTheirNode(Source(h));
    RegisterFrame(Built(Fresh), 1, "/", Route(Some(h)));
    assert TargetPath(1, "/") == Root(1);
  }

  /** Mounting that source at /a is rejected because of bucket 1, and yet the request /a of bucket 0, which went
      to /{x} before, gets the default result afterwards. */
  lemma {:induction false} RejectedMountChangesRouting(h: Handler, tab: Table)
    requires tab.forest == Built(Destination(h))
    ensures IsValidTarget("/a") && !Mountable(tab.forest, Built(Source(h)), Segments("/a"))
    ensures WellFormed(tab.forest) && WellFormed(Built(Mount(Destination(h), "/a", Source(h), false)))
    ensures var after := tab.(forest := Built(Mount(Destination(h), "/a", Source(h), false)));
            && RouteResult(tab, 0, Some(["a"])).handler == h
            && RouteResult(after, 0, Some(["a"])) == DefaultResult(tab)
            && RouteResult(after, 0, Some(["a"])) != RouteResult(tab, 0, Some(["a"]))
  {
    hide Built, RouteResult, FirstConflict;
    var d, s := Built(Destination(h)), Built(Source(h));
    DestinationNodes(h);
    SourceNodes(h);
    LiteralTarget();
    Conflict(d, s);
    assert "/" + "a" == "/a";
    RejectedMountShadows(tab, s, "a", 0);
    MountIsAfterMount(h);
  }

  lemma {:induction false} Conflict(d: Forest, s: Forest)
    requires Root(1) in s && Terminal(s[Root(1)]) && Step(Root(1), Lit("a")) in d && Terminal(d[Step(Root(1), Lit("a"))])
    ensures !Mountable(d, s, ["a"])
  {
    assert ["a"][1..] == [];
    assert Graft(["a"], Root(1)) == Step(Root(1), Lit("a"));
    assert !Mergeable(d, s, ["a"], 1);
  }

  lemma MountIsAfterMount(h: Handler)
    ensures Built(Mount(Destination(h), "/a", Source(h), false)) == AfterMount(Built(Destination(h)), Built(Source(h)), "/a", false)
  {
  }
}
