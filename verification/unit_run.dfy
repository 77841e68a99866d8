/** A run of the unit-page generator (`create_unit_html.js`) from its parsed
    options to the file it writes. After the option checks the generator
    builds the embedded script by joining template literals (lines 78-95),
    then the page, then creates the output directory and writes the file
    (lines 174-176).

    Line 79 closes the script's literal in front of `mask:${id}` and
    `qlevel:${qid}`, so those two are template literals of the generator
    itself: their holes are evaluated while the generator runs, where nothing
    named `id` or `qid` is bound. As written, every run that passes the
    option checks throws a `ReferenceError` there and writes nothing
    (`Generate`). With the holes escaped (`\${id}`, `\${qid}`) they stay text
    of the script and build the storage keys in the browser, as `UnitScript`
    models; `GenerateIntended` is that run. */
module UnitRun {
  import opened JsValue
  import opened Text
  import opened Manifest
  import opened UnitArgs
  import opened UnitPage

  /** A piece of a template literal: literal text, or a `${name}` hole. */
  datatype Piece = Lit(s: string) | Hole(name: string)

  /** Every hole of `pieces` names a binding of `scope`. */
  predicate Bound(pieces: seq<Piece>, scope: map<string, string>) {
    forall i :: 0 <= i < |pieces| && pieces[i].Hole? ==> pieces[i].name in scope
  }

  /** Evaluation of a template, piece by piece from the left: a hole whose
      name has no binding throws a `ReferenceError` naming it (`Err`);
      otherwise the joined text. Which hole throws is stated by
      `FirstUnboundThrows`. */
  function Render(pieces: seq<Piece>, scope: map<string, string>): (r: Result<string, string>)
    ensures r.Ok? <==> Bound(pieces, scope)
    ensures r.Err? ==> Hole(r.error) in pieces && r.error !in scope
    decreases |pieces|
  {
    if |pieces| == 0 then Ok("")
    else if pieces[0].Hole? && pieces[0].name !in scope then Err(pieces[0].name)
    else
      var h := if pieces[0].Lit? then pieces[0].s else scope[pieces[0].name];
      var t := Render(pieces[1..], scope);
      assert forall j :: 0 < j < |pieces| ==> pieces[j] == pieces[1..][j - 1];
      if t.Err? then t else Ok(h + t.value)
  }

  /** The holes are evaluated in order: behind bound pieces, an unbound hole
      throws for its own name, whatever follows it. */
  lemma {:induction false} FirstUnboundThrows(pieces: seq<Piece>, scope: map<string, string>, i: nat)
    requires i < |pieces| && pieces[i].Hole? && pieces[i].name !in scope
    requires Bound(pieces[..i], scope)
    ensures Render(pieces, scope) == Err(pieces[i].name)
    decreases i
  {
    if i > 0 {
      assert pieces[..i][0] == pieces[0];
      assert pieces[1..][..i - 1] == pieces[..i][1..];
      FirstUnboundThrows(pieces[1..], scope, i - 1);
    }
  }

  /** Every piece of `pieces` is literal text. */
  predicate Literal(pieces: seq<Piece>) {
    forall i :: 0 <= i < |pieces| ==> pieces[i].Lit?
  }

  /** The text of a template of literal pieces, joined from the right. */
  function Joined(pieces: seq<Piece>): string
    requires Literal(pieces)
    decreases |pieces|
  {
    if |pieces| == 0 then "" else pieces[0].s + Joined(pieces[1..])
  }

  /** A template of literal text only never throws and gives the joined
      text of its pieces, whatever is in scope. */
  lemma {:induction false} RenderJoined(pieces: seq<Piece>, scope: map<string, string>)
    requires Literal(pieces)
    ensures Render(pieces, scope) == Ok(Joined(pieces))
    decreases |pieces|
  {
    if |pieces| > 0 {
      assert Literal(pieces[1..]) by {
        assert forall j :: 0 <= j < |pieces| - 1 ==> pieces[1..][j] == pieces[j + 1];
      }
      RenderJoined(pieces[1..], scope);
    }
  }

  /** Joining two literal templates joins their texts. */
  lemma {:induction false} JoinedAppend(a: seq<Piece>, b: seq<Piece>)
    requires Literal(a) && Literal(b)
    ensures Literal(a + b) && Joined(a + b) == Joined(a) + Joined(b)
    decreases |a|
  {
    assert Literal(a + b) by {
      forall i | 0 <= i < |a + b|
        ensures (a + b)[i].Lit?
      {
        if i >= |a| {
          assert (a + b)[i] == b[i - |a|];
        }
      }
    }
    if |a| > 0 {
      assert (a + b)[1..] == a[1..] + b;
      assert Literal(a[1..]) by {
        assert forall j :: 0 <= j < |a| - 1 ==> a[1..][j] == a[j + 1];
      }
      JoinedAppend(a[1..], b);
    } else {
      assert a + b == b;
    }
  }

  /** `\${name}` in place of `${name}`: each hole escaped, left in the text as
      its own spelling. */
  function Escape(pieces: seq<Piece>): (e: seq<Piece>)
    ensures |e| == |pieces| && Literal(e)
    ensures forall i :: 0 <= i < |e| && pieces[i].Lit? ==> e[i] == pieces[i]
    ensures forall i :: 0 <= i < |e| && pieces[i].Hole? ==> e[i] == Lit("${" + pieces[i].name + "}")
  {
    seq(|pieces|, i requires 0 <= i < |pieces| =>
      if pieces[i].Lit? then pieces[i] else Lit("${" + pieces[i].name + "}"))
  }

  /** The names a hole of the generator's templates can see at line 78:
      everything the module has declared by then. CommonJS also binds
      `exports`, `require`, `module`, `__filename` and `__dirname`, none of
      them named `id` or `qid`. */
  const ModuleNames: set<string> :=
    {"fs", "path", "args", "title", "slug", "category", "outDir", "withImage", "css"}

  /** No name of the module is `id` or `qid`: none starts with `i` or `q`. */
  lemma NoKeyHelperNames()
    ensures "id" !in ModuleNames && "qid" !in ModuleNames
  {
    forall n | n in ModuleNames
      ensures |n| > 0 && n[0] != 'i' && n[0] != 'q'
    {
    }
    assert "id"[0] == 'i' && "qid"[0] == 'q';
  }

  /** What `${name}` gives for one of the module's names: the required
      modules and the parsed options are objects, shown as `[object Object]`;
      the options read at lines 31-35 show as their text, and the image flag
      as `true` or `false`. */
  function ModuleValue(args: map<string, ArgVal>, css: string, name: string): string
    requires Get(args, "category") != Some(Flag)
  {
    if name == "title" then TextOr(args, "title", "")
    else if name == "slug" then TextOr(args, "slug", "")
    else if name == "category" then Category(args)
    else if name == "outDir" then
      if Given(args, "out") then Display(args["out"])
      else if Category(args) == "geo" then "modules/geo" else "modules/sci"
    else if name == "withImage" then ImageText(Display(Get(args, "withImage").GetOr(Text("true"))) != "false")
    else if name == "css" then css
    else "[object Object]"
  }

  /** The bindings a hole sees at line 78. */
  function ModuleScope(args: map<string, ArgVal>, css: string): (scope: map<string, string>)
    requires Get(args, "category") != Some(Flag)
    ensures scope.Keys == ModuleNames
    ensures "id" !in scope && "qid" !in scope
  {
    NoKeyHelperNames();
    map n | n in ModuleNames :: ModuleValue(args, css, n)
  }

  /** Line 79 as written: `mask:${id}` and `qlevel:${qid}` are literals of
      the generator, joined to the script's text with `+`. */
  const KeyHelpersAsWritten: seq<Piece> := [
    Lit("const KM=id=>"), Lit("`"), Lit("mask:"), Hole("id"), Lit("`"),
    Lit(",KQ=qid=>"), Lit("`"), Lit("qlevel:"), Hole("qid"), Lit("`"),
    Lit(",KT='pref:theme';")
  ]

  /** Line 79 with both holes escaped, as evidently intended: literal text
      only, so the browser evaluates `${id}` and `${qid}`. */
  function KeyHelpersIntended(): (e: seq<Piece>)
    ensures Literal(e) && |e| == |KeyHelpersAsWritten|
    ensures e[3] == Lit("${id}") && e[8] == Lit("${qid}")
    ensures forall i :: 0 <= i < |e| && i != 3 && i != 8 ==> e[i] == KeyHelpersAsWritten[i]
  {
    Escape(KeyHelpersAsWritten)
  }

  /** The script: the text of line 78, the key helpers of line 79, and the
      text of lines 80-95, which holds no hole. */
  function Script(before: string, helpers: seq<Piece>, after: string): seq<Piece> {
    [Lit(before)] + helpers + [Lit(after)]
  }

  /** The script the intended generator embeds: line 78, the escaped key
      helpers, and lines 80-95. */
  function IntendedScript(before: string, after: string): string {
    before + Joined(KeyHelpersIntended()) + after
  }

  /** A single literal piece is its own text. */
  lemma JoinedOne(x: string)
    ensures Literal([Lit(x)]) && Joined([Lit(x)]) == x
  {
    assert [Lit(x)][1..] == [];
    assert x + "" == x;
  }

  /** In any scope, the intended script renders without throwing, to its text. */
  lemma IntendedScriptRenders(before: string, after: string, scope: map<string, string>)
    ensures Render(Script(before, KeyHelpersIntended(), after), scope) == Ok(IntendedScript(before, after))
  {
    var h := KeyHelpersIntended();
    assert Literal(Script(before, h, after)) && Joined(Script(before, h, after)) == IntendedScript(before, after) by {
      JoinedOne(before);
      JoinedOne(after);
      JoinedAppend([Lit(before)], h);
      JoinedAppend([Lit(before)] + h, [Lit(after)]);
    }
    RenderJoined(Script(before, h, after), scope);
  }

  /** In any scope without `id`, the script as written throws for `id`:
      the hole of `mask:${id}` is the first one evaluated. */
  lemma AsWrittenScriptThrows(before: string, after: string, scope: map<string, string>)
    requires "id" !in scope
    ensures Render(Script(before, KeyHelpersAsWritten, after), scope) == Err("id")
  {
    var pieces := Script(before, KeyHelpersAsWritten, after);
    assert forall j :: 1 <= j <= |KeyHelpersAsWritten| ==> pieces[j] == KeyHelpersAsWritten[j - 1];
    assert pieces[0].Lit? && pieces[1].Lit? && pieces[2].Lit? && pieces[3].Lit?;
    assert pieces[4] == Hole("id");
    assert forall j :: 0 <= j < 4 ==> pieces[..4][j] == pieces[j];
    FirstUnboundThrows(pieces, scope, 4);
  }

  /** How a run ends: the file written, at its path and with its text; a stop
      by the option checks; or a `ReferenceError` for the name of a hole
      that has no binding. */
  datatype RunEnd = Written(path: string, html: string) | Stopped(why: ArgError) | Unbound(name: string)

  /** A run with the given key helpers: the option checks of lines 33 and
      37, the script (lines 78-95), then the page written at the output path
      (lines 174-176), where `mkdirSync` throws for a bare `--out`. `tail`
      gives the page text after the title tag, which holds the script. */
  function Run(args: map<string, ArgVal>, helpers: seq<Piece>, before: string, after: string,
               css: string, tail: string -> string): RunEnd
  {
    var read := ReadConfig(args);
    if read == Err(CategoryNotText) || read == Err(MissingTitleOrSlug) then Stopped(read.error)
    else match Render(Script(before, helpers, after), ModuleScope(args, css))
      case Err(n) => Unbound(n)
      case Ok(js) => if read.Err? then Stopped(read.error) else Written(OutPath(read.value), Page(read.value, tail(js)))
  }

  /** The generator as written never writes a page. A bare `--category` and
      a missing title or slug stop it as the option reading says; every other
      run, a bare `--out` included, throws for `id` at line 79. */
  function Generate(args: map<string, ArgVal>, before: string, after: string,
                    css: string, tail: string -> string): (r: RunEnd)
    ensures !r.Written?
    ensures r.Unbound? <==> ReadConfig(args) != Err(CategoryNotText) && ReadConfig(args) != Err(MissingTitleOrSlug)
    ensures r.Unbound? ==> r.name == "id"
    ensures r.Stopped? ==> ReadConfig(args) == Err(r.why)
  {
    if ReadConfig(args) == Err(CategoryNotText) then Run(args, KeyHelpersAsWritten, before, after, css, tail)
    else
      AsWrittenScriptThrows(before, after, ModuleScope(args, css));
      Run(args, KeyHelpersAsWritten, before, after, css, tail)
  }

  /** The generator with line 79's holes escaped writes the page exactly
      when the options are accepted: at the output path, with the given
      title, around a script holding the key helpers as text. Otherwise it
      stops as the option reading says. */
  function GenerateIntended(args: map<string, ArgVal>, before: string, after: string,
                            css: string, tail: string -> string): (r: RunEnd)
    ensures r.Written? <==> ReadConfig(args).Ok?
    ensures r.Written? ==>
              && r.path == OutPath(ReadConfig(args).value)
              && r.html == Page(ReadConfig(args).value, tail(IntendedScript(before, after)))
    ensures !r.Written? ==> r == Stopped(ReadConfig(args).error)
  {
    if ReadConfig(args) == Err(CategoryNotText) then Run(args, KeyHelpersIntended(), before, after, css, tail)
    else
      IntendedScriptRenders(before, after, ModuleScope(args, css));
      Run(args, KeyHelpersIntended(), before, after, css, tail)
  }

  /** `--title=T --slug=s` parses to those two options as text. */
  lemma TitleSlugMap()
    ensures ParseArgs([Opt("title", "T"), Opt("slug", "s")]) == map["title" := Text("T"), "slug" := Text("s")]
  {
    var argv := [Opt("title", "T"), Opt("slug", "s")];
    assert ParseArgs(argv[..1]) == map["title" := Text("T")] by {
      OptToken("title", "T");
      assert argv[..1][0] == argv[0] && argv[..1][..0] == [];
    }
    assert ParseToken(argv[1]) == ("slug", Text("s")) by {
      OptToken("slug", "s");
    }
  }

  /** Parsing `--title=T --slug=s` gives no other option. */
  lemma TitleSlugArgs()
    ensures var args := ParseArgs([Opt("title", "T"), Opt("slug", "s")]);
            && "title" in args && args["title"] == Text("T") && "slug" in args && args["slug"] == Text("s")
            && "category" !in args && "out" !in args && "withImage" !in args
  {
    TitleSlugMap();
    var args := map["title" := Text("T"), "slug" := Text("s")];
    assert "category" !in args by {
      assert |"category"| == 8 && |"title"| == 5 && |"slug"| == 4;
    }
    assert "out" !in args by {
      assert |"out"| == 3 && |"title"| == 5 && |"slug"| == 4;
    }
    assert "withImage" !in args by {
      assert |"withImage"| == 9 && |"title"| == 5 && |"slug"| == 4;
    }
  }

  /** `--title=T --slug=s` is accepted, with the defaults for the rest. */
  lemma TitleSlugAccepted()
    ensures ReadConfig(ParseArgs([Opt("title", "T"), Opt("slug", "s")])) == Ok(Config("T", "s", "sci", "modules/sci", true))
  {
    TitleSlugArgs();
    DefaultsApply(ParseArgs([Opt("title", "T"), Opt("slug", "s")]), "T", "s");
  }

  /** `--title=T --slug=s`: the options are accepted with their defaults;
      the generator as written throws for `id`, while the intended one
      writes the page at `modules/sci/s.html`. */
  lemma AcceptedRunThrows(before: string, after: string, css: string, tail: string -> string)
    ensures var args := ParseArgs([Opt("title", "T"), Opt("slug", "s")]);
            var cfg := Config("T", "s", "sci", "modules/sci", true);
            && ReadConfig(args) == Ok(cfg)
            && Generate(args, before, after, css, tail) == Unbound("id")
            && GenerateIntended(args, before, after, css, tail)
               == Written(OutPath(cfg), Page(cfg, tail(IntendedScript(before, after))))
  {
    TitleSlugAccepted();
  }

  /** The usage in the file's header, with its values as separate tokens,
      leaves `category` a flag. */
  lemma UsageLeavesCategoryFlag()
    ensures Get(ParseArgs(["--title", "T", "--slug", "body_motion", "--category", "sci", "--out", "modules/sci"]), "category")
            == Some(Flag)
  {
    var argv := ["--title", "T", "--slug", "body_motion", "--category", "sci", "--out", "modules/sci"];
    DashToken(argv[4]);
    assert argv[4][2..] == "category";
    PlainToken(argv[5]);
    DashToken(argv[6]);
    PlainToken(argv[7]);
    assert |argv[5]| == 3 && |argv[6][2..]| == 3 && |argv[7]| == 11;
    forall j | 4 < j < |argv|
      ensures ParseToken(argv[j]).0 != ParseToken(argv[4]).0
    {
      if j == 5 {
      } else if j == 6 {
      } else {
      }
    }
    ParseArgsLastWins(argv, 4);
  }

  /** The usage in the file's header passes values as separate tokens
      (`--category sci`). Each `--k` then becomes a flag, so line 33 calls
      `trim` on `true` and throws before anything else, in the generator as
      written and as intended alike. */
  lemma DocumentedUsageStops(before: string, after: string, css: string, tail: string -> string)
    ensures var args := ParseArgs(["--title", "T", "--slug", "body_motion", "--category", "sci", "--out", "modules/sci"]);
            && ReadConfig(args) == Err(CategoryNotText)
            && Generate(args, before, after, css, tail) == Stopped(CategoryNotText)
            && GenerateIntended(args, before, after, css, tail) == Stopped(CategoryNotText)
  {
    UsageLeavesCategoryFlag();
  }

  /** In the intended generator, a page written from accepted options with a
      title without `<` and a slug without `/` gets from the manifest builder
      the public URL of the path it was written to, and its `--title`,
      trimmed, as title, or its file name when that is blank. */
  lemma IntendedPageListed(args: map<string, ArgVal>, before: string, after: string, css: string,
                           tail: string -> string, subj: Subject, stamp: string)
    requires GenerateIntended(args, before, after, css, tail).Written?
    requires '<' !in ReadConfig(args).value.title && '/' !in ReadConfig(args).value.slug
    ensures var w := GenerateIntended(args, before, after, css, tail);
            var cfg := ReadConfig(args).value;
            var r := HtmlItem(subj, HtmlFile(w.path, w.html, stamp));
            && w.path == OutPath(cfg)
            && r.path == ToPublicURL(w.path)
            && r.title == JStr(if Trim(cfg.title) != "" then Trim(cfg.title) else cfg.slug + ".html")
  {
    var cfg := ReadConfig(args).value;
    GeneratedTitleFound(cfg, tail(IntendedScript(before, after)));
  }
}
