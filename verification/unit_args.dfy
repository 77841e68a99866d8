/** The command line of the unit-page generator (`create_unit_html.js`):
    every token becomes a key and a value, `--k=v` giving the text `v` and any
    other token the flag `true`; the options are then read with their
    defaults, and a missing title or slug stops the generator before anything
    is written. */
module UnitArgs {
  import opened JsValue
  import opened Text

  /** An option value: the text after `=`, or `true` for a bare token. */
  datatype ArgVal = Flag | Text(s: string)

  /** The line terminators `.` does not match in a regular expression. */
  predicate IsLineTerminator(c: char) {
    c == '\n' || c == '\r' || c == '\U{2028}' || c == '\U{2029}'
  }

  predicate NoLineTerminator(s: string) {
    forall k :: 0 <= k < |s| ==> !IsLineTerminator(s[k])
  }

  /** The text after `--` splits into a key and a value: its first `=` has
      at least one character before it and no line terminator after it. */
  predicate KeyValueSplit(rest: string) {
    exists e :: 1 <= e < |rest| && rest[e] == '=' && '=' !in rest[..e] && NoLineTerminator(rest[e + 1..])
  }

  /** Index of the first `c` in `s`, or -1. */
  function IndexOf(s: string, c: char): (i: int)
    ensures -1 <= i < |s|
    ensures i >= 0 ==> s[i] == c && c !in s[..i]
    ensures i < 0 ==> c !in s
    decreases |s|
  {
    if |s| == 0 then -1
    else if s[0] == c then 0
    else
      var j := IndexOf(s[1..], c);
      assert s == [s[0]] + s[1..];
      if j < 0 then -1
      else
        assert s[..j + 1] == [s[0]] + s[1..][..j];
        j + 1
  }

  /** One token as the parser maps it. `/^--([^=]+)=(.*)$/` matches when the
      text after `--` has a first `=` with at least one character before it
      and no line terminator after it; the key is the text before that `=`
      and the value everything after it. Failing that, a token starting with
      `--` becomes its remainder with the flag, and any other token itself
      with the flag. */
  function ParseToken(a: string): (kv: (string, ArgVal))
    ensures !StartsWith(a, "--") ==> kv == (a, Flag)
    ensures StartsWith(a, "--") && kv.1.Text? ==>
              && a == "--" + kv.0 + "=" + kv.1.s && |kv.0| > 0 && '=' !in kv.0
              && NoLineTerminator(kv.1.s)
    ensures StartsWith(a, "--") && kv.1.Flag? ==>
              && a == "--" + kv.0
              && !KeyValueSplit(kv.0)
  {
    if StartsWith(a, "--") then
      var rest := a[2..];
      var e := IndexOf(rest, '=');
      if e >= 1 && NoLineTerminator(rest[e + 1..]) then
        SplitToken(a, e);
        (rest[..e], Text(rest[e + 1..]))
      else
        FlagToken(a);
        (rest, Flag)
    else (a, Flag)
  }

  /** A `--` token whose first `=` is at `e` in the rest is `--`, key, `=`, value. */
  lemma SplitToken(a: string, e: int)
    requires StartsWith(a, "--") && e == IndexOf(a[2..], '=') && e >= 1
    ensures a == "--" + a[2..][..e] + "=" + a[2..][e + 1..]
  {
    var rest := a[2..];
    assert a == "--" + rest;
    assert rest == rest[..e] + "=" + rest[e + 1..];
  }

  /** A `--` token that does not split is `--` and a rest that admits no split. */
  lemma FlagToken(a: string)
    requires StartsWith(a, "--")
    requires var e := IndexOf(a[2..], '='); !(e >= 1 && NoLineTerminator(a[2..][e + 1..]))
    ensures a == "--" + a[2..] && !KeyValueSplit(a[2..])
  {
    var rest := a[2..];
    assert a == "--" + rest;
    FirstEqualsSign(rest);
  }

  /** An `=` with no `=` before it is the first one. */
  lemma FirstEqualsSign(s: string)
    ensures forall e :: 0 <= e < |s| && s[e] == '=' && '=' !in s[..e] ==> e == IndexOf(s, '=')
  {
  }

  /** `--k=v` reads back as `k` and `v`; the value may itself hold `=`. */
  lemma KeyValueToken(k: string, v: string)
    requires |k| > 0 && '=' !in k && NoLineTerminator(v)
    ensures ParseToken("--" + k + "=" + v) == (k, Text(v))
  {
    var a := "--" + k + "=" + v;
    var rest := a[2..];
    assert rest == k + "=" + v;
    assert rest[..|k|] == k;
    assert rest[|k| + 1..] == v;
    var e := IndexOf(rest, '=');
    assert rest[|k|] == '=';
  }

  /** A bare `--k` is the flag `k`. */
  lemma BareFlagToken(k: string)
    requires '=' !in k
    ensures ParseToken("--" + k) == (k, Flag)
  {
    assert ("--" + k)[2..] == k;
  }

  /** A `--` token without `=` is a flag named by the rest of it. */
  lemma DashToken(a: string)
    requires |a| >= 2 && a[0] == '-' && a[1] == '-' && '=' !in a
    ensures ParseToken(a) == (a[2..], Flag)
  {
    assert a == "--" + a[2..];
    BareFlagToken(a[2..]);
  }

  /** A token that does not start with `-` is a flag named by itself. */
  lemma PlainToken(a: string)
    requires |a| > 0 && a[0] != '-'
    ensures ParseToken(a) == (a, Flag)
  {
    if |a| >= 2 {
      assert a[..2][0] == a[0];
    }
  }

  /** A value holding a line break defeats the pattern: the whole remainder,
      `=` included, becomes a flag key. */
  lemma LineBreakInValue()
    ensures ParseToken("--k=a\nb") == ("k=a\nb", Flag)
  {
    var rest := "k=a\nb";
    assert ("--k=a\nb")[2..] == rest;
    assert IndexOf(rest, '=') == 1;
    assert rest[2..][1] == '\n';
  }

  /** `--=v` has no key before the `=`, so it is the flag named `=v`. */
  lemma EmptyKeyToken(v: string)
    ensures ParseToken("--=" + v) == ("=" + v, Flag)
  {
    assert ("--=" + v)[2..] == "=" + v;
    assert IndexOf("=" + v, '=') == 0;
  }

  /** `Object.fromEntries` over the mapped tokens, entry by entry. */
  function ParseArgs(argv: seq<string>): (m: map<string, ArgVal>)
    ensures |argv| > 0 ==> ParseToken(argv[|argv| - 1]).0 in m
    decreases |argv|
  {
    if |argv| == 0 then map[]
    else
      var kv := ParseToken(argv[|argv| - 1]);
      ParseArgs(argv[..|argv| - 1])[kv.0 := kv.1]
  }

  /** Every parsed key comes from some token: returns the index of one. */
  lemma {:induction false} KeyWitness(argv: seq<string>, k: string) returns (i: nat)
    requires k in ParseArgs(argv)
    ensures i < |argv| && ParseToken(argv[i]).0 == k
    decreases |argv|
  {
    var pre := argv[..|argv| - 1];
    if ParseToken(argv[|argv| - 1]).0 == k {
      i := |argv| - 1;
    } else {
      i := KeyWitness(pre, k);
      assert pre[i] == argv[i];
    }
  }

  /** Every token's key is a parsed key. */
  lemma {:induction false} TokenKeyKept(argv: seq<string>, i: nat)
    requires i < |argv|
    ensures ParseToken(argv[i]).0 in ParseArgs(argv)
    decreases |argv|
  {
    if i < |argv| - 1 {
      var pre := argv[..|argv| - 1];
      TokenKeyKept(pre, i);
      assert pre[i] == argv[i];
    }
  }

  /** The keys of the parsed options are exactly the tokens' keys. */
  lemma ParseArgsKeys(argv: seq<string>)
    ensures forall k :: k in ParseArgs(argv) <==> exists i :: 0 <= i < |argv| && ParseToken(argv[i]).0 == k
  {
    forall k
      ensures k in ParseArgs(argv) <==> exists i :: 0 <= i < |argv| && ParseToken(argv[i]).0 == k
    {
      if k in ParseArgs(argv) {
        var i := KeyWitness(argv, k);
      }
      if exists i :: 0 <= i < |argv| && ParseToken(argv[i]).0 == k {
        var i :| 0 <= i < |argv| && ParseToken(argv[i]).0 == k;
        TokenKeyKept(argv, i);
      }
    }
  }

  /** A key given more than once holds the value of its last token. */
  lemma {:induction false} ParseArgsLastWins(argv: seq<string>, i: int)
    requires 0 <= i < |argv|
    requires forall j :: i < j < |argv| ==> ParseToken(argv[j]).0 != ParseToken(argv[i]).0
    ensures ParseToken(argv[i]).0 in ParseArgs(argv)
    ensures ParseArgs(argv)[ParseToken(argv[i]).0] == ParseToken(argv[i]).1
    decreases |argv|
  {
    if i < |argv| - 1 {
      var pre := argv[..|argv| - 1];
      assert pre[i] == argv[i];
      ParseArgsLastWins(pre, i);
    }
  }

  /** The last of two settings of one option wins. */
  lemma LastSettingWins(k: string, a: string, b: string)
    requires |k| > 0 && '=' !in k && NoLineTerminator(a) && NoLineTerminator(b)
    ensures var m := ParseArgs(["--" + k + "=" + a, "--" + k + "=" + b]); k in m && m[k] == Text(b)
  {
    KeyValueToken(k, a);
    KeyValueToken(k, b);
    var argv := ["--" + k + "=" + a, "--" + k + "=" + b];
    ParseArgsLastWins(argv, 1);
  }

  /** The value of option `k`, if given. */
  function Get(args: map<string, ArgVal>, k: string): Option<ArgVal> {
    if k in args then Some(args[k]) else None
  }

  /** The option is given with a truthy value: `true` or non-empty text. */
  predicate Given(args: map<string, ArgVal>, k: string) {
    k in args && (args[k].Flag? || args[k].s != "")
  }

  /** How a value shows in a template string: `true` as `"true"`. */
  function Display(v: ArgVal): string {
    match v
    case Flag => "true"
    case Text(s) => s
  }

  /** The options the generator works with. */
  datatype Config = Config(title: string, slug: string, category: string, outDir: string, withImage: bool)

  /** Why the generator stops: `true.trim()` throws for a bare `--category`;
      a missing title or slug is reported; `mkdirSync` throws for a bare
      `--out` once the script is built. As written, building the script
      throws first at line 79 (see `UnitRun.Generate`), so `OutDirNotText`
      is reached only by the generator with that line's holes escaped. */
  datatype ArgError = CategoryNotText | MissingTitleOrSlug | OutDirNotText

  /** `args.k || ''` as displayed. */
  function TextOr(args: map<string, ArgVal>, k: string, default: string): string {
    if Given(args, k) then Display(args[k]) else default
  }

  /** The category: the text given, or `sci`, trimmed. */
  function Category(args: map<string, ArgVal>): string
    requires Get(args, "category") != Some(Flag)
  {
    Trim(if Given(args, "category") then args["category"].s else "sci")
  }

  /** The options once the category has been read: a missing title or slug
      is reported, then a bare `--out` fails; otherwise the output directory
      is the one given or follows the category. */
  function ReadRest(args: map<string, ArgVal>, category: string): (r: Result<Config, ArgError>)
    ensures r == Err(MissingTitleOrSlug) <==> !Given(args, "title") || !Given(args, "slug")
    ensures r.Ok? <==> Given(args, "title") && Given(args, "slug") && Get(args, "out") != Some(Flag)
    ensures Given(args, "title") && Given(args, "slug") && Get(args, "out") == Some(Flag) ==> r == Err(OutDirNotText)
    ensures r.Ok? ==> r.value.title != "" && r.value.slug != "" && r.value.category == category
    ensures r.Ok? ==> r.value.title == TextOr(args, "title", "") && r.value.slug == TextOr(args, "slug", "")
    ensures r.Ok? && Given(args, "out") ==> r.value.outDir == args["out"].s
    ensures r.Ok? && !Given(args, "out") ==> r.value.outDir == (if category == "geo" then "modules/geo" else "modules/sci")
    ensures r.Ok? ==> (r.value.withImage <==> Get(args, "withImage") != Some(Text("false")))
  {
    var title := TextOr(args, "title", "");
    var slug := TextOr(args, "slug", "");
    var withImage := Display(Get(args, "withImage").GetOr(Text("true"))) != "false";
    if title == "" || slug == "" then Err(MissingTitleOrSlug)
    else if Given(args, "out") && args["out"].Flag? then Err(OutDirNotText)
    else
      var outDir := if Given(args, "out") then args["out"].s else if category == "geo" then "modules/geo" else "modules/sci";
      Ok(Config(title, slug, category, outDir, withImage))
  }

  /** Lines 31-40 and the directory creation: the title and slug (empty when
      not given), the category trimmed with default `sci`, the output
      directory given or `modules/geo` for category `geo` and `modules/sci`
      otherwise, and the image flag false only for the text `false`. A bare
      `--category` fails first, since it is read before the check. */
  function ReadConfig(args: map<string, ArgVal>): (r: Result<Config, ArgError>)
    ensures r == Err(CategoryNotText) <==> Get(args, "category") == Some(Flag)
    ensures Get(args, "category") != Some(Flag) ==> r == ReadRest(args, Category(args))
    ensures r == Err(MissingTitleOrSlug) <==>
              Get(args, "category") != Some(Flag) && (!Given(args, "title") || !Given(args, "slug"))
    ensures r == Err(OutDirNotText) <==>
              && Get(args, "category") != Some(Flag) && Given(args, "title") && Given(args, "slug")
              && Get(args, "out") == Some(Flag)
    ensures r.Ok? ==>
              && r.value.title == TextOr(args, "title", "") && r.value.title != ""
              && r.value.slug == TextOr(args, "slug", "") && r.value.slug != ""
              && r.value.category == Trim(if Given(args, "category") then args["category"].s else "sci")
              && r.value.outDir == (if Given(args, "out") then args["out"].s
                                    else if r.value.category == "geo" then "modules/geo" else "modules/sci")
              && (r.value.withImage <==> Get(args, "withImage") != Some(Text("false")))
  {
    if Get(args, "category") == Some(Flag) then Err(CategoryNotText)
    else ReadRest(args, Category(args))
  }

  /** The text written for the image flag. */
  function ImageText(withImage: bool): string {
    if withImage then "true" else "false"
  }

  /** The token `--k=v`. */
  function Opt(k: string, v: string): string {
    "--" + k + "=" + v
  }

  /** The command line that spells out every option of `cfg`. */
  function CommandLine(cfg: Config): seq<string> {
    [ Opt("title", cfg.title), Opt("slug", cfg.slug), Opt("category", cfg.category), Opt("out", cfg.outDir),
      Opt("withImage", ImageText(cfg.withImage)) ]
  }

  /** Options that hold exactly the values of `cfg` as text. */
  predicate Spells(args: map<string, ArgVal>, cfg: Config) {
    && Get(args, "title") == Some(Text(cfg.title)) && Get(args, "slug") == Some(Text(cfg.slug))
    && Get(args, "category") == Some(Text(cfg.category)) && Get(args, "out") == Some(Text(cfg.outDir))
    && Get(args, "withImage") == Some(Text(ImageText(cfg.withImage)))
  }

  /** `--k=v` reads back as `k` and `v`. */
  lemma OptToken(k: string, v: string)
    requires |k| > 0 && '=' !in k && NoLineTerminator(v)
    ensures ParseToken(Opt(k, v)) == (k, Text(v))
  {
    KeyValueToken(k, v);
  }

  /** The name tokens of the spelled-out command line parse to their options. */
  lemma NameTokens(cfg: Config)
    requires NoLineTerminator(cfg.title) && NoLineTerminator(cfg.slug)
    ensures var argv := CommandLine(cfg);
            && ParseToken(argv[0]) == ("title", Text(cfg.title))
            && ParseToken(argv[1]) == ("slug", Text(cfg.slug))
  {
    assert ParseToken(Opt("title", cfg.title)) == ("title", Text(cfg.title)) by {
      OptToken("title", cfg.title);
    }
    OptToken("slug", cfg.slug);
  }

  /** The placement tokens of the spelled-out command line parse to their options. */
  lemma PlacementTokens(cfg: Config)
    requires NoLineTerminator(cfg.category) && NoLineTerminator(cfg.outDir)
    ensures var argv := CommandLine(cfg);
            && ParseToken(argv[2]) == ("category", Text(cfg.category))
            && ParseToken(argv[3]) == ("out", Text(cfg.outDir))
  {
    assert ParseToken(Opt("category", cfg.category)) == ("category", Text(cfg.category)) by {
      OptToken("category", cfg.category);
    }
    OptToken("out", cfg.outDir);
  }

  /** The image token of the spelled-out command line parses to its option. */
  lemma ImageToken(cfg: Config)
    ensures ParseToken(CommandLine(cfg)[4]) == ("withImage", Text(ImageText(cfg.withImage)))
  {
    var img := ImageText(cfg.withImage);
    assert NoLineTerminator(img);
    OptToken("withImage", img);
  }

  /** The parsed command line holds every option of `cfg` as text. */
  lemma CommandLineSpells(cfg: Config)
    requires NoLineTerminator(cfg.title) && NoLineTerminator(cfg.slug)
    requires NoLineTerminator(cfg.category) && NoLineTerminator(cfg.outDir)
    ensures Spells(ParseArgs(CommandLine(cfg)), cfg)
  {
    var argv := CommandLine(cfg);
    NameTokens(cfg);
    PlacementTokens(cfg);
    ImageToken(cfg);
    ParseArgsLastWins(argv, 0);
    ParseArgsLastWins(argv, 1);
    ParseArgsLastWins(argv, 2);
    ParseArgsLastWins(argv, 3);
    ParseArgsLastWins(argv, 4);
  }

  /** Options holding the values of `cfg` as text are read back as `cfg`. */
  lemma ReadSpelled(args: map<string, ArgVal>, cfg: Config)
    requires Spells(args, cfg)
    requires cfg.title != "" && cfg.slug != "" && cfg.category != "" && cfg.outDir != ""
    requires Trim(cfg.category) == cfg.category
    ensures ReadConfig(args) == Ok(cfg)
  {
    assert Given(args, "title") && Given(args, "slug") && Given(args, "category") && Given(args, "out");
    assert Category(args) == cfg.category;
    assert ImageText(cfg.withImage) == "false" <==> !cfg.withImage;
    var r := ReadRest(args, cfg.category);
    assert r.Ok?;
    assert r.value.title == cfg.title && r.value.slug == cfg.slug && r.value.outDir == cfg.outDir;
    assert r.value.withImage == cfg.withImage;
    assert ReadConfig(args) == r;
  }

  /** The options written as `--k=v` tokens are read back as they were:
      parsing and reading invert spelling out, for any title, slug and
      output directory without line breaks and a category without
      surrounding whitespace. */
  lemma ConfigRoundTrip(cfg: Config)
    requires cfg.title != "" && cfg.slug != "" && cfg.category != "" && cfg.outDir != ""
    requires NoLineTerminator(cfg.title) && NoLineTerminator(cfg.slug)
    requires NoLineTerminator(cfg.category) && NoLineTerminator(cfg.outDir)
    requires Trim(cfg.category) == cfg.category
    ensures ReadConfig(ParseArgs(CommandLine(cfg))) == Ok(cfg)
  {
    CommandLineSpells(cfg);
    ReadSpelled(ParseArgs(CommandLine(cfg)), cfg);
  }

  /** Without `--category` the category is `sci`. */
  lemma DefaultCategory(args: map<string, ArgVal>)
    requires "category" !in args
    ensures Category(args) == "sci"
    ensures ReadConfig(args) == ReadRest(args, "sci")
  {
    TrimOfTrimmed("sci");
  }

  /** With category `sci` and neither `--out` nor `--withImage`, the page goes
      to `modules/sci` with the image card. */
  lemma DefaultRest(args: map<string, ArgVal>, title: string, slug: string)
    requires "title" in args && args["title"] == Text(title) && title != ""
    requires "slug" in args && args["slug"] == Text(slug) && slug != ""
    requires "out" !in args && "withImage" !in args
    ensures ReadRest(args, "sci") == Ok(Config(title, slug, "sci", "modules/sci", true))
  {
    assert "sci" != "geo" by {
      assert "sci"[0] != "geo"[0];
    }
    assert "true" != "false" by {
      assert "true"[0] != "false"[0];
    }
  }

  /** With only a title and a slug given, the defaults apply: category `sci`,
      output to `modules/sci`, with the image card. */
  lemma DefaultsApply(args: map<string, ArgVal>, title: string, slug: string)
    requires "title" in args && args["title"] == Text(title) && title != ""
    requires "slug" in args && args["slug"] == Text(slug) && slug != ""
    requires "category" !in args && "out" !in args && "withImage" !in args
    ensures ReadConfig(args) == Ok(Config(title, slug, "sci", "modules/sci", true))
  {
    DefaultCategory(args);
    DefaultRest(args, title, slug);
  }

  /** Category `geo`, spaces around it allowed, sends the page to `modules/geo`
      unless `--out` says otherwise. */
  lemma GeoCategoryDirectory(args: map<string, ArgVal>, c: string)
    requires Given(args, "title") && Given(args, "slug") && !("out" in args)
    requires Get(args, "category") == Some(Text(c)) && Trim(c) == "geo"
    ensures ReadConfig(args).Ok? && ReadConfig(args).value.outDir == "modules/geo"
  {
    assert c != "" by {
      assert Trim("") == "";
    }
    assert Category(args) == "geo";
  }

  /** A bare `--title` flag passes the check and titles the page `true`. */
  lemma FlagTitleIsTrue(slug: string)
    requires slug != ""
    ensures ReadConfig(map["title" := Flag, "slug" := Text(slug)]).Ok?
    ensures ReadConfig(map["title" := Flag, "slug" := Text(slug)]).value.title == "true"
  {
    var args := map["title" := Flag, "slug" := Text(slug)];
    assert Get(args, "category") == None && Get(args, "out") == None;
    assert Given(args, "title") && Given(args, "slug");
    assert TextOr(args, "title", "") == "true";
  }

  /** `--withImage` as a bare flag keeps the image card; only the text
      `false` drops it. */
  lemma WithImageOnlyFalseDrops(args: map<string, ArgVal>)
    requires ReadConfig(args).Ok?
    ensures Get(args, "withImage") == Some(Flag) ==> ReadConfig(args).value.withImage
    ensures Get(args, "withImage") == Some(Text("False")) ==> ReadConfig(args).value.withImage
  {
  }
}
