/** The page the unit generator is meant to write, as far as the manifest
    builder reads it: the output path, and a document whose head carries the
    title tag. The style sheet, the card templates and the embedded script
    after the title tag are a parameter. As written the generator throws at
    line 79 before it writes anything; `UnitRun` models both runs, and only
    the one with that line's holes escaped reaches this page. */
module UnitPage {
  import opened JsValue
  import opened Text
  import opened Manifest
  import opened UnitArgs

  /** The lines of the document in front of the title tag. */
  const HeadLines: seq<string> := [
    "<!doctype html>\n",
    "<html lang=\"ja\">\n",
    "<head>\n",
    "<meta charset=\"utf-8\">\n",
    "<meta name=\"viewport\" " + "content=\"width=device-width, " + "initial-scale=1\">\n"
  ]

  /** The document text in front of the title tag. */
  const PageHead := HeadLines[0] + HeadLines[1] + HeadLines[2] + HeadLines[3] + HeadLines[4]

  /** The document the generator is meant to write (with line 79 fixed):
      the head, the title as given between title tags, then everything else. */
  function Page(cfg: Config, rest: string): string {
    PageHead + OpenTag + cfg.title + CloseTag + rest
  }

  /** `path.join(outDir, slug + '.html')` for a directory that needs no
      normalising: the file is named after the slug and sits in the output
      directory. */
  function OutPath(cfg: Config): (p: string)
    ensures StartsWith(p, cfg.outDir + "/")
    ensures '/' !in cfg.slug ==> Basename(p) == cfg.slug + ".html"
  {
    var name := cfg.slug + ".html";
    SlugFileName(cfg.outDir, cfg.slug);
    assert (cfg.outDir + "/" + name)[..|cfg.outDir + "/"|] == cfg.outDir + "/";
    cfg.outDir + "/" + name
  }

  /** A slug without a slash names the file it is written to. */
  lemma SlugFileName(dir: string, slug: string)
    ensures '/' !in slug ==> Basename(dir + "/" + (slug + ".html")) == slug + ".html"
  {
    if '/' !in slug {
      var name := slug + ".html";
      assert forall k :: 0 <= k < |name| ==> name[k] != '/' by {
        forall k | 0 <= k < |name|
          ensures name[k] != '/'
        {
          if k >= |slug| {
            assert name[k] == ".html"[k - |slug|];
          }
        }
      }
      BasenameOfJoin(dir, name);
    }
  }

  /** Every `<` of `p` is followed, inside `p`, by a character that is not a
      `t` in either case, so no title tag can start in `p`. */
  predicate NoTagStart(p: string) {
    forall i :: 0 <= i < |p| && p[i] == '<' ==> i + 1 < |p| && AsciiLower(p[i + 1]) != 't'
  }

  /** A line that opens one tag, not a title tag, and holds no other `<`. */
  predicate TagLine(l: string) {
    && |l| >= 2 && l[0] == '<' && AsciiLower(l[1]) != 't'
    && '<' !in l[1..]
  }

  lemma TagLineStartsNoTitle(l: string)
    requires TagLine(l)
    ensures NoTagStart(l)
  {
    forall i | 0 < i < |l|
      ensures l[i] != '<'
    {
      assert l[i] == l[1..][i - 1];
    }
  }

  /** Two texts that start no title tag do not start one when joined. */
  lemma NoTagStartJoin(a: string, b: string)
    requires NoTagStart(a) && NoTagStart(b)
    ensures NoTagStart(a + b)
  {
    var s := a + b;
    forall i | 0 <= i < |s| && s[i] == '<'
      ensures i + 1 < |s| && AsciiLower(s[i + 1]) != 't'
    {
      if i < |a| {
        assert a[i] == '<';
        assert s[i + 1] == a[i + 1];
      } else {
        assert b[i - |a|] == '<';
        assert s[i + 1] == b[i - |a| + 1];
      }
    }
  }

  /** A line opening one tag other than a title tag, with no `<` after it. */
  lemma OneTagLine(c: char, tail: string)
    requires c != '<' && c != 't' && c != 'T' && '<' !in tail
    ensures TagLine(['<', c] + tail)
  {
    var l := ['<', c] + tail;
    assert l[1..] == [c] + tail;
  }

  /** Text without `<` may follow a tag line. */
  lemma TagLineExtend(l: string, tail: string)
    requires TagLine(l) && '<' !in tail
    ensures TagLine(l + tail)
  {
    assert (l + tail)[1..] == l[1..] + tail;
  }

  lemma DoctypeLine()
    ensures TagLine(HeadLines[0])
  {
    assert HeadLines[0] == ['<', '!'] + "doctype html>\n";
    OneTagLine('!', "doctype html>\n");
  }

  lemma HtmlLine()
    ensures TagLine(HeadLines[1])
  {
    assert HeadLines[1] == ['<', 'h'] + "tml lang=\"ja\">\n";
    OneTagLine('h', "tml lang=\"ja\">\n");
  }

  lemma HeadLine()
    ensures TagLine(HeadLines[2])
  {
    assert HeadLines[2] == ['<', 'h'] + "ead>\n";
    OneTagLine('h', "ead>\n");
  }

  lemma CharsetLine()
    ensures TagLine(HeadLines[3])
  {
    assert HeadLines[3] == ['<', 'm'] + "eta charset=\"utf-8\">\n";
    OneTagLine('m', "eta charset=\"utf-8\">\n");
  }

  lemma ViewportStart()
    ensures TagLine("<meta name=\"viewport\" ")
  {
    assert "<meta name=\"viewport\" " == ['<', 'm'] + "eta name=\"viewport\" ";
    OneTagLine('m', "eta name=\"viewport\" ");
  }

  /** The viewport line, checked in three pieces. */
  lemma ViewportLine()
    ensures TagLine(HeadLines[4])
  {
    var a, b := "content=\"width=device-width, ", "initial-scale=1\">\n";
    assert '<' !in a;
    assert '<' !in b;
    ViewportStart();
    TagLineExtend("<meta name=\"viewport\" ", a);
    TagLineExtend("<meta name=\"viewport\" " + a, b);
  }

  lemma HeadLineIsTagLine(j: nat)
    requires j < |HeadLines|
    ensures TagLine(HeadLines[j])
  {
    if j == 0 {
      DoctypeLine();
    } else if j == 1 {
      HtmlLine();
    } else if j == 2 {
      HeadLine();
    } else if j == 3 {
      CharsetLine();
    } else {
      ViewportLine();
    }
  }

  /** The head of the page opens no title tag. */
  lemma HeadOpensNoTitle()
    ensures NoTagStart(PageHead)
  {
    forall j | 0 <= j < |HeadLines|
      ensures NoTagStart(HeadLines[j])
    {
      HeadLineIsTagLine(j);
      TagLineStartsNoTitle(HeadLines[j]);
    }
    NoTagStartJoin(HeadLines[0], HeadLines[1]);
    NoTagStartJoin(HeadLines[0] + HeadLines[1], HeadLines[2]);
    NoTagStartJoin(HeadLines[0] + HeadLines[1] + HeadLines[2], HeadLines[3]);
    NoTagStartJoin(HeadLines[0] + HeadLines[1] + HeadLines[2] + HeadLines[3], HeadLines[4]);
  }

  /** Nothing matches the title pattern inside a prefix that starts no tag. */
  lemma NoMatchInPrefix(p: string, s: string)
    requires NoTagStart(p)
    ensures forall i :: 0 <= i < |p| ==> !TitleMatchAt(p + s, i)
  {
    forall i | 0 <= i < |p|
      ensures !OccursAtIgnoreCase(p + s, OpenTag, i)
    {
      if p[i] == '<' {
        assert (p + s)[i + 1] == p[i + 1];
        assert AsciiLower((p + s)[i + 1]) != AsciiLower(OpenTag[1]);
      } else {
        assert (p + s)[i] == p[i];
        assert AsciiLower((p + s)[i]) != AsciiLower(OpenTag[0]);
      }
    }
  }

  /** A title between lower-case tags behind any prefix matches there, and
      the captured text is the title. */
  lemma MatchAfterPrefix(p: string, t: string, rest: string)
    requires |t| > 0 && '<' !in t
    ensures TitleMatchAt(p + OpenTag + t + CloseTag + rest, |p|)
    ensures TitleText(p + OpenTag + t + CloseTag + rest, |p|) == t
  {
    var s := p + OpenTag + t + CloseTag + rest;
    var h := |p|;
    var n := h + |OpenTag|;
    assert s[h..n] == OpenTag;
    assert s[n..n + |t|] == t;
    assert s[n + |t|..n + |t| + |CloseTag|] == CloseTag;
    RunOfTitle(s, n, t);
  }

  /** A title between lower-case tags, behind a prefix that starts no title
      tag, is the one extracted, trimmed. */
  lemma TitleAfterPrefix(p: string, t: string, rest: string)
    requires NoTagStart(p) && |t| > 0 && '<' !in t
    ensures ExtractTitle(p + OpenTag + t + CloseTag + rest) == Trim(t)
  {
    var s := p + OpenTag + t + CloseTag + rest;
    MatchAfterPrefix(p, t, rest);
    assert s == p + (OpenTag + t + CloseTag + rest);
    NoMatchInPrefix(p, OpenTag + t + CloseTag + rest);
    ExtractFirstMatch(s, |p|);
  }

  /** The title extracted is the trimmed text of the first match. */
  lemma ExtractFirstMatch(s: string, m: nat)
    requires TitleMatchAt(s, m) && forall k :: 0 <= k < m ==> !TitleMatchAt(s, k)
    ensures ExtractTitle(s) == Trim(TitleText(s, m))
  {
  }

  /** The manifest builder reads back the title the page was generated with,
      trimmed, whatever the rest of the page holds. */
  lemma GeneratedTitleFound(cfg: Config, rest: string)
    requires |cfg.title| > 0 && '<' !in cfg.title
    ensures ExtractTitle(Page(cfg, rest)) == Trim(cfg.title)
  {
    HeadOpensNoTitle();
    TitleAfterPrefix(PageHead, cfg.title, rest);
  }
}
