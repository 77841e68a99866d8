/** The manifest builder (`update_manifest.js`): per subject, one record per
    data file (marker, map-data and no-image kinds) and per HTML page, each
    with a public URL under `/anki-project`, a title and the tag list
    `[kind, subject tag, grade]`. Directory scanning, file reading, the clock
    and `encodeURIComponent` are outside the model: a scanned file is given as
    its path together with what was read from it and its time stamp, and URL
    encoding is a parameter. */
module Manifest {
  import opened JsValue
  import opened Text

  /** The prefix of every public URL. */
  const PublicBase := "/anki-project"

  /** One entry of the subject table: its directory key, tag and grade. */
  datatype Subject = Subject(key: string, tag: string, grade: string)

  const Subjects: seq<Subject> := [
    Subject("sci", "理科", "4年"),
    Subject("geo", "地理", "4年"),
    Subject("jpn", "国語", "4年"),
    Subject("math", "算数", "4年")
  ]

  /** `toPublicURL(rel)`: the base, a slash, and `rel` with every backslash
      turned into a slash. */
  function ToPublicURL(rel: string): (u: string)
    ensures |u| == |PublicBase| + 1 + |rel|
    ensures u[..|PublicBase| + 1] == PublicBase + "/"
    ensures forall k :: 0 <= k < |rel| ==> u[|PublicBase| + 1 + k] == (if rel[k] == '\\' then '/' else rel[k])
    ensures '\\' !in u
  {
    PublicBase + "/" + SlashPath(rel)
  }

  /** A Windows-style and a POSIX-style spelling of one path publish to the
      same URL. */
  lemma PublicURLIgnoresSeparatorStyle()
    ensures ToPublicURL("a\\b") == ToPublicURL("a/b")
  {
  }

  /** Paths without backslashes publish to distinct URLs. */
  lemma PublicURLInjective(a: string, b: string)
    requires '\\' !in a && '\\' !in b
    requires ToPublicURL(a) == ToPublicURL(b)
    ensures a == b
  {
    SlashPathNoBackslash(a);
    SlashPathNoBackslash(b);
    assert a == ToPublicURL(a)[|PublicBase| + 1..];
  }

  /** Replacing backslashes a second time changes nothing, so publishing the
      already converted `rel` is publishing the listed path itself. */
  lemma SlashPathIdempotent(s: string)
    ensures SlashPath(SlashPath(s)) == SlashPath(s)
  {
    SlashPathNoBackslash(SlashPath(s));
  }

  /** `path.basename(p)` on a path that does not end in a separator: the text
      after the last `/`. */
  function Basename(p: string): (r: string)
    ensures '/' !in r
    ensures |r| <= |p| && r == p[|p| - |r|..]
    ensures |r| < |p| ==> p[|p| - |r| - 1] == '/'
    decreases |p|
  {
    if |p| == 0 || p[|p| - 1] == '/' then ""
    else Basename(p[..|p| - 1]) + [p[|p| - 1]]
  }

  /** The base name of a directory followed by a file name is the file name. */
  lemma {:induction false} BasenameOfJoin(dir: string, name: string)
    requires '/' !in name
    ensures Basename(dir + "/" + name) == name
    decreases |name|
  {
    var p := dir + "/" + name;
    if |name| == 0 {
    } else {
      var front := name[..|name| - 1];
      assert p[..|p| - 1] == dir + "/" + front;
      BasenameOfJoin(dir, front);
      assert name == front + [name[|name| - 1]];
    }
  }

  // ----- `<title>` extraction: /<title>([^<]+)<\/title>/i -----

  const OpenTag := "<title>"
  const CloseTag := "</title>"

  /** The end of the run of characters other than `<` that starts at `j`: the
      first `<` at or after `j`, or the end of the text. */
  function RunEnd(s: string, j: nat): (e: nat)
    requires j <= |s|
    ensures j <= e <= |s|
    ensures forall k :: j <= k < e ==> s[k] != '<'
    ensures e < |s| ==> s[e] == '<'
    decreases |s| - j
  {
    if j == |s| || s[j] == '<' then j else RunEnd(s, j + 1)
  }

  /** The pattern matches at `i`: an opening tag in any letter case, at least
      one character other than `<`, and a closing tag in any letter case. The
      greedy `[^<]+` can only be followed by `</title>` at the end of its run,
      since every shorter run is followed by a character other than `<`. */
  predicate TitleMatchAt(s: string, i: int) {
    && OccursAtIgnoreCase(s, OpenTag, i)
    && RunEnd(s, i + |OpenTag|) > i + |OpenTag|
    && OccursAtIgnoreCase(s, CloseTag, RunEnd(s, i + |OpenTag|))
  }

  /** The captured group of a match at `i`. */
  function TitleText(s: string, i: int): string
    requires TitleMatchAt(s, i)
  {
    s[i + |OpenTag|..RunEnd(s, i + |OpenTag|)]
  }

  /** The leftmost match at or after `i`, as the regular expression searches. */
  function FirstTitleMatch(s: string, i: nat): (m: Option<nat>)
    ensures m.Some? ==> i <= m.value && TitleMatchAt(s, m.value)
    ensures m.Some? ==> forall k :: i <= k < m.value ==> !TitleMatchAt(s, k)
    ensures m.None? ==> forall k :: i <= k ==> !TitleMatchAt(s, k)
    decreases |s| + 1 - i
  {
    if i > |s| then None
    else if TitleMatchAt(s, i) then Some(i)
    else FirstTitleMatch(s, i + 1)
  }

  /** `extractTitle(html)`: the trimmed captured text of the leftmost match,
      or `""` when nothing matches. The result holds no `<` and neither
      starts nor ends with whitespace. */
  function ExtractTitle(html: string): (r: string)
    ensures '<' !in r
    ensures |r| == 0 || (!IsSpace(r[0]) && !IsSpace(r[|r| - 1]))
    ensures (forall i :: !TitleMatchAt(html, i)) ==> r == ""
    ensures forall m :: TitleMatchAt(html, m) && (forall k :: 0 <= k < m ==> !TitleMatchAt(html, k)) ==>
              r == Trim(TitleText(html, m))
  {
    match FirstTitleMatch(html, 0)
    case None => ""
    case Some(m) =>
      LeftmostMatchUnique(html, m);
      TrimKeepsNoAngle(TitleText(html, m));
      Trim(TitleText(html, m))
  }

  /** Only one position is the leftmost match. */
  lemma LeftmostMatchUnique(html: string, m: nat)
    requires TitleMatchAt(html, m) && forall k :: 0 <= k < m ==> !TitleMatchAt(html, k)
    ensures forall m' :: TitleMatchAt(html, m') && (forall k :: 0 <= k < m' ==> !TitleMatchAt(html, k)) ==> m' == m
  {
  }

  /** Trimming a text without `<` leaves none. */
  lemma TrimKeepsNoAngle(t: string)
    requires '<' !in t
    ensures '<' !in Trim(t)
  {
    var r := Trim(t);
    var j :| TrimmedAt(t, r, j);
    forall k | 0 <= k < |r|
      ensures r[k] != '<'
    {
      assert r[k] == t[j + k];
    }
  }

  /** The run of non-`<` characters starting at a title ends where it does. */
  lemma RunOfTitle(s: string, n: nat, t: string)
    requires n + |t| < |s| && s[n..n + |t|] == t && '<' !in t && s[n + |t|] == '<'
    ensures RunEnd(s, n) == n + |t|
  {
    assert forall k :: n <= k < n + |t| ==> s[k] == t[k - n];
  }

  /** A title written between a lower-case opening and closing tag is found
      again, trimmed, whatever follows the closing tag. */
  lemma TitleRoundTrip(t: string, rest: string)
    requires |t| > 0 && '<' !in t
    ensures ExtractTitle(OpenTag + t + CloseTag + rest) == Trim(t)
  {
    var s := OpenTag + t + CloseTag + rest;
    var n := |OpenTag|;
    assert s[n..n + |t|] == t;
    assert s[n + |t|..n + |t| + |CloseTag|] == CloseTag;
    RunOfTitle(s, n, t);
    assert TitleMatchAt(s, 0);
    assert TitleText(s, 0) == t;
  }

  /** The tags are matched without regard to letter case. */
  lemma UpperCaseTagsMatch(t: string)
    requires |t| > 0 && '<' !in t
    ensures ExtractTitle("<TITLE>" + t + "</Title>") == Trim(t)
  {
    var s := "<TITLE>" + t + "</Title>";
    var n := |OpenTag|;
    assert s[n..n + |t|] == t;
    assert s[n + |t|..] == "</Title>";
    RunOfTitle(s, n, t);
    assert OccursAtIgnoreCase(s, OpenTag, 0);
    assert TitleMatchAt(s, 0);
    assert TitleText(s, 0) == t;
  }

  /** A document with no opening tag has no title. */
  lemma NoOpenTagNoTitle(html: string)
    requires forall i :: !OccursAtIgnoreCase(html, OpenTag, i)
    ensures ExtractTitle(html) == ""
  {
  }

  /** An empty or all-blank title extracts as `""`, so the caller falls back
      to the file name. */
  lemma BlankTitleIsEmpty(t: string)
    requires |t| > 0 && AllSpace(t)
    ensures ExtractTitle(OpenTag + t + CloseTag) == ""
  {
    assert '<' !in t by {
      forall k | 0 <= k < |t|
        ensures t[k] != '<'
      {
        assert IsSpace(t[k]);
      }
    }
    TitleRoundTrip(t, "");
    assert OpenTag + t + CloseTag + "" == OpenTag + t + CloseTag;
    var r := Trim(t);
    var j :| TrimmedAt(t, r, j);
  }

  // ----- manifest records -----

  /** One manifest record. `data` is absent for HTML pages; `title` is a JSON
      value because a data file's own `title` field is copied as it is. */
  datatype Item = Item(kind: string, title: Json, data: Option<string>, path: string, tags: seq<string>, updated: string)

  /** The three data-file kinds: their record type, the directory under
      `assets/data/<subject>/` they are listed from, and the viewer page. */
  datatype DataKind = Marker | MapData | NoImg {
    function TypeName(): string {
      match this
      case Marker => "marker"
      case MapData => "img"
      case NoImg => "noimg"
    }

    function Dir(): string {
      match this
      case Marker => "marker"
      case MapData => "mapdata"
      case NoImg => "noimg"
    }

    function Page(): string {
      match this
      case Marker => "marker.html"
      case MapData => "img.html"
      case NoImg => "noimg.html"
    }
  }

  /** A scanned data file: its path as listed, what `JSON.parse` made of its
      text (`None` when reading or parsing threw), and the time stamp taken
      when its record was built. */
  datatype DataFile = DataFile(fp: string, meta: Option<Json>, stamp: string)

  /** A scanned HTML page: its path, its text, and its time stamp. */
  datatype HtmlFile = HtmlFile(fp: string, html: string, stamp: string)

  /** The file's own title: a truthy `title` field of the parsed object. */
  predicate HasOwnTitle(meta: Option<Json>) {
    && meta.Some?
    && Field(meta.value, "title").Some?
    && Truthy(Field(meta.value, "title").value)
  }

  /** `readJSON(fp).title || basename(fp)`, where a throwing read, a `null`
      document and every value without a truthy `title` give the base name. */
  function DataTitle(fp: string, meta: Option<Json>): (t: Json)
    ensures HasOwnTitle(meta) ==> t == Field(meta.value, "title").value
    ensures !HasOwnTitle(meta) ==> t == JStr(Basename(fp))
    ensures Truthy(t) || t == JStr("")
  {
    if HasOwnTitle(meta) then Field(meta.value, "title").value else JStr(Basename(fp))
  }

  /** `buildMarkerItems`, `buildMapdataItems`, `buildNoimgItems` for one file:
      the data URL is the public URL of the file, and the record's path opens
      the kind's viewer page on it, with the URL-encoded title. */
  function DataItem(kind: DataKind, subj: Subject, f: DataFile, encode: Json -> string): (r: Item)
    ensures r.kind == kind.TypeName() && r.tags == [kind.TypeName(), subj.tag, subj.grade]
    ensures r.data == Some(ToPublicURL(f.fp))
    ensures r.path == PublicBase + "/modules/" + kind.Page() + "?data=" + ToPublicURL(f.fp) + "&title=" + encode(r.title)
    ensures StartsWith(r.path, PublicBase + "/modules/" + kind.Page() + "?data=" + ToPublicURL(f.fp) + "&title=")
    ensures r.title == DataTitle(f.fp, f.meta) && r.updated == f.stamp
  {
    var rel := SlashPath(f.fp);
    var title := DataTitle(f.fp, f.meta);
    var dataURL := ToPublicURL(rel);
    SlashPathIdempotent(f.fp);
    var url := PublicBase + "/modules/" + kind.Page() + "?data=" + dataURL + "&title=" + encode(title);
    Item(kind.TypeName(), title, Some(dataURL), url, [kind.TypeName(), subj.tag, subj.grade], f.stamp)
  }

  /** `buildHtmlItems` for one page: the page's extracted title, or its base
      name when there is none; the record's path is the page's public URL. */
  function HtmlItem(subj: Subject, f: HtmlFile): (r: Item)
    ensures r.kind == "html" && r.tags == ["html", subj.tag, subj.grade]
    ensures r.data.None? && r.path == ToPublicURL(f.fp) && r.updated == f.stamp
    ensures ExtractTitle(f.html) != "" ==> r.title == JStr(ExtractTitle(f.html))
    ensures ExtractTitle(f.html) == "" ==> r.title == JStr(Basename(f.fp))
  {
    var rel := SlashPath(f.fp);
    var t := ExtractTitle(f.html);
    SlashPathIdempotent(f.fp);
    Item("html", JStr(if t != "" then t else Basename(f.fp)), None, ToPublicURL(rel), ["html", subj.tag, subj.grade], f.stamp)
  }

  /** The tag list every record of a subject carries: its own kind, then
      the subject's tag and grade; and a non-empty path. */
  predicate SubjectTagged(it: Item, subj: Subject) {
    && |it.tags| == 3 && it.tags[0] == it.kind && it.tags[1..] == [subj.tag, subj.grade]
    && it.path != ""
  }

  /** Joining lists of records that carry the subject's tags gives one. */
  lemma TaggedJoin(a: seq<Item>, b: seq<Item>, c: seq<Item>, d: seq<Item>, subj: Subject)
    requires forall i :: 0 <= i < |a| ==> SubjectTagged(a[i], subj)
    requires forall i :: 0 <= i < |b| ==> SubjectTagged(b[i], subj)
    requires forall i :: 0 <= i < |c| ==> SubjectTagged(c[i], subj)
    requires forall i :: 0 <= i < |d| ==> SubjectTagged(d[i], subj)
    ensures forall i :: 0 <= i < |a + b + c + d| ==> SubjectTagged((a + b + c + d)[i], subj)
  {
    var r := a + b + c + d;
    forall i | 0 <= i < |r|
      ensures SubjectTagged(r[i], subj)
    {
      if i < |a| {
        assert r[i] == a[i];
      } else if i < |a| + |b| {
        assert r[i] == b[i - |a|];
      } else if i < |a| + |b| + |c| {
        assert r[i] == c[i - |a| - |b|];
      } else {
        assert r[i] == d[i - |a| - |b| - |c|];
      }
    }
  }

  /** The records of one kind of data file, one per file, in order. */
  function DataItems(kind: DataKind, subj: Subject, files: seq<DataFile>, encode: Json -> string): (r: seq<Item>)
    ensures |r| == |files|
    ensures forall i :: 0 <= i < |files| ==> r[i] == DataItem(kind, subj, files[i], encode)
    ensures forall i :: 0 <= i < |r| ==> SubjectTagged(r[i], subj)
  {
    seq(|files|, i requires 0 <= i < |files| => DataItem(kind, subj, files[i], encode))
  }

  /** The records of the HTML pages, one per page, in order. */
  function HtmlItems(subj: Subject, pages: seq<HtmlFile>): (r: seq<Item>)
    ensures |r| == |pages|
    ensures forall i :: 0 <= i < |pages| ==> r[i] == HtmlItem(subj, pages[i])
    ensures forall i :: 0 <= i < |r| ==> SubjectTagged(r[i], subj)
  {
    seq(|pages|, i requires 0 <= i < |pages| => HtmlItem(subj, pages[i]))
  }

  /** The records of every file of one subject, in the order the script
      concatenates them: marker, map-data, no-image, then HTML, each file's
      record at its file's position. */
  function SubjectItems(subj: Subject, markers: seq<DataFile>, maps: seq<DataFile>, noimgs: seq<DataFile>,
                        pages: seq<HtmlFile>, encode: Json -> string): (r: seq<Item>)
    ensures |r| == |markers| + |maps| + |noimgs| + |pages|
    ensures forall i :: 0 <= i < |r| ==> SubjectTagged(r[i], subj)
    ensures forall i :: 0 <= i < |markers| ==> r[i] == DataItem(Marker, subj, markers[i], encode)
    ensures forall i :: 0 <= i < |maps| ==> r[|markers| + i] == DataItem(MapData, subj, maps[i], encode)
    ensures forall i :: 0 <= i < |noimgs| ==>
              r[|markers| + |maps| + i] == DataItem(NoImg, subj, noimgs[i], encode)
    ensures forall i :: 0 <= i < |pages| ==> r[|markers| + |maps| + |noimgs| + i] == HtmlItem(subj, pages[i])
  {
    var a := DataItems(Marker, subj, markers, encode);
    var b := DataItems(MapData, subj, maps, encode);
    var c := DataItems(NoImg, subj, noimgs, encode);
    var d := HtmlItems(subj, pages);
    var r := a + b + c + d;
    TaggedJoin(a, b, c, d, subj);
    r
  }

  /** A record built for a page whose title tag holds a non-blank title
      carries that title, trimmed; a page without one is titled by its file. */
  lemma HtmlTitleFromPage(subj: Subject, dir: string, name: string, t: string, stamp: string)
    requires '/' !in name && '<' !in t && |Trim(t)| > 0
    ensures HtmlItem(subj, HtmlFile(dir + "/" + name, OpenTag + t + CloseTag, stamp)).title == JStr(Trim(t))
    ensures HtmlItem(subj, HtmlFile(dir + "/" + name, "", stamp)).title == JStr(name)
  {
    assert OpenTag + t + CloseTag + "" == OpenTag + t + CloseTag;
    TitleRoundTrip(t, "");
    NoOpenTagNoTitle("");
    BasenameOfJoin(dir, name);
  }
}
