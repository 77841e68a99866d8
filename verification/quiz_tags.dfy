/** Quiz items and their tags in the quiz engine: the subject tag guessed from a
    pack's path (`subjectTagFromPath`), the enriched item list of one pack
    (`flatItems`), the OR filter by tags (`byTags`) and the per-tag counts that
    `discoverTags` reports. */
module QuizTags {
  import opened JsValue
  import opened Seqs
  import opened Text

  /** The four path segments the engine recognises, in the order it tests
      them, each with the subject label it attaches. */
  const SubjectTable: seq<(string, string)> :=
    [("/math/", "算数"), ("/jp/", "国語"), ("/sci/", "理科"), ("/geo/", "社会")]

  /** Table row `k` is the first whose segment occurs in `src`. */
  predicate FirstSubjectRow(src: string, k: int)
    requires 0 <= k < |SubjectTable|
  {
    && Includes(src, SubjectTable[k].0)
    && forall j :: 0 <= j < k ==> !Includes(src, SubjectTable[j].0)
  }

  /** `subjectTagFromPath`: the label of the first recognised segment found in
      the path, and no tag when none occurs. */
  function SubjectTagFromPath(src: string): (r: Option<string>)
    ensures r.None? <==> forall k :: 0 <= k < |SubjectTable| ==> !Includes(src, SubjectTable[k].0)
    ensures forall k :: 0 <= k < |SubjectTable| && FirstSubjectRow(src, k) ==> r == Some(SubjectTable[k].1)
  {
    assert SubjectTable[0] == ("/math/", "算数") && SubjectTable[1] == ("/jp/", "国語");
    assert SubjectTable[2] == ("/sci/", "理科") && SubjectTable[3] == ("/geo/", "社会");
    if Includes(src, "/math/") then Some("算数")
    else if Includes(src, "/jp/") then Some("国語")
    else if Includes(src, "/sci/") then Some("理科")
    else if Includes(src, "/geo/") then Some("社会")
    else None
  }

  /** An empty path has no subject. */
  lemma EmptyPathHasNoSubject()
    ensures SubjectTagFromPath("") == None
  {
    assert forall k :: 0 <= k < |SubjectTable| ==> !Includes("", SubjectTable[k].0);
  }

  /** A path under a `jpn` directory (the key the manifest builder uses for the
      language subject) is not recognised: only `/jp/` is tested. */
  lemma JpnPathHasNoSubject()
    ensures SubjectTagFromPath("/jpn/") == None
  {
    var p := "/jpn/";
    forall k | 0 <= k < |SubjectTable|
      ensures !Includes(p, SubjectTable[k].0)
    {
      var seg := SubjectTable[k].0;
      forall i | 0 <= i <= |p| - |seg|
        ensures !OccursAt(p, seg, i)
      {
        assert i == 0 || i == 1;
        assert p[i] != '/' || p[i + 1] != seg[1] || p[i + 3] != seg[3];
      }
    }
  }

  /** A pack-level math path wins over a later-tested segment in the same path. */
  lemma MathTakesPriority(src: string)
    requires Includes(src, "/math/")
    ensures SubjectTagFromPath(src) == Some("算数")
  {
  }

  /** A quiz item as stored in a pack. `id`, `q` and `tags` may be absent; the
      remaining fields (answers, hint, note, figure, …) are carried along
      unchanged as `rest`. */
  datatype RawItem = RawItem(id: Option<string>, q: Option<string>, tags: Option<seq<string>>, rest: Json)

  /** A pack document: `items` and `tags` may be absent. */
  datatype Pack = Pack(items: Option<seq<RawItem>>, tags: Option<seq<string>>)

  /** An item as `flatItems` returns it: the stored item, the source it was loaded from
      (`__src`) and the enriched tag list that replaces the item's own. */
  datatype Card = Card(item: RawItem, src: string, tags: seq<string>)

  /** The tags of one enriched item: the item's own, then the content pack's, then the
      subject label when there is one and it is not already among them. */
  function EnrichedTags(own: seq<string>, packTags: seq<string>, subject: Option<string>): seq<string>
  {
    var base := own + packTags;
    if subject.Some? && subject.value !in base then base + [subject.value] else base
  }

  /** Properties of one enriched tag list: the item's and the content pack's tags come
      first and in order, the subject label is present exactly when one was
      derived or already listed, and it is added at most once. */
  lemma EnrichedTagsShape(own: seq<string>, packTags: seq<string>, subject: Option<string>)
    ensures var t := EnrichedTags(own, packTags, subject);
            && t[..|own| + |packTags|] == own + packTags
            && |t| == |own| + |packTags| + (if subject.Some? && subject.value !in own + packTags then 1 else 0)
            && (forall x :: x in t <==> x in own || x in packTags || subject == Some(x))
            && (subject.Some? ==> multiset(t)[subject.value] == Max(1, multiset(own + packTags)[subject.value]))
  {
  }

  /** Tags are concatenated, not merged: a tag listed on both the item and the
      pack appears twice. */
  lemma EnrichedTagsKeepDuplicates()
    ensures EnrichedTags(["a"], ["a"], None) == ["a", "a"]
  {
  }

  /** When the item's and the content pack's tags are distinct and disjoint, the
      enriched list has no duplicates. */
  lemma EnrichedTagsDistinct(own: seq<string>, packTags: seq<string>, subject: Option<string>)
    requires forall i, j :: 0 <= i < j < |own + packTags| ==> (own + packTags)[i] != (own + packTags)[j]
    ensures var t := EnrichedTags(own, packTags, subject);
            forall i, j :: 0 <= i < j < |t| ==> t[i] != t[j]
  {
  }

  function ItemsOf(pack: Pack): seq<RawItem> { pack.items.GetOr([]) }

  /** `flatItems(src, data)`: one enriched item per pack item, in order, each
      recording the source and carrying the enriched tags. */
  function FlatItems(src: string, pack: Pack): (r: seq<Card>)
    ensures |r| == |ItemsOf(pack)|
    ensures forall i :: 0 <= i < |r| ==>
              && r[i].item == ItemsOf(pack)[i]
              && r[i].src == src
              && r[i].tags == EnrichedTags(ItemsOf(pack)[i].tags.GetOr([]), pack.tags.GetOr([]), SubjectTagFromPath(src))
  {
    var items := ItemsOf(pack);
    var subject := SubjectTagFromPath(src);
    seq(|items|, i requires 0 <= i < |items| =>
      Card(items[i], src, EnrichedTags(items[i].tags.GetOr([]), pack.tags.GetOr([]), subject)))
  }

  /** Every item of a pack whose path names a subject carries that subject's
      label, and keeps every tag it or its pack declared. */
  lemma FlatItemsCarrySubject(src: string, pack: Pack, i: int)
    requires 0 <= i < |ItemsOf(pack)|
    ensures var c := FlatItems(src, pack)[i];
            && (SubjectTagFromPath(src).Some? ==> SubjectTagFromPath(src).value in c.tags)
            && (forall t :: t in ItemsOf(pack)[i].tags.GetOr([]) ==> t in c.tags)
            && (forall t :: t in pack.tags.GetOr([]) ==> t in c.tags)
  {
    EnrichedTagsShape(ItemsOf(pack)[i].tags.GetOr([]), pack.tags.GetOr([]), SubjectTagFromPath(src));
  }

  /** The enriched items of a sequence of packs, concatenated in pack order. */
  function AllCards(packs: seq<(string, Pack)>): seq<Card>
  {
    if |packs| == 0 then []
    else AllCards(packs[..|packs| - 1]) + FlatItems(packs[|packs| - 1].0, packs[|packs| - 1].1)
  }

  /** A card is among all cards exactly when one of the packs makes it. */
  lemma {:induction false} AllCardsMembership(packs: seq<(string, Pack)>, c: Card)
    ensures c in AllCards(packs) <==> exists i :: 0 <= i < |packs| && c in FlatItems(packs[i].0, packs[i].1)
    decreases |packs|
  {
    if |packs| > 0 {
      var pre := packs[..|packs| - 1];
      var last := packs[|packs| - 1];
      AllCardsMembership(pre, c);
      assert c in AllCards(packs) <==> c in AllCards(pre) || c in FlatItems(last.0, last.1);
      if exists i :: 0 <= i < |pre| && c in FlatItems(pre[i].0, pre[i].1) {
        var i :| 0 <= i < |pre| && c in FlatItems(pre[i].0, pre[i].1);
        assert pre[i] == packs[i];
      }
      if exists i :: 0 <= i < |packs| && c in FlatItems(packs[i].0, packs[i].1) {
        var i :| 0 <= i < |packs| && c in FlatItems(packs[i].0, packs[i].1);
        if i < |pre| {
          assert pre[i] == packs[i];
        }
      }
    }
  }

  /** The card shares at least one tag with the wanted list. */
  predicate SharesTag(c: Card, wanted: seq<string>) {
    exists t | t in c.tags :: t in wanted
  }

  /** `byTags(items, tags)`: with no wanted tags every item is kept; otherwise
      the items carrying at least one wanted tag, in order. */
  function ByTags(items: seq<Card>, wanted: Option<seq<string>>): (r: seq<Card>)
    ensures wanted.None? || |wanted.value| == 0 ==> r == items
    ensures wanted.Some? && |wanted.value| > 0 ==>
              && IsSubseq(r, items)
              && forall c :: multiset(r)[c] == if SharesTag(c, wanted.value) then multiset(items)[c] else 0
  {
    if wanted.None? || |wanted.value| == 0 then items
    else Filter(items, c => SharesTag(c, wanted.value))
  }

  /** An item is kept by the tag filter exactly when it shares a wanted tag. */
  lemma ByTagsMembership(items: seq<Card>, wanted: seq<string>, c: Card)
    requires |wanted| > 0 && c in items
    ensures c in ByTags(items, Some(wanted)) <==> SharesTag(c, wanted)
  {
    assert multiset(items)[c] > 0;
  }

  /** Every item the tag filter returns is an input item, and with a
      non-empty filter it carries a wanted tag. */
  lemma ByTagsSound(items: seq<Card>, wanted: seq<string>, c: Card)
    requires c in ByTags(items, Some(wanted))
    ensures c in items
    ensures |wanted| > 0 ==> SharesTag(c, wanted)
  {
    assert multiset(ByTags(items, Some(wanted)))[c] > 0;
  }

  /** The number of items carrying one tag, as `discoverTags` reports it. */
  datatype TagCount = TagCount(name: string, count: nat)

  /** Every tag of every card, in order, duplicates included. */
  function TagStream(cards: seq<Card>): seq<string>
  {
    if |cards| == 0 then [] else TagStream(cards[..|cards| - 1]) + cards[|cards| - 1].tags
  }

  predicate DistinctNames(r: seq<TagCount>) {
    forall i, j :: 0 <= i < j < |r| ==> r[i].name != r[j].name
  }

  /** `r` tallies the stream `ts`: one entry per distinct tag of `ts`, each
      holding that tag's number of occurrences. */
  predicate Tally(ts: seq<string>, r: seq<TagCount>) {
    && DistinctNames(r)
    && (forall i :: 0 <= i < |r| ==> r[i].name in ts && r[i].count == multiset(ts)[r[i].name])
    && (forall t :: t in ts ==> exists i :: 0 <= i < |r| && r[i].name == t)
  }

  /** The entries of `r` are in the order their tags first appear in `ts`,
      the order in which a `Map` lists its keys. */
  predicate InFirstAppearanceOrder(ts: seq<string>, r: seq<TagCount>) {
    forall i, j :: 0 <= i < j < |r| && r[i].name in ts && r[j].name in ts ==>
      FirstIndex(ts, r[i].name) < FirstIndex(ts, r[j].name)
  }

  /** Index of the entry named `t`, or -1. */
  function IndexOfName(r: seq<TagCount>, t: string): (k: int)
    ensures -1 <= k < |r|
    ensures k >= 0 ==> r[k].name == t
    ensures k < 0 ==> forall i :: 0 <= i < |r| ==> r[i].name != t
  {
    if |r| == 0 then -1
    else if r[|r| - 1].name == t then |r| - 1
    else IndexOfName(r[..|r| - 1], t)
  }

  /** `count.set(t, (count.get(t) || 0) + 1)` on an insertion-ordered map. */
  function Bump(r: seq<TagCount>, t: string): (r': seq<TagCount>)
    requires DistinctNames(r)
    ensures |r'| == |r| || (|r'| == |r| + 1 && r'[|r|] == TagCount(t, 1) && forall i :: 0 <= i < |r| ==> r[i].name != t)
    ensures forall i :: 0 <= i < |r| ==>
              r'[i].name == r[i].name && r'[i].count == r[i].count + (if r[i].name == t then 1 else 0)
    ensures exists i :: 0 <= i < |r'| && r'[i].name == t
  {
    var k := IndexOfName(r, t);
    if k >= 0 then r[k := TagCount(t, r[k].count + 1)] else r + [TagCount(t, 1)]
  }

  /** Counting one more tag keeps the tally exact. */
  lemma TallyStep(pre: seq<string>, t: string, prev: seq<TagCount>)
    requires Tally(pre, prev)
    ensures Tally(pre + [t], Bump(prev, t))
  {
    BumpKeepsDistinct(prev, t);
    BumpCounts(pre, t, prev);
    BumpCovers(pre, t, prev);
  }

  lemma BumpKeepsDistinct(prev: seq<TagCount>, t: string)
    requires DistinctNames(prev)
    ensures DistinctNames(Bump(prev, t))
  {
    var r := Bump(prev, t);
    forall i, j | 0 <= i < j < |r|
      ensures r[i].name != r[j].name
    {
      if j < |prev| {
        assert prev[i].name != prev[j].name;
      }
    }
  }

  lemma BumpCounts(pre: seq<string>, t: string, prev: seq<TagCount>)
    requires Tally(pre, prev)
    ensures var r := Bump(prev, t);
            forall i :: 0 <= i < |r| ==> r[i].name in pre + [t] && r[i].count == multiset(pre + [t])[r[i].name]
  {
    var ts := pre + [t];
    var r := Bump(prev, t);
    assert forall x :: multiset(ts)[x] == multiset(pre)[x] + (if x == t then 1 else 0);
    forall i | 0 <= i < |r|
      ensures r[i].name in ts && r[i].count == multiset(ts)[r[i].name]
    {
      if i == |prev| {
        assert t !in pre;
      } else {
        assert prev[i].name in pre;
      }
    }
  }

  lemma BumpCovers(pre: seq<string>, t: string, prev: seq<TagCount>)
    requires Tally(pre, prev)
    ensures var r := Bump(prev, t);
            forall x :: x in pre + [t] ==> exists i :: 0 <= i < |r| && r[i].name == x
  {
    var r := Bump(prev, t);
    forall x | x in pre + [t]
      ensures exists i :: 0 <= i < |r| && r[i].name == x
    {
      if x != t {
        assert x in pre;
        var i :| 0 <= i < |prev| && prev[i].name == x;
        assert r[i].name == x;
      }
    }
  }

  /** A new tag is listed after every tag seen before it. */
  lemma BumpKeepsOrder(pre: seq<string>, t: string, prev: seq<TagCount>)
    requires Tally(pre, prev) && InFirstAppearanceOrder(pre, prev)
    ensures InFirstAppearanceOrder(pre + [t], Bump(prev, t))
  {
    var ts := pre + [t];
    var r := Bump(prev, t);
    forall i, j | 0 <= i < j < |r| && r[i].name in ts && r[j].name in ts
      ensures FirstIndex(ts, r[i].name) < FirstIndex(ts, r[j].name)
    {
      assert prev[i].name in pre;
      FirstIndexSnoc(pre, t, r[i].name);
      FirstIndexSnoc(pre, t, r[j].name);
      if j < |prev| {
        assert prev[j].name in pre;
      }
    }
  }

  /** The tag counts of a stream of tags, entries in order of first appearance:
      one entry per distinct tag, each counting that tag's occurrences. */
  function CountTags(ts: seq<string>): (r: seq<TagCount>)
    ensures forall i, j :: 0 <= i < j < |r| ==> r[i].name != r[j].name
    ensures forall i :: 0 <= i < |r| ==> r[i].name in ts && r[i].count == multiset(ts)[r[i].name]
    ensures forall t :: t in ts ==> exists i :: 0 <= i < |r| && r[i].name == t
    ensures InFirstAppearanceOrder(ts, r)
    decreases |ts|
  {
    if |ts| == 0 then []
    else
      var pre := ts[..|ts| - 1];
      var t := ts[|ts| - 1];
      assert ts == pre + [t];
      var prev := CountTags(pre);
      TallyStep(pre, t, prev);
      BumpKeepsOrder(pre, t, prev);
      Bump(prev, t)
  }

  /** `discoverTags` after loading: the tag counts over all enriched items,
      one entry per tag in order of first appearance, and the sources of the
      loaded packs in order. */
  function DiscoverTags(packs: seq<(string, Pack)>): (r: (seq<TagCount>, seq<string>))
    ensures |r.1| == |packs| && forall i :: 0 <= i < |packs| ==> r.1[i] == packs[i].0
    ensures DistinctNames(r.0) && InFirstAppearanceOrder(TagStream(AllCards(packs)), r.0)
    ensures forall i :: 0 <= i < |r.0| ==> r.0[i].count == multiset(TagStream(AllCards(packs)))[r.0[i].name]
    ensures forall t :: t in TagStream(AllCards(packs)) <==> exists i :: 0 <= i < |r.0| && r.0[i].name == t
  {
    (CountTags(TagStream(AllCards(packs))), seq(|packs|, i requires 0 <= i < |packs| => packs[i].0))
  }
}
