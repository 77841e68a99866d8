/** The rating history of the quiz engine (`key`, `readHist`, `pushHist`). Each
    item keeps at most the last ten confidence ratings under one key of the
    browser's local store; reading looks at the last three. The store is an
    immutable map from keys to what `JSON.parse` makes of the stored text, and
    the clock reading is a parameter. */
module QuizHistory {
  import opened JsValue
  import opened Seqs

  const KeyPrefix := "anki-mix:"
  /** Ratings kept per item. */
  const MaxEntries := 10
  /** Ratings the recent average looks at. */
  const RecentWindow := 3

  /** One rating: the clock reading `t` and the confidence `c` (0 weakest … 3). */
  datatype Entry = Entry(t: int, c: int)

  /** The stored text under one key as `JSON.parse` sees it: not JSON at all,
      JSON that is not an array, or an array of entries. */
  datatype Slot = Unparseable | NotArray | Entries(entries: seq<Entry>)

  type Store = map<string, Slot>

  /** `readHist`'s result: the last entries and their mean confidence, `None`
      standing for the source's `null`. */
  datatype Recent = Recent(hist: seq<Entry>, avg: Option<real>)

  /** `key(src, id)`: the store key of one item's history. */
  function Key(src: string, id: string): (k: string)
    ensures |k| == |KeyPrefix| + |src| + 1 + |id|
    ensures k[..|KeyPrefix|] == KeyPrefix
    ensures k[|KeyPrefix| + |src|] == '#'
    ensures k[|KeyPrefix|..|KeyPrefix| + |src|] == src && k[|KeyPrefix| + |src| + 1..] == id
  {
    KeyPrefix + src + "#" + id
  }

  /** Sources without `#` keep keys apart: equal keys name the same source
      and the same id. */
  lemma KeyInjective(src: string, id: string, src': string, id': string)
    requires '#' !in src && '#' !in src'
    requires Key(src, id) == Key(src', id')
    ensures src == src' && id == id'
  {
  }

  /** Keys are not unique: a `#` in the source or the id lets two different
      items share one history. */
  lemma KeyCollision()
    ensures Key("a#b", "c") == Key("a", "b#c")
  {
  }

  /** What a read finds under `k`: a key never written reads as `"[]"`. */
  function Lookup(store: Store, k: string): Slot {
    if k in store then store[k] else Entries([])
  }

  function SumC(es: seq<Entry>): int {
    if |es| == 0 then 0 else SumC(es[..|es| - 1]) + es[|es| - 1].c
  }

  /** Arithmetic mean of the confidences of `es`. */
  function Mean(es: seq<Entry>): real
    requires |es| > 0
  {
    SumC(es) as real / |es| as real
  }

  /** `readHist(src, id)`: the last (at most three) stored entries and their
      mean, or no entries and no mean when nothing usable is stored. */
  function ReadHist(store: Store, src: string, id: string): (r: Recent)
    ensures |r.hist| <= RecentWindow
    ensures r.avg.None? <==> |r.hist| == 0
    ensures r.avg.Some? ==> r.avg.value == Mean(r.hist)
    ensures !Lookup(store, Key(src, id)).Entries? ==> r == Recent([], None)
    ensures Lookup(store, Key(src, id)).Entries? ==>
              var es := Lookup(store, Key(src, id)).entries;
              |r.hist| == Min(RecentWindow, |es|) && es == es[..|es| - |r.hist|] + r.hist
  {
    match Lookup(store, Key(src, id))
    case Entries(es) =>
      var last := LastN(es, RecentWindow);
      Recent(last, if |last| > 0 then Some(Mean(last)) else None)
    case _ => Recent([], None)
  }

  /** Confidences on the 0..3 scale give a mean on the same scale. */
  lemma {:induction false} SumBounds(es: seq<Entry>)
    requires forall i :: 0 <= i < |es| ==> 0 <= es[i].c <= 3
    ensures 0 <= SumC(es) <= 3 * |es|
    decreases |es|
  {
    if |es| > 0 {
      SumBounds(es[..|es| - 1]);
    }
  }

  /** A sum between 0 and 3n over n > 0 ratings has a mean between 0 and 3. */
  lemma MeanBounds(es: seq<Entry>)
    requires |es| > 0 && 0 <= SumC(es) <= 3 * |es|
    ensures 0.0 <= Mean(es) <= 3.0
  {
    var n := |es| as real;
    var s := SumC(es) as real;
    assert 0.0 <= s <= 3.0 * n;
    assert Mean(es) == s / n;
    assert s / n <= (3.0 * n) / n;
    assert (3.0 * n) / n == 3.0;
  }

  /** When every stored confidence is on the 0..3 scale, so is the recent average. */
  lemma AverageOnScale(store: Store, src: string, id: string)
    requires Lookup(store, Key(src, id)).Entries?
    requires var es := Lookup(store, Key(src, id)).entries;
             forall i :: 0 <= i < |es| ==> 0 <= es[i].c <= 3
    ensures var r := ReadHist(store, src, id);
            r.avg.Some? ==> 0.0 <= r.avg.value <= 3.0
  {
    var r := ReadHist(store, src, id);
    var es := Lookup(store, Key(src, id)).entries;
    if r.avg.Some? {
      var h := r.hist;
      var front := es[..|es| - |h|];
      assert es == front + h;
      assert forall i :: 0 <= i < |h| ==> h[i] == (front + h)[|front| + i];
      SumBounds(h);
      MeanBounds(h);
    }
  }

  /** The worked example of a history whose last ratings are 3, 3, 0: the mean
      is exactly 2. */
  lemma MeanOfThreeThreeZero(t0: int, t1: int, t2: int)
    ensures Mean([Entry(t0, 3), Entry(t1, 3), Entry(t2, 0)]) == 2.0
  {
    var es := [Entry(t0, 3), Entry(t1, 3), Entry(t2, 0)];
    assert es[..2] == [Entry(t0, 3), Entry(t1, 3)];
    assert es[..2][..1] == [Entry(t0, 3)];
    assert SumC([Entry(t0, 3)]) == 3;
    assert SumC(es[..2]) == 6;
    assert SumC(es) == 6;
  }

  /** The history kept after appending `e` to `es`: at most the last ten. */
  function Appended(es: seq<Entry>, e: Entry): (r: seq<Entry>)
    ensures |r| == Min(|es| + 1, MaxEntries)
    ensures r[|r| - 1] == e
    ensures es == es[..|es| + 1 - |r|] + r[..|r| - 1]
  {
    var arr := es + [e];
    var r := if |arr| > MaxEntries then LastN(arr, MaxEntries) else arr;
    assert r == arr[|arr| - |r|..];
    assert r[..|r| - 1] == es[|es| + 1 - |r|..];
    r
  }

  /** The array a push extends: the stored entries, or none when the stored
      text is not JSON. */
  function Before(slot: Slot): seq<Entry> {
    if slot.Entries? then slot.entries else []
  }

  /** `pushHist(src, id, conf)` at clock reading `now`. The stored array gains
      the new entry and is cut to the last ten; unparseable text counts as an
      empty array. JSON that parses to something other than an array makes
      `arr.push` throw, and then nothing is written (`None`). */
  function PushHist(store: Store, src: string, id: string, conf: int, now: int): (r: Option<Store>)
    ensures var k := Key(src, id);
            && (r.None? <==> Lookup(store, k).NotArray?)
            && (r.Some? ==>
                  && r.value.Keys == store.Keys + {k}
                  && (forall j :: j in store && j != k ==> r.value[j] == store[j])
                  && r.value[k].Entries?)
    ensures r.Some? ==>
              var before := Before(Lookup(store, Key(src, id)));
              var es := r.value[Key(src, id)].entries;
              && |es| == Min(|before| + 1, MaxEntries)
              && es[|es| - 1] == Entry(now, conf)
              && before == before[..|before| + 1 - |es|] + es[..|es| - 1]
  {
    var k := Key(src, id);
    var slot := Lookup(store, k);
    if slot.NotArray? then None
    else Some(store[k := Entries(Appended(Before(slot), Entry(now, conf)))])
  }

  /** Pushing a sequence of ratings, one after the other, onto the same key. */
  function PushAll(store: Store, src: string, id: string, ratings: seq<Entry>): Option<Store>
    decreases |ratings|
  {
    if |ratings| == 0 then Some(store)
    else
      match PushAll(store, src, id, ratings[..|ratings| - 1])
      case None => None
      case Some(s) => PushHist(s, src, id, ratings[|ratings| - 1].c, ratings[|ratings| - 1].t)
  }

  /** On a key that holds an array, a push stores that array extended and cut. */
  lemma PushOnEntries(store: Store, src: string, id: string, es: seq<Entry>, e: Entry)
    requires Lookup(store, Key(src, id)) == Entries(es)
    ensures PushHist(store, src, id, e.c, e.t) == Some(store[Key(src, id) := Entries(Appended(es, e))])
  {
  }

  /** Cutting to the last ten before or after appending one entry is the same. */
  lemma AppendedLastN(pre: seq<Entry>, e: Entry)
    ensures Appended(LastN(pre, MaxEntries), e) == LastN(pre + [e], MaxEntries)
  {
    var es := LastN(pre, MaxEntries);
    var arr := es + [e];
    var all := pre + [e];
    assert arr == all[|all| - |arr|..];
  }

  /** Starting from an item with no history, N pushes leave exactly the last
      `min(N, 10)` of them, in order. */
  lemma {:induction false} PushAllKeepsLastTen(store: Store, src: string, id: string, ratings: seq<Entry>)
    requires Lookup(store, Key(src, id)) == Entries([])
    ensures PushAll(store, src, id, ratings).Some?
    ensures Lookup(PushAll(store, src, id, ratings).value, Key(src, id)) == Entries(LastN(ratings, MaxEntries))
    decreases |ratings|
  {
    if |ratings| > 0 {
      var pre := ratings[..|ratings| - 1];
      var e := ratings[|ratings| - 1];
      assert ratings == pre + [e];
      PushAllKeepsLastTen(store, src, id, pre);
      var s := PushAll(store, src, id, pre).value;
      PushOnEntries(s, src, id, LastN(pre, MaxEntries), e);
      AppendedLastN(pre, e);
    } else {
      assert LastN(ratings, MaxEntries) == [];
    }
  }

  /** The last ten of eleven ratings numbered 0..10 are those numbered 1..10. */
  lemma LastTenOfEleven(t: int)
    ensures LastN(seq(11, i => Entry(t, i)), MaxEntries) == seq(10, i => Entry(t, i + 1))
  {
    var ratings := seq(11, i => Entry(t, i));
    assert LastN(ratings, MaxEntries) == ratings[1..];
  }

  /** Eleven pushes with confidences 0..10 keep the ones numbered 1..10: the
      oldest is dropped. */
  lemma ElevenPushesDropOldest(store: Store, src: string, id: string, t: int)
    requires Lookup(store, Key(src, id)) == Entries([])
    ensures var ratings := seq(11, i => Entry(t, i));
            && PushAll(store, src, id, ratings).Some?
            && Lookup(PushAll(store, src, id, ratings).value, Key(src, id)) == Entries(seq(10, i => Entry(t, i + 1)))
  {
    PushAllKeepsLastTen(store, src, id, seq(11, i => Entry(t, i)));
    LastTenOfEleven(t);
  }

  /** Right after a push, a read sees the new rating as its most recent entry. */
  lemma ReadAfterPush(store: Store, src: string, id: string, conf: int, now: int)
    requires PushHist(store, src, id, conf, now).Some?
    ensures var r := ReadHist(PushHist(store, src, id, conf, now).value, src, id);
            |r.hist| > 0 && r.hist[|r.hist| - 1] == Entry(now, conf)
  {
  }
}
