/** Item selection in the quiz engine (`pick`, `shuffle`, `mount`): every item
    is scored from its rating history, an optional review filter keeps the
    items needing practice (padded with the others when too few remain), the
    pool is shuffled and cut to the requested number. `Math.random` is a
    parameter `rand`, its k-th value being the k-th call's result. */
module QuizPick {
  import opened JsValue
  import opened Seqs
  import opened QuizTags
  import opened QuizHistory

  /** Mean below which `onlyLow` keeps an item. */
  const LowThreshold: real := 1.5
  /** Mean below which `needReview` keeps an item. */
  const ReviewThreshold: real := 2.0
  /** Items rated fewer times than this always count as needing practice. */
  const RareSeen := 3
  /** A filtered pool shorter than `max(MinSession, limit)` is padded. */
  const MinSession := 5

  /** The history id of an item: `it.id || it.q || ""`. */
  function HistoryId(c: Card): string {
    if c.item.id.Some? && c.item.id.value != "" then c.item.id.value
    else if c.item.q.Some? && c.item.q.value != "" then c.item.q.value
    else ""
  }

  /** An item with the recent average (`__avg`) and the number of recent
      ratings (`__seen`) that `pick` attaches. */
  datatype Scored = Scored(card: Card, avg: Option<real>, seen: nat)

  function Score(store: Store, c: Card): Scored {
    var h := ReadHist(store, c.src, HistoryId(c));
    Scored(c, h.avg, |h.hist|)
  }

  /** The scored pool: one entry per item, in order, each carrying what a
      read of that item's history finds: the number of recent ratings (at
      most three) and their average, present exactly when it has been rated. */
  function ScoreAll(store: Store, cards: seq<Card>): (r: seq<Scored>)
    ensures |r| == |cards|
    ensures forall i :: 0 <= i < |r| ==>
              var h := ReadHist(store, cards[i].src, HistoryId(cards[i]));
              && r[i].card == cards[i]
              && r[i].avg == h.avg && r[i].seen == |h.hist|
              && r[i].seen <= RecentWindow
              && (r[i].avg.None? <==> r[i].seen == 0)
  {
    seq(|cards|, i requires 0 <= i < |cards| => Score(store, cards[i]))
  }

  /** A rating given to an item shows up in its score: it is counted among
      the recent ratings (up to three), and the item now has an average. */
  lemma ScoreAfterRating(store: Store, c: Card, conf: int, now: int)
    requires PushHist(store, c.src, HistoryId(c), conf, now).Some?
    ensures var s := Score(PushHist(store, c.src, HistoryId(c), conf, now).value, c);
            var before := Before(Lookup(store, Key(c.src, HistoryId(c))));
            && s.seen == Min(RecentWindow, |before| + 1)
            && s.avg.Some?
  {
  }

  /** Rating one item leaves the score of every item stored under another
      key unchanged. */
  lemma ScoreOfOthersKept(store: Store, c: Card, d: Card, conf: int, now: int)
    requires PushHist(store, c.src, HistoryId(c), conf, now).Some?
    requires Key(d.src, HistoryId(d)) != Key(c.src, HistoryId(c))
    ensures Score(PushHist(store, c.src, HistoryId(c), conf, now).value, d) == Score(store, d)
  {
    var after := PushHist(store, c.src, HistoryId(c), conf, now).value;
    var k := Key(d.src, HistoryId(d));
    assert k in after <==> k in store;
    assert Lookup(after, k) == Lookup(store, k);
  }

  /** The options of `pick`; `limit` is any integer, 0 meaning "no cut". */
  datatype PickOptions = PickOptions(needReview: bool, onlyLow: bool, limit: int, shuffle: bool)

  /** The options `mount` passes on when none are given: no review filter,
      ten items, shuffled. */
  const DefaultOptions := PickOptions(false, false, 10, true)

  /** The review test: `(avg ?? 0) < threshold || seen < 3`, with the stricter
      threshold when `onlyLow` is set. A missing average counts as 0. */
  predicate NeedsPractice(x: Scored, onlyLow: bool) {
    var avg := x.avg.GetOr(0.0);
    if onlyLow then avg < LowThreshold || x.seen < RareSeen
    else avg < ReviewThreshold || x.seen < RareSeen
  }

  /** The items the review filter keeps, in order. */
  function Kept(scored: seq<Scored>, onlyLow: bool): (r: seq<Scored>)
    ensures IsSubseq(r, scored)
    ensures forall x :: multiset(r)[x] == if NeedsPractice(x, onlyLow) then multiset(scored)[x] else 0
  {
    Filter(scored, x => NeedsPractice(x, onlyLow))
  }

  /** The items the review test rejects, in order. */
  function Rejected(scored: seq<Scored>, onlyLow: bool): (r: seq<Scored>)
    ensures IsSubseq(r, scored)
    ensures forall x :: multiset(r)[x] == if NeedsPractice(x, onlyLow) then 0 else multiset(scored)[x]
  {
    Filter(scored, x => !NeedsPractice(x, onlyLow))
  }

  /** The padding: the items of `scored` not already in `pool`, in order. */
  function Backfill(scored: seq<Scored>, pool: seq<Scored>): (r: seq<Scored>)
    ensures forall x :: multiset(r)[x] == if x in pool then 0 else multiset(scored)[x]
  {
    Filter(scored, x => x !in pool)
  }

  /** The pool `pick` shuffles and cuts: every item when no review flag is set;
      otherwise the kept items, followed by all the others when fewer than
      `max(5, limit)` were kept. */
  function Candidates(scored: seq<Scored>, opts: PickOptions): (pool: seq<Scored>)
    ensures !opts.needReview && !opts.onlyLow ==> pool == scored
    ensures opts.needReview || opts.onlyLow ==>
              var kept := Kept(scored, opts.onlyLow);
              && |kept| <= |pool|
              && pool[..|kept|] == kept
              && (|kept| < Max(MinSession, opts.limit) ==> multiset(pool) == multiset(scored))
              && (|kept| < Max(MinSession, opts.limit) ==> pool == kept + Rejected(scored, opts.onlyLow))
              && (|kept| >= Max(MinSession, opts.limit) ==> pool == kept)
    ensures multiset(pool) <= multiset(scored)
    ensures |pool| >= Min(|scored|, Max(MinSession, opts.limit))
  {
    if !opts.needReview && !opts.onlyLow then scored
    else
      var kept := Kept(scored, opts.onlyLow);
      if |kept| < Max(MinSession, opts.limit) then
        var pool := kept + Backfill(scored, kept);
        assert multiset(pool) == multiset(scored) by {
          BackfillCompletes(scored, opts.onlyLow);
        }
        BackfillIsRejected(scored, opts.onlyLow);
        assert |pool| == |multiset(pool)|;
        assert pool[..|kept|] == kept;
        pool
      else
        assert multiset(kept) <= multiset(scored);
        kept
  }

  /** The kept items and the padding together are the whole scored pool, each
      item exactly as often as it occurs: no item is lost or repeated. */
  lemma BackfillCompletes(scored: seq<Scored>, onlyLow: bool)
    ensures var kept := Kept(scored, onlyLow);
            multiset(kept + Backfill(scored, kept)) == multiset(scored)
  {
    var kept := Kept(scored, onlyLow);
    var pad := Backfill(scored, kept);
    forall x
      ensures multiset(kept + pad)[x] == multiset(scored)[x]
    {
      assert multiset(kept + pad)[x] == multiset(kept)[x] + multiset(pad)[x];
      if NeedsPractice(x, onlyLow) && x in scored {
        assert multiset(kept)[x] > 0;
      }
    }
  }

  /** Following the code, the padding found by identity (`!pool.includes(x)`)
      is exactly the items the review test rejects. */
  lemma BackfillIsRejected(scored: seq<Scored>, onlyLow: bool)
    ensures var kept := Kept(scored, onlyLow);
            Backfill(scored, kept) == Rejected(scored, onlyLow)
  {
    var kept := Kept(scored, onlyLow);
    forall i | 0 <= i < |scored|
      ensures (scored[i] !in kept) == !NeedsPractice(scored[i], onlyLow)
    {
      assert multiset(scored)[scored[i]] > 0;
    }
    FilterCongruent(scored, x => x !in kept, x => !NeedsPractice(x, onlyLow));
  }

  /** `onlyLow` takes precedence: with it set, `needReview` changes nothing. */
  lemma OnlyLowTakesPrecedence(scored: seq<Scored>, opts: PickOptions)
    requires opts.onlyLow
    ensures Candidates(scored, opts.(needReview := true)) == Candidates(scored, opts.(needReview := false))
  {
  }

  /** The `onlyLow` test is the stricter one: whatever it keeps, `needReview`
      keeps too. */
  lemma LowIsStricter(x: Scored)
    ensures NeedsPractice(x, true) ==> NeedsPractice(x, false)
  {
  }

  /** Items without history always pass either review test. */
  lemma UnratedAlwaysPasses(x: Scored, onlyLow: bool)
    requires x.seen == 0
    ensures NeedsPractice(x, onlyLow)
  {
  }

  /** A pool in which nothing has been rated passes any review filter whole. */
  lemma {:induction false} UnratedPoolUnfiltered(scored: seq<Scored>, opts: PickOptions)
    requires forall i :: 0 <= i < |scored| ==> scored[i].seen == 0
    ensures Candidates(scored, opts) == scored
  {
    if opts.needReview || opts.onlyLow {
      var kept := Kept(scored, opts.onlyLow);
      FilterAll(scored, x => NeedsPractice(x, opts.onlyLow));
      assert kept == scored;
      forall i | 0 <= i < |scored|
        ensures scored[i] in kept
      {
      }
      FilterNone(scored, x => x !in kept);
    }
  }

  /** The item rated 3, 3, 0 most recently has mean 2.0 and three ratings, so
      `needReview` rejects it (2.0 is not below 2.0); it can still come back
      through the padding. */
  lemma ThreeThreeZeroNotUnderReview(store: Store, c: Card, t0: int, t1: int, t2: int)
    requires Lookup(store, Key(c.src, HistoryId(c))) == Entries([Entry(t0, 3), Entry(t1, 3), Entry(t2, 0)])
    ensures Score(store, c).avg == Some(2.0) && Score(store, c).seen == 3
    ensures !NeedsPractice(Score(store, c), false)
  {
    var es := [Entry(t0, 3), Entry(t1, 3), Entry(t2, 0)];
    assert LastN(es, RecentWindow) == es;
    MeanOfThreeThreeZero(t0, t1, t2);
  }

  /** A fraction in [0, 1) of a positive count, rounded down, is an index
      below the count. */
  lemma ScaledIndex(r: real, m: nat)
    requires 0.0 <= r < 1.0 && m > 0
    ensures 0 <= (r * m as real).Floor < m
  {
    var n := m as real;
    assert n >= 1.0;
    assert n - r * n == (1.0 - r) * n;
    assert (1.0 - r) * n > 0.0;
    assert 0.0 <= r * n < n;
  }

  /** `Math.floor(Math.random() * (i + 1))` for a random value in [0, 1). */
  function RandomIndex(r: real, i: nat): (j: nat)
    requires 0.0 <= r < 1.0
    ensures j <= i
  {
    ScaledIndex(r, i + 1);
    (r * (i + 1) as real).Floor
  }

  /** `shuffle(a)`: Fisher–Yates from the back, swapping position i with a
      random position j <= i. The result holds the same elements, each as
      often as before. */
  method Shuffle<T>(a: seq<T>, rand: nat -> real) returns (b: seq<T>)
    requires forall k: nat :: 0.0 <= rand(k) < 1.0
    ensures |b| == |a|
    ensures multiset(b) == multiset(a)
  {
    b := a;
    var i := |b| - 1;
    var k: nat := 0;
    while i > 0
      invariant |b| == |a|
      invariant i < |b|
      invariant multiset(b) == multiset(a)
      decreases i
    {
      var j := RandomIndex(rand(k), i);
      b := b[i := b[j]][j := b[i]];
      i := i - 1;
      k := k + 1;
    }
  }

  /** Entries drawn from a list scoring `all`, position by position, score
      items of `all`. */
  lemma DrawnFromScored(pool: seq<Scored>, scored: seq<Scored>, all: seq<Card>)
    requires multiset(pool) <= multiset(scored)
    requires |scored| == |all| && forall i :: 0 <= i < |scored| ==> scored[i].card == all[i]
    ensures forall x :: x in pool ==> x.card in all
  {
    forall x | x in pool
      ensures x.card in all
    {
      assert multiset(pool)[x] > 0;
      var i :| 0 <= i < |scored| && scored[i] == x;
    }
  }

  /** Every pooled item is one of the input items, scored. */
  lemma PoolFromInput(store: Store, all: seq<Card>, opts: PickOptions)
    ensures forall x :: x in Candidates(ScoreAll(store, all), opts) ==> x.card in all
  {
    var scored := ScoreAll(store, all);
    assert forall i :: 0 <= i < |scored| ==> scored[i].card == all[i];
    DrawnFromScored(Candidates(scored, opts), scored, all);
  }

  /** `limit ? order.slice(0, limit) : order`: a prefix of `order`, of length
      `min(limit, |order|)` for a positive limit, counted back from the end for
      a negative one, and all of `order` for 0. */
  function Cut<T>(order: seq<T>, limit: int): (r: seq<T>)
    ensures |r| <= |order| && r == order[..|r|]
    ensures multiset(r) <= multiset(order)
    ensures limit == 0 ==> r == order
    ensures limit > 0 ==> |r| == Min(limit, |order|)
    ensures limit < 0 ==> |r| == Max(0, |order| + limit)
  {
    var r := if limit != 0 then SliceTo(order, limit) else order;
    assert order == r + order[|r|..];
    r
  }

  /** The shuffle-and-cut of `pick` applied to a given pool. */
  method ShuffleCut(pool: seq<Scored>, opts: PickOptions, rand: nat -> real) returns (r: seq<Scored>)
    requires forall k: nat :: 0.0 <= rand(k) < 1.0
    ensures multiset(r) <= multiset(pool)
    ensures opts.limit == 0 ==> multiset(r) == multiset(pool)
    ensures opts.limit > 0 ==> |r| == Min(opts.limit, |pool|)
    ensures opts.limit < 0 ==> |r| == Max(0, |pool| + opts.limit)
    ensures !opts.shuffle ==> |r| <= |pool| && r == pool[..|r|]
  {
    var order := pool;
    if opts.shuffle {
      order := Shuffle(pool, rand);
    }
    r := Cut(order, opts.limit);
  }

  /** `pick(all, opts)`: the pool, shuffled when asked, then its first `limit`
      items (the `slice(0, limit)` rules, a negative limit counting from the
      end); a limit of 0 is falsy and keeps the whole pool. */
  method Pick(all: seq<Card>, store: Store, opts: PickOptions, rand: nat -> real) returns (r: seq<Scored>)
    requires forall k: nat :: 0.0 <= rand(k) < 1.0
    ensures var pool := Candidates(ScoreAll(store, all), opts);
            && multiset(r) <= multiset(pool)
            && (opts.limit == 0 ==> multiset(r) == multiset(pool))
            && (opts.limit > 0 ==> |r| == Min(opts.limit, |pool|))
            && (opts.limit < 0 ==> |r| == Max(0, |pool| + opts.limit))
            && (!opts.shuffle ==> |r| <= |pool| && r == pool[..|r|])
    ensures forall x :: x in r ==> x.card in all
  {
    var pool := Candidates(ScoreAll(store, all), opts);
    r := ShuffleCut(pool, opts, rand);
    PoolFromInput(store, all, opts);
    forall x | x in r
      ensures x.card in all
    {
      assert multiset(r)[x] > 0;
    }
  }

  /** With `mount`'s defaults (no tags, no review filter, limit 10) the pool
      is every loaded item, scored, and the pick is ten of them, or all when
      there are fewer. */
  lemma DefaultMountPool(store: Store, cards: seq<Card>)
    ensures var pool := Candidates(ScoreAll(store, ByTags(cards, Some([]))), DefaultOptions);
            && pool == ScoreAll(store, cards)
            && |Cut(pool, DefaultOptions.limit)| == Min(10, |cards|)
  {
  }

  /** The source of each loaded pack, in load order. */
  function Sources(packs: seq<(string, Pack)>): (r: seq<string>)
    ensures |r| == |packs| && forall i :: 0 <= i < |packs| ==> r[i] == packs[i].0
  {
    seq(|packs|, i requires 0 <= i < |packs| => packs[i].0)
  }

  /** `mount`: the items of the loaded packs, filtered by the wanted tags and
      picked, with `pick`'s guarantees over the tag-filtered items; reports
      the sources used, in load order. */
  method Mount(packs: seq<(string, Pack)>, store: Store, wanted: seq<string>, opts: PickOptions, rand: nat -> real)
    returns (picked: seq<Scored>, used: seq<string>)
    requires forall k: nat :: 0.0 <= rand(k) < 1.0
    ensures |used| == |packs| && forall i :: 0 <= i < |packs| ==> used[i] == packs[i].0
    ensures forall x :: x in picked ==> x.card in AllCards(packs)
    ensures |wanted| > 0 ==> forall x :: x in picked ==> SharesTag(x.card, wanted)
    ensures opts.limit > 0 ==> |picked| <= opts.limit
    ensures var pool := Candidates(ScoreAll(store, ByTags(AllCards(packs), Some(wanted))), opts);
            && multiset(picked) <= multiset(pool)
            && (opts.limit == 0 ==> multiset(picked) == multiset(pool))
            && (opts.limit > 0 ==> |picked| == Min(opts.limit, |pool|))
            && (opts.limit < 0 ==> |picked| == Max(0, |pool| + opts.limit))
            && (!opts.shuffle ==> |picked| <= |pool| && picked == pool[..|picked|])
  {
    var pool := ByTags(AllCards(packs), Some(wanted));
    picked := Pick(pool, store, opts, rand);
    used := Sources(packs);
    forall x | x in picked
      ensures x.card in AllCards(packs) && (|wanted| > 0 ==> SharesTag(x.card, wanted))
    {
      ByTagsSound(AllCards(packs), wanted, x.card);
    }
  }
}
