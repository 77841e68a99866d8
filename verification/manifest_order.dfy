/** The two list steps of the manifest builder: `uniqByKey`, which keeps the
    first record for each key, and the sort by time stamp, newest first. The
    key falls back from `path` to `data` to the record's JSON text, and the
    time stamp is `Date.parse(updated) || 0`; `JSON.stringify` and
    `Date.parse` are parameters. */
module ManifestOrder {
  import opened JsValue
  import opened Seqs
  import opened Manifest

  // ----- de-duplication -----

  /** The keys of the elements of `s`. */
  function KeysOf<T(==,!new), K>(s: seq<T>, key: T -> K): set<K> {
    set x | x in s :: key(x)
  }

  predicate DistinctKeys<T(==,!new), K(==)>(s: seq<T>, key: T -> K) {
    forall i, j :: 0 <= i < j < |s| ==> key(s[i]) != key(s[j])
  }

  /** The filter with a `seen` set: each element whose key has not been seen
      is kept and its key remembered. */
  function UniqFrom<T(==,!new), K(==)>(s: seq<T>, key: T -> K, seen: set<K>): (r: seq<T>)
    ensures IsSubseq(r, s)
    ensures DistinctKeys(r, key)
    ensures forall i :: 0 <= i < |r| ==> key(r[i]) !in seen
    ensures KeysOf(r, key) == KeysOf(s, key) - seen
    decreases |s|
  {
    if |s| == 0 then []
    else
      var rest := UniqFrom(s[1..], key, seen + {key(s[0])});
      assert s == [s[0]] + s[1..];
      assert forall x :: x in s <==> x == s[0] || x in s[1..];
      assert KeysOf(s, key) == {key(s[0])} + KeysOf(s[1..], key);
      if key(s[0]) in seen then
        var r := UniqFrom(s[1..], key, seen);
        SubseqCons(r, s[1..], s[0]);
        r
      else
        var r := [s[0]] + rest;
        assert r[1..] == rest;
        assert forall x :: x in r <==> x == s[0] || x in rest;
        assert KeysOf(r, key) == {key(s[0])} + KeysOf(rest, key);
        r
  }

  /** `uniqByKey` with an arbitrary key: an order-preserving subsequence with
      one element per key, covering every key of the input. */
  function UniqBy<T(==,!new), K(==)>(s: seq<T>, key: T -> K): (r: seq<T>)
    ensures IsSubseq(r, s)
    ensures DistinctKeys(r, key)
    ensures KeysOf(r, key) == KeysOf(s, key)
  {
    UniqFrom(s, key, {})
  }

  /** The element at `j` is the first of its key. */
  predicate FirstOfKey<T(==,!new), K(==)>(s: seq<T>, key: T -> K, j: int)
    requires 0 <= j < |s|
  {
    forall k :: 0 <= k < j ==> key(s[k]) != key(s[j])
  }

  /** A reference definition of keeping first occurrences, built from the
      back: the last element stays exactly when no earlier one shares its key. */
  function FirstOccurrences<T(==,!new), K(==)>(s: seq<T>, key: T -> K): seq<T>
    decreases |s|
  {
    if |s| == 0 then []
    else
      var p := s[..|s| - 1];
      if FirstOfKey(s, key, |s| - 1) then FirstOccurrences(p, key) + [s[|s| - 1]]
      else FirstOccurrences(p, key)
  }

  /** Appending one element to the input appends it to the output exactly when
      its key is new. */
  lemma {:induction false} UniqFromSnoc<T(!new), K>(p: seq<T>, x: T, key: T -> K, seen: set<K>)
    ensures UniqFrom(p + [x], key, seen) ==
            UniqFrom(p, key, seen) + (if key(x) in seen || key(x) in KeysOf(p, key) then [] else [x])
    decreases |p|
  {
    var s := p + [x];
    if |p| == 0 {
      assert s == [x];
      assert s[1..] == [];
    } else {
      assert s[0] == p[0];
      assert s[1..] == p[1..] + [x];
      assert forall y :: y in p <==> y == p[0] || y in p[1..];
      if key(p[0]) in seen {
        UniqFromSnoc(p[1..], x, key, seen);
      } else {
        UniqFromSnoc(p[1..], x, key, seen + {key(p[0])});
      }
    }
  }

  /** `uniqByKey` keeps exactly the first element of each key, in order. */
  lemma {:induction false} UniqIsFirstOccurrences<T(!new), K>(s: seq<T>, key: T -> K)
    ensures UniqBy(s, key) == FirstOccurrences(s, key)
    decreases |s|
  {
    if |s| > 0 {
      var p := s[..|s| - 1];
      var x := s[|s| - 1];
      assert s == p + [x];
      UniqIsFirstOccurrences(p, key);
      UniqFromSnoc(p, x, key, {});
      assert FirstOfKey(s, key, |s| - 1) <==> key(x) !in KeysOf(p, key) by {
        if key(x) in KeysOf(p, key) {
          var y :| y in p && key(y) == key(x);
          var k :| 0 <= k < |p| && p[k] == y;
          assert s[k] == y;
        }
      }
    }
  }

  /** A sequence whose keys are already distinct is its own de-duplication. */
  lemma {:induction false} UniqOfDistinct<T(!new), K>(s: seq<T>, key: T -> K, seen: set<K>)
    requires DistinctKeys(s, key)
    requires forall i :: 0 <= i < |s| ==> key(s[i]) !in seen
    ensures UniqFrom(s, key, seen) == s
    decreases |s|
  {
    if |s| > 0 {
      assert forall i :: 0 < i < |s| ==> key(s[i]) != key(s[0]);
      UniqOfDistinct(s[1..], key, seen + {key(s[0])});
    }
  }

  /** De-duplicating twice is de-duplicating once. */
  lemma UniqIdempotent<T(!new), K>(s: seq<T>, key: T -> K)
    ensures UniqBy(UniqBy(s, key), key) == UniqBy(s, key)
  {
    UniqOfDistinct(UniqBy(s, key), key, {});
  }

  /** `x.path || x.data || JSON.stringify(x)`. */
  function ItemKey(serialize: Item -> string): Item -> string {
    (x: Item) => if x.path != "" then x.path
         else if x.data.Some? && x.data.value != "" then x.data.value
         else serialize(x)
  }

  /** Every record the builders make has a non-empty path, so its key is its
      path; two records with one path collapse into the first, whatever their
      `data`. */
  lemma SamePathCollapses(a: Item, b: Item, serialize: Item -> string)
    requires a.path != "" && a.path == b.path
    ensures UniqBy([a, b], ItemKey(serialize)) == [a]
  {
    var key := ItemKey(serialize);
    assert key(a) == key(b);
    assert [a, b][1..] == [b];
    assert [b][1..] == [];
    assert UniqFrom([b], key, {key(a)}) == [];
    assert UniqFrom([a, b], key, {}) == [a] + UniqFrom([b], key, {key(a)});
  }

  /** The path decides the key only when it is non-empty: records without a
      path are told apart by their data URL. */
  lemma PathlessKeyIsData(a: Item, serialize: Item -> string)
    requires a.path == "" && a.data.Some? && a.data.value != ""
    ensures ItemKey(serialize)(a) == a.data.value
  {
  }

  // ----- sort by time stamp, newest first -----

  /** Non-increasing by `stamp`. */
  predicate SortedDesc<T(!new)>(s: seq<T>, stamp: T -> int) {
    forall i, j :: 0 <= i < j < |s| ==> stamp(s[i]) >= stamp(s[j])
  }

  /** Puts `x` after every element whose stamp is at least its own. */
  function Insert<T(!new)>(x: T, s: seq<T>, stamp: T -> int): (r: seq<T>)
    requires SortedDesc(s, stamp)
    ensures SortedDesc(r, stamp)
    ensures multiset(r) == multiset(s) + multiset{x}
    ensures |r| == |s| + 1
    ensures r[0] == x || (|s| > 0 && r[0] == s[0])
    decreases |s|
  {
    if |s| == 0 then [x]
    else if stamp(s[0]) >= stamp(x) then
      var rest := Insert(x, s[1..], stamp);
      assert s == [s[0]] + s[1..];
      SortedCons(s[0], rest, stamp);
      [s[0]] + rest
    else
      SortedCons(x, s, stamp);
      [x] + s
  }

  /** An element at least as new as the head of a sorted sequence can go in
      front of it. */
  lemma SortedCons<T(!new)>(h: T, s: seq<T>, stamp: T -> int)
    requires SortedDesc(s, stamp)
    requires |s| == 0 || stamp(h) >= stamp(s[0])
    ensures SortedDesc([h] + s, stamp)
  {
    var r := [h] + s;
    forall i, j | 0 <= i < j < |r|
      ensures stamp(r[i]) >= stamp(r[j])
    {
      if i == 0 {
        assert r[j] == s[j - 1];
        assert j - 1 == 0 || stamp(s[0]) >= stamp(s[j - 1]);
      } else {
        assert r[i] == s[i - 1] && r[j] == s[j - 1];
      }
    }
  }

  /** The comparator sort `(a, b) => key(b) - key(a)`: newest first, and
      (the sort being stable) records with equal stamps in input order. */
  function SortByStamp<T(!new)>(s: seq<T>, stamp: T -> int): (r: seq<T>)
    ensures SortedDesc(r, stamp)
    ensures multiset(r) == multiset(s)
    ensures |r| == |s|
    decreases |s|
  {
    if |s| == 0 then []
    else
      assert s == s[..|s| - 1] + [s[|s| - 1]];
      Insert(s[|s| - 1], SortByStamp(s[..|s| - 1], stamp), stamp)
  }

  /** The elements of `s` with stamp `v`, in order. */
  function WithStamp<T(!new)>(s: seq<T>, stamp: T -> int, v: int): seq<T>
    decreases |s|
  {
    if |s| == 0 then []
    else (if stamp(s[0]) == v then [s[0]] else []) + WithStamp(s[1..], stamp, v)
  }

  /** No element of `s` has stamp `v`. */
  lemma {:induction false} WithStampNone<T(!new)>(s: seq<T>, stamp: T -> int, v: int)
    requires forall i :: 0 <= i < |s| ==> stamp(s[i]) != v
    ensures WithStamp(s, stamp, v) == []
    decreases |s|
  {
    if |s| > 0 {
      WithStampNone(s[1..], stamp, v);
    }
  }

  /** Selecting by stamp distributes over appending one element. */
  lemma {:induction false} WithStampSnoc<T(!new)>(p: seq<T>, x: T, stamp: T -> int, v: int)
    ensures WithStamp(p + [x], stamp, v) == WithStamp(p, stamp, v) + (if stamp(x) == v then [x] else [])
    decreases |p|
  {
    if |p| > 0 {
      assert (p + [x])[0] == p[0] && (p + [x])[1..] == p[1..] + [x];
      WithStampSnoc(p[1..], x, stamp, v);
    } else {
      assert ([x])[1..] == [];
    }
  }

  /** Inserting `x` into a sorted sequence puts it after every element with
      the same stamp. */
  lemma {:induction false} InsertStable<T(!new)>(x: T, s: seq<T>, stamp: T -> int, v: int)
    requires SortedDesc(s, stamp)
    ensures WithStamp(Insert(x, s, stamp), stamp, v) ==
            WithStamp(s, stamp, v) + (if stamp(x) == v then [x] else [])
    decreases |s|
  {
    if |s| == 0 {
      assert Insert(x, s, stamp) == [x] && [x][1..] == [];
    } else if stamp(s[0]) >= stamp(x) {
      InsertStable(x, s[1..], stamp, v);
      InsertBehind(x, s, stamp, v);
    } else {
      InsertInFront(x, s, stamp, v);
    }
  }

  /** The step of `InsertStable` where `x` goes behind the head. */
  lemma InsertBehind<T(!new)>(x: T, s: seq<T>, stamp: T -> int, v: int)
    requires SortedDesc(s, stamp) && |s| > 0 && stamp(s[0]) >= stamp(x)
    requires WithStamp(Insert(x, s[1..], stamp), stamp, v) ==
             WithStamp(s[1..], stamp, v) + (if stamp(x) == v then [x] else [])
    ensures WithStamp(Insert(x, s, stamp), stamp, v) ==
            WithStamp(s, stamp, v) + (if stamp(x) == v then [x] else [])
  {
    var rest := Insert(x, s[1..], stamp);
    var r := [s[0]] + rest;
    assert Insert(x, s, stamp) == r;
    assert r[0] == s[0] && r[1..] == rest;
    var head := if stamp(s[0]) == v then [s[0]] else [];
    var tail := WithStamp(s[1..], stamp, v);
    var last := if stamp(x) == v then [x] else [];
    assert WithStamp(r, stamp, v) == head + (tail + last);
    assert WithStamp(s, stamp, v) == head + tail;
    ConcatAssoc(head, tail, last);
  }

  lemma ConcatAssoc<T>(a: seq<T>, b: seq<T>, c: seq<T>)
    ensures a + (b + c) == (a + b) + c
  {
  }

  /** The step of `InsertStable` where `x` goes in front. */
  lemma InsertInFront<T(!new)>(x: T, s: seq<T>, stamp: T -> int, v: int)
    requires SortedDesc(s, stamp) && |s| > 0 && stamp(s[0]) < stamp(x)
    ensures WithStamp(Insert(x, s, stamp), stamp, v) ==
            WithStamp(s, stamp, v) + (if stamp(x) == v then [x] else [])
  {
    var r := [x] + s;
    assert Insert(x, s, stamp) == r;
    assert r[0] == x && r[1..] == s;
    if stamp(x) == v {
      forall i | 0 <= i < |s|
        ensures stamp(s[i]) != v
      {
        assert i == 0 || stamp(s[0]) >= stamp(s[i]);
      }
      WithStampNone(s, stamp, v);
    }
  }

  /** The sort is stable: the records sharing any one stamp keep their input
      order. */
  lemma {:induction false} SortStable<T(!new)>(s: seq<T>, stamp: T -> int, v: int)
    ensures WithStamp(SortByStamp(s, stamp), stamp, v) == WithStamp(s, stamp, v)
    decreases |s|
  {
    if |s| > 0 {
      var p := s[..|s| - 1];
      var x := s[|s| - 1];
      assert s == p + [x];
      SortStable(p, stamp, v);
      InsertStable(x, SortByStamp(p, stamp), stamp, v);
      WithStampSnoc(p, x, stamp, v);
    }
  }

  /** A sequence already in order is left as it is. */
  lemma {:induction false} SortSorted<T(!new)>(s: seq<T>, stamp: T -> int)
    requires forall i, j :: 0 <= i < j < |s| ==> stamp(s[i]) > stamp(s[j])
    ensures SortByStamp(s, stamp) == s
    decreases |s|
  {
    if |s| > 0 {
      var p := s[..|s| - 1];
      SortSorted(p, stamp);
      InsertLast(s[|s| - 1], p, stamp);
      assert s == p + [s[|s| - 1]];
    }
  }

  /** An element older than everything in a sorted sequence goes last. */
  lemma {:induction false} InsertLast<T(!new)>(x: T, s: seq<T>, stamp: T -> int)
    requires SortedDesc(s, stamp)
    requires forall i :: 0 <= i < |s| ==> stamp(s[i]) > stamp(x)
    ensures Insert(x, s, stamp) == s + [x]
    decreases |s|
  {
    if |s| > 0 {
      InsertLast(x, s[1..], stamp);
      assert s == [s[0]] + s[1..];
    }
  }

  /** `Date.parse(x.updated || '') || 0`: an unparseable stamp (`NaN`) counts
      as 0. */
  function Stamp(parse: string -> Option<int>): Item -> int {
    (x: Item) => parse(x.updated).GetOr(0)
  }

  /** The manifest of one subject: the records of every file, de-duplicated
      by key, newest first, records with equal stamps in their first-kept
      order. */
  function BuildManifest(subj: Subject, markers: seq<DataFile>, maps: seq<DataFile>, noimgs: seq<DataFile>,
                         pages: seq<HtmlFile>, encode: Json -> string, serialize: Item -> string,
                         parse: string -> Option<int>): (r: seq<Item>)
    ensures SortedDesc(r, Stamp(parse))
    ensures multiset(r) == multiset(UniqBy(SubjectItems(subj, markers, maps, noimgs, pages, encode), ItemKey(serialize)))
    ensures DistinctKeys(r, ItemKey(serialize))
    ensures forall x :: x in r ==> x in SubjectItems(subj, markers, maps, noimgs, pages, encode)
    ensures forall v :: WithStamp(r, Stamp(parse), v) ==
              WithStamp(UniqBy(SubjectItems(subj, markers, maps, noimgs, pages, encode), ItemKey(serialize)), Stamp(parse), v)
  {
    var all := SubjectItems(subj, markers, maps, noimgs, pages, encode);
    var uniq := UniqBy(all, ItemKey(serialize));
    var r := SortByStamp(uniq, Stamp(parse));
    SubseqMembers(uniq, all);
    PermutationKeepsDistinctKeys(uniq, r, ItemKey(serialize));
    forall v
      ensures WithStamp(r, Stamp(parse), v) == WithStamp(uniq, Stamp(parse), v)
    {
      SortStable(uniq, Stamp(parse), v);
    }
    forall x | x in r
      ensures x in all
    {
      assert x in multiset(r);
    }
    r
  }

  /** Every element of a subsequence is an element of the whole. */
  lemma {:induction false} SubseqMembers<T(!new)>(a: seq<T>, b: seq<T>)
    requires IsSubseq(a, b)
    ensures forall x :: x in a ==> x in b
    decreases |b|
  {
    if |a| > 0 && |b| > 0 {
      assert forall x :: x in a <==> x == a[0] || x in a[1..];
      assert forall x :: x in b <==> x == b[0] || x in b[1..];
      if a[0] == b[0] {
        SubseqMembers(a[1..], b[1..]);
      } else {
        SubseqMembers(a, b[1..]);
      }
    }
  }

  /** Reordering a sequence with distinct keys keeps them distinct. */
  lemma PermutationKeepsDistinctKeys<T(!new), K>(a: seq<T>, b: seq<T>, key: T -> K)
    requires DistinctKeys(a, key) && multiset(a) == multiset(b)
    ensures DistinctKeys(b, key)
  {
    forall i, j | 0 <= i < j < |b|
      ensures key(b[i]) != key(b[j])
    {
      if key(b[i]) == key(b[j]) {
        assert b[i] in multiset(a) && b[j] in multiset(a);
        var i' :| 0 <= i' < |a| && a[i'] == b[i];
        var j' :| 0 <= j' < |a| && a[j'] == b[j];
        if i' == j' {
          assert b[i] == b[j];
          assert multiset(b)[b[i]] >= 2 by {
            assert b == b[..j] + b[j..];
            assert multiset(b) == multiset(b[..j]) + multiset(b[j..]);
            assert b[i] in b[..j];
            assert b[j] in b[j..];
          }
          DistinctKeysOccurOnce(a, key, i');
          assert false;
        }
      }
    }
  }

  /** In a sequence with distinct keys every element occurs once. */
  lemma DistinctKeysOccurOnce<T(!new), K>(a: seq<T>, key: T -> K, i: int)
    requires DistinctKeys(a, key) && 0 <= i < |a|
    ensures multiset(a)[a[i]] == 1
  {
    assert a == a[..i] + [a[i]] + a[i + 1..];
    assert a[i] !in a[..i] by {
      forall k | 0 <= k < i
        ensures a[k] != a[i]
      {
        assert key(a[k]) != key(a[i]);
      }
    }
    assert a[i] !in a[i + 1..] by {
      forall k | i + 1 <= k < |a|
        ensures a[k] != a[i]
      {
        assert key(a[k]) != key(a[i]);
      }
    }
  }
}
