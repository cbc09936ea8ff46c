/** The merge of `saveDataToStorage`: newly captured records are upserted by
    id into the stored list, which is then ordered newest capture first.
    The upsert looks at a record's id only, so it is stated for any record
    type together with the function reading its id. */
module Merge {
  import opened JsValue
  import opened Sorting
  import opened Normalize

  type IdOf<!R> = R -> string

  function IdSet<R>(s: seq<R>, id: IdOf<R>): set<string>
  {
    set k | 0 <= k < |s| :: id(s[k])
  }

  /** No two records share an id. */
  predicate UniqueIds<R>(s: seq<R>, id: IdOf<R>)
  {
    forall i, j :: 0 <= i < j < |s| ==> id(s[i]) != id(s[j])
  }

  lemma IdSetAppend<R>(s: seq<R>, r: R, id: IdOf<R>)
    ensures IdSet(s + [r], id) == IdSet(s, id) + {id(r)}
  {
    var t := s + [r];
    assert forall k :: 0 <= k < |s| ==> t[k] == s[k];
    assert id(t[|s|]) in IdSet(t, id);
  }

  /** With unique ids there are exactly as many ids as records. */
  lemma {:induction false} UniqueIdsCount<R>(s: seq<R>, id: IdOf<R>)
    requires UniqueIds(s, id)
    ensures |IdSet(s, id)| == |s|
    decreases |s|
  {
    if |s| > 0 {
      var init := s[..|s| - 1];
      assert s == init + [s[|s| - 1]];
      IdSetAppend(init, s[|s| - 1], id);
      assert UniqueIds(init, id);
      UniqueIdsCount(init, id);
      assert id(s[|s| - 1]) !in IdSet(init, id);
    } else {
      assert IdSet(s, id) == {};
    }
  }

  /** `findIndex(item => item.id === key)` */
  function FindIndex<R>(s: seq<R>, id: IdOf<R>, key: string): (r: Option<nat>)
    ensures r.None? <==> key !in IdSet(s, id)
    ensures r.Some? ==> r.value < |s| && id(s[r.value]) == key
    ensures r.Some? ==> forall k :: 0 <= k < r.value ==> id(s[k]) != key
  {
    if |s| == 0 then None
    else if id(s[0]) == key then Some(0)
    else
      match FindIndex(s[1..], id, key)
      case None =>
        assert forall k :: 1 <= k < |s| ==> s[k] == s[1..][k - 1];
        None
      case Some(i) => Some(i + 1)
  }

  /** One step of the `forEach`: the first record with the same id is
      replaced in place, or the record is appended. */
  function Upsert<R>(s: seq<R>, r: R, id: IdOf<R>): seq<R>
  {
    match FindIndex(s, id, id(r))
    case None => s + [r]
    case Some(i) => s[i := r]
  }

  /** What one upsert does: the new record is there, its id joins the ids,
      the length grows only for a new id, every record with another id
      stays at its own position, a known id is replaced where its first
      record stood and nowhere else, nothing but the new record appears, and
      unique ids stay unique. */
  lemma UpsertFacts<R>(s: seq<R>, r: R, id: IdOf<R>)
    ensures var t := Upsert(s, r, id);
            && r in t
            && IdSet(t, id) == IdSet(s, id) + {id(r)}
            && (id(r) in IdSet(s, id) ==> |t| == |s|)
            && (id(r) !in IdSet(s, id) ==> t == s + [r])
            && (forall k :: 0 <= k < |s| && id(s[k]) != id(r) ==> t[k] == s[k])
            && (id(r) in IdSet(s, id) ==>
                  var i := FindIndex(s, id, id(r)).value;
                  t[i] == r && forall k :: 0 <= k < |s| && k != i ==> t[k] == s[k])
            && (forall y :: y in s && id(y) != id(r) ==> y in t)
            && (forall y :: y in t ==> y in s || y == r)
            && (UniqueIds(s, id) ==> UniqueIds(t, id))
  {
    UpsertPositions(s, r, id);
    UpsertContents(s, r, id);
  }

  lemma UpsertPositions<R>(s: seq<R>, r: R, id: IdOf<R>)
    ensures var t := Upsert(s, r, id);
            && (forall k :: 0 <= k < |s| && id(s[k]) != id(r) ==> t[k] == s[k])
            && (id(r) in IdSet(s, id) ==>
                  var i := FindIndex(s, id, id(r)).value;
                  t[i] == r && forall k :: 0 <= k < |s| && k != i ==> t[k] == s[k])
  {
    match FindIndex(s, id, id(r))
    case None =>
      assert forall k :: 0 <= k < |s| ==> (s + [r])[k] == s[k];
    case Some(i) =>
  }

  lemma UpsertContents<R>(s: seq<R>, r: R, id: IdOf<R>)
    ensures var t := Upsert(s, r, id);
            && r in t
            && IdSet(t, id) == IdSet(s, id) + {id(r)}
            && (id(r) in IdSet(s, id) ==> |t| == |s|)
            && (id(r) !in IdSet(s, id) ==> t == s + [r])
            && (forall y :: y in s && id(y) != id(r) ==> y in t)
            && (forall y :: y in t ==> y in s || y == r)
            && (UniqueIds(s, id) ==> UniqueIds(t, id))
  {
    var t := Upsert(s, r, id);
    match FindIndex(s, id, id(r))
    case None =>
      IdSetAppend(s, r, id);
      assert t[|s|] == r;
    case Some(i) =>
      assert t[i] == r;
      assert forall k :: 0 <= k < |s| && k != i ==> t[k] == s[k];
      assert forall k :: 0 <= k < |s| ==> id(t[k]) == id(s[k]);
      assert IdSet(t, id) == IdSet(s, id);
  }

  /** An upsert adds the new record's id to the ids. */
  lemma UpsertIds<R>(s: seq<R>, r: R, id: IdOf<R>)
    ensures IdSet(Upsert(s, r, id), id) == IdSet(s, id) + {id(r)}
  {
    UpsertContents(s, r, id);
  }

  /** Upserting a record a second time changes nothing. */
  lemma UpsertIdempotent<R>(s: seq<R>, r: R, id: IdOf<R>)
    ensures Upsert(Upsert(s, r, id), r, id) == Upsert(s, r, id)
  {
    var t := Upsert(s, r, id);
    UpsertContents(s, r, id);
    match FindIndex(s, id, id(r))
    case None =>
      assert forall k :: 0 <= k < |s| ==> t[k] == s[k];
      assert FindIndex(t, id, id(r)) == Some(|s|);
    case Some(j) =>
      assert t == s[j := r];
      assert forall k :: 0 <= k < j ==> t[k] == s[k] && id(t[k]) != id(r);
      assert id(t[j]) == id(r);
      var i := FindIndex(t, id, id(r)).value;
      assert i <= j;
      assert FindIndex(t, id, id(r)) == Some(j);
  }

  /** The whole `forEach` over the new records, in order. */
  function UpsertAll<R>(s: seq<R>, d: seq<R>, id: IdOf<R>): seq<R>
    decreases |d|
  {
    if |d| == 0 then s else Upsert(UpsertAll(s, d[..|d| - 1], id), d[|d| - 1], id)
  }

  /** The last of the new records carrying `key`. */
  function LastWith<R>(d: seq<R>, id: IdOf<R>, key: string): (r: R)
    requires key in IdSet(d, id)
    ensures r in d && id(r) == key
  {
    var n := |d| - 1;
    if id(d[n]) == key then d[n]
    else
      assert d == d[..n] + [d[n]];
      IdSetAppend(d[..n], d[n], id);
      LastWith(d[..n], id, key)
  }

  /** The ids after the batch are the ids before plus the ids of the batch. */
  lemma {:induction false} UpsertAllIds<R>(s: seq<R>, d: seq<R>, id: IdOf<R>)
    ensures IdSet(UpsertAll(s, d, id), id) == IdSet(s, id) + IdSet(d, id)
    decreases |d|
  {
    if |d| == 0 {
      assert IdSet(d, id) == {};
    } else {
      var n := |d| - 1;
      var u := UpsertAll(s, d[..n], id);
      assert UpsertAll(s, d, id) == Upsert(u, d[n], id);
      var before := IdSet(u, id);
      var init := IdSet(d[..n], id);
      UpsertAllIds(s, d[..n], id);
      assert before == IdSet(s, id) + init;
      UpsertIds(u, d[n], id);
      assert IdSet(d, id) == init + {id(d[n])} by {
        assert d == d[..n] + [d[n]];
        IdSetAppend(d[..n], d[n], id);
      }
    }
  }

  /** Nothing but stored and new records appears, and unique ids stay
      unique. */
  lemma {:induction false} UpsertAllFrom<R>(s: seq<R>, d: seq<R>, id: IdOf<R>)
    ensures forall y :: y in UpsertAll(s, d, id) ==> y in s || y in d
    ensures UniqueIds(s, id) ==> UniqueIds(UpsertAll(s, d, id), id)
    decreases |d|
  {
    if |d| > 0 {
      var n := |d| - 1;
      var u := UpsertAll(s, d[..n], id);
      UpsertAllFrom(s, d[..n], id);
      UpsertContents(u, d[n], id);
      forall y | y in UpsertAll(s, d, id)
        ensures y in s || y in d
      {
        if y != d[n] {
          assert y in u;
          assert y in d[..n] ==> y in d;
        }
      }
    }
  }

  /** The last record of the batch for each of its ids is stored, and a
      stored record whose id is not in the batch stays. */
  lemma {:induction false} UpsertAllKeeps<R>(s: seq<R>, d: seq<R>, id: IdOf<R>)
    ensures var t := UpsertAll(s, d, id);
            && (forall x :: x in IdSet(d, id) ==> LastWith(d, id, x) in t)
            && (forall y :: y in s && id(y) !in IdSet(d, id) ==> y in t)
    decreases |d|
  {
    if |d| > 0 {
      var n := |d| - 1;
      var init := d[..n];
      var last := d[n];
      var u := UpsertAll(s, init, id);
      UpsertAllKeeps(s, init, id);
      UpsertContents(u, last, id);
      assert d == init + [last];
      IdSetAppend(init, last, id);
      forall x | x in IdSet(d, id)
        ensures LastWith(d, id, x) in UpsertAll(s, d, id)
      {
        if id(last) != x {
          assert x in IdSet(init, id);
          assert LastWith(d, id, x) == LastWith(init, id, x);
        }
      }
    }
  }

  /** The whole batch: the ids are the union, the latest capture of each new
      id is stored, stored records with other ids stay, nothing else
      appears, and unique ids stay unique. */
  lemma UpsertAllFacts<R>(s: seq<R>, d: seq<R>, id: IdOf<R>)
    ensures var t := UpsertAll(s, d, id);
            && IdSet(t, id) == IdSet(s, id) + IdSet(d, id)
            && (forall x :: x in IdSet(d, id) ==> LastWith(d, id, x) in t)
            && (forall y :: y in s && id(y) !in IdSet(d, id) ==> y in t)
            && (forall y :: y in t ==> y in s || y in d)
            && (UniqueIds(s, id) ==> UniqueIds(t, id))
  {
    UpsertAllIds(s, d, id);
    UpsertAllFrom(s, d, id);
    UpsertAllKeeps(s, d, id);
  }

  // -----------------------------------------------------------------------
  // The merge of the stored records

  function StoredId(r: ArticleRecord): string
  {
    r.id
  }

  /** The capture time in milliseconds (`new Date(captureTime)`), supplied
      by the host. */
  type DateParse = string -> real

  function CaptureKey(date: DateParse): ArticleRecord -> real
  {
    (r: ArticleRecord) => date(r.captureTime)
  }

  /** `mergedData` after the upserts and the newest-first sort. */
  function MergeRecords(existing: seq<ArticleRecord>, incoming: seq<ArticleRecord>, date: DateParse): (r: seq<ArticleRecord>)
    ensures SortedBy(r, Desc(CaptureKey(date)))
    ensures multiset(r) == multiset(UpsertAll(existing, incoming, StoredId))
  {
    SortBy(UpsertAll(existing, incoming, StoredId), Desc(CaptureKey(date)))
  }

  /** Records captured at the same time keep the order the upserts left
      them in: the stable sort only moves records with different times. */
  lemma MergeKeepsUpsertOrderAmongEqualTimes(existing: seq<ArticleRecord>, incoming: seq<ArticleRecord>,
                                             date: DateParse, v: real)
    ensures WithKey(MergeRecords(existing, incoming, date), Desc(CaptureKey(date)), v)
            == WithKey(UpsertAll(existing, incoming, StoredId), Desc(CaptureKey(date)), v)
  {
    SortByStable(UpsertAll(existing, incoming, StoredId), Desc(CaptureKey(date)), v);
  }

  lemma {:induction false} IdSetBound<R>(s: seq<R>, id: IdOf<R>)
    ensures |IdSet(s, id)| <= |s|
    decreases |s|
  {
    if |s| > 0 {
      var n := |s| - 1;
      assert s == s[..n] + [s[n]];
      IdSetAppend(s[..n], s[n], id);
      IdSetBound(s[..n], id);
    } else {
      assert IdSet(s, id) == {};
    }
  }

  /** As many ids as records means the ids are unique. */
  lemma {:induction false} UniqueIdsFromCount<R>(s: seq<R>, id: IdOf<R>)
    requires |IdSet(s, id)| == |s|
    ensures UniqueIds(s, id)
    decreases |s|
  {
    if |s| > 0 {
      var n := |s| - 1;
      var init := s[..n];
      assert s == init + [s[n]];
      IdSetAppend(init, s[n], id);
      IdSetBound(init, id);
      assert id(s[n]) !in IdSet(init, id);
      assert |IdSet(init, id)| == |init|;
      UniqueIdsFromCount(init, id);
      assert forall k :: 0 <= k < n ==> s[k] == init[k] && id(s[k]) in IdSet(init, id);
    }
  }

  lemma SameElementsSameIds<R>(s: seq<R>, t: seq<R>, id: IdOf<R>)
    requires multiset(s) == multiset(t)
    ensures IdSet(s, id) == IdSet(t, id)
    ensures forall y :: y in s <==> y in t
    ensures UniqueIds(s, id) ==> UniqueIds(t, id)
  {
    assert forall y :: y in s <==> y in multiset(s);
    assert forall y :: y in t <==> y in multiset(t);
    forall x | x in IdSet(s, id)
      ensures x in IdSet(t, id)
    {
      var k :| 0 <= k < |s| && id(s[k]) == x;
      assert s[k] in t;
    }
    forall x | x in IdSet(t, id)
      ensures x in IdSet(s, id)
    {
      var k :| 0 <= k < |t| && id(t[k]) == x;
      assert t[k] in s;
    }
    if UniqueIds(s, id) {
      UniqueIdsCount(s, id);
      assert |s| == |t| by {
        assert |multiset(s)| == |s| && |multiset(t)| == |t|;
      }
      assert IdSet(s, id) == IdSet(t, id);
      assert |IdSet(t, id)| == |t|;
      UniqueIdsFromCount(t, id);
    }
  }

  /** The merge: the ids are those stored plus those captured; the latest
      capture of an id replaces the stored record; other stored records
      stay; nothing else appears; and unique ids stay unique. */
  lemma MergeIsUpsert(existing: seq<ArticleRecord>, incoming: seq<ArticleRecord>, date: DateParse)
    ensures var m := MergeRecords(existing, incoming, date);
            && IdSet(m, StoredId) == IdSet(existing, StoredId) + IdSet(incoming, StoredId)
            && (forall x :: x in IdSet(incoming, StoredId) ==> LastWith(incoming, StoredId, x) in m)
            && (forall y :: y in existing && y.id !in IdSet(incoming, StoredId) ==> y in m)
            && (forall y :: y in m ==> y in existing || y in incoming)
            && (UniqueIds(existing, StoredId) ==> UniqueIds(m, StoredId))
  {
    var u := UpsertAll(existing, incoming, StoredId);
    var m := MergeRecords(existing, incoming, date);
    UpsertAllFacts(existing, incoming, StoredId);
    SameElementsSameIds(u, m, StoredId);
  }

  /** Merging the same batch twice stores the same ids as merging it once. */
  lemma MergeTwiceSameIds(existing: seq<ArticleRecord>, incoming: seq<ArticleRecord>, date: DateParse)
    ensures IdSet(MergeRecords(MergeRecords(existing, incoming, date), incoming, date), StoredId)
            == IdSet(MergeRecords(existing, incoming, date), StoredId)
  {
    MergeIsUpsert(existing, incoming, date);
    MergeIsUpsert(MergeRecords(existing, incoming, date), incoming, date);
  }
}
