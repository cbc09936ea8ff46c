/** The background script's store of captured snapshots: each snapshot is
    kept under its own key, and the key `dataIndex` holds the list of index
    entries describing them (`getStoredData`, `updateDataIndex`,
    `cleanupOldData`, `clearStoredData`, `getSettings`). */
module Snapshots {
  import opened JsValue
  import opened Sorting

  const IndexKey := "dataIndex"
  const SettingsKey := "settings"
  const DefaultLimit := 10
  const DefaultOffset := 0
  const DefaultMaxItems := 100

  /** One entry of the index; `kind` is the entry's `type`. */
  datatype IndexEntry = IndexEntry(id: string, saveTime: Js, size: Js, url: Js, kind: Js)

  /** What a key of the extension's local storage holds. */
  datatype Stored =
    | IndexList(entries: seq<IndexEntry>)
    | Snapshot(data: Js, metadata: Js)
    | Value(v: Js)

  /** An array under `dataIndex` is the list of its entries, so it is held
      as an `IndexList` and never as a plain value. */
  predicate IndexIsList(m: map<string, Stored>)
  {
    IndexKey in m && m[IndexKey].Value? ==> !m[IndexKey].v.Arr?
  }

  type Storage = m: map<string, Stored> | IndexIsList(m) witness map[]

  /** `(await chrome.storage.local.get('dataIndex')).dataIndex || []`, as
      the list the callers go on to use: a truthy stored value that is not
      a list has no `sort`, `push` or `map`, so the next list operation
      throws. */
  function ReadIndex(st: Storage): (r: Result<seq<IndexEntry>>)
    ensures IndexKey !in st ==> r == Ok([])
    ensures IndexKey in st && st[IndexKey].IndexList? ==> r == Ok(st[IndexKey].entries)
    ensures r.Err? <==> IndexKey in st && !st[IndexKey].IndexList? && (st[IndexKey].Value? ==> Truthy(st[IndexKey].v))
    ensures IndexKey in st && st[IndexKey].Value? && !Truthy(st[IndexKey].v) ==> r == Ok([])
  {
    if IndexKey !in st then Ok([])
    else
      match st[IndexKey]
      case IndexList(es) => Ok(es)
      case Snapshot(_, _) => Err(TypeError)
      case Value(v) => if Truthy(v) then Err(TypeError) else Ok([])
  }

  /** `new Date(saveTime)` in milliseconds, supplied by the host. */
  type DateParse = Js -> real

  function SaveKey(date: DateParse): IndexEntry -> real
  {
    (e: IndexEntry) => date(e.saveTime)
  }

  // -----------------------------------------------------------------------
  // getStoredData

  /** The options of `getStoredData`; `None` is an option left out. */
  datatype Options = Options(limit: Option<int>, offset: Option<int>, sortBy: Option<string>)

  function OrDefault<T>(o: Option<T>, d: T): T
  {
    if o.Some? then o.value else d
  }

  /** The index in the order `getStoredData` sorts it: newest save first
      for `saveTime`; any other choice compares every pair as equal. */
  function SortedIndex(index: seq<IndexEntry>, sortBy: string, date: DateParse): (r: seq<IndexEntry>)
    ensures multiset(r) == multiset(index) && |r| == |index|
    ensures sortBy == "saveTime" ==> forall i, j :: 0 <= i < j < |r| ==> date(r[j].saveTime) <= date(r[i].saveTime)
  {
    var key := if sortBy == "saveTime" then Desc(SaveKey(date)) else (e: IndexEntry) => 0.0;
    var r := SortBy(index, key);
    assert forall i, j :: 0 <= i < j < |r| ==> key(r[i]) <= key(r[j]);
    r
  }

  /** A comparator that finds every pair equal leaves the index as it is. */
  lemma OtherSortKeepsOrder(index: seq<IndexEntry>, sortBy: string, date: DateParse)
    requires sortBy != "saveTime"
    ensures SortedIndex(index, sortBy, date) == index
  {
    SortBySorted(index, (e: IndexEntry) => 0.0);
  }

  /** A snapshot returned with its index entry. */
  datatype StoredItem = StoredItem(entry: IndexEntry, data: Js, fullMetadata: Js)

  datatype StoredPage = StoredPage(items: seq<StoredItem>, total: nat, hasMore: bool)

  /** `storedData[id] ? {...}` : the key holds something truthy. */
  predicate Present(st: Storage, id: string)
  {
    id in st && (st[id].Value? ==> Truthy(st[id].v))
  }

  function ItemOf(st: Storage, e: IndexEntry): StoredItem
    requires Present(st, e.id)
  {
    match st[e.id]
    case Snapshot(d, m) => StoredItem(e, d, m)
    case IndexList(_) => StoredItem(e, Undef, Undef)
    case Value(v) => StoredItem(e, Field(v, "data"), Field(v, "metadata"))
  }

  /** The `map(...).filter(Boolean)` over the window: the entries whose
      snapshot is still stored, in window order, each with its snapshot's
      `data` and `metadata`. */
  function ItemsOf(st: Storage, window: seq<IndexEntry>): (items: seq<StoredItem>)
    ensures |items| <= |window|
    ensures forall k :: 0 <= k < |items| ==> items[k].entry in window && Present(st, items[k].entry.id)
    ensures forall k :: 0 <= k < |items| ==> Present(st, items[k].entry.id) && items[k] == ItemOf(st, items[k].entry)
    ensures forall e :: e in window && Present(st, e.id) ==> exists k :: 0 <= k < |items| && items[k].entry == e
  {
    if |window| == 0 then []
    else
      var rest := ItemsOf(st, window[1..]);
      if Present(st, window[0].id) then
        ItemsOfCons(st, window, rest);
        [ItemOf(st, window[0])] + rest
      else
        ItemsOfSkip(st, window, rest);
        rest
  }

  /** The step of `ItemsOf` that keeps the window's first entry. */
  lemma ItemsOfCons(st: Storage, window: seq<IndexEntry>, rest: seq<StoredItem>)
    requires |window| > 0 && Present(st, window[0].id)
    requires forall k :: 0 <= k < |rest| ==> rest[k].entry in window[1..] && Present(st, rest[k].entry.id)
    requires forall k :: 0 <= k < |rest| ==> Present(st, rest[k].entry.id) && rest[k] == ItemOf(st, rest[k].entry)
    requires forall e :: e in window[1..] && Present(st, e.id) ==> exists k :: 0 <= k < |rest| && rest[k].entry == e
    ensures var items := [ItemOf(st, window[0])] + rest;
            (forall k :: 0 <= k < |items| ==> items[k].entry in window && Present(st, items[k].entry.id)) &&
            (forall k :: 0 <= k < |items| ==> Present(st, items[k].entry.id) && items[k] == ItemOf(st, items[k].entry)) &&
            (forall e :: e in window && Present(st, e.id) ==> exists k :: 0 <= k < |items| && items[k].entry == e)
  {
    var items := [ItemOf(st, window[0])] + rest;
    forall k | 0 <= k < |items|
      ensures items[k].entry in window && Present(st, items[k].entry.id)
      ensures items[k] == ItemOf(st, items[k].entry)
    {
      if k > 0 {
        assert items[k] == rest[k - 1];
        assert rest[k - 1].entry in window[1..];
      }
    }
    forall e | e in window && Present(st, e.id)
      ensures exists k :: 0 <= k < |items| && items[k].entry == e
    {
      if e == window[0] {
        assert items[0].entry == e;
      } else {
        assert e in window[1..];
        var k :| 0 <= k < |rest| && rest[k].entry == e;
        assert items[k + 1].entry == e;
      }
    }
  }

  /** The step of `ItemsOf` that drops the window's first entry, whose
      snapshot is gone. */
  lemma ItemsOfSkip(st: Storage, window: seq<IndexEntry>, rest: seq<StoredItem>)
    requires |window| > 0 && !Present(st, window[0].id)
    requires forall k :: 0 <= k < |rest| ==> rest[k].entry in window[1..]
    requires forall e :: e in window[1..] && Present(st, e.id) ==> exists k :: 0 <= k < |rest| && rest[k].entry == e
    ensures forall k :: 0 <= k < |rest| ==> rest[k].entry in window
    ensures forall e :: e in window && Present(st, e.id) ==> exists k :: 0 <= k < |rest| && rest[k].entry == e
  {
    forall e | e in window && Present(st, e.id)
      ensures exists k :: 0 <= k < |rest| && rest[k].entry == e
    {
      assert e != window[0];
      assert e in window[1..];
    }
  }

  /** Filtering two windows one after the other is filtering the window
      covering both: the items keep window order. */
  lemma {:induction false} ItemsOfAppend(st: Storage, w1: seq<IndexEntry>, w2: seq<IndexEntry>)
    ensures ItemsOf(st, w1 + w2) == ItemsOf(st, w1) + ItemsOf(st, w2)
    decreases |w1|
  {
    if |w1| == 0 {
      assert w1 + w2 == w2;
    } else {
      assert (w1 + w2)[0] == w1[0];
      assert (w1 + w2)[1..] == w1[1..] + w2;
      ItemsOfAppend(st, w1[1..], w2);
    }
  }

  /** When every snapshot of the window is stored, there is one item per
      window position, an entry listed twice giving two items. */
  lemma {:induction false} ItemsOfAllPresent(st: Storage, window: seq<IndexEntry>)
    requires forall k :: 0 <= k < |window| ==> Present(st, window[k].id)
    ensures var items := ItemsOf(st, window);
            |items| == |window| && forall k :: 0 <= k < |window| ==> items[k] == ItemOf(st, window[k])
    decreases |window|
  {
    if |window| > 0 {
      ItemsOfAllPresent(st, window[1..]);
      var rest := ItemsOf(st, window[1..]);
      assert ItemsOf(st, window) == [ItemOf(st, window[0])] + rest;
    }
  }

  /** A window whose snapshots are all gone gives no items. */
  lemma {:induction false} ItemsOfNonePresent(st: Storage, window: seq<IndexEntry>)
    requires forall k :: 0 <= k < |window| ==> !Present(st, window[k].id)
    ensures ItemsOf(st, window) == []
    decreases |window|
  {
    if |window| > 0 {
      ItemsOfNonePresent(st, window[1..]);
    }
  }

  /** `getStoredData(options)` */
  function GetStoredData(st: Storage, opts: Options, date: DateParse): (r: Result<StoredPage>)
    ensures r.Err? <==> ReadIndex(st).Err?
    ensures r.Ok? ==>
              var index := ReadIndex(st).value;
              var limit := OrDefault(opts.limit, DefaultLimit);
              var offset := OrDefault(opts.offset, DefaultOffset);
              && r.value.total == |index|
              && (r.value.hasMore <==> offset + limit < |index|)
              && r.value.items == ItemsOf(st, Slice(SortedIndex(index, OrDefault(opts.sortBy, "saveTime"), date), offset, offset + limit))
  {
    match ReadIndex(st)
    case Err(e) => Err(e)
    case Ok(index) =>
      var limit := OrDefault(opts.limit, DefaultLimit);
      var offset := OrDefault(opts.offset, DefaultOffset);
      var sorted := SortedIndex(index, OrDefault(opts.sortBy, "saveTime"), date);
      var window := Slice(sorted, offset, offset + limit);
      Ok(StoredPage(ItemsOf(st, window), |index|, offset + limit < |index|))
  }

  /** Two pages one after the other are the page covering both. */
  lemma ConsecutiveWindows<T>(s: seq<T>, offset: nat, a: nat, b: nat)
    ensures Slice(s, offset, offset + a) + Slice(s, offset + a, offset + a + b) == Slice(s, offset, offset + a + b)
  {
    var x := Min(offset, |s|);
    var y := Min(offset + a, |s|);
    var z := Min(offset + a + b, |s|);
    SliceInRange(s, x, y);
    SliceInRange(s, y, z);
    SliceInRange(s, x, z);
    assert s[x..y] + s[y..z] == s[x..z];
    assert Slice(s, offset, offset + a) == s[x..y];
    assert Slice(s, offset + a, offset + a + b) == s[y..z];
    assert Slice(s, offset, offset + a + b) == s[x..z];
  }

  /** Paging with the default options from offset 0 by `limit` walks the
      sorted index in order: each page is where the previous one ended, and
      `hasMore` is false exactly on the page that reaches the end. */
  lemma PagesFollowEachOther(st: Storage, limit: nat, n: nat, date: DateParse)
    requires ReadIndex(st).Ok?
    ensures var index := ReadIndex(st).value;
            var sorted := SortedIndex(index, "saveTime", date);
            var next := GetStoredData(st, Options(Some(limit), Some((n + 1) * limit), None), date).value;
            && Slice(sorted, n * limit, (n + 1) * limit) + Slice(sorted, (n + 1) * limit, (n + 2) * limit)
               == Slice(sorted, n * limit, (n + 2) * limit)
            && (next.hasMore <==> (n + 2) * limit < |index|)
  {
    ConsecutivePages(SortedIndex(ReadIndex(st).value, "saveTime", date), n, limit);
    NextPageHasMore(st, limit, n, date);
  }

  lemma ConsecutivePages<T>(s: seq<T>, n: nat, limit: nat)
    ensures Slice(s, n * limit, (n + 1) * limit) + Slice(s, (n + 1) * limit, (n + 2) * limit)
            == Slice(s, n * limit, (n + 2) * limit)
  {
    NextMultiples(n, limit);
    ConsecutiveWindows(s, n * limit, limit, limit);
  }

  lemma NextPageHasMore(st: Storage, limit: nat, n: nat, date: DateParse)
    requires ReadIndex(st).Ok?
    ensures GetStoredData(st, Options(Some(limit), Some((n + 1) * limit), None), date).value.hasMore
            <==> (n + 2) * limit < |ReadIndex(st).value|
  {
    var opts := Options(Some(limit), Some((n + 1) * limit), None);
    assert OrDefault(opts.limit, DefaultLimit) == limit;
    assert OrDefault(opts.offset, DefaultOffset) == (n + 1) * limit;
    NextMultiples(n, limit);
  }

  lemma NextMultiples(n: nat, limit: nat)
    ensures n * limit >= 0
    ensures (n + 1) * limit == n * limit + limit
    ensures (n + 2) * limit == n * limit + limit + limit
  {
  }

  // -----------------------------------------------------------------------
  // updateDataIndex

  function Lookup(m: map<string, Js>, k: string): Js
  {
    if k in m then m[k] else Undef
  }

  /** The entry `updateDataIndex` appends for a snapshot's metadata. */
  function NewEntry(id: string, metadata: map<string, Js>): (e: IndexEntry)
    ensures e.id == id && e.saveTime == Lookup(metadata, "saveTime") && e.size == Lookup(metadata, "size")
    ensures e.url == (if Truthy(Lookup(metadata, "url")) then Lookup(metadata, "url") else Str(""))
    ensures e.kind == (if Truthy(Lookup(metadata, "type")) then Lookup(metadata, "type") else Str("unknown"))
  {
    IndexEntry(id, Lookup(metadata, "saveTime"), Lookup(metadata, "size"),
               Or(Lookup(metadata, "url"), Str("")), Or(Lookup(metadata, "type"), Str("unknown")))
  }

  /** `updateDataIndex(dataId, metadata)` */
  function UpdateDataIndex(st: Storage, id: string, metadata: map<string, Js>): (r: Result<Storage>)
    ensures r.Err? <==> ReadIndex(st).Err?
    ensures r.Ok? ==> ReadIndex(r.value) == Ok(ReadIndex(st).value + [NewEntry(id, metadata)])
    ensures r.Ok? ==> forall k :: k != IndexKey ==> (k in r.value <==> k in st) && (k in st ==> r.value[k] == st[k])
  {
    match ReadIndex(st)
    case Err(e) => Err(e)
    case Ok(index) => Ok(st[IndexKey := IndexList(index + [NewEntry(id, metadata)])])
  }

  // -----------------------------------------------------------------------
  // getSettings and cleanupOldData

  /** `settings.maxStorageItems` of what `getSettings` returns: the stored
      settings when truthy, else the defaults, whose limit is 100. */
  function MaxStorageItems(st: Storage): (m: Js)
    ensures SettingsKey !in st ==> m == Num(100)
    ensures SettingsKey in st && st[SettingsKey].Value? ==>
              m == (if Truthy(st[SettingsKey].v) then Field(st[SettingsKey].v, "maxStorageItems") else Num(100))
    ensures SettingsKey in st && !st[SettingsKey].Value? ==> m.Undef?
  {
    if SettingsKey in st && st[SettingsKey].Value? && Truthy(st[SettingsKey].v) then
      Field(st[SettingsKey].v, "maxStorageItems")
    else if SettingsKey in st && !st[SettingsKey].Value? then
      Undef
    else
      Num(DefaultMaxItems)
  }

  /** `settings.maxStorageItems || 100` as the comparison with the index
      length converts it to a number: a falsy setting gives 100, a non-zero
      number is used as it is, `true` is 1 and an integer text is its
      value; `None` stands for NaN, which makes the comparison false. */
  function MaxItems(st: Storage): (r: Option<int>)
    ensures !Truthy(MaxStorageItems(st)) ==> r == Some(DefaultMaxItems)
    ensures MaxStorageItems(st).Num? && MaxStorageItems(st).n != 0 ==> r == Some(MaxStorageItems(st).n)
    ensures MaxStorageItems(st) == Bool(true) ==> r == Some(1)
    ensures MaxStorageItems(st).Undef? ==> r == Some(DefaultMaxItems)
  {
    ToInteger(Or(MaxStorageItems(st), Num(DefaultMaxItems)))
  }

  /** A limit stored as the text of a number counts as that number. */
  lemma MaxItemsOfText(st: Storage, n: int)
    requires MaxStorageItems(st) == Str(IntToString(n))
    ensures MaxItems(st) == Some(n)
  {
    IntegerTextOfIntToString(n);
    assert |IntToString(n)| > 0;
  }

  /** Without stored settings the limit is 100. */
  lemma DefaultMaxItemsIs100(st: Storage)
    requires SettingsKey !in st
    ensures MaxItems(st) == Some(100)
  {
  }

  /** The oldest `len - max` entries of the index sorted oldest first. */
  function ToDelete(sorted: seq<IndexEntry>, max: int): seq<IndexEntry>
  {
    Slice(sorted, 0, |sorted| - max)
  }

  function ToKeep(sorted: seq<IndexEntry>, max: int): seq<IndexEntry>
  {
    Slice(sorted, |sorted| - max, |sorted|)
  }

  function Ids(es: seq<IndexEntry>): (r: set<string>)
    ensures forall e :: e in es ==> e.id in r
    ensures forall k :: k in r ==> exists e :: e in es && e.id == k
  {
    set e | e in es :: e.id
  }

  /** `cleanupOldData()`: a failure leaves the storage as it was. */
  function CleanupOldData(st: Storage, date: DateParse): (r: Storage)
    ensures ReadIndex(st).Err? || MaxItems(st).None? || |ReadIndex(st).value| <= MaxItems(st).value ==> r == st
  {
    match ReadIndex(st)
    case Err(_) => st
    case Ok(index) =>
      match MaxItems(st)
      case None => st
      case Some(max) =>
        if |index| > max then
          var sorted := SortBy(index, SaveKey(date));
          Pruned(st, Ids(ToDelete(sorted, max)), ToKeep(sorted, max))
        else st
  }

  /** The storage without the snapshots of `gone`, its index set to `keep`. */
  function Pruned(st: Storage, gone: set<string>, keep: seq<IndexEntry>): Storage
  {
    (map k | k in st && k !in gone :: st[k])[IndexKey := IndexList(keep)]
  }

  /** Cutting a list sorted oldest first `max` from its end: the two parts
      make up the list, the second has `max` elements (none for a negative
      `max`), and nothing in the first is newer than anything in the second. */
  lemma SplitOldest<T>(s: seq<T>, key: T -> real, max: int)
    requires SortedBy(s, key)
    requires |s| > max
    ensures Slice(s, 0, |s| - max) + Slice(s, |s| - max, |s|) == s
    ensures |Slice(s, |s| - max, |s|)| == (if max < 0 then 0 else max)
    ensures forall x, y :: x in Slice(s, 0, |s| - max) && y in Slice(s, |s| - max, |s|) ==> key(x) <= key(y)
  {
    var n := |s|;
    var cut := if max < 0 then n else n - max;
    SliceInRange(s, 0, cut);
    SliceInRange(s, cut, n);
    assert Slice(s, 0, n - max) == s[..cut];
    assert Slice(s, n - max, n) == s[cut..];
    assert s == s[..cut] + s[cut..];
    SortedSplit(s, key, cut);
  }

  /** In a sorted list nothing before a cut has a larger key than anything
      after it. */
  lemma SortedSplit<T>(s: seq<T>, key: T -> real, cut: nat)
    requires SortedBy(s, key)
    requires cut <= |s|
    ensures forall x, y :: x in s[..cut] && y in s[cut..] ==> key(x) <= key(y)
  {
    forall x, y | x in s[..cut] && y in s[cut..]
      ensures key(x) <= key(y)
    {
      var i :| 0 <= i < cut && s[..cut][i] == x;
      var j :| 0 <= j < |s| - cut && s[cut..][j] == y;
      assert s[i] == x && s[cut + j] == y;
    }
  }

  /** Above the limit the cleanup splits the index sorted oldest first: the
      deleted entries and the kept ones are together the whole index, the
      newest `max` (none for a negative limit) are kept, and none deleted is
      newer than one kept. */
  lemma CleanupKeepsNewest(st: Storage, date: DateParse)
    requires ReadIndex(st).Ok? && MaxItems(st).Some?
    requires |ReadIndex(st).value| > MaxItems(st).value
    ensures var index := ReadIndex(st).value;
            var max := MaxItems(st).value;
            var sorted := SortBy(index, SaveKey(date));
            var del := ToDelete(sorted, max);
            var keep := ToKeep(sorted, max);
            && multiset(del) + multiset(keep) == multiset(index)
            && |keep| == (if max < 0 then 0 else max)
            && |del| == |index| - |keep|
            && (forall x, y :: x in del && y in keep ==> date(x.saveTime) <= date(y.saveTime))
  {
    var index := ReadIndex(st).value;
    var max := MaxItems(st).value;
    var sorted := SortBy(index, SaveKey(date));
    var del := ToDelete(sorted, max);
    var keep := ToKeep(sorted, max);
    SplitOldest(sorted, SaveKey(date), max);
    assert del + keep == sorted;
    assert multiset(sorted) == multiset(del) + multiset(keep);
    forall x, y | x in del && y in keep
      ensures date(x.saveTime) <= date(y.saveTime)
    {
      assert SaveKey(date)(x) <= SaveKey(date)(y);
    }
  }

  /** What the cleanup leaves in storage above the limit: the index is the
      kept entries, the snapshots of the deleted entries are gone, and every
      other key is untouched. */
  lemma CleanupStorage(st: Storage, date: DateParse)
    requires ReadIndex(st).Ok? && MaxItems(st).Some?
    requires |ReadIndex(st).value| > MaxItems(st).value
    ensures var sorted := SortBy(ReadIndex(st).value, SaveKey(date));
            var max := MaxItems(st).value;
            var del := Ids(ToDelete(sorted, max));
            var r := CleanupOldData(st, date);
            && ReadIndex(r) == Ok(ToKeep(sorted, max))
            && (forall k :: k in del && k != IndexKey ==> k !in r)
            && (forall k :: k in st && k !in del ==> k in r && (k != IndexKey ==> r[k] == st[k]))
  {
  }

  // -----------------------------------------------------------------------
  // clearStoredData

  /** The keys `clearStoredData` removes: every indexed id and the index. */
  function ClearKeys(index: seq<IndexEntry>): (keys: seq<string>)
    ensures |keys| == |index| + 1 && keys[|index|] == IndexKey
    ensures forall k :: 0 <= k < |index| ==> keys[k] == index[k].id
  {
    seq(|index|, k requires 0 <= k < |index| => index[k].id) + [IndexKey]
  }

  /** `clearStoredData()` */
  function ClearStoredData(st: Storage): (r: Result<Storage>)
    ensures r.Err? <==> ReadIndex(st).Err?
    ensures r.Ok? ==> IndexKey !in r.value && ReadIndex(r.value) == Ok([])
    ensures r.Ok? ==> forall e :: e in ReadIndex(st).value ==> e.id !in r.value
    ensures r.Ok? ==> forall k :: k in st && k != IndexKey && k !in Ids(ReadIndex(st).value) ==> k in r.value && r.value[k] == st[k]
    ensures r.Ok? ==> forall k :: k in r.value ==> k in st
  {
    match ReadIndex(st)
    case Err(e) => Err(e)
    case Ok(index) =>
      var keys := ClearKeys(index);
      assert forall e :: e in index ==> e.id in keys;
      Ok(map k | k in st && k !in keys :: st[k])
  }

  /** Clearing twice is clearing once. */
  lemma ClearIdempotent(st: Storage)
    requires ClearStoredData(st).Ok?
    ensures ClearStoredData(ClearStoredData(st).value) == ClearStoredData(st)
  {
    var r := ClearStoredData(st).value;
    assert ReadIndex(r) == Ok([]);
    assert ClearKeys([]) == [IndexKey];
    assert (map k | k in r && k !in [IndexKey] :: r[k]) == r;
  }
}
