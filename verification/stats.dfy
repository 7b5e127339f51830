/** Notification statistics: a store owner's figures for their own store and
    the staff-only summary over every store. Both read the log table inside
    the window `[now - days, now]`, both ends included, `days` defaulting to
    30. Calendar days of a timestamp come from a projection passed in, in
    place of the database's `date()` function. */
module Stats {
  import opened Basics
  import opened Models

  const DefaultDays: int := 30
  const NoStoreMessage: string := "No store found for the authenticated user"
  const NotStaffMessage: string := "Only admin users can view all stores summary"

  /** The calendar day of an instant. */
  type DayOf = Timestamp -> Date

  function PeriodDays(days: Option<int>): (d: int)
    ensures days.None? ==> d == DefaultDays
    ensures days.Some? ==> d == days.value
  {
    if days.Some? then days.value else DefaultDays
  }

  /** The window's first instant, `days` whole days before `now`. */
  function WindowStart(now: Timestamp, days: int): (start: Timestamp)
    ensures days >= 0 ==> start <= now
    ensures now - start == days * SecondsPerDay
  {
    now - days * SecondsPerDay
  }

  /** The largest magnitude, in days, a `timedelta` holds. */
  const MaxDeltaDays: int := 999999999

  /** The first and last whole seconds a `datetime` holds: 0001-01-01
      00:00:00 and 9999-12-31 23:59:59, counted from the Unix epoch. */
  const MinInstant: Timestamp := -62135596800
  const MaxInstant: Timestamp := 253402300799

  /** Whether both views can build their window: the period fits a
      `timedelta`, and subtracting it from now stays inside the `datetime`
      range. Otherwise the date arithmetic raises and the view fails. */
  predicate WindowRepresentable(now: Timestamp, days: int) {
    && -MaxDeltaDays <= days <= MaxDeltaDays
    && MinInstant <= WindowStart(now, days) <= MaxInstant
  }

  predicate InWindow(l: NotificationLog, start: Timestamp, end: Timestamp) {
    start <= l.sentAt && l.sentAt <= end
  }

  // ---------------------------------------------------------------------
  // Filters (each keeps every matching row with its multiplicity)

  function WindowLogs(logs: seq<NotificationLog>, start: Timestamp, end: Timestamp): (ws: seq<NotificationLog>)
    ensures forall l :: multiset(ws)[l] == if InWindow(l, start, end) then multiset(logs)[l] else 0
    ensures forall l :: l in ws <==> l in logs && InWindow(l, start, end)
    decreases |logs|
  {
    if logs == [] then []
    else
      assert logs == [logs[0]] + logs[1..];
      (if InWindow(logs[0], start, end) then [logs[0]] else []) + WindowLogs(logs[1..], start, end)
  }

  function OfStore(logs: seq<NotificationLog>, sid: StoreId): (ws: seq<NotificationLog>)
    ensures forall l :: multiset(ws)[l] == if l.store == sid then multiset(logs)[l] else 0
    ensures forall l :: l in ws <==> l in logs && l.store == sid
    ensures |ws| <= |logs|
    decreases |logs|
  {
    if logs == [] then []
    else
      assert logs == [logs[0]] + logs[1..];
      (if logs[0].store == sid then [logs[0]] else []) + OfStore(logs[1..], sid)
  }

  // ---------------------------------------------------------------------
  // Group counts (`values(key).annotate(count=Count('id'))`)

  datatype GroupRow<K> = GroupRow(key: K, count: nat)

  function RowCount<K>(r: GroupRow<K>): nat {
    r.count
  }

  /** How many rows of `ws` have key `k`. */
  function CountKey<K(==)>(ws: seq<NotificationLog>, key: NotificationLog -> K, k: K): nat {
    if ws == [] then 0 else (if key(ws[0]) == k then 1 else 0) + CountKey(ws[1..], key, k)
  }

  function KeysOf<K>(ws: seq<NotificationLog>, key: NotificationLog -> K): (ks: seq<K>)
    ensures |ks| == |ws| && forall i :: 0 <= i < |ws| ==> ks[i] == key(ws[i])
  {
    if ws == [] then [] else [key(ws[0])] + KeysOf(ws[1..], key)
  }

  function RowsFor<K(==)>(ws: seq<NotificationLog>, key: NotificationLog -> K, ks: seq<K>): (rows: seq<GroupRow<K>>)
    ensures |rows| == |ks|
    ensures forall i :: 0 <= i < |ks| ==> rows[i] == GroupRow(ks[i], CountKey(ws, key, ks[i]))
  {
    if ks == [] then [] else [GroupRow(ks[0], CountKey(ws, key, ks[0]))] + RowsFor(ws, key, ks[1..])
  }

  /** A row whose key occurs is counted at least once. */
  lemma {:induction false} CountKeyPositive<K>(ws: seq<NotificationLog>, key: NotificationLog -> K, i: nat)
    requires i < |ws|
    ensures CountKey(ws, key, key(ws[i])) >= 1
    decreases i
  {
    if i > 0 {
      CountKeyPositive(ws[1..], key, i - 1);
    }
  }

  // The group counts partition the rows: their sum is the row count.

  function SumKeys<K(==)>(ws: seq<NotificationLog>, key: NotificationLog -> K, ks: seq<K>): nat {
    if ks == [] then 0 else CountKey(ws, key, ks[0]) + SumKeys(ws, key, ks[1..])
  }

  function Occurrences<K(==)>(ks: seq<K>, k: K): nat {
    if ks == [] then 0 else (if ks[0] == k then 1 else 0) + Occurrences(ks[1..], k)
  }

  lemma {:induction false} RowsForSum<K>(ws: seq<NotificationLog>, key: NotificationLog -> K, ks: seq<K>)
    ensures SumBy(RowsFor(ws, key, ks), RowCount) == SumKeys(ws, key, ks)
    decreases |ks|
  {
    if ks != [] {
      var rows := RowsFor(ws, key, ks);
      assert rows[1..] == RowsFor(ws, key, ks[1..]);
      RowsForSum(ws, key, ks[1..]);
    }
  }

  lemma {:induction false} SumKeysEmpty<K>(key: NotificationLog -> K, ks: seq<K>)
    ensures SumKeys([], key, ks) == 0
    decreases |ks|
  {
    if ks != [] {
      SumKeysEmpty(key, ks[1..]);
    }
  }

  lemma {:induction false} SumKeysSplit<K>(ws: seq<NotificationLog>, key: NotificationLog -> K, ks: seq<K>)
    requires ws != []
    ensures SumKeys(ws, key, ks) == Occurrences(ks, key(ws[0])) + SumKeys(ws[1..], key, ks)
    decreases |ks|
  {
    if ks != [] {
      SumKeysSplit(ws, key, ks[1..]);
    }
  }

  lemma {:induction false} OccursOnce<K>(ks: seq<K>, k: K)
    requires NoDuplicates(ks) && k in ks
    ensures Occurrences(ks, k) == 1
    decreases |ks|
  {
    NoDuplicatesTail(ks);
    if ks[0] == k {
      OccursNot(ks[1..], k);
    } else {
      OccursOnce(ks[1..], k);
    }
  }

  lemma {:induction false} OccursNot<K>(ks: seq<K>, k: K)
    requires k !in ks
    ensures Occurrences(ks, k) == 0
    decreases |ks|
  {
    if ks != [] {
      OccursNot(ks[1..], k);
    }
  }

  /** Summing the counts of distinct keys that cover every row gives the
      number of rows. */
  lemma {:induction false} SumKeysCover<K>(ws: seq<NotificationLog>, key: NotificationLog -> K, ks: seq<K>)
    requires NoDuplicates(ks)
    requires forall i :: 0 <= i < |ws| ==> key(ws[i]) in ks
    ensures SumKeys(ws, key, ks) == |ws|
    decreases |ws|
  {
    if ws == [] {
      SumKeysEmpty(key, ks);
    } else {
      SumKeysSplit(ws, key, ks);
      assert key(ws[0]) in ks;
      OccursOnce(ks, key(ws[0]));
      forall i | 0 <= i < |ws[1..]| ensures key(ws[1..][i]) in ks {
        assert ws[1..][i] == ws[i + 1];
      }
      SumKeysCover(ws[1..], key, ks);
    }
  }

  lemma RowsForPositive<K>(ws: seq<NotificationLog>, key: NotificationLog -> K, keys: seq<K>)
    requires forall i :: 0 <= i < |keys| ==> keys[i] in KeysOf(ws, key)
    ensures forall i :: 0 <= i < |keys| ==> RowsFor(ws, key, keys)[i].count >= 1
  {
    var ks := KeysOf(ws, key);
    forall i | 0 <= i < |keys| ensures RowsFor(ws, key, keys)[i].count >= 1 {
      assert keys[i] in ks;
      var j :| 0 <= j < |ks| && ks[j] == keys[i];
      CountKeyPositive(ws, key, j);
    }
  }

  /** `rows` is the grouping of `ws` by `key`: one row per key present,
      with that key's count, the counts adding up to the rows grouped. */
  ghost predicate GroupedBy<K>(ws: seq<NotificationLog>, key: NotificationLog -> K, rows: seq<GroupRow<K>>) {
    && (forall i, j :: 0 <= i < j < |rows| ==> rows[i].key != rows[j].key)
    && (forall i :: 0 <= i < |rows| ==> rows[i].count == CountKey(ws, key, rows[i].key) && rows[i].count >= 1)
    && RowKeys(rows) == KeySet(ws, key)
    && SumBy(rows, RowCount) == |ws|
  }

  /** The keys the rows of `ws` take. */
  function KeySet<K>(ws: seq<NotificationLog>, key: NotificationLog -> K): set<K> {
    set l | l in ws :: key(l)
  }

  /** No more distinct keys than rows. */
  lemma {:induction false} KeySetBound<K>(ws: seq<NotificationLog>, key: NotificationLog -> K)
    ensures |KeySet(ws, key)| <= |ws|
    decreases |ws|
  {
    if ws != [] {
      KeySetBound(ws[1..], key);
      assert KeySet(ws, key) == KeySet(ws[1..], key) + {key(ws[0])} by {
        forall l | l in ws ensures l == ws[0] || l in ws[1..] {
          var j :| 0 <= j < |ws| && ws[j] == l;
          if j > 0 {
            assert ws[1..][j - 1] == l;
          }
        }
      }
    }
  }

  /** The keys a grouping has rows for. */
  function RowKeys<K>(rows: seq<GroupRow<K>>): set<K> {
    set r | r in rows :: r.key
  }

  lemma GroupingKeys<K>(ws: seq<NotificationLog>, key: NotificationLog -> K)
    ensures RowKeys(RowsFor(ws, key, Distinct(KeysOf(ws, key)))) == KeySet(ws, key)
  {
    var ks := KeysOf(ws, key);
    var keys := Distinct(ks);
    var rows := RowsFor(ws, key, keys);
    forall k | k in KeySet(ws, key) ensures k in RowKeys(rows) {
      var l :| l in ws && key(l) == k;
      var j :| 0 <= j < |ws| && ws[j] == l;
      assert ks[j] in keys by { DistinctKeeps(ks, ks[j]); }
      var i :| 0 <= i < |keys| && keys[i] == ks[j];
      assert rows[i] in rows;
    }
    forall k | k in RowKeys(rows) ensures k in KeySet(ws, key) {
      var r :| r in rows && r.key == k;
      var i :| 0 <= i < |rows| && rows[i] == r;
      assert keys[i] in ks by { DistinctFrom(ks, keys[i]); }
      var j :| 0 <= j < |ks| && ks[j] == keys[i];
      assert ws[j] in ws;
    }
  }

  lemma GroupingSum<K>(ws: seq<NotificationLog>, key: NotificationLog -> K)
    ensures SumBy(RowsFor(ws, key, Distinct(KeysOf(ws, key))), RowCount) == |ws|
  {
    var ks := KeysOf(ws, key);
    var keys := Distinct(ks);
    RowsForSum(ws, key, keys);
    forall i | 0 <= i < |ws| ensures key(ws[i]) in keys {
      assert ks[i] == key(ws[i]);
      DistinctKeeps(ks, ks[i]);
    }
    SumKeysCover(ws, key, keys);
  }

  lemma GroupingCounts<K>(ws: seq<NotificationLog>, key: NotificationLog -> K)
    ensures var rows := RowsFor(ws, key, Distinct(KeysOf(ws, key)));
      && (forall i, j :: 0 <= i < j < |rows| ==> rows[i].key != rows[j].key)
      && (forall i :: 0 <= i < |rows| ==> rows[i].count == CountKey(ws, key, rows[i].key) && rows[i].count >= 1)
  {
    var keys := Distinct(KeysOf(ws, key));
    forall i | 0 <= i < |keys| ensures keys[i] in KeysOf(ws, key) {
      DistinctFrom(KeysOf(ws, key), keys[i]);
    }
    RowsForPositive(ws, key, keys);
  }

  lemma GroupingHolds<K>(ws: seq<NotificationLog>, key: NotificationLog -> K)
    ensures GroupedBy(ws, key, RowsFor(ws, key, Distinct(KeysOf(ws, key))))
  {
    GroupingCounts(ws, key);
    GroupingKeys(ws, key);
    GroupingSum(ws, key);
  }

  /** Group the rows of `ws` by `key` (`values(key).annotate(count=...)`). */
  function GroupCounts<K(==)>(ws: seq<NotificationLog>, key: NotificationLog -> K): (rows: seq<GroupRow<K>>)
    ensures GroupedBy(ws, key, rows)
  {
    assert GroupedBy(ws, key, RowsFor(ws, key, Distinct(KeysOf(ws, key)))) by {
      GroupingHolds(ws, key);
    }
    RowsFor(ws, key, Distinct(KeysOf(ws, key)))
  }

  /** Rows of two different keys together are at most all rows. */
  lemma {:induction false} TwoKeysBound<K>(ws: seq<NotificationLog>, key: NotificationLog -> K, a: K, b: K)
    requires a != b
    ensures CountKey(ws, key, a) + CountKey(ws, key, b) <= |ws|
    decreases |ws|
  {
    if ws != [] {
      TwoKeysBound(ws[1..], key, a, b);
    }
  }

  // ---------------------------------------------------------------------
  // Distinct users

  function UserOf(l: NotificationLog): UserId {
    l.user
  }

  /** The number of distinct users among the rows. */
  function UniqueUsers(ws: seq<NotificationLog>): (n: nat)
    ensures n <= |ws|
    ensures n == 0 <==> ws == []
  {
    var users := KeySet(ws, UserOf);
    assert |users| <= |ws| by {
      KeySetBound(ws, UserOf);
    }
    assert ws != [] ==> UserOf(ws[0]) in users by {
      if ws != [] {
        assert ws[0] in ws;
      }
    }
    |users|
  }

  // ---------------------------------------------------------------------
  // store_stats

  function StatusOf(l: NotificationLog): DeliveryStatus {
    l.deliveryStatus
  }

  function TypeOf(l: NotificationLog): string {
    l.notificationType
  }

  function DayKey(r: GroupRow<Date>): int {
    r.key
  }

  datatype StoreStats = StoreStats(
    storeId: StoreId,
    storeName: string,
    periodDays: int,
    startDate: Date,
    endDate: Date,
    total: nat,
    byStatus: seq<GroupRow<DeliveryStatus>>,
    uniqueUsers: nat,
    byDay: seq<GroupRow<Date>>,
    byType: seq<GroupRow<string>>)

  datatype StatsOutcome =
    | StatsOk(stats: StoreStats)
    | StatsUnauthenticated
    | NoStoreFound
    | MultipleStoresFound
    | StatsWindowOutOfRange
  {
    function StatusCode(): int {
      match this
      case StatsOk(_) => 200
      case StatsUnauthenticated => 401
      case NoStoreFound => 404
      case MultipleStoresFound => 500
      case StatsWindowOutOfRange => 500
    }
  }

  ghost predicate EnumeratesStores(order: seq<StoreId>, stores: map<StoreId, Store>) {
    NoDuplicates(order) && forall sid :: sid in order <==> sid in stores
  }

  /** The stores `uid` owns, in table order. */
  function OwnedStores(stores: map<StoreId, Store>, owners: Owners, order: seq<StoreId>, uid: UserId): (owned: seq<StoreId>)
    requires NoDuplicates(order)
    ensures forall sid :: sid in owned <==> sid in order && sid in stores && Owns(owners, sid, uid)
    ensures NoDuplicates(owned)
    decreases |order|
  {
    if order == [] then []
    else
      assert NoDuplicates(order[1..]) && order[0] !in order[1..] by { NoDuplicatesTail(order); }
      var rest := OwnedStores(stores, owners, order[1..], uid);
      if order[0] in stores && Owns(owners, order[0], uid) then
        assert NoDuplicates([order[0]] + rest) by {
          forall i, j | 0 <= i < j < |[order[0]] + rest|
            ensures ([order[0]] + rest)[i] != ([order[0]] + rest)[j]
          {
            assert ([order[0]] + rest)[j] == rest[j - 1];
            if i > 0 {
              assert ([order[0]] + rest)[i] == rest[i - 1];
            }
          }
        }
        [order[0]] + rest
      else rest
  }

  /** The rows of store `sid` inside the window. */
  function StoreWindow(logs: seq<NotificationLog>, sid: StoreId, start: Timestamp, end: Timestamp): (ws: seq<NotificationLog>)
    ensures forall l :: multiset(ws)[l] == (if l.store == sid && InWindow(l, start, end) then multiset(logs)[l] else 0)
  {
    OfStore(WindowLogs(logs, start, end), sid)
  }

  /** The calendar day of a row's send instant. */
  function LogDay(dayOf: DayOf): NotificationLog -> Date {
    (l: NotificationLog) => dayOf(l.sentAt)
  }

  /** The figures for one store over one window: the total, a grouping by
      status, by day (days ascending) and by type, each adding up to the
      total, and the distinct users, never more than the total. */
  function StatsFor(w: World, sid: StoreId, days: int, now: Timestamp, dayOf: DayOf): (st: StoreStats)
    requires sid in w.stores
    ensures st.storeId == sid && st.storeName == w.stores[sid].name && st.periodDays == days
    ensures st.startDate == dayOf(WindowStart(now, days)) && st.endDate == dayOf(now)
    ensures var ws := StoreWindow(w.logs, sid, WindowStart(now, days), now);
      && st.total == |ws|
      && st.uniqueUsers == |KeySet(ws, UserOf)|
      && GroupedBy(ws, StatusOf, st.byStatus)
      && GroupedBy(ws, LogDay(dayOf), st.byDay)
      && GroupedBy(ws, TypeOf, st.byType)
    ensures st.uniqueUsers <= st.total && (st.uniqueUsers == 0 <==> st.total == 0)
    ensures forall i, j :: 0 <= i < j < |st.byDay| ==> st.byDay[i].key < st.byDay[j].key
  {
    var ws := StoreWindow(w.logs, sid, WindowStart(now, days), now);
    StoreStats(sid, w.stores[sid].name, days, dayOf(WindowStart(now, days)), dayOf(now), |ws|,
               GroupCounts(ws, StatusOf), UniqueUsers(ws), CountsByDay(ws, dayOf), GroupCounts(ws, TypeOf))
  }

  /** The per-day counts, ordered by day: the grouping by day with the days
      strictly ascending. */
  function CountsByDay(ws: seq<NotificationLog>, dayOf: DayOf): (rows: seq<GroupRow<Date>>)
    ensures GroupedBy(ws, LogDay(dayOf), rows)
    ensures forall i, j :: 0 <= i < j < |rows| ==> rows[i].key < rows[j].key
  {
    var grouped := GroupCounts(ws, LogDay(dayOf));
    var rows := SortBy(grouped, DayKey);
    assert GroupedBy(ws, LogDay(dayOf), rows) by {
      SortBySum(grouped, DayKey, RowCount);
      SortedGrouping(ws, LogDay(dayOf), grouped, rows);
    }
    assert DistinctBy(rows, DayKey) by {
      SortByDistinct(grouped, DayKey, DayKey);
    }
    rows
  }

  /** A reordering of a grouping is a grouping. */
  lemma SortedGrouping<K>(ws: seq<NotificationLog>, key: NotificationLog -> K,
                          grouped: seq<GroupRow<K>>, rows: seq<GroupRow<K>>)
    requires GroupedBy(ws, key, grouped)
    requires multiset(rows) == multiset(grouped)
    requires SumBy(rows, RowCount) == SumBy(grouped, RowCount)
    ensures GroupedBy(ws, key, rows)
  {
    forall i, j | 0 <= i < j < |rows| ensures rows[i].key != rows[j].key {
      assert rows[i] in multiset(grouped) && rows[j] in multiset(grouped);
      var a :| 0 <= a < |grouped| && grouped[a] == rows[i];
      var b :| 0 <= b < |grouped| && grouped[b] == rows[j];
      if a == b {
        TwiceInMultiset(rows, i, j);
        OnceInMultiset(grouped, a);
      }
    }
    forall i | 0 <= i < |rows|
      ensures rows[i].count == CountKey(ws, key, rows[i].key) && rows[i].count >= 1
    {
      assert rows[i] in multiset(grouped);
      var a :| 0 <= a < |grouped| && grouped[a] == rows[i];
    }
    assert RowKeys(rows) == RowKeys(grouped) by {
      forall r ensures r in rows <==> r in grouped {
        assert r in rows <==> r in multiset(rows);
        assert r in grouped <==> r in multiset(grouped);
      }
    }
  }

  /** An element at two positions occurs at least twice. */
  lemma TwiceInMultiset<T>(xs: seq<T>, i: nat, j: nat)
    requires i < j < |xs| && xs[i] == xs[j]
    ensures multiset(xs)[xs[i]] >= 2
  {
    assert xs == xs[..i] + [xs[i]] + xs[i + 1..j] + [xs[j]] + xs[j + 1..];
  }

  /** In a sequence whose elements have distinct keys, each element occurs
      once. */
  lemma OnceInMultiset<K>(rows: seq<GroupRow<K>>, a: nat)
    requires a < |rows|
    requires forall i, j :: 0 <= i < j < |rows| ==> rows[i].key != rows[j].key
    ensures multiset(rows)[rows[a]] == 1
  {
    var x := rows[a];
    assert rows == rows[..a] + [x] + rows[a + 1..];
    forall k | 0 <= k < |rows[..a]| ensures rows[..a][k] != x {
      assert rows[..a][k] == rows[k];
    }
    var tail := rows[a + 1..];
    forall k | 0 <= k < |tail| ensures tail[k] != x {
      assert tail[k] == rows[a + 1 + k];
    }
    assert x !in rows[..a] && x !in rows[a + 1..];
  }

  /** The owner's statistics endpoint: the caller's single store, over the
      last `days` days (30 by default). */
  function StoreStatsFor(w: World, owners: Owners, storeOrder: seq<StoreId>, caller: Option<UserId>,
                         days: Option<int>, now: Timestamp, dayOf: DayOf): (o: StatsOutcome)
    requires EnumeratesStores(storeOrder, w.stores)
    ensures caller.None? <==> o == StatsUnauthenticated
    ensures caller.Some? ==>
      (o == NoStoreFound <==> forall sid :: sid in w.stores ==> !Owns(owners, sid, caller.value))
    ensures caller.Some? ==>
      (o == MultipleStoresFound <==>
         exists s1, s2 :: s1 in w.stores && s2 in w.stores && s1 != s2
           && Owns(owners, s1, caller.value) && Owns(owners, s2, caller.value))
    ensures o == StatsWindowOutOfRange ==> !WindowRepresentable(now, PeriodDays(days))
    ensures o.StatsOk? ==>
      && WindowRepresentable(now, PeriodDays(days))
      && o.stats.storeId in w.stores
      && Owns(owners, o.stats.storeId, caller.value)
      && (forall sid :: sid in w.stores && Owns(owners, sid, caller.value) ==> sid == o.stats.storeId)
      && o.stats == StatsFor(w, o.stats.storeId, PeriodDays(days), now, dayOf)
  {
    match caller
    case None => StatsUnauthenticated
    case Some(uid) =>
      var owned := OwnedStores(w.stores, owners, storeOrder, uid);
      if |owned| == 0 then
        assert forall sid :: sid in w.stores ==> !Owns(owners, sid, uid) by {
          forall sid | sid in w.stores ensures !Owns(owners, sid, uid) {
            assert sid in storeOrder;
          }
        }
        NoStoreFound
      else if |owned| > 1 then
        assert owned[0] != owned[1];
        assert owned[0] in owned && owned[1] in owned;
        MultipleStoresFound
      else
        var sid := owned[0];
        assert forall s :: s in w.stores && Owns(owners, s, uid) ==> s == sid by {
          forall s | s in w.stores && Owns(owners, s, uid) ensures s == sid {
            assert s in storeOrder;
            assert s in owned;
          }
        }
        assert owned[0] in owned;
        if !WindowRepresentable(now, PeriodDays(days)) then StatsWindowOutOfRange
        else StatsOk(StatsFor(w, sid, PeriodDays(days), now, dayOf))
  }

  /** A negative period gives an empty window: nothing is counted. */
  lemma NegativePeriodCountsNothing(w: World, sid: StoreId, days: int, now: Timestamp, dayOf: DayOf)
    requires sid in w.stores && days < 0
    ensures StatsFor(w, sid, days, now, dayOf).total == 0
  {
    var ws := OfStore(WindowLogs(w.logs, WindowStart(now, days), now), sid);
    if ws != [] {
      assert ws[0] in ws;
    }
  }

  // ---------------------------------------------------------------------
  // all_stores_summary

  datatype SummaryRow = SummaryRow(
    storeId: StoreId,
    storeName: string,
    total: nat,
    uniqueUsers: nat,
    successful: nat,
    failed: nat)

  function StoreOf(l: NotificationLog): StoreId {
    l.store
  }

  function NegTotal(r: SummaryRow): int {
    -(r.total as int)
  }

  function RowStore(r: SummaryRow): int {
    r.storeId
  }

  datatype Summary = Summary(
    periodDays: int,
    startDate: Date,
    endDate: Date,
    totalStores: nat,
    rows: seq<SummaryRow>)

  datatype SummaryOutcome =
    | SummaryOk(summary: Summary)
    | SummaryUnauthenticated
    | NotStaff
    | SummaryWindowOutOfRange
  {
    function StatusCode(): int {
      match this
      case SummaryOk(_) => 200
      case SummaryUnauthenticated => 401
      case NotStaff => 403
      case SummaryWindowOutOfRange => 500
    }
  }

  /** One store's row over the windowed rows `ws`. */
  function SummaryRowFor(w: World, ws: seq<NotificationLog>, sid: StoreId): (r: SummaryRow)
    requires sid in w.stores
    ensures r.storeId == sid && r.storeName == w.stores[sid].name
    ensures r.total == CountKey(ws, StoreOf, sid)
    ensures r.successful == CountKey(OfStore(ws, sid), StatusOf, Delivered)
    ensures r.failed == CountKey(OfStore(ws, sid), StatusOf, Failed)
    ensures r.uniqueUsers == |KeySet(OfStore(ws, sid), UserOf)|
    ensures r.successful + r.failed <= r.total
    ensures r.uniqueUsers <= r.total
  {
    var mine := OfStore(ws, sid);
    assert |mine| == CountKey(ws, StoreOf, sid) by { OfStoreCount(ws, sid); }
    TwoKeysBound(mine, StatusOf, Delivered, Failed);
    SummaryRow(sid, w.stores[sid].name, |mine|, UniqueUsers(mine),
               CountKey(mine, StatusOf, Delivered), CountKey(mine, StatusOf, Failed))
  }

  lemma {:induction false} OfStoreCount(ws: seq<NotificationLog>, sid: StoreId)
    ensures |OfStore(ws, sid)| == CountKey(ws, StoreOf, sid)
    decreases |ws|
  {
    if ws != [] {
      OfStoreCount(ws[1..], sid);
    }
  }

  function SummaryRows(w: World, ws: seq<NotificationLog>, sids: seq<StoreId>): (rows: seq<SummaryRow>)
    requires forall i :: 0 <= i < |sids| ==> sids[i] in w.stores
    ensures |rows| == |sids|
    ensures forall i :: 0 <= i < |sids| ==> rows[i] == SummaryRowFor(w, ws, sids[i])
  {
    if sids == [] then [] else [SummaryRowFor(w, ws, sids[0])] + SummaryRows(w, ws, sids[1..])
  }

  /** The stores with a row in `ws`, each once. */
  function StoresIn(w: World, ws: seq<NotificationLog>): (sids: seq<StoreId>)
    requires forall l :: l in ws ==> l.store in w.stores
    ensures forall i :: 0 <= i < |sids| ==> sids[i] in w.stores
    ensures NoDuplicates(sids)
    ensures (set x: StoreId | x in sids) == KeySet(ws, StoreOf)
  {
    var ks := KeysOf(ws, StoreOf);
    var sids := Distinct(ks);
    assert forall i :: 0 <= i < |sids| ==> sids[i] in w.stores by {
      forall i | 0 <= i < |sids| ensures sids[i] in w.stores {
        DistinctFrom(ks, sids[i]);
        var j :| 0 <= j < |ks| && ks[j] == sids[i];
        assert ws[j] in ws;
      }
    }
    assert (set x: StoreId | x in sids) == KeySet(ws, StoreOf) by {
      forall x | x in sids ensures x in KeySet(ws, StoreOf) {
        assert x in ks by { DistinctFrom(ks, x); }
        var j :| 0 <= j < |ks| && ks[j] == x;
        assert ws[j] in ws;
      }
      forall l | l in ws ensures l.store in sids {
        var j :| 0 <= j < |ws| && ws[j] == l;
        assert ks[j] == l.store;
        DistinctKeeps(ks, ks[j]);
      }
    }
    sids
  }

  function StoreIds(rows: seq<SummaryRow>): set<StoreId> {
    set r | r in rows :: r.storeId
  }

  lemma UnsortedRowsFacts(w: World, ws: seq<NotificationLog>)
    requires forall l :: l in ws ==> l.store in w.stores
    ensures var rows := SummaryRows(w, ws, StoresIn(w, ws));
      && DistinctBy(rows, RowStore)
      && StoreIds(rows) == KeySet(ws, StoreOf)
      && |rows| == |KeySet(ws, StoreOf)|
      && (forall i :: 0 <= i < |rows| ==> CountsOfItsStore(w, ws, rows[i]))
  {
    var sids := StoresIn(w, ws);
    var rows := SummaryRows(w, ws, sids);
    assert |sids| == |KeySet(ws, StoreOf)| by { DistinctLength<StoreId>(sids); }
    forall i | 0 <= i < |rows| ensures rows[i].total >= 1 {
      assert sids[i] in KeySet(ws, StoreOf);
      var l :| l in ws && l.store == sids[i];
      var j :| 0 <= j < |ws| && ws[j] == l;
      CountKeyPositive(ws, StoreOf, j);
    }
    RowsOfIds(rows, sids);
  }

  /** Rows whose store ids are `sids`, position by position, cover exactly `sids`. */
  lemma RowsOfIds(rows: seq<SummaryRow>, sids: seq<StoreId>)
    requires |rows| == |sids|
    requires forall i :: 0 <= i < |rows| ==> rows[i].storeId == sids[i]
    ensures StoreIds(rows) == set x: StoreId | x in sids
  {
    forall x | x in StoreIds(rows) ensures x in sids {
      var r :| r in rows && r.storeId == x;
      var i :| 0 <= i < |rows| && rows[i] == r;
      assert sids[i] == x;
    }
    forall x | x in sids ensures x in StoreIds(rows) {
      var i :| 0 <= i < |sids| && sids[i] == x;
      assert rows[i] in rows;
    }
  }

  /** `r` is the row of a store with at least one row in `ws`. */
  ghost predicate CountsOfItsStore(w: World, ws: seq<NotificationLog>, r: SummaryRow) {
    r.storeId in w.stores && r == SummaryRowFor(w, ws, r.storeId) && r.total >= 1
  }

  /** Every row of a reordering comes from the original. */
  lemma ReorderedRowsFrom(xs: seq<SummaryRow>, ys: seq<SummaryRow>)
    requires multiset(ys) == multiset(xs)
    ensures forall i :: 0 <= i < |ys| ==> ys[i] in xs
    ensures StoreIds(ys) == StoreIds(xs)
  {
    forall i | 0 <= i < |ys| ensures ys[i] in xs {
      assert ys[i] in multiset(ys);
    }
    forall r ensures r in ys <==> r in xs {
      assert r in ys <==> r in multiset(ys);
      assert r in xs <==> r in multiset(xs);
    }
  }

  lemma SortedRowsFacts(w: World, ws: seq<NotificationLog>)
    requires forall l :: l in ws ==> l.store in w.stores
    ensures var rows := SortBy(SummaryRows(w, ws, StoresIn(w, ws)), NegTotal);
      && |rows| == |KeySet(ws, StoreOf)|
      && StoreIds(rows) == KeySet(ws, StoreOf)
      && DistinctBy(rows, RowStore)
      && (forall i :: 0 <= i < |rows| ==> CountsOfItsStore(w, ws, rows[i]))
  {
    var unsorted := SummaryRows(w, ws, StoresIn(w, ws));
    var rows := SortBy(unsorted, NegTotal);
    UnsortedRowsFacts(w, ws);
    SortByDistinct(unsorted, NegTotal, RowStore);
    ReorderedRowsCount(w, ws, unsorted, rows);
  }

  /** A reordering of rows that are each their store's counts is one too. */
  lemma ReorderedRowsCount(w: World, ws: seq<NotificationLog>, xs: seq<SummaryRow>, ys: seq<SummaryRow>)
    requires multiset(ys) == multiset(xs)
    requires forall i :: 0 <= i < |xs| ==> CountsOfItsStore(w, ws, xs[i])
    ensures StoreIds(ys) == StoreIds(xs)
    ensures forall i :: 0 <= i < |ys| ==> CountsOfItsStore(w, ws, ys[i])
  {
    ReorderedRowsFrom(xs, ys);
    forall i | 0 <= i < |ys| ensures CountsOfItsStore(w, ws, ys[i]) {
      var k :| 0 <= k < |xs| && xs[k] == ys[i];
    }
  }

  /** The per-store rows of the summary: one row per store with a row in
      `ws`, each the counts of that store, ordered by descending total. */
  function StoreRows(w: World, ws: seq<NotificationLog>): (rows: seq<SummaryRow>)
    requires forall l :: l in ws ==> l.store in w.stores
    ensures |rows| == |KeySet(ws, StoreOf)|
    ensures StoreIds(rows) == KeySet(ws, StoreOf)
    ensures forall i, j :: 0 <= i < j < |rows| ==> rows[i].total >= rows[j].total
    ensures forall i, j :: 0 <= i < j < |rows| ==> rows[i].storeId != rows[j].storeId
    ensures forall i :: 0 <= i < |rows| ==> CountsOfItsStore(w, ws, rows[i])
  {
    var rows := SortBy(SummaryRows(w, ws, StoresIn(w, ws)), NegTotal);
    assert
      && |rows| == |KeySet(ws, StoreOf)|
      && StoreIds(rows) == KeySet(ws, StoreOf)
      && DistinctBy(rows, RowStore)
      && (forall i :: 0 <= i < |rows| ==> CountsOfItsStore(w, ws, rows[i]))
    by {
      SortedRowsFacts(w, ws);
    }
    rows
  }

  /** The staff summary: one row per store with a log in the window,
      ordered by descending total, and the number of such stores. */
  function AllStoresSummary(w: World, caller: Option<UserId>, days: Option<int>,
                            now: Timestamp, dayOf: DayOf): (o: SummaryOutcome)
    requires WellFormed(w)
    requires caller.Some? ==> caller.value in w.users
    ensures caller.None? <==> o == SummaryUnauthenticated
    ensures caller.Some? ==> (o == NotStaff <==> !w.users[caller.value].isStaff)
    ensures caller.Some? && w.users[caller.value].isStaff ==>
      (o == SummaryWindowOutOfRange <==> !WindowRepresentable(now, PeriodDays(days)))
    ensures o.SummaryOk? ==>
      var start := WindowStart(now, PeriodDays(days));
      var ws := WindowLogs(w.logs, start, now);
      && (forall l :: l in ws ==> l.store in w.stores)
      && o.summary == Summary(PeriodDays(days), dayOf(start), dayOf(now),
                              |KeySet(ws, StoreOf)|, StoreRows(w, ws))
  {
    match caller
    case None => SummaryUnauthenticated
    case Some(uid) =>
      if !w.users[uid].isStaff then NotStaff
      else
        var d := PeriodDays(days);
        if !WindowRepresentable(now, d) then SummaryWindowOutOfRange
        else
          var start := WindowStart(now, d);
          var ws := WindowLogs(w.logs, start, now);
          assert forall l :: l in ws ==> l.store in w.stores by {
            forall l | l in ws ensures l.store in w.stores {
              var k :| 0 <= k < |w.logs| && w.logs[k] == l;
              assert LogRefsOk(w, w.logs[k]);
            }
          }
          var rows := StoreRows(w, ws);
          SummaryOk(Summary(d, dayOf(start), dayOf(now), |rows|, rows))
  }
}
