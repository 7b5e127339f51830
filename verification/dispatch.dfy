/** The notification dispatcher for one flash promo. Users selected by the
    promo's segment query, not yet notified today and within the default
    radius of the store each get one publish attempt; every attempt appends
    one log row (`delivered` when the publish returned, `failed` when it
    raised) and stamps the user's notification date with today, whatever
    the outcome. Skipped users are left untouched. The publish call is an
    oracle passed in; its failures never escape. */
module Dispatch {
  import opened Basics
  import opened Models
  import opened Geo
  import opened Segments

  const MessagePrefix: string := "Flash Promo available: "

  /** The notification text for a product name and promo price. */
  function PromoMessage(productName: string, price: Cents): (m: string)
    ensures |m| > |MessagePrefix| + |productName| + 4
    ensures m[..|MessagePrefix|] == MessagePrefix
    ensures m[|MessagePrefix|..|MessagePrefix| + |productName|] == productName
    ensures m[|MessagePrefix| + |productName|..|MessagePrefix| + |productName| + 4] == " at "
    ensures m[|MessagePrefix| + |productName| + 4..] == FormatCents(price)
  {
    MessagePrefix + productName + " at " + FormatCents(price)
  }

  /** Whether the publish call for a user returns (true) or raises (false). */
  type PublishOracle = UserId -> bool

  /** The instant the row for each user is inserted: the column is filled
      on insert, so each row of a run carries its own instant. */
  type SendClock = UserId -> Timestamp

  /** What one dispatch run reads: the promo (with its product and the
      product's store) and today's date, once at its start; the insert
      instant of each row; the distance function and the publish outcomes. */
  datatype DispatchEnv = DispatchEnv(
    promoId: PromoId,
    promo: FlashPromo,
    product: Product,
    store: Store,
    today: Date,
    sentAt: SendClock,
    dist: DistanceFn,
    publishOk: PublishOracle)

  function ResolveEnv(w: World, promoId: PromoId, today: Date, sentAt: SendClock,
                      dist: DistanceFn, publishOk: PublishOracle): (env: DispatchEnv)
    requires WellFormed(w) && promoId in w.promos
    ensures env.promoId == promoId && env.promo == w.promos[promoId]
    ensures env.product == PromoProduct(w, promoId) && env.store == PromoStore(w, promoId)
    ensures env.product.store in w.stores
  {
    DispatchEnv(promoId, w.promos[promoId], PromoProduct(w, promoId), PromoStore(w, promoId),
                today, sentAt, dist, publishOk)
  }

  // ---------------------------------------------------------------------
  // One send

  /** The log row one publish attempt for `uid` writes. */
  function AttemptLog(env: DispatchEnv, uid: UserId): NotificationLog {
    NotificationLog(uid, env.product.store, Some(env.promoId), FlashPromoType,
                    PromoMessage(env.product.name, env.promo.promoPrice), env.sentAt(uid),
                    if env.publishOk(uid) then Delivered else Failed)
  }

  /** Publish one notification and record the attempt: exactly one row is
      appended, `delivered` when the publish returned and `failed` when it
      raised; the failure goes no further. */
  function SendNotification(logs: seq<NotificationLog>, env: DispatchEnv, uid: UserId): (logs': seq<NotificationLog>)
    ensures |logs'| == |logs| + 1 && logs'[..|logs|] == logs
    ensures var l := logs'[|logs|];
      && l.user == uid
      && l.flashPromo == Some(env.promoId)
      && l.store == env.product.store
      && l.notificationType == FlashPromoType
      && l.message == PromoMessage(env.product.name, env.promo.promoPrice)
      && l.sentAt == env.sentAt(uid)
      && (l.deliveryStatus == Delivered <==> env.publishOk(uid))
      && (l.deliveryStatus == Failed <==> !env.publishOk(uid))
  {
    logs + [AttemptLog(env, uid)]
  }

  // ---------------------------------------------------------------------
  // The per-user loop

  /** Whether the run attempts a send to user `u`: selected by the segment
      query, not stamped with today's date, and near the promo's store. */
  predicate WillAttempt(env: DispatchEnv, u: User) {
    && Matches(SegmentQuery(env.promo.eligibleSegments), u.userType)
    && u.lastNotificationSent != Some(env.today)
    && IsUserNearStore(u, env.store, DefaultMaxDistanceKm, env.dist)
  }

  /** The two tables the loop writes. */
  datatype Tables = Tables(users: map<UserId, User>, logs: seq<NotificationLog>)

  /** Handle one user of the loop: send, then stamp the date. */
  function NotifyUser(t: Tables, env: DispatchEnv, uid: UserId): (t': Tables)
    requires uid in t.users
    ensures t'.users.Keys == t.users.Keys
  {
    if WillAttempt(env, t.users[uid]) then
      Tables(t.users[uid := t.users[uid].(lastNotificationSent := Some(env.today))],
             SendNotification(t.logs, env, uid))
    else t
  }

  /** The loop over the users in query order. */
  function NotifyUsers(t: Tables, env: DispatchEnv, order: seq<UserId>): (t': Tables)
    requires forall uid :: uid in order ==> uid in t.users
    ensures t'.users.Keys == t.users.Keys
    decreases |order|
  {
    if order == [] then t else NotifyUsers(NotifyUser(t, env, order[0]), env, order[1..])
  }

  // ---------------------------------------------------------------------
  // Reference description of a run, over the users before the run

  /** The rows a run appends, decided user by user on the initial users. */
  function ExpectedLogs(users: map<UserId, User>, env: DispatchEnv, order: seq<UserId>): seq<NotificationLog>
    requires forall uid :: uid in order ==> uid in users
    decreases |order|
  {
    if order == [] then []
    else (if WillAttempt(env, users[order[0]]) then [AttemptLog(env, order[0])] else [])
         + ExpectedLogs(users, env, order[1..])
  }

  /** Two users tables that agree on the users of `order` describe the same
      run. */
  lemma {:induction false} ExpectedLogsFrame(a: map<UserId, User>, b: map<UserId, User>,
                                             env: DispatchEnv, order: seq<UserId>)
    requires forall uid :: uid in order ==> uid in a && uid in b && a[uid] == b[uid]
    ensures ExpectedLogs(a, env, order) == ExpectedLogs(b, env, order)
    decreases |order|
  {
    if order != [] {
      ExpectedLogsFrame(a, b, env, order[1..]);
    }
  }

  /** The loop appends the rows the reference description predicts from the
      initial users, although it rewrites users as it goes. */
  lemma {:induction false} NotifyUsersLogs(t: Tables, env: DispatchEnv, order: seq<UserId>)
    requires forall uid :: uid in order ==> uid in t.users
    requires NoDuplicates(order)
    ensures NotifyUsers(t, env, order).logs == t.logs + ExpectedLogs(t.users, env, order)
    decreases |order|
  {
    if order == [] {
      assert t.logs + [] == t.logs;
    } else {
      var u0 := order[0];
      var rest := order[1..];
      var t1 := NotifyUser(t, env, u0);
      var head := if WillAttempt(env, t.users[u0]) then [AttemptLog(env, u0)] else [];
      NoDuplicatesTail(order);
      assert t1.logs == t.logs + head;
      NotifyUsersLogs(t1, env, rest);
      ExpectedLogsFrame(t1.users, t.users, env, rest);
      ConcatAssoc(t.logs, head, ExpectedLogs(t.users, env, rest));
    }
  }

  /** The loop stamps exactly the attempted users with today. */
  lemma {:induction false} NotifyUsersUsers(t: Tables, env: DispatchEnv, order: seq<UserId>)
    requires forall uid :: uid in order ==> uid in t.users
    requires NoDuplicates(order)
    ensures forall uid :: uid in t.users ==>
      NotifyUsers(t, env, order).users[uid] ==
        (if uid in order && WillAttempt(env, t.users[uid])
         then t.users[uid].(lastNotificationSent := Some(env.today))
         else t.users[uid])
    decreases |order|
  {
    if order != [] {
      var u0 := order[0];
      var rest := order[1..];
      var t1 := NotifyUser(t, env, u0);
      NoDuplicatesTail(order);
      NotifyUsersUsers(t1, env, rest);
    }
  }

  /** The number of rows in `logs` addressed to `uid`. */
  function LogsFor(logs: seq<NotificationLog>, uid: UserId): nat {
    if logs == [] then 0 else (if logs[0].user == uid then 1 else 0) + LogsFor(logs[1..], uid)
  }

  lemma {:induction false} LogsForAppend(a: seq<NotificationLog>, b: seq<NotificationLog>, uid: UserId)
    ensures LogsFor(a + b, uid) == LogsFor(a, uid) + LogsFor(b, uid)
    decreases |a|
  {
    if a == [] {
      assert a + b == b;
    } else {
      assert (a + b)[0] == a[0];
      assert (a + b)[1..] == a[1..] + b;
      LogsForAppend(a[1..], b, uid);
    }
  }

  /** Each user of a duplicate-free order gets one row if attempted, none
      otherwise. */
  lemma {:induction false} ExpectedLogsPerUser(users: map<UserId, User>, env: DispatchEnv,
                                               order: seq<UserId>, uid: UserId)
    requires forall u :: u in order ==> u in users
    requires NoDuplicates(order)
    requires uid in users
    ensures LogsFor(ExpectedLogs(users, env, order), uid) ==
      (if uid in order && WillAttempt(env, users[uid]) then 1 else 0)
    decreases |order|
  {
    if order != [] {
      var rest := order[1..];
      NoDuplicatesTail(order);
      var head := if WillAttempt(env, users[order[0]]) then [AttemptLog(env, order[0])] else [];
      LogsForAppend(head, ExpectedLogs(users, env, rest), uid);
      ExpectedLogsPerUser(users, env, rest, uid);
      if head != [] {
        assert head[1..] == [];
      }
    }
  }

  /** Every row of a reference run is the attempt record of an attempted
      user of the order. */
  lemma {:induction false} ExpectedLogsShape(users: map<UserId, User>, env: DispatchEnv, order: seq<UserId>)
    requires forall u :: u in order ==> u in users
    ensures forall l :: l in ExpectedLogs(users, env, order) ==>
      && l.user in order && WillAttempt(env, users[l.user])
      && l == AttemptLog(env, l.user)
    decreases |order|
  {
    if order != [] {
      ExpectedLogsShape(users, env, order[1..]);
    }
  }

  // ---------------------------------------------------------------------
  // send_flash_promo_notification

  /** The users table enumerated in some order, each user once. */
  ghost predicate EnumeratesUsers(w: World, order: seq<UserId>) {
    NoDuplicates(order) && forall uid :: uid in order <==> uid in w.users
  }

  /** Dispatch for one promo: resolve it once, then run the loop over the
      users. An unknown promo id is a silent no-op. */
  function SendFlashPromoNotification(w: World, promoId: PromoId, order: seq<UserId>, today: Date,
                                     sentAt: SendClock, dist: DistanceFn, publishOk: PublishOracle): (w': World)
    requires WellFormed(w) && EnumeratesUsers(w, order)
    ensures WellFormed(w')
    ensures promoId !in w.promos ==> w' == w
    ensures w'.users.Keys == w.users.Keys && EnumeratesUsers(w', order)
    ensures w' == w.(users := w'.users, logs := w'.logs)
    ensures |w'.logs| >= |w.logs| && w'.logs[..|w.logs|] == w.logs
  {
    if promoId !in w.promos then w
    else
      var env := ResolveEnv(w, promoId, today, sentAt, dist, publishOk);
      var t := NotifyUsers(Tables(w.users, w.logs), env, order);
      var w' := w.(users := t.users, logs := t.logs);
      assert WellFormed(w') by {
        NotifyUsersLogs(Tables(w.users, w.logs), env, order);
        ExpectedLogsShape(w.users, env, order);
        forall i | 0 <= i < |w'.logs| ensures LogRefsOk(w', w'.logs[i]) {
          if i >= |w.logs| {
            assert w'.logs[i] in ExpectedLogs(w.users, env, order);
          } else {
            assert w'.logs[i] == w.logs[i];
          }
        }
      }
      assert w'.logs[..|w.logs|] == w.logs by {
        NotifyUsersLogs(Tables(w.users, w.logs), env, order);
      }
      w'
  }

  /** What one dispatch run does, user by user:
      - each user gets exactly one new log row if the run attempts them and
        none otherwise (unselected users, far users and users already
        notified today get nothing);
      - every new row names this promo and its store, carries the promo
        text, and is `delivered` exactly when the publish returned and
        `failed` otherwise;
      - attempted users are stamped with today whatever the delivery status;
        every other user is unchanged. */
  lemma DispatchEffect(w: World, promoId: PromoId, order: seq<UserId>, today: Date,
                       sentAt: SendClock, dist: DistanceFn, publishOk: PublishOracle)
    requires WellFormed(w) && EnumeratesUsers(w, order) && promoId in w.promos
    ensures var env := ResolveEnv(w, promoId, today, sentAt, dist, publishOk);
      var w' := SendFlashPromoNotification(w, promoId, order, today, sentAt, dist, publishOk);
      var added := w'.logs[|w.logs|..];
      && (forall uid :: uid in w.users ==>
            LogsFor(added, uid) == (if WillAttempt(env, w.users[uid]) then 1 else 0))
      && (forall l :: l in added ==>
            && l.user in w.users
            && l.flashPromo == Some(promoId)
            && l.store == PromoProduct(w, promoId).store
            && l.message == PromoMessage(PromoProduct(w, promoId).name, w.promos[promoId].promoPrice)
            && l.sentAt == sentAt(l.user)
            && (l.deliveryStatus == Delivered <==> publishOk(l.user))
            && (l.deliveryStatus == Failed <==> !publishOk(l.user)))
      && (forall uid :: uid in w.users ==>
            w'.users[uid] == (if WillAttempt(env, w.users[uid])
                              then w.users[uid].(lastNotificationSent := Some(today))
                              else w.users[uid]))
  {
    var env := ResolveEnv(w, promoId, today, sentAt, dist, publishOk);
    var t := Tables(w.users, w.logs);
    NotifyUsersLogs(t, env, order);
    NotifyUsersUsers(t, env, order);
    var expected := ExpectedLogs(w.users, env, order);
    var w' := SendFlashPromoNotification(w, promoId, order, today, sentAt, dist, publishOk);
    assert w'.logs[|w.logs|..] == expected;
    forall uid | uid in w.users
      ensures LogsFor(expected, uid) == (if WillAttempt(env, w.users[uid]) then 1 else 0)
    {
      ExpectedLogsPerUser(w.users, env, order, uid);
    }
    ExpectedLogsShape(w.users, env, order);
  }

  /** A user stamped with today's date is skipped even when selected and
      near; for a user never notified the date test excludes nothing. */
  lemma DailyDeduplication(env: DispatchEnv, u: User)
    ensures u.lastNotificationSent == Some(env.today) ==> !WillAttempt(env, u)
    ensures u.lastNotificationSent.None? ==>
      (WillAttempt(env, u) <==>
         Matches(SegmentQuery(env.promo.eligibleSegments), u.userType)
         && IsUserNearStore(u, env.store, DefaultMaxDistanceKm, env.dist))
  {
  }

  /** Running the dispatch again the same day attempts nobody the first run
      attempted: each of them now carries today's date. */
  lemma SecondRunSameDaySkipsNotified(w: World, promoId: PromoId, order: seq<UserId>, today: Date,
                                      sentAt: SendClock, sentAt2: SendClock, dist: DistanceFn,
                                      publishOk: PublishOracle, publishOk2: PublishOracle)
    requires WellFormed(w) && EnumeratesUsers(w, order) && promoId in w.promos
    ensures var w1 := SendFlashPromoNotification(w, promoId, order, today, sentAt, dist, publishOk);
      var env1 := ResolveEnv(w, promoId, today, sentAt, dist, publishOk);
      var env2 := ResolveEnv(w1, promoId, today, sentAt2, dist, publishOk2);
      forall uid :: uid in w.users && WillAttempt(env1, w.users[uid]) ==> !WillAttempt(env2, w1.users[uid])
  {
    DispatchEffect(w, promoId, order, today, sentAt, dist, publishOk);
  }

  // ---------------------------------------------------------------------
  // A run cut short by an exception

  /** Where an exception escapes the per-user loop: once the first `handled`
      users of the order were handled in full. With `logWritten`, it
      escapes from saving the stamp of the next user, so that user's row is
      already written but the stamp is not; otherwise the next user left no
      trace (building the client or writing the row raised). Nothing undoes
      the rows and stamps already written. */
  datatype LoopFault = LoopFault(handled: nat, logWritten: bool)
  {
    /** How many users of an order of length `n` were handled in full. */
    function Cut(n: nat): (k: nat)
      ensures k <= n && (k == n <==> handled >= n)
    {
      if handled < n then handled else n
    }
  }

  /** The loop, interrupted by `f`. */
  function NotifyUsersUntil(t: Tables, env: DispatchEnv, order: seq<UserId>, f: LoopFault): (t': Tables)
    requires forall uid :: uid in order ==> uid in t.users
    ensures t'.users.Keys == t.users.Keys
  {
    var k := f.Cut(|order|);
    assert forall uid :: uid in order[..k] ==> uid in t.users by {
      forall uid | uid in order[..k] ensures uid in t.users {
        var i :| 0 <= i < k && order[..k][i] == uid;
        assert order[i] == uid;
      }
    }
    var done := NotifyUsers(t, env, order[..k]);
    if f.logWritten && k < |order| && WillAttempt(env, done.users[order[k]]) then
      Tables(done.users, SendNotification(done.logs, env, order[k]))
    else done
  }

  /** The reference rows split along a split of the order. */
  lemma {:induction false} ExpectedLogsSplit(users: map<UserId, User>, env: DispatchEnv,
                                             a: seq<UserId>, b: seq<UserId>)
    requires forall uid :: uid in a ==> uid in users
    requires forall uid :: uid in b ==> uid in users
    ensures ExpectedLogs(users, env, a + b) == ExpectedLogs(users, env, a) + ExpectedLogs(users, env, b)
    decreases |a|
  {
    if a == [] {
      assert a + b == b;
    } else {
      assert (a + b)[0] == a[0];
      assert (a + b)[1..] == a[1..] + b;
      ExpectedLogsSplit(users, env, a[1..], b);
    }
  }

  lemma ConcatAssoc<T>(a: seq<T>, b: seq<T>, c: seq<T>)
    ensures a + (b + c) == (a + b) + c
  {
  }

  lemma NoDuplicatesPrefix<T>(xs: seq<T>, k: nat)
    requires NoDuplicates(xs) && k <= |xs|
    ensures NoDuplicates(xs[..k])
    ensures k < |xs| ==> xs[k] !in xs[..k]
  {
    if k < |xs| {
      forall i | 0 <= i < k ensures xs[..k][i] != xs[k] {
        assert xs[..k][i] == xs[i];
      }
    }
  }

  /** An interrupted loop writes a prefix of the rows the whole loop writes,
      and stamps exactly the attempted users among those it handled in
      full. When the exception comes after the last user, it is the whole
      loop. */
  lemma NotifyUsersUntilPrefix(t: Tables, env: DispatchEnv, order: seq<UserId>, f: LoopFault)
    requires forall uid :: uid in order ==> uid in t.users
    requires NoDuplicates(order)
    ensures var u := NotifyUsersUntil(t, env, order, f);
      var full := NotifyUsers(t, env, order);
      && |t.logs| <= |u.logs| <= |full.logs|
      && u.logs == full.logs[..|u.logs|]
      && (forall uid :: uid in t.users ==>
            u.users[uid] ==
              (if uid in order[..f.Cut(|order|)] && WillAttempt(env, t.users[uid])
               then t.users[uid].(lastNotificationSent := Some(env.today))
               else t.users[uid]))
      && (f.handled >= |order| ==> u == full)
  {
    var k := f.Cut(|order|);
    assert forall uid :: uid in order[..k] ==> uid in order;
    NoDuplicatesPrefix(order, k);
    NotifyUsersUsers(t, env, order[..k]);
    UntilLogsPrefix(t, env, order, f);
    if f.handled >= |order| {
      assert order[..k] == order;
    }
  }

  /** The rows half of `NotifyUsersUntilPrefix`. */
  lemma UntilLogsPrefix(t: Tables, env: DispatchEnv, order: seq<UserId>, f: LoopFault)
    requires forall uid :: uid in order ==> uid in t.users
    requires NoDuplicates(order)
    ensures var u := NotifyUsersUntil(t, env, order, f);
      var full := NotifyUsers(t, env, order);
      && |t.logs| <= |u.logs| <= |full.logs|
      && u.logs == full.logs[..|u.logs|]
  {
    var k := f.Cut(|order|);
    LoopResumes(t, env, order, k);
    var done := NotifyUsers(t, env, order[..k]);
    var rest := ExpectedLogs(t.users, env, order[k..]);
    if f.logWritten && k < |order| && WillAttempt(env, done.users[order[k]]) {
      NextRowIsNext(t, env, order, k);
      PrefixOfConcat(done.logs, rest, 1);
    } else {
      PrefixOfConcat(done.logs, rest, 0);
    }
  }

  /** After `k` users, the next user's record is untouched, and when the run
      attempts them their row comes first among the remaining rows. */
  lemma NextRowIsNext(t: Tables, env: DispatchEnv, order: seq<UserId>, k: nat)
    requires forall uid :: uid in order ==> uid in t.users
    requires NoDuplicates(order) && k < |order|
    ensures forall uid :: uid in order[..k] ==> uid in t.users
    ensures NotifyUsers(t, env, order[..k]).users[order[k]] == t.users[order[k]]
    ensures WillAttempt(env, t.users[order[k]]) ==>
      ExpectedLogs(t.users, env, order[k..])[..1] == [AttemptLog(env, order[k])]
  {
    assert forall uid :: uid in order[..k] ==> uid in order;
    NoDuplicatesPrefix(order, k);
    NotifyUsersUsers(t, env, order[..k]);
    assert order[k..] == [order[k]] + order[k + 1..];
  }

  lemma PrefixOfConcat<T>(a: seq<T>, b: seq<T>, n: nat)
    requires n <= |b|
    ensures (a + b)[..|a| + n] == a + b[..n]
  {
  }

  /** The whole loop writes the rows of its first `k` users, then the rows
      the reference run predicts for the others. */
  lemma LoopResumes(t: Tables, env: DispatchEnv, order: seq<UserId>, k: nat)
    requires forall uid :: uid in order ==> uid in t.users
    requires NoDuplicates(order) && k <= |order|
    ensures forall uid :: uid in order[..k] ==> uid in t.users
    ensures NotifyUsers(t, env, order).logs ==
      NotifyUsers(t, env, order[..k]).logs + ExpectedLogs(t.users, env, order[k..])
    ensures |t.logs| <= |NotifyUsers(t, env, order[..k]).logs|
  {
    var pre := order[..k];
    var post := order[k..];
    assert order == pre + post;
    assert forall uid :: uid in pre ==> uid in order;
    NoDuplicatesPrefix(order, k);
    var e := ExpectedLogs(t.users, env, pre);
    var rest := ExpectedLogs(t.users, env, post);
    NotifyUsersLogs(t, env, pre);
    NotifyUsersLogs(t, env, order);
    ExpectedLogsSplit(t.users, env, pre, post);
    ConcatAssoc(t.logs, e, rest);
  }

  /** Dispatch for one promo, interrupted by `f` inside the loop over the
      users. Its rows are a prefix of the rows of the run `f` interrupts. */
  function SendFlashPromoNotificationUntil(w: World, promoId: PromoId, order: seq<UserId>, today: Date,
                                          sentAt: SendClock, dist: DistanceFn, publishOk: PublishOracle,
                                          f: LoopFault): (w': World)
    requires WellFormed(w) && EnumeratesUsers(w, order)
    ensures WellFormed(w')
    ensures promoId !in w.promos || f == LoopFault(0, false) ==> w' == w
    ensures w'.users.Keys == w.users.Keys && EnumeratesUsers(w', order)
    ensures w' == w.(users := w'.users, logs := w'.logs)
    ensures var full := SendFlashPromoNotification(w, promoId, order, today, sentAt, dist, publishOk);
      && |w.logs| <= |w'.logs| <= |full.logs|
      && w'.logs == full.logs[..|w'.logs|]
      && (f.handled >= |order| ==> w' == full)
  {
    if promoId !in w.promos then w
    else
      var env := ResolveEnv(w, promoId, today, sentAt, dist, publishOk);
      var t := NotifyUsersUntil(Tables(w.users, w.logs), env, order, f);
      var w' := w.(users := t.users, logs := t.logs);
      var full := SendFlashPromoNotification(w, promoId, order, today, sentAt, dist, publishOk);
      NotifyUsersUntilPrefix(Tables(w.users, w.logs), env, order, f);
      assert WellFormed(w') by {
        forall i | 0 <= i < |w'.logs| ensures LogRefsOk(w', w'.logs[i]) {
          assert w'.logs[i] == full.logs[i];
          assert LogRefsOk(full, full.logs[i]);
        }
      }
      assert w'.logs[..|w.logs|] == w.logs by {
        assert w'.logs[..|w.logs|] == full.logs[..|w'.logs|][..|w.logs|];
      }
      w'
  }
}
