/** The periodic promo jobs: the activation scan that dispatches every promo
    live at the current time of day, the sweep that deactivates expired
    promos, and the one-promo dispatch job. Each job turns an exception
    into a result string instead of raising. An exception is modelled as a
    fault passed in: where it strikes is part of the fault, and the effects
    committed before it stay (nothing wraps a job in a transaction). */
module Tasks {
  import opened Basics
  import opened Models
  import opened Geo
  import opened Dispatch

  /** What a job leaves behind: the tables and its result string. */
  datatype JobResult = JobResult(world: World, message: string)

  /** What each dispatch of a scan reads outside the tables, by promo: the
      date it reads from the clock when it starts, the instant each of its
      rows is inserted, and the outcome of each of its publishes. A scan
      that crosses midnight gives its promos different dates. */
  datatype Readings = Readings(
    today: PromoId -> Date,
    sentAt: PromoId -> SendClock,
    publishOk: PromoId -> PublishOracle)

  /** An exception inside the activation scan, with its text. It escapes
      from the dispatch of the selected promo at position `after`, at point
      `within` of its loop over the users; when `after` is past the
      selection, it comes after the last dispatch. */
  datatype ScanFault = ScanFault(after: nat, within: LoopFault, error: string)

  /** An exception inside the one-promo job, escaping from the dispatch at
      point `within` of its loop over the users, with its text. */
  datatype SendFault = SendFault(within: LoopFault, error: string)

  // ---------------------------------------------------------------------
  // Result strings

  /** `prefix`, the decimal count, `suffix`. */
  function Report(prefix: string, n: nat, suffix: string): string {
    prefix + NatToString(n) + suffix
  }

  /** Read the count back out of a result string of the given shape; `None`
      for any string not of that shape. */
  function ParseReport(prefix: string, suffix: string, m: string): (n: Option<nat>)
    ensures n.Some? ==> |m| > |prefix| + |suffix| && m[..|prefix|] == prefix
  {
    if |m| > |prefix| + |suffix| && m[..|prefix|] == prefix && m[|m| - |suffix|..] == suffix
       && AllDigits(m[|prefix|..|m| - |suffix|])
    then Some(DigitsValue(m[|prefix|..|m| - |suffix|]))
    else None
  }

  /** A reported count reads back as the count. */
  lemma ReportRoundTrip(prefix: string, n: nat, suffix: string)
    ensures ParseReport(prefix, suffix, Report(prefix, n, suffix)) == Some(n)
  {
    var m := Report(prefix, n, suffix);
    var digits := NatToString(n);
    assert m[..|prefix|] == prefix;
    assert m[|m| - |suffix|..] == suffix;
    assert m[|prefix|..|m| - |suffix|] == digits;
    NatToStringRoundTrip(n);
  }

  /** An error string never reads as a count report whose prefix starts
      differently. */
  lemma ErrorIsNoReport(prefix: string, suffix: string, errorPrefix: string, e: string)
    requires |prefix| > 0 && |errorPrefix| > 0 && prefix[0] != errorPrefix[0]
    ensures ParseReport(prefix, suffix, errorPrefix + e) == None
  {
    var m := errorPrefix + e;
    if |m| > |prefix| + |suffix| {
      assert m[..|prefix|][0] == errorPrefix[0];
    }
  }

  const ProcessedPrefix: string := "Processed "
  const ProcessedSuffix: string := " active promos"
  const ScanErrorPrefix: string := "Error checking active promos: "
  const DeactivatedPrefix: string := "Deactivated "
  const DeactivatedSuffix: string := " expired promos"
  const SweepErrorPrefix: string := "Error cleaning up expired promos: "
  const SentPrefix: string := "Notification sent for promo "
  const SendErrorPrefix: string := "Error sending notification for promo "

  // ---------------------------------------------------------------------
  // check_active_promos

  /** The scan's filter: the flag is set and the time of day lies in the
      promo's window, both ends included. */
  predicate InActiveWindow(p: FlashPromo, t: TimeOfDay) {
    p.isActive && p.startTime <= t && t <= p.endTime
  }

  /** A window that ends before it starts selects its promo at no time of
      day. */
  lemma InvertedWindowNeverSelected(p: FlashPromo, t: TimeOfDay)
    requires p.startTime > p.endTime
    ensures !InActiveWindow(p, t)
  {
  }

  /** The promos table enumerated in some order, each id once. */
  ghost predicate EnumeratesPromos(order: seq<PromoId>, promos: map<PromoId, FlashPromo>) {
    NoDuplicates(order) && forall id :: id in order <==> id in promos
  }

  /** The promos the scan selects, in table order. */
  function ActivePromos(promos: map<PromoId, FlashPromo>, order: seq<PromoId>, t: TimeOfDay): (sel: seq<PromoId>)
    requires NoDuplicates(order)
    ensures forall id :: id in sel <==> id in order && id in promos && InActiveWindow(promos[id], t)
    ensures NoDuplicates(sel)
    decreases |order|
  {
    if order == [] then []
    else
      assert NoDuplicates(order[1..]) && order[0] !in order[1..] by { NoDuplicatesTail(order); }
      var rest := ActivePromos(promos, order[1..], t);
      if order[0] in promos && InActiveWindow(promos[order[0]], t) then
        assert NoDuplicates([order[0]] + rest) by {
          forall i, j | 0 <= i < j < |[order[0]] + rest|
            ensures ([order[0]] + rest)[i] != ([order[0]] + rest)[j]
          {
            if i == 0 {
              assert ([order[0]] + rest)[j] == rest[j - 1];
            } else {
              assert ([order[0]] + rest)[i] == rest[i - 1];
              assert ([order[0]] + rest)[j] == rest[j - 1];
            }
          }
        }
        [order[0]] + rest
      else rest
  }

  /** The scan selects as many promos as the table holds promos live at `t`. */
  lemma ActivePromosCount(promos: map<PromoId, FlashPromo>, order: seq<PromoId>, t: TimeOfDay)
    requires EnumeratesPromos(order, promos)
    ensures |ActivePromos(promos, order, t)| ==
      |set id | id in promos && InActiveWindow(promos[id], t)|
  {
    var sel := ActivePromos(promos, order, t);
    var inSel := set x: PromoId | x in sel;
    var live := set id | id in promos && InActiveWindow(promos[id], t);
    assert |inSel| == |sel| by { DistinctLength<PromoId>(sel); }
    assert inSel == live;
  }

  /** Dispatch each promo of `ids` in turn. Each dispatch queries the users
      afresh; `userOrder` is one enumeration order taken for all of them,
      since the query names no order. */
  function DispatchAll(w: World, ids: seq<PromoId>, userOrder: seq<UserId>, rd: Readings, dist: DistanceFn): (w': World)
    requires WellFormed(w) && EnumeratesUsers(w, userOrder)
    ensures WellFormed(w') && EnumeratesUsers(w', userOrder)
    ensures w' == w.(users := w'.users, logs := w'.logs)
    ensures |w'.logs| >= |w.logs| && w'.logs[..|w.logs|] == w.logs
    decreases |ids|
  {
    if ids == [] then w
    else
      var w1 := SendFlashPromoNotification(w, ids[0], userOrder, rd.today(ids[0]), rd.sentAt(ids[0]), dist, rd.publishOk(ids[0]));
      var w2 := DispatchAll(w1, ids[1..], userOrder, rd, dist);
      assert w2.logs[..|w.logs|] == w.logs by {
        assert w2.logs[..|w.logs|] == w2.logs[..|w1.logs|][..|w.logs|];
      }
      w2
  }

  /** Dispatching a sequence of promos is dispatching a prefix of it, then
      the rest. */
  lemma {:induction false} DispatchAllSplit(w: World, ids: seq<PromoId>, k: nat, userOrder: seq<UserId>, rd: Readings, dist: DistanceFn)
    requires WellFormed(w) && EnumeratesUsers(w, userOrder) && k <= |ids|
    ensures var w1 := DispatchAll(w, ids[..k], userOrder, rd, dist);
      DispatchAll(w, ids, userOrder, rd, dist) ==
        DispatchAll(w1, ids[k..], userOrder, rd, dist)
    decreases k
  {
    if k == 0 {
      assert ids[..0] == [] && ids[0..] == ids;
    } else {
      var w1 := SendFlashPromoNotification(w, ids[0], userOrder, rd.today(ids[0]), rd.sentAt(ids[0]), dist, rd.publishOk(ids[0]));
      DispatchAllSplit(w1, ids[1..], k - 1, userOrder, rd, dist);
      assert ids[..k][0] == ids[0] && ids[..k][1..] == ids[1..][..k - 1];
      assert ids[1..][k - 1..] == ids[k..];
    }
  }

  /** The activation scan at time of day `t`: dispatch every selected promo,
      then report how many the filter matches. Only users and logs change,
      and promos outside the selection are never dispatched. */
  function CheckActivePromos(w: World, t: TimeOfDay, promoOrder: seq<PromoId>, userOrder: seq<UserId>,
                             rd: Readings, dist: DistanceFn,
                             fault: Option<ScanFault>): (r: JobResult)
    requires WellFormed(w) && EnumeratesUsers(w, userOrder) && EnumeratesPromos(promoOrder, w.promos)
    ensures WellFormed(r.world)
    ensures r.world == w.(users := r.world.users, logs := r.world.logs)
    ensures var sel := ActivePromos(w.promos, promoOrder, t);
      fault.None? ==>
        && r.world == DispatchAll(w, sel, userOrder, rd, dist)
        && ParseReport(ProcessedPrefix, ProcessedSuffix, r.message) ==
             Some(|set id | id in w.promos && InActiveWindow(w.promos[id], t)|)
    ensures var sel := ActivePromos(w.promos, promoOrder, t);
      fault.Some? ==>
        && r.world ==
             (if fault.value.after < |sel| then
                SendFlashPromoNotificationUntil(DispatchAll(w, sel[..fault.value.after], userOrder, rd, dist),
                                                sel[fault.value.after], userOrder,
                                                rd.today(sel[fault.value.after]), rd.sentAt(sel[fault.value.after]),
                                                dist, rd.publishOk(sel[fault.value.after]), fault.value.within)
              else DispatchAll(w, sel, userOrder, rd, dist))
        && ParseReport(ProcessedPrefix, ProcessedSuffix, r.message) == None
        && |r.message| >= |ScanErrorPrefix|
        && r.message[..|ScanErrorPrefix|] == ScanErrorPrefix
        && r.message[|ScanErrorPrefix|..] == fault.value.error
  {
    var sel := ActivePromos(w.promos, promoOrder, t);
    match fault
    case Some(f) =>
      var w' :=
        if f.after < |sel| then
          var w1 := DispatchAll(w, sel[..f.after], userOrder, rd, dist);
          SendFlashPromoNotificationUntil(w1, sel[f.after], userOrder, rd.today(sel[f.after]), rd.sentAt(sel[f.after]), dist, rd.publishOk(sel[f.after]), f.within)
        else DispatchAll(w, sel, userOrder, rd, dist);
      var m := ScanErrorPrefix + f.error;
      assert ParseReport(ProcessedPrefix, ProcessedSuffix, m) == None by {
        ErrorIsNoReport(ProcessedPrefix, ProcessedSuffix, ScanErrorPrefix, f.error);
      }
      JobResult(w', m)
    case None =>
      var w' := DispatchAll(w, sel, userOrder, rd, dist);
      // the count reads the result cache the loop filled: the selection
      var n := |sel|;
      assert n == |set id | id in w.promos && InActiveWindow(w.promos[id], t)| by {
        ActivePromosCount(w.promos, promoOrder, t);
      }
      assert ParseReport(ProcessedPrefix, ProcessedSuffix, Report(ProcessedPrefix, n, ProcessedSuffix)) == Some(n) by {
        ReportRoundTrip(ProcessedPrefix, n, ProcessedSuffix);
      }
      JobResult(w', Report(ProcessedPrefix, n, ProcessedSuffix))
  }

  /** The comparison the sweep's filter makes between a promo's end time of
      day and the current instant. */
  type EndsBefore = (TimeOfDay, Timestamp) -> bool

  /** Dispatching a sequence of promos is dispatching those before position
      `a`, then the promo at `a`, then the rest. */
  lemma DispatchAllResumes(w: World, ids: seq<PromoId>, a: nat, userOrder: seq<UserId>, rd: Readings, dist: DistanceFn)
    requires WellFormed(w) && EnumeratesUsers(w, userOrder) && a < |ids|
    ensures var w1 := DispatchAll(w, ids[..a], userOrder, rd, dist);
      var w2 := SendFlashPromoNotification(w1, ids[a], userOrder, rd.today(ids[a]), rd.sentAt(ids[a]), dist, rd.publishOk(ids[a]));
      DispatchAll(w, ids, userOrder, rd, dist) ==
        DispatchAll(w2, ids[a + 1..], userOrder, rd, dist)
  {
    DispatchAllSplit(w, ids, a, userOrder, rd, dist);
    assert ids[a..][0] == ids[a] && ids[a..][1..] == ids[a + 1..];
  }

  /** An interrupted scan has written a prefix of the rows the whole scan
      writes; an exception after the last dispatch keeps every dispatch. */
  lemma ScanFaultKeepsPrefix(w: World, t: TimeOfDay, promoOrder: seq<PromoId>, userOrder: seq<UserId>,
                             rd: Readings, dist: DistanceFn,
                             f: ScanFault)
    requires WellFormed(w) && EnumeratesUsers(w, userOrder) && EnumeratesPromos(promoOrder, w.promos)
    ensures var cut := CheckActivePromos(w, t, promoOrder, userOrder, rd, dist, Some(f)).world;
      var whole := CheckActivePromos(w, t, promoOrder, userOrder, rd, dist, None).world;
      && |w.logs| <= |cut.logs| <= |whole.logs|
      && cut.logs == whole.logs[..|cut.logs|]
      && (f.after >= |ActivePromos(w.promos, promoOrder, t)| ==> cut == whole)
  {
    var sel := ActivePromos(w.promos, promoOrder, t);
    if f.after < |sel| {
      CutDispatchPrefix(w, sel, f.after, f.within, userOrder, rd, dist);
    }
  }

  /** Dispatching the promos before position `a` and part of the promo at
      `a` writes a prefix of the rows dispatching all of them writes. */
  lemma CutDispatchPrefix(w: World, ids: seq<PromoId>, a: nat, within: LoopFault, userOrder: seq<UserId>,
                          rd: Readings, dist: DistanceFn)
    requires WellFormed(w) && EnumeratesUsers(w, userOrder) && a < |ids|
    ensures var w1 := DispatchAll(w, ids[..a], userOrder, rd, dist);
      var cut := SendFlashPromoNotificationUntil(w1, ids[a], userOrder, rd.today(ids[a]), rd.sentAt(ids[a]), dist, rd.publishOk(ids[a]), within);
      var whole := DispatchAll(w, ids, userOrder, rd, dist);
      && |w.logs| <= |cut.logs| <= |whole.logs|
      && cut.logs == whole.logs[..|cut.logs|]
  {
    var w1 := DispatchAll(w, ids[..a], userOrder, rd, dist);
    var w2 := SendFlashPromoNotification(w1, ids[a], userOrder, rd.today(ids[a]), rd.sentAt(ids[a]), dist, rd.publishOk(ids[a]));
    var whole := DispatchAll(w, ids, userOrder, rd, dist);
    var cut := SendFlashPromoNotificationUntil(w1, ids[a], userOrder, rd.today(ids[a]), rd.sentAt(ids[a]), dist, rd.publishOk(ids[a]), within);
    DispatchAllResumes(w, ids, a, userOrder, rd, dist);
    PrefixTrans(cut.logs, w2.logs, whole.logs);
  }

  lemma PrefixTrans<T>(a: seq<T>, b: seq<T>, c: seq<T>)
    requires |a| <= |b| <= |c| && a == b[..|a|] && b == c[..|b|]
    ensures a == c[..|a|]
  {
  }

  // ---------------------------------------------------------------------
  // cleanup_expired_promos

  /** The sweep's filter: still flagged active and ending before `now`. */
  predicate Expired(p: FlashPromo, now: Timestamp, endsBefore: EndsBefore) {
    p.isActive && endsBefore(p.endTime, now)
  }

  function ExpiredPromos(promos: map<PromoId, FlashPromo>, now: Timestamp, endsBefore: EndsBefore): set<PromoId> {
    set id | id in promos && Expired(promos[id], now, endsBefore)
  }

  /** The expiry sweep: count the expired promos, then clear their flag in
      one bulk update. The bulk update writes the flag alone; the other
      columns, `updated_at` included, keep their values. A fault in the
      count or the update leaves every table as it was. */
  function CleanupExpiredPromos(w: World, now: Timestamp, endsBefore: EndsBefore,
                                fault: Option<string>): (r: JobResult)
    ensures WellFormed(w) ==> WellFormed(r.world)
    ensures r.world == w.(promos := r.world.promos)
    ensures r.world.promos.Keys == w.promos.Keys
    ensures fault.None? ==>
      && (forall id :: id in w.promos ==>
            r.world.promos[id] ==
              w.promos[id].(isActive := w.promos[id].isActive && !endsBefore(w.promos[id].endTime, now)))
      && ParseReport(DeactivatedPrefix, DeactivatedSuffix, r.message) ==
           Some(|ExpiredPromos(w.promos, now, endsBefore)|)
    ensures fault.Some? ==>
      && r.world == w
      && ParseReport(DeactivatedPrefix, DeactivatedSuffix, r.message) == None
      && |r.message| >= |SweepErrorPrefix|
      && r.message[..|SweepErrorPrefix|] == SweepErrorPrefix
      && r.message[|SweepErrorPrefix|..] == fault.value
  {
    match fault
    case Some(e) =>
      assert ParseReport(DeactivatedPrefix, DeactivatedSuffix, SweepErrorPrefix + e) == None by {
        ErrorIsNoReport(DeactivatedPrefix, DeactivatedSuffix, SweepErrorPrefix, e);
      }
      JobResult(w, SweepErrorPrefix + e)
    case None =>
      var expired := ExpiredPromos(w.promos, now, endsBefore);
      var count := |expired|;
      var promos' := map id | id in w.promos ::
        if id in expired then w.promos[id].(isActive := false) else w.promos[id];
      assert ParseReport(DeactivatedPrefix, DeactivatedSuffix, Report(DeactivatedPrefix, count, DeactivatedSuffix)) == Some(count) by {
        ReportRoundTrip(DeactivatedPrefix, count, DeactivatedSuffix);
      }
      JobResult(w.(promos := promos'), Report(DeactivatedPrefix, count, DeactivatedSuffix))
  }

  /** The sweep never raises a flag: a promo active afterwards was active
      before and is not expired. */
  lemma CleanupNeverActivates(w: World, now: Timestamp, endsBefore: EndsBefore, fault: Option<string>, id: PromoId)
    requires id in w.promos
    ensures var r := CleanupExpiredPromos(w, now, endsBefore, fault);
      r.world.promos[id].isActive ==> w.promos[id].isActive
    ensures var r := CleanupExpiredPromos(w, now, endsBefore, fault);
      fault.None? ==> (r.world.promos[id].isActive <==> w.promos[id].isActive && !Expired(w.promos[id], now, endsBefore))
  {
  }

  /** A second sweep at the same instant finds nothing: it reports zero
      and changes no table. */
  lemma CleanupIdempotent(w: World, now: Timestamp, endsBefore: EndsBefore)
    ensures var r1 := CleanupExpiredPromos(w, now, endsBefore, None);
      var r2 := CleanupExpiredPromos(r1.world, now, endsBefore, None);
      r2.world == r1.world && ParseReport(DeactivatedPrefix, DeactivatedSuffix, r2.message) == Some(0)
  {
    var r1 := CleanupExpiredPromos(w, now, endsBefore, None);
    assert ExpiredPromos(r1.world.promos, now, endsBefore) == {};
    var r2 := CleanupExpiredPromos(r1.world, now, endsBefore, None);
    assert r2.world.promos == r1.world.promos;
  }

  // ---------------------------------------------------------------------
  // send_promo_notification

  /** Dispatch for one promo id and report it. The report names the id even
      when no such promo exists, since the dispatcher swallows that case. A
      fault keeps what the dispatch wrote before it and names the id and
      the error. */
  function SendPromoNotification(w: World, promoId: PromoId, userOrder: seq<UserId>, today: Date,
                                 sentAt: SendClock, dist: DistanceFn, publishOk: PublishOracle,
                                 fault: Option<SendFault>): (r: JobResult)
    requires WellFormed(w) && EnumeratesUsers(w, userOrder)
    ensures WellFormed(r.world)
    ensures fault.None? ==>
      && r.world == SendFlashPromoNotification(w, promoId, userOrder, today, sentAt, dist, publishOk)
      && ParseReport(SentPrefix, "", r.message) == Some(promoId)
    ensures fault.Some? ==> ParseReport(SendErrorPrefix, ": " + fault.value.error, r.message) == Some(promoId)
    ensures fault.Some? ==>
      && r.world == SendFlashPromoNotificationUntil(w, promoId, userOrder, today, sentAt, dist, publishOk,
                                                    fault.value.within)
      && ParseReport(SentPrefix, "", r.message) == None
      && |r.message| >= |SendErrorPrefix| + |fault.value.error|
      && r.message[..|SendErrorPrefix|] == SendErrorPrefix
      && r.message[|r.message| - |fault.value.error|..] == fault.value.error
  {
    match fault
    case Some(SendFault(within, e)) =>
      var m := SendErrorPrefix + NatToString(promoId) + ": " + e;
      SendErrorText(promoId, e);
      JobResult(SendFlashPromoNotificationUntil(w, promoId, userOrder, today, sentAt, dist, publishOk, within), m)
    case None =>
      assert ParseReport(SentPrefix, "", Report(SentPrefix, promoId, "")) == Some(promoId) by {
        ReportRoundTrip(SentPrefix, promoId, "");
      }
      JobResult(SendFlashPromoNotification(w, promoId, userOrder, today, sentAt, dist, publishOk),
                Report(SentPrefix, promoId, ""))
  }

  /** The one-promo job's error text names the id, which reads back, and
      ends with the error; it never reads as a success report. */
  lemma SendErrorText(promoId: PromoId, e: string)
    ensures var m := SendErrorPrefix + NatToString(promoId) + ": " + e;
      && ParseReport(SendErrorPrefix, ": " + e, m) == Some(promoId)
      && ParseReport(SentPrefix, "", m) == None
      && |m| >= |SendErrorPrefix| + |e|
      && m[..|SendErrorPrefix|] == SendErrorPrefix
      && m[|m| - |e|..] == e
  {
    var m := SendErrorPrefix + NatToString(promoId) + ": " + e;
    assert m == Report(SendErrorPrefix, promoId, ": " + e);
    ReportRoundTrip(SendErrorPrefix, promoId, ": " + e);
    assert m == SendErrorPrefix + (NatToString(promoId) + ": " + e);
    ErrorIsNoReport(SentPrefix, "", SendErrorPrefix, NatToString(promoId) + ": " + e);
  }

  /** An unknown promo id still yields the success report and changes
      nothing. */
  lemma UnknownPromoReportsSent(w: World, promoId: PromoId, userOrder: seq<UserId>, today: Date,
                                sentAt: SendClock, dist: DistanceFn, publishOk: PublishOracle)
    requires WellFormed(w) && EnumeratesUsers(w, userOrder) && promoId !in w.promos
    ensures var r := SendPromoNotification(w, promoId, userOrder, today, sentAt, dist, publishOk, None);
      r.world == w && ParseReport(SentPrefix, "", r.message) == Some(promoId)
  {
  }
}
