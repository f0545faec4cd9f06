/**
 * `trackUniqueVisitor` and `cleanOldDailyCounters`: counting a visit at
 * most once per 30 minutes per fingerprint, keeping one record per
 * fingerprint in today's list, the 20-entry visit history, and the
 * deletion of daily lists older than 30 days.
 */
module VisitTracking {
  import opened StorageKeys
  import opened VisitorLog
  import opened WebStorage

  /** The visit is a repeat: today's list has a record of `fp` whose last
      visit lies within the 30 minutes before `now`. */
  predicate IsRepeatVisit(items: map<string, Value>, fp: string, now: nat) {
    FindRecent(VisitorsAt(items, DailyKey(Today(now))), fp, now).Some?
  }

  /** localStorage after the counting part of a visit, before old daily
      lists are deleted. A repeat visit changes nothing; otherwise the total
      goes up, today's record is updated or appended, and the visit is put
      in front of the history. */
  function Visit(items: map<string, Value>, fp: string, sessionId: string, now: nat): (r: map<string, Value>)
    ensures IsRepeatVisit(items, fp, now) ==> r == items
    ensures !IsRepeatVisit(items, fp, now) ==> r.Keys == items.Keys + {TotalKey, DailyKey(Today(now)), HistoryKey}
    ensures forall k :: k in items && k != TotalKey && k != HistoryKey && k != DailyKey(Today(now)) ==> r[k] == items[k]
  {
    var key := DailyKey(Today(now));
    if IsRepeatVisit(items, fp, now) then items
    else
      items[TotalKey := Count(CountAt(items, TotalKey) + 1)]
           [key := Visitors(Upsert(VisitorsAt(items, key), fp, now))]
           [HistoryKey := History(Remember(HistoryAt(items, HistoryKey), HistoryEntry(now, sessionId, fp)))]
  }

  /** localStorage without its expired daily lists: a key goes exactly when
      it is a daily key whose date is more than 30 days before `now`, and
      every key that stays keeps its value. */
  function Prune(items: map<string, Value>, now: nat): (r: map<string, Value>)
    ensures forall k :: k in r <==> k in items && !Expired(k, now)
    ensures forall k :: k in r ==> r[k] == items[k]
  {
    map k | k in items && !Expired(k, now) :: items[k]
  }

  /** The keys the visit tracker owns are never taken for daily keys. */
  lemma FixedKeysNotDaily(now: nat)
    ensures !(DailyPrefix <= TotalKey) && !(DailyPrefix <= HistoryKey)
    ensures !Expired(TotalKey, now) && !Expired(HistoryKey, now)
    ensures forall d: nat :: DailyKey(d) != TotalKey && DailyKey(d) != HistoryKey
  {
  }

  /** Keys that are not daily keys survive pruning unchanged. */
  lemma PruneKeepsOtherKeys(items: map<string, Value>, now: nat, key: string)
    requires key in items && !(DailyPrefix <= key)
    ensures key in Prune(items, now) && Prune(items, now)[key] == items[key]
  {
  }

  /** Daily lists dated within the last 30 days survive pruning. */
  lemma PruneKeepsRecentDays(items: map<string, Value>, now: nat, day: nat)
    requires DailyKey(day) in items && day * DayMs >= now - RetentionDays * DayMs
    ensures DailyKey(day) in Prune(items, now) && Prune(items, now)[DailyKey(day)] == items[DailyKey(day)]
  {
    KeyDayOfDailyKey(day);
  }

  /** A repeat visit leaves the total, today's list and the history as
      they were. */
  lemma RepeatVisitNotCounted(items: map<string, Value>, fp: string, sessionId: string, now: nat)
    requires IsRepeatVisit(items, fp, now)
    ensures var r := Prune(Visit(items, fp, sessionId, now), now);
      && CountAt(r, TotalKey) == CountAt(items, TotalKey)
      && VisitorsAt(r, DailyKey(Today(now))) == VisitorsAt(items, DailyKey(Today(now)))
      && HistoryAt(r, HistoryKey) == HistoryAt(items, HistoryKey)
  {
    FixedKeysNotDaily(now);
    TodayNeverExpired(now);
  }

  /** A counted visit adds exactly one to the total, upserts the visitor's
      record in today's list and puts the visit in front of the history. */
  lemma CountedVisit(items: map<string, Value>, fp: string, sessionId: string, now: nat)
    requires !IsRepeatVisit(items, fp, now)
    ensures var r := Prune(Visit(items, fp, sessionId, now), now);
      && CountAt(r, TotalKey) == CountAt(items, TotalKey) + 1
      && VisitorsAt(r, DailyKey(Today(now))) == Upsert(VisitorsAt(items, DailyKey(Today(now))), fp, now)
      && HistoryAt(r, HistoryKey) == Remember(HistoryAt(items, HistoryKey), HistoryEntry(now, sessionId, fp))
  {
    FixedKeysNotDaily(now);
    TodayNeverExpired(now);
  }

  /** Today's list keeps one record per fingerprint and grows by at most one;
      the visitor is on it afterwards. */
  lemma VisitKeepsTodayDistinct(items: map<string, Value>, fp: string, sessionId: string, now: nat)
    requires DistinctFingerprints(VisitorsAt(items, DailyKey(Today(now))))
    ensures var before := VisitorsAt(items, DailyKey(Today(now)));
      var after := VisitorsAt(Prune(Visit(items, fp, sessionId, now), now), DailyKey(Today(now)));
      && DistinctFingerprints(after)
      && |before| <= |after| <= |before| + 1
      && fp in Fingerprints(after)
  {
    var before := VisitorsAt(items, DailyKey(Today(now)));
    if IsRepeatVisit(items, fp, now) {
      RepeatVisitNotCounted(items, fp, sessionId, now);
      var v :| v == FindRecent(before, fp, now).value;
      var i :| 0 <= i < |before| && before[i] == v;
      assert before[i].fingerprint == fp;
    } else {
      CountedVisit(items, fp, sessionId, now);
      UpsertRecord(before, fp, now);
      UpsertFrame(before, fp, now);
    }
  }

  /** After a counted visit the history holds at most 20 entries, the new
      one first and the earlier ones after it in their old order. */
  lemma CountedVisitHistory(items: map<string, Value>, fp: string, sessionId: string, now: nat)
    requires !IsRepeatVisit(items, fp, now)
    ensures var h := HistoryAt(Prune(Visit(items, fp, sessionId, now), now), HistoryKey);
      && 1 <= |h| <= HistoryLimit
      && h[0] == HistoryEntry(now, sessionId, fp)
      && h[1..] <= HistoryAt(items, HistoryKey)
  {
    CountedVisit(items, fp, sessionId, now);
  }

  /** A visit touches no key but the total, today's list and the history,
      apart from deleting expired daily lists. */
  lemma VisitFrame(items: map<string, Value>, fp: string, sessionId: string, now: nat, key: string)
    requires key != TotalKey && key != HistoryKey && key != DailyKey(Today(now))
    ensures var r := Prune(Visit(items, fp, sessionId, now), now);
      && (key in r <==> key in items && !Expired(key, now))
      && (key in r ==> r[key] == items[key])
  {
  }

  /** `cleanOldDailyCounters`: walks the keys present at the start and
      removes each expired daily list. */
  method CleanOldDailyCounters(local: Store, now: nat)
    modifies local
    ensures local.items == Prune(old(local.items), now)
  {
    ghost var start := local.items;
    var keys := local.items.Keys;
    while keys != {}
      invariant keys <= start.Keys
      invariant local.items == map k | k in start && (k in keys || !Expired(k, now)) :: start[k]
      decreases keys
    {
      var key :| key in keys;
      if DailyPrefix <= key {
        var day := ParseNat(key[|DailyPrefix|..]);
        if day.Some? && day.value * DayMs < now - RetentionDays * DayMs {
          local.RemoveItem(key);
        }
      }
      keys := keys - {key};
    }
  }

  /** `trackUniqueVisitor`, with the fingerprint, the session id and the
      clock passed in. */
  method TrackUniqueVisitor(local: Store, session: Store, fp: string, sessionId: string, now: nat)
    requires local != session
    modifies local, session
    ensures local.items == Prune(Visit(old(local.items), fp, sessionId, now), now)
    ensures session.items == old(session.items)[SessionKey :=
      Session(SessionData(sessionId, fp, now, !IsRepeatVisit(old(local.items), fp, now)))]
  {
    FixedKeysNotDaily(now);
    ghost var visited := Visit(local.items, fp, sessionId, now);
    var dailyKey := DailyKey(Today(now));
    var todayVisitors := VisitorsAt(local.items, dailyKey);
    var recentVisit := FindRecent(todayVisitors, fp, now);
    var totalVisitors := CountAt(local.items, TotalKey);
    if recentVisit.None? {
      totalVisitors := totalVisitors + 1;
      local.SetItem(TotalKey, Count(totalVisitors));
      var i := FindIndex(todayVisitors, fp);
      if i >= 0 {
        todayVisitors := todayVisitors[i := todayVisitors[i].(lastVisit := now, visitCount := todayVisitors[i].visitCount + 1)];
      } else {
        todayVisitors := todayVisitors + [VisitorRecord(fp, now, now, 1)];
      }
      local.SetItem(dailyKey, Visitors(todayVisitors));
    }
    session.SetItem(SessionKey, Session(SessionData(sessionId, fp, now, recentVisit.None?)));
    if recentVisit.None? {
      var visitHistory := HistoryAt(local.items, HistoryKey);
      visitHistory := [HistoryEntry(now, sessionId, fp)] + visitHistory;
      visitHistory := visitHistory[..if |visitHistory| < HistoryLimit then |visitHistory| else HistoryLimit];
      local.SetItem(HistoryKey, History(visitHistory));
    }
    assert local.items == visited;
    CleanOldDailyCounters(local, now);
  }

  /** The returning-visitor count of `getVisitorStats`: today's records with
      more than one visit. */
  method TodayReturning(local: Store, now: nat) returns (returning: nat)
    ensures returning == ReturningCount(VisitorsAt(local.items, DailyKey(Today(now))))
  {
    var todayVisitors := VisitorsAt(local.items, DailyKey(Today(now)));
    returning := ReturningCount(todayVisitors);
  }
}
