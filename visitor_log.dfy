/**
 * The records kept per calendar day and the visit history, and the pure
 * list operations the visitor tracker applies to them: the 30-minute
 * `find`, the `findIndex`, the update-or-append of today's record, the
 * `unshift` + `slice(0, 20)` of the history and the returning-visitor count.
 */
module VisitorLog {
  import opened Options
  import opened StorageKeys

  /** One entry of a day's visitor list; times are milliseconds. */
  datatype VisitorRecord = VisitorRecord(fingerprint: string, firstVisit: int, lastVisit: int, visitCount: int)

  /** One entry of the visit history. */
  datatype HistoryEntry = HistoryEntry(date: int, sessionId: string, fingerprint: string)

  /** The history keeps the newest this many entries. */
  const HistoryLimit: nat := 20

  /** A record of `fp` whose last visit lies within the 30 minutes before `now`. */
  predicate IsRecent(v: VisitorRecord, fp: string, now: int) {
    v.fingerprint == fp && v.lastVisit > now - RecentWindowMs
  }

  /** Today's list names each fingerprint at most once. */
  ghost predicate DistinctFingerprints(visitors: seq<VisitorRecord>) {
    forall i, j :: 0 <= i < j < |visitors| ==> visitors[i].fingerprint != visitors[j].fingerprint
  }

  function Fingerprints(visitors: seq<VisitorRecord>): set<string> {
    set i | 0 <= i < |visitors| :: visitors[i].fingerprint
  }

  /** The first recent record of `fp`, if any. */
  function FindRecent(visitors: seq<VisitorRecord>, fp: string, now: int): (r: Option<VisitorRecord>)
    ensures r.Some? <==> exists i :: 0 <= i < |visitors| && IsRecent(visitors[i], fp, now)
    ensures r.Some? ==> exists i :: (0 <= i < |visitors| && visitors[i] == r.value && IsRecent(r.value, fp, now)
      && forall j :: 0 <= j < i ==> !IsRecent(visitors[j], fp, now))
  {
    if visitors == [] then None
    else if IsRecent(visitors[0], fp, now) then Some(visitors[0])
    else
      var r := FindRecent(visitors[1..], fp, now);
      assert forall i :: 1 <= i < |visitors| ==> visitors[i] == visitors[1..][i - 1];
      r
  }

  /** Index of the first record of `fp`, or -1. */
  function FindIndex(visitors: seq<VisitorRecord>, fp: string): (r: int)
    ensures -1 <= r < |visitors|
    ensures r >= 0 ==> visitors[r].fingerprint == fp
    ensures r >= 0 ==> forall j :: 0 <= j < r ==> visitors[j].fingerprint != fp
    ensures r == -1 <==> fp !in Fingerprints(visitors)
  {
    if visitors == [] then -1
    else if visitors[0].fingerprint == fp then 0
    else
      var r := FindIndex(visitors[1..], fp);
      assert Fingerprints(visitors) == {visitors[0].fingerprint} + Fingerprints(visitors[1..]) by {
        forall f | f in Fingerprints(visitors) ensures f in {visitors[0].fingerprint} + Fingerprints(visitors[1..]) {
          var i :| 0 <= i < |visitors| && visitors[i].fingerprint == f;
          if i > 0 { assert visitors[1..][i - 1] == visitors[i]; }
        }
      }
      if r == -1 then -1 else r + 1
  }

  /** The record of a visit by `fp` at `now`: its existing record (the first
      one) gets the new last-visit time and one more visit; otherwise a fresh
      record with one visit is appended. */
  function Upsert(visitors: seq<VisitorRecord>, fp: string, now: int): (r: seq<VisitorRecord>)
    ensures |visitors| <= |r| <= |visitors| + 1
    ensures forall k :: 0 <= k < |visitors| && visitors[k].fingerprint != fp ==> r[k] == visitors[k]
  {
    var i := FindIndex(visitors, fp);
    if i >= 0 then visitors[i := visitors[i].(lastVisit := now, visitCount := visitors[i].visitCount + 1)]
    else visitors + [VisitorRecord(fp, now, now, 1)]
  }

  /** The list grows by one exactly when `fp` was not on it; every other
      fingerprint's record keeps its place and its content. */
  lemma UpsertFrame(visitors: seq<VisitorRecord>, fp: string, now: int)
    ensures var r := Upsert(visitors, fp, now);
      && (|r| == if fp in Fingerprints(visitors) then |visitors| else |visitors| + 1)
      && (forall k :: 0 <= k < |visitors| && visitors[k].fingerprint != fp ==> r[k] == visitors[k])
      && Fingerprints(r) == Fingerprints(visitors) + {fp}
  {
    var r := Upsert(visitors, fp, now);
    var i := FindIndex(visitors, fp);
    if i >= 0 {
      forall f | f in Fingerprints(r) ensures f in Fingerprints(visitors) {
        var k :| 0 <= k < |r| && r[k].fingerprint == f;
        assert visitors[k].fingerprint == f;
      }
      forall f | f in Fingerprints(visitors) ensures f in Fingerprints(r) {
        var k :| 0 <= k < |visitors| && visitors[k].fingerprint == f;
        assert r[k].fingerprint == f;
      }
    } else {
      forall f | f in Fingerprints(r) ensures f in Fingerprints(visitors) + {fp} {
        var k :| 0 <= k < |r| && r[k].fingerprint == f;
        if k < |visitors| { assert visitors[k].fingerprint == f; }
      }
      forall f | f in Fingerprints(visitors) + {fp} ensures f in Fingerprints(r) {
        if f == fp { assert r[|visitors|].fingerprint == f; }
        else {
          var k :| 0 <= k < |visitors| && visitors[k].fingerprint == f;
          assert r[k].fingerprint == f;
        }
      }
    }
  }

  /** After the upsert `fp` has exactly one record on a list of distinct
      fingerprints: last visited at `now`, with one more visit than before,
      or a new record first and last visited at `now` with one visit. */
  lemma UpsertRecord(visitors: seq<VisitorRecord>, fp: string, now: int)
    requires DistinctFingerprints(visitors)
    ensures var r := Upsert(visitors, fp, now);
      && DistinctFingerprints(r)
      && exists k :: (0 <= k < |r| && r[k].fingerprint == fp && r[k].lastVisit == now
        && if k < |visitors| then r[k].firstVisit == visitors[k].firstVisit && r[k].visitCount == visitors[k].visitCount + 1
           else r[k].firstVisit == now && r[k].visitCount == 1)
  {
    var r := Upsert(visitors, fp, now);
    var i := FindIndex(visitors, fp);
    if i >= 0 {
      assert r[i].fingerprint == fp && r[i].lastVisit == now;
      forall a, b | 0 <= a < b < |r| ensures r[a].fingerprint != r[b].fingerprint {
        assert r[a].fingerprint == visitors[a].fingerprint && r[b].fingerprint == visitors[b].fingerprint;
      }
    } else {
      assert r[|visitors|].fingerprint == fp;
      forall a, b | 0 <= a < b < |r| ensures r[a].fingerprint != r[b].fingerprint {
        if b == |visitors| {
          assert visitors[a].fingerprint in Fingerprints(visitors);
        }
      }
    }
  }

  /** The history after `entry` is put in front and the list is cut to
      `HistoryLimit`: the new entry first, then the older entries in their
      order, oldest dropped first. */
  function Remember(history: seq<HistoryEntry>, entry: HistoryEntry): (r: seq<HistoryEntry>)
    ensures |r| == if |history| < HistoryLimit then |history| + 1 else HistoryLimit
    ensures r[0] == entry
    ensures r[1..] <= history
  {
    var all := [entry] + history;
    all[..if |all| < HistoryLimit then |all| else HistoryLimit]
  }

  /** `filter(v => v.visitCount > 1).length`. */
  function ReturningCount(visitors: seq<VisitorRecord>): (r: nat)
    ensures r <= |visitors|
  {
    if visitors == [] then 0
    else (if visitors[0].visitCount > 1 then 1 else 0) + ReturningCount(visitors[1..])
  }

  lemma {:induction false} AllReturning(visitors: seq<VisitorRecord>)
    ensures ReturningCount(visitors) == |visitors| <==> forall i :: 0 <= i < |visitors| ==> visitors[i].visitCount > 1
  {
    if visitors != [] {
      AllReturning(visitors[1..]);
      assert forall i :: 1 <= i < |visitors| ==> visitors[i] == visitors[1..][i - 1];
    }
  }

  /** On a list of distinct fingerprints, its length is the number of
      different visitors of the day. */
  lemma {:induction false} DistinctCount(visitors: seq<VisitorRecord>)
    requires DistinctFingerprints(visitors)
    ensures |Fingerprints(visitors)| == |visitors|
  {
    if visitors != [] {
      var rest := visitors[1..];
      DistinctCount(rest);
      assert Fingerprints(visitors) == {visitors[0].fingerprint} + Fingerprints(rest) by {
        forall f | f in Fingerprints(visitors) ensures f in {visitors[0].fingerprint} + Fingerprints(rest) {
          var i :| 0 <= i < |visitors| && visitors[i].fingerprint == f;
          if i > 0 { assert rest[i - 1] == visitors[i]; }
        }
      }
      forall i | 0 <= i < |rest| ensures rest[i].fingerprint != visitors[0].fingerprint {
        assert rest[i] == visitors[i + 1];
      }
    }
  }
}
