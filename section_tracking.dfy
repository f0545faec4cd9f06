/**
 * `trackSectionView`: a section's view counter in localStorage goes up at
 * most once per browser session, because sessionStorage remembers which
 * section ids were already counted.
 */
module SectionTracking {
  import opened StorageKeys
  import opened WebStorage

  /** Both stores at once. */
  datatype Stores = Stores(local: map<string, Value>, session: map<string, Value>)

  ghost predicate NoDuplicates(ids: seq<string>) {
    forall i, j :: 0 <= i < j < |ids| ==> ids[i] != ids[j]
  }

  function ViewedIds(s: Stores): seq<string> {
    IdsAt(s.session, SectionViewsKey)
  }

  function ViewCount(s: Stores, id: string): int {
    CountAt(s.local, SectionKey(id))
  }

  /** The stores after a view of section `id`: nothing for an empty id or
      an id already counted this session; otherwise the id is remembered
      for the session and the section's counter goes up by one. */
  function ViewSection(s: Stores, id: string): (r: Stores)
    ensures ViewedIds(s) <= ViewedIds(r) && |ViewedIds(r)| <= |ViewedIds(s)| + 1
    ensures id != "" ==> id in ViewedIds(r)
    ensures ViewCount(r, id) == ViewCount(s, id) + (if |ViewedIds(r)| > |ViewedIds(s)| then 1 else 0)
  {
    if id == "" || id in ViewedIds(s) then s
    else
      Stores(s.local[SectionKey(id) := Count(ViewCount(s, id) + 1)],
             s.session[SectionViewsKey := Ids(ViewedIds(s) + [id])])
  }

  /** The stores after the views `ids`, in order, within one session. */
  function ViewAll(s: Stores, ids: seq<string>): (r: Stores)
    ensures ViewedIds(s) <= ViewedIds(r)
    ensures forall i :: 0 <= i < |ids| && ids[i] != "" ==> ids[i] in ViewedIds(r)
    decreases |ids|
  {
    if ids == [] then s else ViewAll(ViewSection(s, ids[0]), ids[1..])
  }

  lemma SectionKeyInjective(a: string, b: string)
    ensures SectionKey(a) == SectionKey(b) <==> a == b
  {
  }

  /** One view: the session's id list stays free of duplicates; the viewed
      section's counter goes up by one exactly when the id is non-empty
      and new to the session; every other key of both stores is left alone. */
  lemma ViewSectionEffect(s: Stores, id: string)
    requires NoDuplicates(ViewedIds(s))
    ensures var r := ViewSection(s, id);
      && NoDuplicates(ViewedIds(r))
      && ViewCount(r, id) == ViewCount(s, id) + (if id != "" && id !in ViewedIds(s) then 1 else 0)
      && (id != "" ==> id in ViewedIds(r))
      && ViewedIds(r) == (if id != "" && id !in ViewedIds(s) then ViewedIds(s) + [id] else ViewedIds(s))
      && (id == "" || id in ViewedIds(s) ==> r == s)
      && (forall k :: k != SectionKey(id) ==> (k in r.local <==> k in s.local) && (k in r.local ==> r.local[k] == s.local[k]))
      && (forall k :: k != SectionViewsKey ==> (k in r.session <==> k in s.session) && (k in r.session ==> r.session[k] == s.session[k]))
  {
  }

  /** Over any sequence of views in one session, a section's counter rises
      by at most one: by one exactly when the section is viewed and was not
      counted earlier in the session. */
  lemma {:induction false} CountedOncePerSession(s: Stores, ids: seq<string>, x: string)
    requires x != ""
    ensures ViewCount(ViewAll(s, ids), x) == ViewCount(s, x) + (if x in ids && x !in ViewedIds(s) then 1 else 0)
    decreases |ids|
  {
    if ids != [] {
      var y := ids[0];
      var s' := ViewSection(s, y);
      CountedOncePerSession(s', ids[1..], x);
      assert x in ids <==> x == y || x in ids[1..] by {
        assert ids == [y] + ids[1..];
      }
      if y == x {
        assert x in ViewedIds(s');
      } else {
        SectionKeyInjective(x, y);
        assert x in ViewedIds(s') <==> x in ViewedIds(s);
      }
    }
  }

  /** The session's id list stays free of duplicates over any sequence of views. */
  lemma {:induction false} ViewAllKeepsNoDuplicates(s: Stores, ids: seq<string>)
    requires NoDuplicates(ViewedIds(s))
    ensures NoDuplicates(ViewedIds(ViewAll(s, ids)))
    decreases |ids|
  {
    if ids != [] {
      ViewSectionEffect(s, ids[0]);
      ViewAllKeepsNoDuplicates(ViewSection(s, ids[0]), ids[1..]);
    }
  }

  /** `trackSectionView`, over the two stores. */
  method TrackSectionView(local: Store, session: Store, sectionId: string)
    requires local != session
    modifies local, session
    ensures Stores(local.items, session.items) == ViewSection(Stores(old(local.items), old(session.items)), sectionId)
  {
    if sectionId == "" {
      return;
    }
    var sessionViews := IdsAt(session.items, SectionViewsKey);
    if sectionId in sessionViews {
      return;
    }
    sessionViews := sessionViews + [sectionId];
    session.SetItem(SectionViewsKey, Ids(sessionViews));
    var sectionKey := SectionKey(sectionId);
    var sectionViews := CountAt(local.items, sectionKey);
    sectionViews := sectionViews + 1;
    local.SetItem(sectionKey, Count(sectionViews));
  }
}
