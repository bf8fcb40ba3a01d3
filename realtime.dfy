/**
 * hooks/useRealtimeReports.ts: how change events on the reports and votes
 * tables, the periodic fetch and the once-a-minute sweep reconcile the
 * store's report list. Each event arrives with its row; for vote events the
 * report the handler reads back is an input.
 */
module Realtime {
  import opened Basics
  import opened Query
  import opened Tables
  import opened TimeUtils
  import opened AppStore

  /** `fetchReports`: the list is replaced only by a successful answer with reports. */
  method FetchReports(store: Store, fetched: Option<seq<Report>>)
    modifies store
    ensures fetched.Some? ==> store.State() == old(store.State()).(reports := fetched.value)
    ensures fetched.None? ==> store.State() == old(store.State())
  {
    if fetched.Some? {
      store.SetReports(fetched.value);
    }
  }

  /** INSERT on reports: the row is added unless it has already expired. */
  method OnReportInsert(store: Store, newReport: Report, now: int)
    modifies store
    ensures IsReportExpired(newReport.validityExpiresAt, now) ==> store.State() == old(store.State())
    ensures !IsReportExpired(newReport.validityExpiresAt, now) ==>
      store.State() == old(store.State()).(reports := old(store.reports) + [newReport])
  {
    if !IsReportExpired(newReport.validityExpiresAt, now) {
      store.AddReport(newReport);
    }
  }

  /** UPDATE on reports: an expired row is removed, any other is merged in. */
  method OnReportUpdate(store: Store, updated: Report, now: int)
    modifies store
    ensures IsReportExpired(updated.validityExpiresAt, now) ==>
      store.State() == old(store.State()).(reports := RemovedReports(old(store.reports), updated.id),
                                           selectedReport := RemovedSelection(old(store.selectedReport), updated.id))
    ensures !IsReportExpired(updated.validityExpiresAt, now) ==>
      store.State() == old(store.State()).(reports := UpdatedReports(old(store.reports), updated.id, FullPatch(updated)),
                                           selectedReport := UpdatedSelection(old(store.selectedReport), updated.id, FullPatch(updated)))
  {
    if IsReportExpired(updated.validityExpiresAt, now) {
      store.RemoveReport(updated.id);
    } else {
      store.UpdateReport(updated.id, FullPatch(updated));
    }
  }

  /** DELETE on reports: the id is removed. */
  method OnReportDelete(store: Store, deletedId: string)
    modifies store
    ensures store.State() == old(store.State()).(reports := RemovedReports(old(store.reports), deletedId),
                                                 selectedReport := RemovedSelection(old(store.selectedReport), deletedId))
  {
    store.RemoveReport(deletedId);
  }

  /**
   * INSERT or DELETE on votes: the report read back, when there is exactly one
   * and it has not expired, replaces the entries with its id. A vote event
   * never removes a report.
   */
  method OnVoteChange(store: Store, fetched: Option<Report>, now: int)
    modifies store
    ensures fetched.None? || IsReportExpired(fetched.value.validityExpiresAt, now) ==> store.State() == old(store.State())
    ensures fetched.Some? && !IsReportExpired(fetched.value.validityExpiresAt, now) ==>
      store.State() == old(store.State()).(
        reports := UpdatedReports(old(store.reports), fetched.value.id, FullPatch(fetched.value)),
        selectedReport := UpdatedSelection(old(store.selectedReport), fetched.value.id, FullPatch(fetched.value)))
  {
    if fetched.Some? && !IsReportExpired(fetched.value.validityExpiresAt, now) {
      store.UpdateReport(fetched.value.id, FullPatch(fetched.value));
    }
  }

  /** A vote event keeps the list's length and ids: no report appears or disappears. */
  lemma VoteEventKeepsIds(reports: seq<Report>, fetched: Report)
    ensures var after := UpdatedReports(reports, fetched.id, FullPatch(fetched));
      |after| == |reports| && forall i :: 0 <= i < |reports| ==> after[i].id == reports[i].id
  {
    UpdatedReportsLaws(reports, fetched.id, FullPatch(fetched));
  }

  /** The ids of the expired reports among `snapshot`. */
  function ExpiredIds(snapshot: seq<Report>, now: int): set<string>
  {
    set i | 0 <= i < |snapshot| && IsReportExpired(snapshot[i].validityExpiresAt, now) :: snapshot[i].id
  }

  /** An id is swept exactly when some report of the captured list with that id has expired. */
  lemma ExpiredIdsMembers(snapshot: seq<Report>, now: int, id: string)
    ensures id in ExpiredIds(snapshot, now) <==>
      exists i :: 0 <= i < |snapshot| && snapshot[i].id == id && IsReportExpired(snapshot[i].validityExpiresAt, now)
  {}

  function OutsideFn(ids: set<string>): Report -> bool
  {
    (r: Report) => r.id !in ids
  }

  /** The reports whose id is not in `ids`, in order. */
  function WithoutIds(reports: seq<Report>, ids: set<string>): seq<Report>
  {
    Filter(reports, OutsideFn(ids))
  }

  /** Removing one more id from a list without `ids` is removing `ids` and that id. */
  lemma {:induction false} WithoutOneMore(reports: seq<Report>, ids: set<string>, id: string)
    ensures RemovedReports(WithoutIds(reports, ids), id) == WithoutIds(reports, ids + {id})
    decreases |reports|
  {
    if reports != [] {
      var x := reports[0];
      assert reports == [x] + reports[1..];
      FilterAppend([x], reports[1..], OutsideFn(ids));
      FilterAppend([x], reports[1..], OutsideFn(ids + {id}));
      FilterSingle(x, OutsideFn(ids));
      FilterSingle(x, OutsideFn(ids + {id}));
      var rest := WithoutIds(reports[1..], ids);
      FilterAppend(Filter([x], OutsideFn(ids)), rest, NotIdFn(id));
      FilterSingle(x, NotIdFn(id));
      WithoutOneMore(reports[1..], ids, id);
    }
  }

  /** The store with the reports of the ids removed, and the selection cleared if its id is one of them. */
  function Swept(s: StoreState, ids: set<string>): StoreState
  {
    s.(reports := WithoutIds(s.reports, ids),
       selectedReport := if s.selectedReport.Some? && s.selectedReport.value.id in ids then None else s.selectedReport)
  }

  lemma SweptNothing(s: StoreState)
    ensures Swept(s, {}) == s
  {
    FilterAll(s.reports, OutsideFn({}));
  }

  /** `removeReport(id)` on a swept store sweeps one more id. */
  lemma SweptOneMore(s: StoreState, ids: set<string>, id: string)
    ensures var w := Swept(s, ids);
      w.(reports := RemovedReports(w.reports, id), selectedReport := RemovedSelection(w.selectedReport, id))
      == Swept(s, ids + {id})
  {
    WithoutOneMore(s.reports, ids, id);
  }

  /** Extending the captured list by one report adds its id when it has expired. */
  lemma ExpiredIdsStep(snapshot: seq<Report>, i: nat, now: int)
    requires i < |snapshot|
    ensures ExpiredIds(snapshot[..i + 1], now)
            == ExpiredIds(snapshot[..i], now) + (if IsReportExpired(snapshot[i].validityExpiresAt, now) then {snapshot[i].id} else {})
  {
    assert snapshot[..i + 1] == snapshot[..i] + [snapshot[i]];
  }

  /**
   * The sweep: every report of the list the timer captured that has expired
   * is removed by id, one after the other, from the store's current list.
   */
  method CleanupExpired(store: Store, snapshot: seq<Report>, now: int)
    modifies store
    ensures store.State() == Swept(old(store.State()), ExpiredIds(snapshot, now))
  {
    ghost var start := store.State();
    SweptNothing(start);
    assert ExpiredIds(snapshot[..0], now) == {};
    for i := 0 to |snapshot|
      invariant store.State() == Swept(start, ExpiredIds(snapshot[..i], now))
    {
      var report := snapshot[i];
      ExpiredIdsStep(snapshot, i, now);
      if IsReportExpired(report.validityExpiresAt, now) {
        SweptOneMore(start, ExpiredIds(snapshot[..i], now), report.id);
        store.RemoveReport(report.id);
        assert store.State() == Swept(start, ExpiredIds(snapshot[..i], now) + {report.id});
        assert ExpiredIds(snapshot[..i + 1], now) == ExpiredIds(snapshot[..i], now) + {report.id};
      } else {
        assert ExpiredIds(snapshot[..i + 1], now) == ExpiredIds(snapshot[..i], now);
      }
    }
    assert snapshot[..|snapshot|] == snapshot;
  }

  /**
   * When the timer's list is the store's list and its ids are unique, the
   * sweep leaves exactly the unexpired reports, in order. Without unique ids,
   * an unexpired report that shares its id with an expired one goes too.
   */
  lemma CleanupKeepsUnexpired(reports: seq<Report>, now: int)
    requires UniqueReportIds(reports)
    ensures WithoutIds(reports, ExpiredIds(reports, now)) == Filter(reports, (r: Report) => !IsReportExpired(r.validityExpiresAt, now))
  {
    var ids := ExpiredIds(reports, now);
    forall i | 0 <= i < |reports|
      ensures OutsideFn(ids)(reports[i]) == !IsReportExpired(reports[i].validityExpiresAt, now)
    {
      if reports[i].id in ids {
        var j :| 0 <= j < |reports| && reports[j].id == reports[i].id && IsReportExpired(reports[j].validityExpiresAt, now);
        SameIdSameReport(reports, i, j);
      }
    }
    FilterExt(reports, OutsideFn(ids), (r: Report) => !IsReportExpired(r.validityExpiresAt, now));
  }

  lemma SameIdSameReport(reports: seq<Report>, i: nat, j: nat)
    requires UniqueReportIds(reports) && i < |reports| && j < |reports|
    requires reports[i].id == reports[j].id
    ensures i == j
  {}

  /** After the sweep no report of the captured list that had expired is left. */
  lemma CleanupLeavesNoExpired(reports: seq<Report>, snapshot: seq<Report>, now: int, i: nat)
    requires i < |snapshot| && IsReportExpired(snapshot[i].validityExpiresAt, now)
    ensures snapshot[i] !in WithoutIds(reports, ExpiredIds(snapshot, now))
  {
  }
}
