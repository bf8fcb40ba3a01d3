/**
 * store/useAppStore.ts: the one client-side store. Each setter replaces some
 * fields and leaves the rest; here the store is a class and each setter a
 * method whose contract gives the whole new state as an update of the old
 * one. Map markers are handles to objects of the map library.
 */
module AppStore {
  import opened Basics
  import opened Query
  import opened Tables
  import opened Temperature
  import opened Geolocation
  import opened Fingerprint

  /** `Partial<Report>`: the fields an update sets; absent ones are kept. */
  datatype ReportPatch = ReportPatch(
    id: Option<string>,
    latitude: Option<real>,
    longitude: Option<real>,
    createdAt: Option<int>,
    validityExpiresAt: Option<int>,
    upvoteCount: Option<nat>,
    downvoteCount: Option<nat>)

  /** `{ ...report, ...updates }`. */
  function Merge(r: Report, u: ReportPatch): (m: Report)
    ensures m.id == (if u.id.Some? then u.id.value else r.id)
    ensures m.latitude == (if u.latitude.Some? then u.latitude.value else r.latitude)
    ensures m.longitude == (if u.longitude.Some? then u.longitude.value else r.longitude)
    ensures m.createdAt == (if u.createdAt.Some? then u.createdAt.value else r.createdAt)
    ensures m.validityExpiresAt == (if u.validityExpiresAt.Some? then u.validityExpiresAt.value else r.validityExpiresAt)
    ensures m.upvoteCount == (if u.upvoteCount.Some? then u.upvoteCount.value else r.upvoteCount)
    ensures m.downvoteCount == (if u.downvoteCount.Some? then u.downvoteCount.value else r.downvoteCount)
  {
    Report(
      if u.id.Some? then u.id.value else r.id,
      if u.latitude.Some? then u.latitude.value else r.latitude,
      if u.longitude.Some? then u.longitude.value else r.longitude,
      if u.createdAt.Some? then u.createdAt.value else r.createdAt,
      if u.validityExpiresAt.Some? then u.validityExpiresAt.value else r.validityExpiresAt,
      if u.upvoteCount.Some? then u.upvoteCount.value else r.upvoteCount,
      if u.downvoteCount.Some? then u.downvoteCount.value else r.downvoteCount)
  }

  const EmptyPatch := ReportPatch(None, None, None, None, None, None, None)

  /** A whole report used as the update, as the realtime handlers do. */
  function FullPatch(r: Report): ReportPatch
  {
    ReportPatch(Some(r.id), Some(r.latitude), Some(r.longitude), Some(r.createdAt),
                Some(r.validityExpiresAt), Some(r.upvoteCount), Some(r.downvoteCount))
  }

  /** Merging nothing keeps the report; merging a whole report gives that report; merging twice is merging once. */
  lemma MergeLaws(r: Report, x: Report, u: ReportPatch)
    ensures Merge(r, EmptyPatch) == r
    ensures Merge(r, FullPatch(x)) == x
    ensures Merge(Merge(r, u), u) == Merge(r, u)
  {}

  /** The report list after `updateReport(id, updates)`. */
  function UpdatedReports(reports: seq<Report>, id: string, u: ReportPatch): (r: seq<Report>)
    ensures |r| == |reports|
    ensures forall i :: 0 <= i < |r| ==> r[i] == if reports[i].id == id then Merge(reports[i], u) else reports[i]
  {
    seq(|reports|, i requires 0 <= i < |reports| => if reports[i].id == id then Merge(reports[i], u) else reports[i])
  }

  /**
   * An update that does not move the id keeps every id in place, and
   * applying it again changes nothing; an update of an absent id is a no-op.
   */
  lemma UpdatedReportsLaws(reports: seq<Report>, id: string, u: ReportPatch)
    requires u.id == None || u.id == Some(id)
    ensures forall i :: 0 <= i < |reports| ==> UpdatedReports(reports, id, u)[i].id == reports[i].id
    ensures UpdatedReports(UpdatedReports(reports, id, u), id, u) == UpdatedReports(reports, id, u)
    ensures (forall i :: 0 <= i < |reports| ==> reports[i].id != id) ==> UpdatedReports(reports, id, u) == reports
  {
    var once := UpdatedReports(reports, id, u);
    var twice := UpdatedReports(once, id, u);
    forall i | 0 <= i < |reports| ensures twice[i] == once[i] {
      MergeLaws(reports[i], reports[i], u);
    }
  }

  /** The selected report after `updateReport(id, updates)`. */
  function UpdatedSelection(selected: Option<Report>, id: string, u: ReportPatch): Option<Report>
  {
    if selected.Some? && selected.value.id == id then Some(Merge(selected.value, u)) else selected
  }

  function NotIdFn(id: string): Report -> bool
  {
    (r: Report) => r.id != id
  }

  /** The report list after `removeReport(id)`. */
  function RemovedReports(reports: seq<Report>, id: string): (r: seq<Report>)
    ensures forall i :: 0 <= i < |r| ==> r[i].id != id && r[i] in reports
    ensures forall i :: 0 <= i < |reports| && reports[i].id != id ==> reports[i] in r
  {
    FilterMembers(reports, NotIdFn(id));
    Filter(reports, NotIdFn(id))
  }

  /**
   * Removal keeps the order of what remains (it distributes over a split of
   * the list), removes nothing when the id is absent, and removing again
   * changes nothing.
   */
  lemma RemovedReportsLaws(a: seq<Report>, b: seq<Report>, id: string)
    ensures RemovedReports(a + b, id) == RemovedReports(a, id) + RemovedReports(b, id)
    ensures (forall i :: 0 <= i < |a| ==> a[i].id != id) ==> RemovedReports(a, id) == a
    ensures RemovedReports(RemovedReports(a, id), id) == RemovedReports(a, id)
  {
    FilterAppend(a, b, NotIdFn(id));
    if forall i :: 0 <= i < |a| ==> a[i].id != id {
      FilterAll(a, NotIdFn(id));
    }
    FilterIdempotent(a, NotIdFn(id));
  }

  /** Adding a report and then removing its id is removing the id. */
  lemma AddThenRemove(reports: seq<Report>, x: Report)
    ensures RemovedReports(reports + [x], x.id) == RemovedReports(reports, x.id)
  {
    FilterAppend(reports, [x], NotIdFn(x.id));
    FilterNone([x], NotIdFn(x.id));
  }

  /** The selected report after `removeReport(id)`. */
  function RemovedSelection(selected: Option<Report>, id: string): Option<Report>
  {
    if selected.Some? && selected.value.id == id then None else selected
  }

  datatype ModalType = CreateReport | ViewReport | NearbyReports

  /** `data` is the report shown, or nothing. */
  datatype ModalState = ModalState(isOpen: bool, modalType: Option<ModalType>, data: Option<Report>)

  const ClosedModal := ModalState(false, None, None)

  /** A report of `get_nearby_reports`, with its distance and probability. */
  datatype NearbyReport = NearbyReport(report: Report, distanceMeters: real, probability: real)

  /** A handle to a marker object of the map library. */
  datatype Marker = Marker(handle: nat)

  /** Every field of the store, as one value. */
  datatype StoreState = StoreState(
    location: Option<Location>,
    identity: Option<UserIdentity>,
    isLocationEnabled: bool,
    reports: seq<Report>,
    selectedReport: Option<Report>,
    nearbyReports: seq<NearbyReport>,
    isLoading: bool,
    error: Option<string>,
    temperature: TemperatureState,
    modal: ModalState,
    isSidebarOpen: bool,
    markers: map<string, Marker>,
    userMarker: Option<Marker>)

  /** The store as the page first sees it. */
  const InitialState := StoreState(None, None, false, [], None, [], false, None,
                                   TemperatureState(Normal, 0.0, None), ClosedModal, false, map[], None)

  class Store {
    var location: Option<Location>
    var identity: Option<UserIdentity>
    var isLocationEnabled: bool
    var reports: seq<Report>
    var selectedReport: Option<Report>
    var nearbyReports: seq<NearbyReport>
    var isLoading: bool
    var error: Option<string>
    var temperature: TemperatureState
    var modal: ModalState
    var isSidebarOpen: bool
    var markers: map<string, Marker>
    var userMarker: Option<Marker>

    function State(): StoreState
      reads this
    {
      StoreState(location, identity, isLocationEnabled, reports, selectedReport, nearbyReports, isLoading,
                 error, temperature, modal, isSidebarOpen, markers, userMarker)
    }

    constructor ()
      ensures State() == InitialState
    {
      location, identity, isLocationEnabled := None, None, false;
      reports, selectedReport, nearbyReports, isLoading, error := [], None, [], false, None;
      temperature, modal, isSidebarOpen := NormalState, ClosedModal, false;
      markers, userMarker := map[], None;
    }

    method SetLocation(l: Option<Location>)
      modifies this
      ensures State() == old(State()).(location := l)
    {
      location := l;
    }

    method SetIdentity(u: Option<UserIdentity>)
      modifies this
      ensures State() == old(State()).(identity := u)
    {
      identity := u;
    }

    method SetLocationEnabled(enabled: bool)
      modifies this
      ensures State() == old(State()).(isLocationEnabled := enabled)
    {
      isLocationEnabled := enabled;
    }

    method SetReports(rs: seq<Report>)
      modifies this
      ensures State() == old(State()).(reports := rs)
    {
      reports := rs;
    }

    /** `refetchReports`: the list is replaced only when the fetch answered a list. */
    method RefetchReports(fetched: Option<seq<Report>>)
      modifies this
      ensures fetched.Some? ==> State() == old(State()).(reports := fetched.value)
      ensures fetched.None? ==> State() == old(State())
    {
      if fetched.Some? {
        reports := fetched.value;
      }
    }

    /** `addReport`: appended at the end, without looking for an existing id. */
    method AddReport(r: Report)
      modifies this
      ensures State() == old(State()).(reports := old(reports) + [r])
    {
      reports := reports + [r];
    }

    method UpdateReport(id: string, u: ReportPatch)
      modifies this
      ensures State() == old(State()).(reports := UpdatedReports(old(reports), id, u),
                                       selectedReport := UpdatedSelection(old(selectedReport), id, u))
    {
      reports := UpdatedReports(reports, id, u);
      selectedReport := UpdatedSelection(selectedReport, id, u);
    }

    method RemoveReport(id: string)
      modifies this
      ensures State() == old(State()).(reports := RemovedReports(old(reports), id),
                                       selectedReport := RemovedSelection(old(selectedReport), id))
    {
      reports := RemovedReports(reports, id);
      selectedReport := RemovedSelection(selectedReport, id);
    }

    method SetSelectedReport(r: Option<Report>)
      modifies this
      ensures State() == old(State()).(selectedReport := r)
    {
      selectedReport := r;
    }

    method SetNearbyReports(rs: seq<NearbyReport>)
      modifies this
      ensures State() == old(State()).(nearbyReports := rs)
    {
      nearbyReports := rs;
    }

    method SetLoading(loading: bool)
      modifies this
      ensures State() == old(State()).(isLoading := loading)
    {
      isLoading := loading;
    }

    method SetError(e: Option<string>)
      modifies this
      ensures State() == old(State()).(error := e)
    {
      error := e;
    }

    method SetTemperature(t: TemperatureState)
      modifies this
      ensures State() == old(State()).(temperature := t)
    {
      temperature := t;
    }

    method OpenModal(t: Option<ModalType>, data: Option<Report>)
      modifies this
      ensures State() == old(State()).(modal := ModalState(true, t, data))
    {
      modal := ModalState(true, t, data);
    }

    method CloseModal()
      modifies this
      ensures State() == old(State()).(modal := ClosedModal)
    {
      modal := ClosedModal;
    }

    method ToggleSidebar()
      modifies this
      ensures State() == old(State()).(isSidebarOpen := !old(isSidebarOpen))
    {
      isSidebarOpen := !isSidebarOpen;
    }

    method SetSidebarOpen(open: bool)
      modifies this
      ensures State() == old(State()).(isSidebarOpen := open)
    {
      isSidebarOpen := open;
    }

    method AddMarker(id: string, m: Marker)
      modifies this
      ensures State() == old(State()).(markers := old(markers)[id := m])
    {
      markers := markers[id := m];
    }

    method RemoveMarker(id: string)
      modifies this
      ensures State() == old(State()).(markers := old(markers) - {id})
    {
      markers := markers - {id};
    }

    method SetUserMarker(m: Option<Marker>)
      modifies this
      ensures State() == old(State()).(userMarker := m)
    {
      userMarker := m;
    }

    method ClearMarkers()
      modifies this
      ensures State() == old(State()).(markers := map[])
    {
      markers := map[];
    }
  }

  /**
   * The marker map after `addMarker` maps the id to the marker and keeps the
   * other entries; after `removeMarker` the id is absent and the other entries
   * are kept; removing an absent id changes nothing; adding a fresh id and
   * removing it again gives back the map.
   */
  lemma MarkerLaws(markers: map<string, Marker>, id: string, other: string, m: Marker)
    requires other != id
    ensures id in markers[id := m] && markers[id := m][id] == m
    ensures other in markers ==> other in markers[id := m] && markers[id := m][other] == markers[other]
    ensures id !in markers - {id}
    ensures other in markers ==> other in markers - {id} && (markers - {id})[other] == markers[other]
    ensures id !in markers ==> markers - {id} == markers
    ensures id !in markers ==> markers[id := m] - {id} == markers
  {}

  /** Closing after opening gives back the closed modal, whatever was shown. */
  lemma CloseAfterOpen(s: StoreState, t: Option<ModalType>, data: Option<Report>)
    ensures s.(modal := ModalState(true, t, data)).(modal := ClosedModal) == s.(modal := ClosedModal)
    ensures InitialState.modal == ClosedModal
  {}
}
