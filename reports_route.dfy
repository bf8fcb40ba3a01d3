/**
 * app/api/reports/route.ts: the list of active reports, and the POST that
 * either asks for the reports near a point or creates a report there.
 */
module ReportsRoute {
  import opened Basics
  import opened Constants
  import opened Query
  import opened Tables
  import opened TimeUtils
  import opened Validation

  const InvalidCoordinatesError := "Invalid location coordinates"
  const InvalidActionError := "Invalid action"

  function ActiveFn(now: int): Report -> bool
  {
    (r: Report) => r.validityExpiresAt > now
  }

  function CreatedAtKey(): Report -> int
  {
    (r: Report) => r.createdAt
  }

  /**
   * GET /api/reports: the reports expiring strictly after now, newest first.
   * A report expiring exactly now is no longer listed.
   */
  function ActiveReports(reports: seq<Report>, now: int): (r: seq<Report>)
    ensures SortedDesc(r, CreatedAtKey())
    ensures multiset(r) == multiset(Filter(reports, ActiveFn(now)))
  {
    SortDescSortedPerm(Filter(reports, ActiveFn(now)), CreatedAtKey());
    SortDesc(Filter(reports, ActiveFn(now)), CreatedAtKey())
  }

  /** The listed reports are exactly the stored ones that are still active. */
  lemma ActiveReportsMembers(reports: seq<Report>, now: int, x: Report)
    ensures x in ActiveReports(reports, now) <==> x in reports && x.validityExpiresAt > now
  {
    var kept := Filter(reports, ActiveFn(now));
    FilterMembers(reports, ActiveFn(now));
    assert x in ActiveReports(reports, now) <==> x in multiset(kept);
  }

  /** A listed report is not expired in the sense of `isReportExpired`. */
  lemma ActiveReportsNotExpired(reports: seq<Report>, now: int, x: Report)
    requires x in ActiveReports(reports, now)
    ensures !IsReportExpired(x.validityExpiresAt, now)
  {
    ActiveReportsMembers(reports, now, x);
  }

  /** The two successful answers of POST. */
  datatype ReportsAnswer = Nearby(reports: seq<Report>) | Created(report: Report)

  /** The `get_nearby_reports` procedure: latitude, longitude and radius to the rows it returns, or null. */
  type NearbyQuery = (real, real, real) -> Option<seq<Report>>

  /** What POST answers and the reports table it leaves. */
  datatype Posted = Posted(response: Response<ReportsAnswer>, reports: seq<Report>)

  /** The row "create" inserts: the coordinates, created now, valid for 60 minutes, no votes. */
  function NewReport(id: string, latitude: real, longitude: real, now: int): Report
  {
    Report(id, latitude, longitude, now, CalculateInitialValidity(now), 0, 0)
  }

  /**
   * POST /api/reports. The coordinates are checked before the action is
   * looked at; "check_nearby" asks the procedure with the 50 m radius and
   * answers its rows (none when it answers null); "create" inserts one row;
   * any other action is refused.
   */
  function PostReport(reports: seq<Report>, latitude: Option<real>, longitude: Option<real>, action: Option<string>,
                      nearby: NearbyQuery, newId: string, now: int): (p: Posted)
    ensures !IsValidLocation(latitude, longitude) ==> p == Posted(Err(400, InvalidCoordinatesError), reports)
    ensures action != Some("create") ==> p.reports == reports
    ensures p.reports != reports ==>
      && action == Some("create") && IsValidLocation(latitude, longitude)
      && p.reports == reports + [NewReport(newId, latitude.value, longitude.value, now)]
      && p.response == Ok(201, Created(p.reports[|reports|]))
  {
    if !IsValidLocation(latitude, longitude) then Posted(Err(400, InvalidCoordinatesError), reports)
    else if action == Some("check_nearby") then
      var rows := nearby(latitude.value, longitude.value, ProximityRadiusMeters);
      Posted(Ok(200, Nearby(if rows.Some? then rows.value else [])), reports)
    else if action == Some("create") then
      var report := NewReport(newId, latitude.value, longitude.value, now);
      Posted(Ok(201, Created(report)), reports + [report])
    else Posted(Err(400, InvalidActionError), reports)
  }

  /** "check_nearby" inserts nothing and answers what the procedure returns for the 50 m radius. */
  lemma CheckNearbyQueriesRadius(reports: seq<Report>, lat: real, lng: real, nearby: NearbyQuery, newId: string, now: int)
    requires IsValidLocation(Some(lat), Some(lng))
    ensures var p := PostReport(reports, Some(lat), Some(lng), Some("check_nearby"), nearby, newId, now);
      && p.reports == reports
      && p.response.Ok? && p.response.status == 200
      && (nearby(lat, lng, 50.0).Some? ==> p.response.body == Nearby(nearby(lat, lng, 50.0).value))
      && (nearby(lat, lng, 50.0).None? ==> p.response.body == Nearby([]))
  {}

  /**
   * "create" at valid coordinates inserts exactly one report, which expires
   * 60 minutes after its creation and starts without votes.
   */
  lemma CreateInsertsOne(reports: seq<Report>, lat: real, lng: real, nearby: NearbyQuery, newId: string, now: int)
    requires IsValidLocation(Some(lat), Some(lng))
    ensures var p := PostReport(reports, Some(lat), Some(lng), Some("create"), nearby, newId, now);
      && |p.reports| == |reports| + 1
      && p.reports[..|reports|] == reports
      && var r := p.reports[|reports|];
      && r.latitude == lat && r.longitude == lng && r.createdAt == now
      && r.validityExpiresAt == now + 60 * 60000
      && r.upvoteCount == 0 && r.downvoteCount == 0
      && p.response == Ok(201, Created(r))
  {
    var p := PostReport(reports, Some(lat), Some(lng), Some("create"), nearby, newId, now);
    assert p.reports[..|reports|] == reports;
  }

  /** An action other than the two known ones is a 400 that inserts nothing. */
  lemma OtherActionRefused(reports: seq<Report>, lat: real, lng: real, action: Option<string>,
                           nearby: NearbyQuery, newId: string, now: int)
    requires IsValidLocation(Some(lat), Some(lng))
    requires action != Some("check_nearby") && action != Some("create")
    ensures PostReport(reports, Some(lat), Some(lng), action, nearby, newId, now) == Posted(Err(400, InvalidActionError), reports)
  {}

  /** A freshly created report is listed by GET until its 60 minutes have passed. */
  lemma CreatedReportListed(reports: seq<Report>, lat: real, lng: real, nearby: NearbyQuery, newId: string,
                            now: int, later: int)
    requires IsValidLocation(Some(lat), Some(lng))
    requires later < now + 60 * 60000
    ensures var p := PostReport(reports, Some(lat), Some(lng), Some("create"), nearby, newId, now);
      NewReport(newId, lat, lng, now) in ActiveReports(p.reports, later)
  {
    var p := PostReport(reports, Some(lat), Some(lng), Some("create"), nearby, newId, now);
    assert p.reports[|reports|] == NewReport(newId, lat, lng, now);
    ActiveReportsMembers(p.reports, later, NewReport(newId, lat, lng, now));
  }

  /** GET /api/reports on the database. */
  method Get(db: Database, now: int) returns (r: Response<seq<Report>>)
    ensures r == Ok(200, ActiveReports(db.reports, now))
  {
    r := Ok(200, ActiveReports(db.reports, now));
  }

  /**
   * POST /api/reports on the database. The id of a created row is generated
   * by the storage and so differs from every stored id.
   */
  method Post(db: Database, latitude: Option<real>, longitude: Option<real>, action: Option<string>,
              nearby: NearbyQuery, newId: string, now: int) returns (r: Response<ReportsAnswer>)
    requires db.Valid()
    requires forall i :: 0 <= i < |db.reports| ==> db.reports[i].id != newId
    modifies db
    ensures db.Valid()
    ensures var p := PostReport(old(db.reports), latitude, longitude, action, nearby, newId, now);
      r == p.response && db.reports == p.reports
    ensures db.votes == old(db.votes) && db.comments == old(db.comments) && db.commentFlags == old(db.commentFlags)
  {
    if !IsValidLocation(latitude, longitude) {
      return Err(400, InvalidCoordinatesError);
    }
    if action == Some("check_nearby") {
      var rows := nearby(latitude.value, longitude.value, ProximityRadiusMeters);
      return Ok(200, Nearby(if rows.Some? then rows.value else []));
    }
    if action == Some("create") {
      var report := NewReport(newId, latitude.value, longitude.value, now);
      db.reports := db.reports + [report];
      return Ok(201, Created(report));
    }
    return Err(400, InvalidActionError);
  }
}
