/**
 * app/api/votes/route.ts: casting, switching and removing a vote, the
 * recount and expiry recomputation after each change, and the lookup of a
 * caller's vote. The storage queries are functions over the table rows; the
 * handlers are methods on the database.
 */
module VotesRoute {
  import opened Basics
  import opened Constants
  import opened Query
  import opened Tables
  import opened TimeUtils
  import opened Validation

  const MissingFieldsError := "Missing required fields"
  const AlreadyVotedError := "You have already voted this way"
  const MissingLookupParamsError := "Missing reportId or userIdentityHash"
  /** The storage layer's error when the report row is not found. */
  const ReportLookupError := "Report not found"

  /** The success body of POST and DELETE. */
  datatype VoteTally = VoteTally(upvoteCount: nat, downvoteCount: nat, newValidity: int)

  /** What a handler answers and the tables it leaves behind. */
  datatype Outcome = Outcome(response: Response<VoteTally>, reports: seq<Report>, votes: seq<Vote>)

  /** JavaScript truthiness of a string field: present and not empty. */
  predicate Present(s: Option<string>)
  {
    s.Some? && s.value != ""
  }

  /** The request's `voteType` as stored: "upvote" is up, anything else down. */
  function DbVoteType(voteType: string): (t: VoteType)
    ensures t == Up <==> voteType == "upvote"
  {
    if voteType == "upvote" then Up else Down
  }

  /** The stored type always passes the enum check, so "Invalid vote type" is never answered. */
  lemma InvalidVoteTypeUnreachable(voteType: string)
    ensures IsValidVoteType(VoteTypeName(DbVoteType(voteType)))
  {}

  /**
   * `isValidVoteType` accepts exactly the stored names of the two vote types;
   * the request's own values "upvote" and "downvote" would fail it, which is
   * why the route maps them first.
   */
  lemma VoteTypeCheckAcceptsStoredNames(t: string)
    ensures IsValidVoteType(t) <==> t == VoteTypeName(Up) || t == VoteTypeName(Down)
    ensures !IsValidVoteType("upvote") && !IsValidVoteType("downvote")
  {}

  function Other(t: VoteType): VoteType
  {
    if t == Up then Down else Up
  }

  function VoteOfFn(rid: string, who: Identity): Vote -> bool
  {
    v => VoteOf(v, rid, who)
  }

  function NotVoteOfFn(rid: string, who: Identity): Vote -> bool
  {
    v => !VoteOf(v, rid, who)
  }

  function TypedVoteFn(rid: string, t: VoteType): Vote -> bool
  {
    (v: Vote) => v.reportId == rid && v.voteType == t
  }

  function ReportIdFn(rid: string): Report -> bool
  {
    (r: Report) => r.id == rid
  }

  /** The number of the report's votes of type `t`. */
  function Tally(votes: seq<Vote>, rid: string, t: VoteType): nat
  {
    Count(votes, TypedVoteFn(rid, t))
  }

  /** `min(up * 20, 10)`: any upvote earns the whole 10-minute bonus. */
  function UpvoteBonusMinutes(up: nat): (m: int)
    ensures up == 0 ==> m == 0
    ensures up >= 1 ==> m == UpvoteBonusCapMinutes
  {
    Min(up * UpvoteTimeExtensionMinutes, UpvoteBonusCapMinutes)
  }

  /**
   * The expiry written after every change: created_at plus 60 minutes, plus
   * the upvote bonus, minus the downvote batches, but never before now.
   */
  function RecomputedExpiry(createdAt: int, up: nat, down: nat, now: int): (e: int)
    ensures now <= e <= Max(createdAt + MaxValidityCapMinutes * MsPerMinute, now)
  {
    Max(createdAt + (InitialReportValidityMinutes + UpvoteBonusMinutes(up) - DownvoteReductionMinutes(down)) * MsPerMinute, now)
  }

  /** With at least one upvote the base is 70 minutes; with none it is 60. */
  lemma RecomputedExpiryBase(createdAt: int, up: nat, down: nat, now: int)
    ensures var red := DownvoteReductionMinutes(down);
      RecomputedExpiry(createdAt, up, down, now)
      == Max(createdAt + ((if up >= 1 then MaxValidityCapMinutes else InitialReportValidityMinutes) - red) * MsPerMinute, now)
  {}

  /** More upvotes never shorten the expiry; more downvotes never lengthen it. */
  lemma RecomputedExpiryMonotone(createdAt: int, up1: nat, up2: nat, down1: nat, down2: nat, now: int)
    requires up1 <= up2 && down1 >= down2
    ensures RecomputedExpiry(createdAt, up1, down1, now) <= RecomputedExpiry(createdAt, up2, down2, now)
  {
    assert DownvoteReductionMinutes(down2) <= DownvoteReductionMinutes(down1) by {
      assert down2 / 5 <= down1 / 5;
    }
  }

  /** A report without votes, recomputed at its creation, keeps its initial expiry. */
  lemma RecomputedExpiryWithoutVotes(now: int)
    ensures RecomputedExpiry(now, 0, 0, now) == CalculateInitialValidity(now)
  {}

  /** The first index of the identity's row on the report, if any. */
  function VoteIndex(votes: seq<Vote>, rid: string, who: Identity): (r: Option<nat>)
    ensures r.Some? ==> r.value < |votes| && VoteOf(votes[r.value], rid, who)
    ensures r.None? ==> forall j :: 0 <= j < |votes| ==> !VoteOf(votes[j], rid, who)
    decreases |votes|
  {
    if votes == [] then None
    else if VoteOf(votes[0], rid, who) then Some(0)
    else
      match VoteIndex(votes[1..], rid, who)
      case None => None
      case Some(i) => Some(i + 1)
  }

  /** The POST lookup: the identity's row on the report, via `.single()`. */
  function ExistingVote(votes: seq<Vote>, rid: string, who: Identity): Option<Vote>
  {
    Single(votes, VoteOfFn(rid, who))
  }

  /** With unique triples, `.single()` finds the identity's row exactly when there is one. */
  lemma ExistingVoteIsIndexed(votes: seq<Vote>, rid: string, who: Identity)
    requires UniqueVotes(votes)
    ensures ExistingVote(votes, rid, who) ==
      match VoteIndex(votes, rid, who)
      case Some(i) => Some(votes[i])
      case None => None
  {
    var p := VoteOfFn(rid, who);
    match VoteIndex(votes, rid, who)
    case Some(i) =>
      OnlyRowOfIdentity(votes, rid, who, i);
      FilterSingleton(votes, p, i);
    case None =>
      FilterNone(votes, p);
  }

  /** The switch in place: the row at the identity's index gets the new type and time. */
  function UpdateVoteRow(votes: seq<Vote>, rid: string, who: Identity, t: VoteType, now: int): seq<Vote>
  {
    match VoteIndex(votes, rid, who)
    case Some(i) => votes[i := votes[i].(voteType := t, createdAt := now)]
    case None => votes
  }

  /**
   * `.update({ upvote_count, downvote_count, validity_expires_at }).eq("id", rid)`:
   * the rows with that id get the counts and expiry; nothing else changes.
   */
  function SetReportCounts(reports: seq<Report>, rid: string, up: nat, down: nat, expiry: int): (r: seq<Report>)
    ensures |r| == |reports|
    ensures forall i :: 0 <= i < |r| ==> r[i].id == reports[i].id
    ensures forall i :: 0 <= i < |r| && reports[i].id != rid ==> r[i] == reports[i]
    ensures forall i :: 0 <= i < |r| && reports[i].id == rid ==>
      r[i] == reports[i].(upvoteCount := up, downvoteCount := down, validityExpiresAt := expiry)
  {
    seq(|reports|, i requires 0 <= i < |reports| =>
      if reports[i].id == rid
      then reports[i].(upvoteCount := up, downvoteCount := down, validityExpiresAt := expiry)
      else reports[i])
  }

  /**
   * The common tail of POST and DELETE: count the report's votes, read its
   * creation time, and store the counts with the recomputed expiry; a report
   * that `.single()` cannot read (no row or several rows with the id) is a
   * 500 after the vote change.
   */
  function SaveCounts(reports: seq<Report>, votes: seq<Vote>, rid: string, now: int): (o: Outcome)
    ensures o.votes == votes
    ensures o.response.Ok? <==> Count(reports, ReportIdFn(rid)) == 1
    ensures |o.reports| == |reports| && forall i :: 0 <= i < |reports| ==> o.reports[i].id == reports[i].id
    ensures o.response.Err? ==> o.response.status == 500 && o.reports == reports
    ensures o.response.Ok? ==>
      var body := o.response.body;
      && o.response.status == 200
      && body.upvoteCount == Tally(votes, rid, Up)
      && body.downvoteCount == Tally(votes, rid, Down)
      && body.newValidity >= now
      && (exists i :: 0 <= i < |reports| && reports[i].id == rid
            && body.newValidity == RecomputedExpiry(reports[i].createdAt, body.upvoteCount, body.downvoteCount, now))
      && forall i :: 0 <= i < |o.reports| && o.reports[i].id == rid ==>
           o.reports[i].upvoteCount == body.upvoteCount
           && o.reports[i].downvoteCount == body.downvoteCount
           && o.reports[i].validityExpiresAt == body.newValidity
  {
    var up, down := Tally(votes, rid, Up), Tally(votes, rid, Down);
    match Single(reports, ReportIdFn(rid))
    case None => Outcome(Err(500, ReportLookupError), reports, votes)
    case Some(report) =>
      var expiry := RecomputedExpiry(report.createdAt, up, down, now);
      Outcome(Ok(200, VoteTally(up, down, expiry)), SetReportCounts(reports, rid, up, down, expiry), votes)
  }

  /** POST /api/votes. */
  function PostVote(reports: seq<Report>, votes: seq<Vote>, reportId: Option<string>, voteType: Option<string>,
                    identity: Option<Identity>, now: int): Outcome
  {
    if !Present(reportId) || !Present(voteType) || identity.None? then
      Outcome(Err(400, MissingFieldsError), reports, votes)
    else
      var rid, who, t := reportId.value, identity.value, DbVoteType(voteType.value);
      var existing := ExistingVote(votes, rid, who);
      if existing.Some? && existing.value.voteType == t then
        Outcome(Err(400, AlreadyVotedError), reports, votes)
      else
        var cast :=
          if existing.Some? then UpdateVoteRow(votes, rid, who, t, now)
          else votes + [Vote(rid, who.fingerprintHash, who.ipHash, t, now)];
        SaveCounts(reports, cast, rid, now)
  }

  /** DELETE /api/votes. */
  function DeleteVote(reports: seq<Report>, votes: seq<Vote>, reportId: Option<string>,
                      identity: Option<Identity>, now: int): Outcome
  {
    if !Present(reportId) || identity.None? then
      Outcome(Err(400, MissingFieldsError), reports, votes)
    else
      var rid, who := reportId.value, identity.value;
      SaveCounts(reports, Filter(votes, NotVoteOfFn(rid, who)), rid, now)
  }

  /** Missing fields are a 400 that changes nothing. */
  lemma MissingFieldsChangeNothing(reports: seq<Report>, votes: seq<Vote>, reportId: Option<string>,
                                   voteType: Option<string>, identity: Option<Identity>, now: int)
    requires !Present(reportId) || identity.None?
    ensures PostVote(reports, votes, reportId, voteType, identity, now)
            == Outcome(Err(400, MissingFieldsError), reports, votes)
    ensures DeleteVote(reports, votes, reportId, identity, now)
            == Outcome(Err(400, MissingFieldsError), reports, votes)
  {}

  /** Voting the same way again is a 400 that changes no vote row and no report. */
  lemma DuplicateVoteChangesNothing(reports: seq<Report>, votes: seq<Vote>, rid: string, vt: string,
                                    who: Identity, now: int)
    requires rid != "" && vt != ""
    requires exists i :: 0 <= i < |votes| && VoteOf(votes[i], rid, who) && votes[i].voteType == DbVoteType(vt)
    requires UniqueVotes(votes)
    ensures PostVote(reports, votes, Some(rid), Some(vt), Some(who), now)
            == Outcome(Err(400, AlreadyVotedError), reports, votes)
  {
    var k :| 0 <= k < |votes| && VoteOf(votes[k], rid, who) && votes[k].voteType == DbVoteType(vt);
    ExistingVoteIsIndexed(votes, rid, who);
    var i := VoteIndex(votes, rid, who).value;
    SameKeySameRow(votes, i, k);
  }

  /** In a table of unique triples, no other row belongs to the identity on the report. */
  lemma OnlyRowOfIdentity(votes: seq<Vote>, rid: string, who: Identity, i: nat)
    requires UniqueVotes(votes) && i < |votes| && VoteOf(votes[i], rid, who)
    ensures forall j :: 0 <= j < |votes| && j != i ==> !VoteOf(votes[j], rid, who)
  {}

  /** Two rows with the same triple are the same row. */
  lemma SameKeySameRow(votes: seq<Vote>, i: nat, j: nat)
    requires UniqueVotes(votes) && i < |votes| && j < |votes|
    requires VoteKey(votes[i]) == VoteKey(votes[j])
    ensures i == j
  {}

  /** The vote table after a POST that gets past the checks. */
  function CastVotes(votes: seq<Vote>, rid: string, who: Identity, t: VoteType, now: int): seq<Vote>
  {
    if ExistingVote(votes, rid, who).Some? then UpdateVoteRow(votes, rid, who, t, now)
    else votes + [Vote(rid, who.fingerprintHash, who.ipHash, t, now)]
  }

  /**
   * Casting keeps one row per triple and leaves the identity exactly one row
   * on the report, of the cast type.
   */
  lemma CastVotesUnique(votes: seq<Vote>, rid: string, who: Identity, t: VoteType, now: int)
    requires UniqueVotes(votes)
    ensures var cast := CastVotes(votes, rid, who, t, now);
      && UniqueVotes(cast)
      && ExistingVote(cast, rid, who).Some?
      && ExistingVote(cast, rid, who).value.voteType == t
  {
    var cast := CastVotes(votes, rid, who, t, now);
    ExistingVoteIsIndexed(votes, rid, who);
    match VoteIndex(votes, rid, who)
    case Some(i) =>
      UpdateKeepsKeys(votes, i, votes[i].(voteType := t, createdAt := now));
      VoteIndexUnique(cast, rid, who, i);
      ExistingVoteIsIndexed(cast, rid, who);
    case None =>
      var x := Vote(rid, who.fingerprintHash, who.ipHash, t, now);
      AppendFreshKey(votes, x);
      VoteIndexUnique(cast, rid, who, |votes|);
      ExistingVoteIsIndexed(cast, rid, who);
  }

  /** Casting changes no row of another identity or another report. */
  lemma CastKeepsOthers(votes: seq<Vote>, rid: string, who: Identity, t: VoteType, now: int)
    ensures var cast := CastVotes(votes, rid, who, t, now);
      forall j :: 0 <= j < |votes| && !VoteOf(votes[j], rid, who) ==> cast[j] == votes[j]
  {}

  lemma UpdateKeepsKeys(votes: seq<Vote>, i: nat, x: Vote)
    requires UniqueVotes(votes) && i < |votes| && VoteKey(x) == VoteKey(votes[i])
    ensures UniqueVotes(votes[i := x])
  {
    var u := votes[i := x];
    assert forall j :: 0 <= j < |u| ==> VoteKey(u[j]) == VoteKey(votes[j]);
  }

  lemma AppendFreshKey(votes: seq<Vote>, x: Vote)
    requires UniqueVotes(votes)
    requires forall j :: 0 <= j < |votes| ==> VoteKey(votes[j]) != VoteKey(x)
    ensures UniqueVotes(votes + [x])
  {
    var u := votes + [x];
    assert forall j :: 0 <= j < |votes| ==> u[j] == votes[j];
  }

  /** In a table of unique triples, a matching index is the first one. */
  lemma VoteIndexUnique(votes: seq<Vote>, rid: string, who: Identity, i: nat)
    requires UniqueVotes(votes) && i < |votes| && VoteOf(votes[i], rid, who)
    ensures VoteIndex(votes, rid, who) == Some(i)
  {
    var r := VoteIndex(votes, rid, who);
    SameKeySameRow(votes, r.value, i);
  }

  /**
   * A new vote adds one to its type's count; a switched vote also takes one
   * from the other type; the counts of other reports do not move.
   */
  lemma CastVotesTallies(votes: seq<Vote>, rid: string, who: Identity, t: VoteType, now: int, other: string)
    requires UniqueVotes(votes) && other != rid
    requires ExistingVote(votes, rid, who).None? || ExistingVote(votes, rid, who).value.voteType != t
    ensures var cast := CastVotes(votes, rid, who, t, now);
      && Tally(cast, rid, t) == Tally(votes, rid, t) + 1
      && Tally(cast, rid, Other(t)) == Tally(votes, rid, Other(t)) - (if ExistingVote(votes, rid, who).Some? then 1 else 0)
      && Tally(cast, other, Up) == Tally(votes, other, Up)
      && Tally(cast, other, Down) == Tally(votes, other, Down)
  {
    ExistingVoteIsIndexed(votes, rid, who);
    match VoteIndex(votes, rid, who)
    case Some(i) =>
      var x := votes[i].(voteType := t, createdAt := now);
      assert votes[i].voteType == Other(t);
      CountUpdate(votes, i, x, TypedVoteFn(rid, t));
      CountUpdate(votes, i, x, TypedVoteFn(rid, Other(t)));
      CountUpdate(votes, i, x, TypedVoteFn(other, Up));
      CountUpdate(votes, i, x, TypedVoteFn(other, Down));
    case None =>
      var x := Vote(rid, who.fingerprintHash, who.ipHash, t, now);
      CountAppendOne(votes, x, TypedVoteFn(rid, t));
      CountAppendOne(votes, x, TypedVoteFn(rid, Other(t)));
      CountAppendOne(votes, x, TypedVoteFn(other, Up));
      CountAppendOne(votes, x, TypedVoteFn(other, Down));
  }

  /** A POST past the checks writes exactly the cast table. */
  lemma PostVoteCasts(reports: seq<Report>, votes: seq<Vote>, rid: string, vt: string, who: Identity, now: int)
    requires rid != "" && vt != ""
    requires ExistingVote(votes, rid, who).None? || ExistingVote(votes, rid, who).value.voteType != DbVoteType(vt)
    ensures PostVote(reports, votes, Some(rid), Some(vt), Some(who), now)
            == SaveCounts(reports, CastVotes(votes, rid, who, DbVoteType(vt), now), rid, now)
  {}

  /**
   * DELETE removes exactly the identity's row on the report: afterwards it
   * has none, and every other row is kept.
   */
  lemma DeleteRemovesOnlyIdentity(reports: seq<Report>, votes: seq<Vote>, rid: string, who: Identity, now: int)
    requires rid != ""
    ensures var o := DeleteVote(reports, votes, Some(rid), Some(who), now);
      && (forall j :: 0 <= j < |o.votes| ==> !VoteOf(o.votes[j], rid, who))
      && (forall v :: v in votes && !VoteOf(v, rid, who) ==> v in o.votes)
      && (UniqueVotes(votes) ==> UniqueVotes(o.votes))
  {
    FilterMembers(votes, NotVoteOfFn(rid, who));
    if UniqueVotes(votes) {
      FilterKeepsUnique(votes, NotVoteOfFn(rid, who));
    }
  }

  lemma {:induction false} FilterKeepsUnique(votes: seq<Vote>, p: Vote -> bool)
    requires UniqueVotes(votes)
    ensures UniqueVotes(Filter(votes, p))
    decreases |votes|
  {
    if votes != [] {
      var rest := Filter(votes[1..], p);
      assert UniqueVotes(votes[1..]) by {
        forall i, j | 0 <= i < j < |votes[1..]| ensures VoteKey(votes[1..][i]) != VoteKey(votes[1..][j]) {
          assert votes[1..][i] == votes[i + 1] && votes[1..][j] == votes[j + 1];
        }
      }
      FilterKeepsUnique(votes[1..], p);
      FilterMembers(votes[1..], p);
      if p(votes[0]) {
        forall j | 0 <= j < |rest| ensures VoteKey(votes[0]) != VoteKey(rest[j]) {
          var k :| 0 <= k < |votes[1..]| && votes[1..][k] == rest[j];
          assert votes[k + 1] == rest[j];
        }
        var r := [votes[0]] + rest;
        forall i, j | 0 <= i < j < |r| ensures VoteKey(r[i]) != VoteKey(r[j]) {
          if i > 0 { assert r[i] == rest[i - 1] && r[j] == rest[j - 1]; }
          else { assert r[j] == rest[j - 1]; }
        }
      }
    }
  }

  /** Report tables with the same ids, row by row, have the same number of rows with a given id. */
  lemma {:induction false} CountSameIds(a: seq<Report>, b: seq<Report>, rid: string)
    requires |a| == |b| && forall i :: 0 <= i < |a| ==> a[i].id == b[i].id
    ensures Count(a, ReportIdFn(rid)) == Count(b, ReportIdFn(rid))
    decreases |a|
  {
    if |a| > 0 {
      CountSameIds(a[1..], b[1..], rid);
    }
  }

  /**
   * DELETE for an identity without a vote keeps the vote table and so the
   * counts, and is no error when the report can be read.
   */
  lemma DeleteWithoutVoteKeepsVotes(reports: seq<Report>, votes: seq<Vote>, rid: string, who: Identity, now: int)
    requires rid != ""
    requires forall j :: 0 <= j < |votes| ==> !VoteOf(votes[j], rid, who)
    ensures var o := DeleteVote(reports, votes, Some(rid), Some(who), now);
      && o.votes == votes
      && (Count(reports, ReportIdFn(rid)) == 1 ==> o.response.Ok?)
      && (o.response.Ok? ==>
            o.response.body.upvoteCount == Tally(votes, rid, Up)
            && o.response.body.downvoteCount == Tally(votes, rid, Down))
  {
    FilterAll(votes, NotVoteOfFn(rid, who));
  }

  /**
   * A second DELETE leaves the same vote table, succeeds whenever the first
   * did, and reports the same counts.
   */
  lemma DeleteIdempotent(reports: seq<Report>, votes: seq<Vote>, rid: string, who: Identity, now1: int, now2: int)
    requires rid != ""
    ensures var o1 := DeleteVote(reports, votes, Some(rid), Some(who), now1);
      var o2 := DeleteVote(o1.reports, o1.votes, Some(rid), Some(who), now2);
      o2.votes == o1.votes
      && (o1.response.Ok? ==> o2.response.Ok?)
      && (o1.response.Ok? && o2.response.Ok? ==>
            o2.response.body.upvoteCount == o1.response.body.upvoteCount
            && o2.response.body.downvoteCount == o1.response.body.downvoteCount)
  {
    FilterIdempotent(votes, NotVoteOfFn(rid, who));
    var o1 := DeleteVote(reports, votes, Some(rid), Some(who), now1);
    CountSameIds(reports, o1.reports, rid);
  }

  /** Removing an existing vote takes one from its type's count and leaves the other. */
  lemma DeleteTallies(votes: seq<Vote>, rid: string, who: Identity, i: nat)
    requires UniqueVotes(votes) && i < |votes| && VoteOf(votes[i], rid, who)
    ensures var kept := Filter(votes, NotVoteOfFn(rid, who));
      var t := votes[i].voteType;
      Tally(kept, rid, t) == Tally(votes, rid, t) - 1
      && Tally(kept, rid, Other(t)) == Tally(votes, rid, Other(t))
  {
    var p := NotVoteOfFn(rid, who);
    OnlyRowOfIdentity(votes, rid, who, i);
    FilterDropOne(votes, p, i);
    var a, b := votes[..i], votes[i + 1..];
    assert votes == (a + [votes[i]]) + b;
    var t := votes[i].voteType;
    CountSplit(a, votes[i], b, TypedVoteFn(rid, t));
    CountSplit(a, votes[i], b, TypedVoteFn(rid, Other(t)));
  }

  lemma CountSplit<T>(a: seq<T>, x: T, b: seq<T>, p: T -> bool)
    ensures Count((a + [x]) + b, p) == Count(a + b, p) + (if p(x) then 1 else 0)
  {
    FilterAppend(a + [x], b, p);
    FilterAppend(a, [x], p);
    FilterAppend(a, b, p);
    FilterSingle(x, p);
  }

  /** The GET lookup as written: by report and fingerprint only, via `.single()`. */
  function LookupFn(rid: string, fingerprintHash: string): Vote -> bool
  {
    (v: Vote) => v.reportId == rid && v.fingerprintHash == fingerprintHash
  }

  /** GET /api/votes as written. */
  function GetVote(votes: seq<Vote>, reportId: Option<string>, userIdentityHash: Option<string>): (r: Response<Option<Vote>>)
    ensures !Present(reportId) || !Present(userIdentityHash) ==> r == Err(400, MissingLookupParamsError)
    ensures r.Ok? ==> r.status == 200 && (r.body.Some? ==>
      r.body.value in votes && r.body.value.reportId == reportId.value
      && r.body.value.fingerprintHash == userIdentityHash.value)
    ensures Present(reportId) && Present(userIdentityHash) ==>
      r.Ok? && (r.body.Some? <==> Count(votes, LookupFn(reportId.value, userIdentityHash.value)) == 1)
  {
    if !Present(reportId) || !Present(userIdentityHash) then Err(400, MissingLookupParamsError)
    else Ok(200, Single(votes, LookupFn(reportId.value, userIdentityHash.value)))
  }

  /**
   * What GET answers differs from what POST and DELETE act on: a vote cast
   * from another IP with the same fingerprint is shown as the caller's
   * although POST would let the caller vote anew, and a fingerprint that
   * voted from two IPs is shown no vote at all.
   */
  lemma GetVoteKeyMismatch()
    ensures var votes := [Vote("r", "f", "ip1", Up, 0)];
      && GetVote(votes, Some("r"), Some("f")) == Ok(200, Some(votes[0]))
      && ExistingVote(votes, "r", Identity("f", "ip2")).None?
    ensures var votes := [Vote("r", "f", "ip1", Up, 0), Vote("r", "f", "ip2", Down, 0)];
      && UniqueVotes(votes)
      && GetVote(votes, Some("r"), Some("f")) == Ok(200, None)
      && ExistingVote(votes, "r", Identity("f", "ip1")) == Some(votes[0])
  {
    var v1 := [Vote("r", "f", "ip1", Up, 0)];
    FilterSingleton(v1, LookupFn("r", "f"), 0);
    FilterNone(v1, VoteOfFn("r", Identity("f", "ip2")));
    var v2 := [Vote("r", "f", "ip1", Up, 0), Vote("r", "f", "ip2", Down, 0)];
    assert Filter(v2, LookupFn("r", "f")) == v2 by {
      FilterAll(v2, LookupFn("r", "f"));
    }
    FilterSingleton(v2, VoteOfFn("r", Identity("f", "ip1")), 0);
  }

  /** GET keyed on the whole identity, as POST and DELETE are. */
  function GetVoteByIdentity(votes: seq<Vote>, reportId: Option<string>, fingerprintHash: Option<string>,
                             ipHash: Option<string>): (r: Response<Option<Vote>>)
    ensures !Present(reportId) || !Present(fingerprintHash) || !Present(ipHash) ==> r == Err(400, MissingLookupParamsError)
    ensures r.Ok? ==> r.status == 200 && (r.body.Some? ==>
      r.body.value in votes && VoteOf(r.body.value, reportId.value, Identity(fingerprintHash.value, ipHash.value)))
    ensures Present(reportId) && Present(fingerprintHash) && Present(ipHash) ==>
      r.Ok? && (r.body.Some? <==> Count(votes, VoteOfFn(reportId.value, Identity(fingerprintHash.value, ipHash.value))) == 1)
  {
    if !Present(reportId) || !Present(fingerprintHash) || !Present(ipHash) then Err(400, MissingLookupParamsError)
    else Ok(200, ExistingVote(votes, reportId.value, Identity(fingerprintHash.value, ipHash.value)))
  }

  /** After a successful POST the keyed lookup shows the cast vote. */
  lemma GetVoteByIdentityAfterPost(reports: seq<Report>, votes: seq<Vote>, rid: string, vt: string,
                                   who: Identity, now: int)
    requires UniqueVotes(votes) && rid != "" && vt != "" && who.fingerprintHash != "" && who.ipHash != ""
    ensures var o := PostVote(reports, votes, Some(rid), Some(vt), Some(who), now);
      o.response.Ok? ==>
        var g := GetVoteByIdentity(o.votes, Some(rid), Some(who.fingerprintHash), Some(who.ipHash));
        g.Ok? && g.body.Some? && g.body.value.voteType == DbVoteType(vt)
  {
    var t := DbVoteType(vt);
    var existing := ExistingVote(votes, rid, who);
    if !(existing.Some? && existing.value.voteType == t) {
      var cast := CastVotes(votes, rid, who, t, now);
      PostVoteCasts(reports, votes, rid, vt, who, now);
      assert PostVote(reports, votes, Some(rid), Some(vt), Some(who), now).votes == cast;
      CastVotesUnique(votes, rid, who, t, now);
      assert Identity(who.fingerprintHash, who.ipHash) == who;
      assert GetVoteByIdentity(cast, Some(rid), Some(who.fingerprintHash), Some(who.ipHash))
             == Ok(200, ExistingVote(cast, rid, who));
    }
  }

  /** After DELETE the keyed lookup shows no vote. */
  lemma GetVoteByIdentityAfterDelete(reports: seq<Report>, votes: seq<Vote>, rid: string, who: Identity, now: int)
    requires rid != "" && who.fingerprintHash != "" && who.ipHash != ""
    ensures var o := DeleteVote(reports, votes, Some(rid), Some(who), now);
      GetVoteByIdentity(o.votes, Some(rid), Some(who.fingerprintHash), Some(who.ipHash)) == Ok(200, None)
  {
    DeleteRemovesOnlyIdentity(reports, votes, rid, who, now);
    var kept := Filter(votes, NotVoteOfFn(rid, who));
    FilterNone(kept, VoteOfFn(rid, who));
    assert Identity(who.fingerprintHash, who.ipHash) == who;
  }

  /** POST /api/votes on the database. */
  method Post(db: Database, reportId: Option<string>, voteType: Option<string>, identity: Option<Identity>, now: int)
    returns (r: Response<VoteTally>)
    requires db.Valid()
    modifies db
    ensures db.Valid()
    ensures var o := PostVote(old(db.reports), old(db.votes), reportId, voteType, identity, now);
      r == o.response && db.reports == o.reports && db.votes == o.votes
    ensures db.comments == old(db.comments) && db.commentFlags == old(db.commentFlags)
  {
    if !Present(reportId) || !Present(voteType) || identity.None? {
      return Err(400, MissingFieldsError);
    }
    var rid, who := reportId.value, identity.value;
    var t := DbVoteType(voteType.value);
    var existing := ExistingVote(db.votes, rid, who);
    if existing.Some? && existing.value.voteType == t {
      return Err(400, AlreadyVotedError);
    }
    CastVotesUnique(db.votes, rid, who, t, now);
    if existing.Some? {
      db.votes := UpdateVoteRow(db.votes, rid, who, t, now);
    } else {
      db.votes := db.votes + [Vote(rid, who.fingerprintHash, who.ipHash, t, now)];
    }
    r := StoreCounts(db, rid, now);
  }

  /** DELETE /api/votes on the database. */
  method Delete(db: Database, reportId: Option<string>, identity: Option<Identity>, now: int)
    returns (r: Response<VoteTally>)
    requires db.Valid()
    modifies db
    ensures db.Valid()
    ensures var o := DeleteVote(old(db.reports), old(db.votes), reportId, identity, now);
      r == o.response && db.reports == o.reports && db.votes == o.votes
    ensures db.comments == old(db.comments) && db.commentFlags == old(db.commentFlags)
  {
    if !Present(reportId) || identity.None? {
      return Err(400, MissingFieldsError);
    }
    var rid, who := reportId.value, identity.value;
    FilterKeepsUnique(db.votes, NotVoteOfFn(rid, who));
    db.votes := Filter(db.votes, NotVoteOfFn(rid, who));
    r := StoreCounts(db, rid, now);
  }

  /** The recount and report update shared by POST and DELETE. */
  method StoreCounts(db: Database, rid: string, now: int) returns (r: Response<VoteTally>)
    requires UniqueReportIds(db.reports) && UniqueVotes(db.votes) && UniqueFlags(db.commentFlags)
    modifies db
    ensures db.Valid()
    ensures var o := SaveCounts(old(db.reports), old(db.votes), rid, now);
      r == o.response && db.reports == o.reports
    ensures db.votes == old(db.votes)
    ensures db.comments == old(db.comments) && db.commentFlags == old(db.commentFlags)
  {
    var up := Tally(db.votes, rid, Up);
    var down := Tally(db.votes, rid, Down);
    var report := Single(db.reports, ReportIdFn(rid));
    if report.None? {
      return Err(500, ReportLookupError);
    }
    var expiry := RecomputedExpiry(report.value.createdAt, up, down, now);
    db.reports := SetReportCounts(db.reports, rid, up, down, expiry);
    r := Ok(200, VoteTally(up, down, expiry));
  }
}
