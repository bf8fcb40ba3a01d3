/**
 * The rows of the four storage tables the API routes use (`reports`,
 * `votes`, `comments`, `comment_reports`) and the in-memory database that
 * holds them. Timestamps are integer milliseconds.
 */
module Tables {
  import opened Basics
  import opened Query

  datatype VoteType = Up | Down

  /** The stored enum value of a vote type. */
  function VoteTypeName(t: VoteType): string
  {
    match t
    case Up => "up"
    case Down => "down"
  }

  /** The pair of hashes that identifies an anonymous user. */
  datatype Identity = Identity(fingerprintHash: string, ipHash: string)

  datatype Report = Report(
    id: string,
    latitude: real,
    longitude: real,
    createdAt: int,
    validityExpiresAt: int,
    upvoteCount: nat,
    downvoteCount: nat)

  datatype Vote = Vote(
    reportId: string,
    fingerprintHash: string,
    ipHash: string,
    voteType: VoteType,
    createdAt: int)

  datatype Comment = Comment(
    id: string,
    reportId: string,
    content: string,
    fingerprintHash: string,
    ipHash: string,
    createdAt: int,
    reportCount: nat)

  /** A row of `comment_reports`: one abuse flag on a comment. */
  datatype CommentFlag = CommentFlag(
    commentId: string,
    fingerprintHash: string,
    ipHash: string,
    createdAt: int)

  /** The (report_id, fingerprint_hash, ip_hash) triple of a vote row. */
  function VoteKey(v: Vote): (string, string, string)
  {
    (v.reportId, v.fingerprintHash, v.ipHash)
  }

  /** The vote row belongs to this identity on this report. */
  predicate VoteOf(v: Vote, reportId: string, who: Identity)
  {
    VoteKey(v) == (reportId, who.fingerprintHash, who.ipHash)
  }

  /** The (comment_id, fingerprint_hash, ip_hash) triple of a flag row. */
  function FlagKey(f: CommentFlag): (string, string, string)
  {
    (f.commentId, f.fingerprintHash, f.ipHash)
  }

  predicate FlagOf(f: CommentFlag, commentId: string, who: Identity)
  {
    FlagKey(f) == (commentId, who.fingerprintHash, who.ipHash)
  }

  ghost predicate UniqueReportIds(reports: seq<Report>)
  {
    forall i, j :: 0 <= i < j < |reports| ==> reports[i].id != reports[j].id
  }

  /** At most one vote row per (report, fingerprint, ip). */
  ghost predicate UniqueVotes(votes: seq<Vote>)
  {
    forall i, j :: 0 <= i < j < |votes| ==> VoteKey(votes[i]) != VoteKey(votes[j])
  }

  /** At most one flag per (comment, fingerprint, ip). */
  ghost predicate UniqueFlags(flags: seq<CommentFlag>)
  {
    forall i, j :: 0 <= i < j < |flags| ==> FlagKey(flags[i]) != FlagKey(flags[j])
  }

  /**
   * `.single()` on a filtered query: the row when exactly one row matches,
   * nothing when none or several do (both are the "not exactly one row" case
   * that the routes treat as no row).
   */
  function Single<T>(rows: seq<T>, p: T -> bool): (r: Option<T>)
    ensures r.Some? <==> Count(rows, p) == 1
    ensures r.Some? ==> r.value in rows && p(r.value)
  {
    var matching := Filter(rows, p);
    if |matching| == 1 then
      assert matching[0] in rows by {
        FilterMembers(rows, p);
        assert matching[0] in matching;
      }
      Some(matching[0])
    else None
  }

  /** The storage behind the API routes. */
  class Database {
    var reports: seq<Report>
    var votes: seq<Vote>
    var comments: seq<Comment>
    var commentFlags: seq<CommentFlag>

    ghost predicate Valid()
      reads this
    {
      UniqueReportIds(reports) && UniqueVotes(votes) && UniqueFlags(commentFlags)
    }

    constructor ()
      ensures Valid()
      ensures reports == [] && votes == [] && comments == [] && commentFlags == []
    {
      reports, votes, comments, commentFlags := [], [], [], [];
    }
  }
}
