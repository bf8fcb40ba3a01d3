/**
 * app/api/comments/route.ts: the paged list of a report's comments, posting
 * a comment, and flagging a comment as abusive.
 */
module CommentsRoute {
  import opened Basics
  import opened Constants
  import opened Query
  import opened Tables
  import opened Validation

  const InvalidReportIdError := "Invalid report ID"
  const InvalidCommentIdError := "Invalid comment ID"
  const AlreadyFlaggedError := "You already reported this comment"
  const InvalidActionError := "Invalid action"

  function OfReportFn(rid: string): Comment -> bool
  {
    (c: Comment) => c.reportId == rid
  }

  function CommentCreatedAtKey(): Comment -> int
  {
    (c: Comment) => c.createdAt
  }

  function FlagOfFn(commentId: string, who: Identity): CommentFlag -> bool
  {
    (f: CommentFlag) => FlagOf(f, commentId, who)
  }

  /** The report's comments, newest first: the order the pages are cut from. */
  function ReportComments(comments: seq<Comment>, rid: string): (r: seq<Comment>)
    ensures SortedDesc(r, CommentCreatedAtKey())
    ensures multiset(r) == multiset(Filter(comments, OfReportFn(rid)))
  {
    SortDescSortedPerm(Filter(comments, OfReportFn(rid)), CommentCreatedAtKey());
    SortDesc(Filter(comments, OfReportFn(rid)), CommentCreatedAtKey())
  }

  /** The first and last row index of a page: `page * 20` and 19 rows further. */
  function PageFrom(page: nat): nat
  {
    page * CommentsPerPage
  }

  function PageTo(page: nat): int
  {
    PageFrom(page) + CommentsPerPage - 1
  }

  datatype CommentPage = CommentPage(comments: seq<Comment>, hasMore: bool)

  /**
   * GET /api/comments: a missing or malformed report id is refused; otherwise
   * rows 20p to 20p+19 of the report's comments, and whether the report has
   * more comments than the pages up to this one hold.
   */
  function GetComments(comments: seq<Comment>, reportId: Option<string>, page: nat): (r: Response<CommentPage>)
    ensures !IsValidUUID(reportId) ==> r == Err(400, InvalidReportIdError)
    ensures IsValidUUID(reportId) ==> r.Ok? && r.status == 200
    ensures r.Ok? ==>
      var all := ReportComments(comments, reportId.value);
      && |r.body.comments| <= CommentsPerPage
      && (forall k :: 0 <= k < |r.body.comments| ==>
            PageFrom(page) + k < |all| && r.body.comments[k] == all[PageFrom(page) + k])
      && (r.body.hasMore <==> |all| > PageFrom(page + 1))
  {
    if !IsValidUUID(reportId) then Err(400, InvalidReportIdError)
    else
      var all := ReportComments(comments, reportId.value);
      assert PageFrom(page + 1) == PageTo(page) + 1;
      Ok(200, CommentPage(Range(all, PageFrom(page), PageTo(page)), |all| > PageTo(page) + 1))
  }

  /** Every comment of the report is on exactly the page `k / 20`, at position `k % 20`. */
  lemma PagesCoverAll(comments: seq<Comment>, rid: string, k: nat)
    requires IsValidUUID(Some(rid))
    requires k < |ReportComments(comments, rid)|
    ensures var r := GetComments(comments, Some(rid), k / CommentsPerPage);
      k % CommentsPerPage < |r.body.comments|
      && r.body.comments[k % CommentsPerPage] == ReportComments(comments, rid)[k]
  {
    var page, pos := k / CommentsPerPage, k % CommentsPerPage;
    assert PageFrom(page) + pos == k;
  }

  /** `hasMore` tells exactly whether the next page has any comment. */
  lemma HasMoreIffNextPageNonEmpty(comments: seq<Comment>, rid: string, page: nat)
    requires IsValidUUID(Some(rid))
    ensures GetComments(comments, Some(rid), page).body.hasMore
            <==> |GetComments(comments, Some(rid), page + 1).body.comments| > 0
  {
    var all := ReportComments(comments, rid);
    var next := GetComments(comments, Some(rid), page + 1).body.comments;
    if |all| > (page + 1) * CommentsPerPage {
      assert |next| == |Range(all, PageFrom(page + 1), PageTo(page + 1))|;
    }
  }

  /** The successful answers of POST. */
  datatype CommentsAnswer = CreatedComment(comment: Comment) | Flagged

  /** What POST answers and the two tables it leaves. */
  datatype Posted = Posted(response: Response<CommentsAnswer>, comments: seq<Comment>, flags: seq<CommentFlag>)

  /**
   * POST /api/comments. "create" checks the report id and then the comment,
   * and stores the content as sent, untrimmed and unescaped; "report" checks
   * the comment id, refuses a second flag from the same identity and
   * otherwise stores the flag; any other action is refused.
   */
  function PostComment(comments: seq<Comment>, flags: seq<CommentFlag>, action: Option<string>,
                       reportId: Option<string>, content: Option<string>, who: Identity,
                       commentId: Option<string>, newId: string, now: int): (p: Posted)
    ensures p.response.Err? ==> p.response.status == 400 && p.comments == comments && p.flags == flags
    ensures p.response.Ok? ==> p.response.status == 201
    ensures p.flags == flags || p.comments == comments
  {
    if action == Some("create") then
      if !IsValidUUID(reportId) then Posted(Err(400, InvalidReportIdError), comments, flags)
      else
        var check := IsValidComment(content);
        if !check.valid then Posted(Err(400, check.error.value), comments, flags)
        else
          var c := Comment(newId, reportId.value, content.value, who.fingerprintHash, who.ipHash, now, 0);
          Posted(Ok(201, CreatedComment(c)), comments + [c], flags)
    else if action == Some("report") then
      if !IsValidUUID(commentId) then Posted(Err(400, InvalidCommentIdError), comments, flags)
      else if Single(flags, FlagOfFn(commentId.value, who)).Some? then
        Posted(Err(400, AlreadyFlaggedError), comments, flags)
      else
        Posted(Ok(201, Flagged), comments, flags + [CommentFlag(commentId.value, who.fingerprintHash, who.ipHash, now)])
    else Posted(Err(400, InvalidActionError), comments, flags)
  }

  /**
   * "create" inserts exactly when the report id is a UUID and the comment
   * passes `isValidComment`; the stored content is the content sent.
   */
  lemma CreateStoresVerbatim(comments: seq<Comment>, flags: seq<CommentFlag>, reportId: Option<string>,
                             content: Option<string>, who: Identity, commentId: Option<string>, newId: string, now: int)
    ensures var p := PostComment(comments, flags, Some("create"), reportId, content, who, commentId, newId, now);
      && p.flags == flags
      && (p.response.Ok? <==> IsValidUUID(reportId) && IsValidComment(content).valid)
      && (p.response.Ok? ==>
            && p.comments == comments + [p.response.body.comment]
            && p.response.body.comment.content == content.value
            && p.response.body.comment.reportId == reportId.value)
      && (IsValidUUID(reportId) && !IsValidComment(content).valid ==> p.response.error == IsValidComment(content).error.value)
      && (!IsValidUUID(reportId) ==> p.response == Err(400, InvalidReportIdError))
  {}

  /**
   * "report" appends a flag for the comment and the identity exactly when
   * the comment id is a UUID and the identity has not flagged that comment; a table with one flag per triple
   * keeps that property.
   */
  lemma FlagOncePerIdentity(comments: seq<Comment>, flags: seq<CommentFlag>, reportId: Option<string>,
                            content: Option<string>, who: Identity, commentId: Option<string>, newId: string, now: int)
    requires UniqueFlags(flags)
    ensures var p := PostComment(comments, flags, Some("report"), reportId, content, who, commentId, newId, now);
      && p.comments == comments
      && UniqueFlags(p.flags)
      && (p.response.Ok? ==> p.flags == flags + [CommentFlag(commentId.value, who.fingerprintHash, who.ipHash, now)])
      && (IsValidUUID(commentId) ==>
            (p.response.Ok? <==> forall j :: 0 <= j < |flags| ==> !FlagOf(flags[j], commentId.value, who)))
      && (!IsValidUUID(commentId) ==> p.response == Err(400, InvalidCommentIdError))
  {
    if IsValidUUID(commentId) {
      var cid := commentId.value;
      var q := FlagOfFn(cid, who);
      if exists j :: 0 <= j < |flags| && FlagOf(flags[j], cid, who) {
        var j :| 0 <= j < |flags| && FlagOf(flags[j], cid, who);
        OnlyFlagOfIdentity(flags, cid, who, j);
        FilterSingleton(flags, q, j);
      } else {
        FilterNone(flags, q);
        var x := CommentFlag(cid, who.fingerprintHash, who.ipHash, now);
        AppendFreshFlag(flags, x);
      }
    }
  }

  /** Flagging the same comment twice from the same identity stores one flag. */
  lemma SecondFlagRefused(comments: seq<Comment>, flags: seq<CommentFlag>, cid: string, who: Identity, now1: int, now2: int)
    requires UniqueFlags(flags) && IsValidUUID(Some(cid))
    ensures var p1 := PostComment(comments, flags, Some("report"), None, None, who, Some(cid), "", now1);
      var p2 := PostComment(p1.comments, p1.flags, Some("report"), None, None, who, Some(cid), "", now2);
      p2.response == Err(400, AlreadyFlaggedError) && p2.flags == p1.flags
  {
    var p1 := PostComment(comments, flags, Some("report"), None, None, who, Some(cid), "", now1);
    FlagOncePerIdentity(comments, flags, None, None, who, Some(cid), "", now1);
    var j :| 0 <= j < |p1.flags| && FlagOf(p1.flags[j], cid, who) by {
      if p1.response.Ok? {
        assert FlagOf(p1.flags[|flags|], cid, who);
      }
    }
    FlagOncePerIdentity(p1.comments, p1.flags, None, None, who, Some(cid), "", now2);
  }

  lemma OnlyFlagOfIdentity(flags: seq<CommentFlag>, cid: string, who: Identity, i: nat)
    requires UniqueFlags(flags) && i < |flags| && FlagOf(flags[i], cid, who)
    ensures forall j :: 0 <= j < |flags| && j != i ==> !FlagOf(flags[j], cid, who)
  {}

  lemma AppendFreshFlag(flags: seq<CommentFlag>, x: CommentFlag)
    requires UniqueFlags(flags)
    requires forall j :: 0 <= j < |flags| ==> FlagKey(flags[j]) != FlagKey(x)
    ensures UniqueFlags(flags + [x])
  {
    var u := flags + [x];
    assert forall j :: 0 <= j < |flags| ==> u[j] == flags[j];
  }

  /** An action other than "create" and "report" is a 400 that changes nothing. */
  lemma OtherActionRefused(comments: seq<Comment>, flags: seq<CommentFlag>, action: Option<string>,
                           reportId: Option<string>, content: Option<string>, who: Identity,
                           commentId: Option<string>, newId: string, now: int)
    requires action != Some("create") && action != Some("report")
    ensures PostComment(comments, flags, action, reportId, content, who, commentId, newId, now)
            == Posted(Err(400, InvalidActionError), comments, flags)
  {}

  /** GET /api/comments on the database. */
  method Get(db: Database, reportId: Option<string>, page: nat) returns (r: Response<CommentPage>)
    ensures r == GetComments(db.comments, reportId, page)
  {
    r := GetComments(db.comments, reportId, page);
  }

  /**
   * POST /api/comments on the database. The id of a created comment is
   * generated by the storage.
   */
  method Post(db: Database, action: Option<string>, reportId: Option<string>, content: Option<string>,
              who: Identity, commentId: Option<string>, newId: string, now: int)
    returns (r: Response<CommentsAnswer>)
    requires db.Valid()
    modifies db
    ensures db.Valid()
    ensures var p := PostComment(old(db.comments), old(db.commentFlags), action, reportId, content, who, commentId, newId, now);
      r == p.response && db.comments == p.comments && db.commentFlags == p.flags
    ensures db.reports == old(db.reports) && db.votes == old(db.votes)
  {
    if action == Some("create") {
      r := Create(db, reportId, content, who, newId, now);
    } else if action == Some("report") {
      r := Flag(db, who, commentId, now);
    } else {
      r := Err(400, InvalidActionError);
    }
  }

  /** The "create" action of POST /api/comments. */
  method Create(db: Database, reportId: Option<string>, content: Option<string>,
                who: Identity, newId: string, now: int)
    returns (r: Response<CommentsAnswer>)
    requires db.Valid()
    modifies db
    ensures db.Valid()
    ensures var p := PostComment(old(db.comments), old(db.commentFlags), Some("create"), reportId, content, who, None, newId, now);
      r == p.response && db.comments == p.comments && db.commentFlags == p.flags
    ensures db.reports == old(db.reports) && db.votes == old(db.votes)
  {
    ghost var p := PostComment(db.comments, db.commentFlags, Some("create"), reportId, content, who, None, newId, now);
    if !IsValidUUID(reportId) {
      return Err(400, InvalidReportIdError);
    }
    var check := IsValidComment(content);
    if !check.valid {
      return Err(400, check.error.value);
    }
    var c := Comment(newId, reportId.value, content.value, who.fingerprintHash, who.ipHash, now, 0);
    assert p == Posted(Ok(201, CreatedComment(c)), db.comments + [c], db.commentFlags);
    db.comments := db.comments + [c];
    return Ok(201, CreatedComment(c));
  }

  /** The "report" action of POST /api/comments: flag a comment once per identity. */
  method Flag(db: Database, who: Identity, commentId: Option<string>, now: int)
    returns (r: Response<CommentsAnswer>)
    requires db.Valid()
    modifies db
    ensures db.Valid()
    ensures var p := PostComment(old(db.comments), old(db.commentFlags), Some("report"), None, None, who, commentId, "", now);
      r == p.response && db.comments == p.comments && db.commentFlags == p.flags
    ensures db.reports == old(db.reports) && db.votes == old(db.votes)
  {
    FlagOncePerIdentity(db.comments, db.commentFlags, None, None, who, commentId, "", now);
    if !IsValidUUID(commentId) {
      return Err(400, InvalidCommentIdError);
    }
    var existing := Single(db.commentFlags, FlagOfFn(commentId.value, who));
    if existing.Some? {
      return Err(400, AlreadyFlaggedError);
    }
    db.commentFlags := db.commentFlags + [CommentFlag(commentId.value, who.fingerprintHash, who.ipHash, now)];
    return Ok(201, Flagged);
  }
}
