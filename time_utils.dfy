/**
 * The validity arithmetic of utils/time.ts. Instants are integer
 * milliseconds since the epoch; `now` is the clock reading the source takes
 * with `new Date()` / `Date.now()`, passed in explicitly.
 */
module TimeUtils {
  import opened Basics
  import opened Constants
  import opened Text

  /** `Math.trunc(a / b)`: integer division rounded toward zero. */
  function TruncDiv(a: int, b: int): int
    requires b > 0
  {
    if a >= 0 then a / b else -((-a) / b)
  }

  /** `isPast(expiry)`: the expiry lies strictly before now. */
  predicate IsReportExpired(expiry: int, now: int)
  {
    expiry < now
  }

  /**
   * `Math.max(0, differenceInMinutes(expiry, now))`: whole minutes left,
   * rounded toward zero, never negative.
   */
  function TimeRemainingMinutes(expiry: int, now: int): (m: nat)
    ensures m * MsPerMinute <= Max(0, expiry - now) < (m + 1) * MsPerMinute
    ensures expiry <= now ==> m == 0
  {
    var minutes := TruncDiv(expiry - now, MsPerMinute);
    if minutes > 0 then minutes else 0
  }

  /** A new report expires 60 minutes from now, so it has 60 whole minutes left. */
  function CalculateInitialValidity(now: int): (expiry: int)
    ensures !IsReportExpired(expiry, now)
    ensures TimeRemainingMinutes(expiry, now) == InitialReportValidityMinutes
  {
    now + InitialReportValidityMinutes * MsPerMinute
  }

  /**
   * The expiry after one upvote: 20 minutes later, but never more than
   * 70 minutes from now.
   */
  function CalculateValidityAfterUpvote(currentExpiry: int, now: int): (expiry: int)
    ensures expiry <= currentExpiry + UpvoteTimeExtensionMinutes * MsPerMinute
    ensures expiry <= now + MaxValidityCapMinutes * MsPerMinute
    ensures expiry == currentExpiry + UpvoteTimeExtensionMinutes * MsPerMinute
            || expiry == now + MaxValidityCapMinutes * MsPerMinute
  {
    var extended := currentExpiry + UpvoteTimeExtensionMinutes * MsPerMinute;
    var cap := now + MaxValidityCapMinutes * MsPerMinute;
    if extended > cap then cap else extended
  }

  /** Minutes taken off for `downvoteCount` downvotes: 2 per complete batch of 5. */
  function DownvoteReductionMinutes(downvoteCount: nat): nat
  {
    (downvoteCount / DownvotesForTimeReduction) * TimeReducedPerDownvoteBatchMinutes
  }

  /** One more downvote takes off 2 more minutes exactly when it completes a batch of 5. */
  lemma DownvoteReductionStep(n: nat)
    ensures DownvoteReductionMinutes(n + 1)
            == DownvoteReductionMinutes(n) + (if (n + 1) % DownvotesForTimeReduction == 0 then TimeReducedPerDownvoteBatchMinutes else 0)
  {
    var q, r := n / 5, n % 5;
    assert n == 5 * q + r;
    if r == 4 {
      assert n + 1 == 5 * (q + 1);
    } else {
      assert n + 1 == 5 * q + (r + 1);
    }
  }

  /** More downvotes never take off less time. */
  lemma {:induction false} DownvoteReductionMonotone(n1: nat, n2: nat)
    requires n1 <= n2
    ensures DownvoteReductionMinutes(n1) <= DownvoteReductionMinutes(n2)
    decreases n2 - n1
  {
    if n1 < n2 {
      DownvoteReductionStep(n1);
      DownvoteReductionMonotone(n1 + 1, n2);
    }
  }

  /**
   * The expiry after downvotes: the reduction is subtracted, but the result
   * never lies before now; fewer than 5 downvotes leave a future expiry as it is.
   */
  function CalculateValidityAfterDownvote(currentExpiry: int, downvoteCount: nat, now: int): (expiry: int)
    ensures expiry >= now
    ensures expiry >= currentExpiry - DownvoteReductionMinutes(downvoteCount) * MsPerMinute
    ensures expiry == now
            || expiry == currentExpiry - DownvoteReductionMinutes(downvoteCount) * MsPerMinute
    ensures downvoteCount < DownvotesForTimeReduction && currentExpiry >= now ==> expiry == currentExpiry
  {
    var reduced := currentExpiry - DownvoteReductionMinutes(downvoteCount) * MsPerMinute;
    if reduced < now then now else reduced
  }

  /**
   * `formatTimeRemaining`: "Expired" for a past expiry; otherwise the relative
   * phrase that date-fns produces, which is passed in.
   */
  function FormatTimeRemaining(expiry: int, now: int, relativePhrase: string): (s: string)
    ensures IsReportExpired(expiry, now) ==> s == "Expired"
    ensures !IsReportExpired(expiry, now) ==> s == relativePhrase
  {
    if IsReportExpired(expiry, now) then "Expired" else relativePhrase
  }

  /** Once past, a report stays past; an earlier expiry is past whenever a later one is. */
  lemma ExpiryIsPermanent(expiry: int, now1: int, now2: int, earlier: int)
    requires now1 <= now2 && earlier <= expiry
    ensures IsReportExpired(expiry, now1) ==> IsReportExpired(expiry, now2)
    ensures IsReportExpired(expiry, now1) ==> IsReportExpired(earlier, now1)
  {}

  /** `formatTimeRemainingDetailed`: "m:ss" of the whole seconds left, "0:00" once past. */
  function FormatTimeRemainingDetailed(expiry: int, now: int): (s: string)
  {
    if IsReportExpired(expiry, now) then "0:00"
    else
      var totalSeconds := (expiry - now) / 1000;
      var minutes := totalSeconds / 60;
      var seconds := totalSeconds % 60;
      NatToString(minutes) + ":" + PadStart2(NatToString(seconds))
  }

  /** Numbers below 100 render in at most two digits. */
  lemma TwoDigits(n: nat)
    requires n < 100
    ensures |NatToString(n)| <= 2
  {
    if n >= 10 {
      assert NatToString(n) == NatToString(n / 10) + [DigitChar(n % 10)];
    }
  }

  /**
   * The detailed format reads back: the text before the colon is the minutes,
   * the two digits after it are the seconds (0 to 59), and together they give
   * the whole seconds remaining; a past expiry reads as "0:00".
   */
  lemma FormatTimeRemainingDetailedReadsBack(expiry: int, now: int)
    ensures var s := FormatTimeRemainingDetailed(expiry, now);
      && |s| >= 4 && s[|s| - 3] == ':'
      && AllDigits(s[..|s| - 3]) && AllDigits(s[|s| - 2..])
      && ParseNat(s[|s| - 2..]) < 60
      && ParseNat(s[..|s| - 3]) * 60 + ParseNat(s[|s| - 2..])
         == if IsReportExpired(expiry, now) then 0 else (expiry - now) / 1000
    ensures IsReportExpired(expiry, now) ==> FormatTimeRemainingDetailed(expiry, now) == "0:00"
  {
    var s := FormatTimeRemainingDetailed(expiry, now);
    var total := if IsReportExpired(expiry, now) then 0 else (expiry - now) / 1000;
    var m, sec := total / 60, total % 60;
    var ms, ss := NatToString(m), PadStart2(NatToString(sec));
    if IsReportExpired(expiry, now) {
      assert s == "0" + ":" + "00";
      assert NatToString(0) == "0";
      assert "00" == PadStart2("0");
    }
    assert s == ms + ":" + ss;
    TwoDigits(sec);
    ParseNatToString(m);
    ParseNatToString(sec);
    assert s[..|s| - 3] == ms;
    assert s[|s| - 2..] == ss;
  }

  /**
   * `calculateProbability`: 50 with no votes; otherwise the upvote share in
   * percent, rounded to the nearest integer (halves up).
   */
  function CalculateProbability(upvotes: nat, downvotes: nat): (p: int)
    ensures upvotes + downvotes == 0 ==> p == 50
    ensures 0 <= p <= 100
    ensures upvotes + downvotes > 0 ==>
      var t := upvotes + downvotes;
      2 * p * t - t <= 200 * upvotes < 2 * p * t + t
  {
    if upvotes == 0 && downvotes == 0 then 50
    else
      var total := upvotes + downvotes;
      var share := (upvotes as real / total as real) * 100.0;
      var p := Round(share);
      RoundedShare(upvotes, total, share, p);
      p
  }

  /** The rounded share of upvotes, read back in integers. */
  lemma RoundedShare(upvotes: nat, total: nat, share: real, p: int)
    requires 0 < total && upvotes <= total
    requires share == (upvotes as real / total as real) * 100.0
    requires p as real - 0.5 <= share < p as real + 0.5
    ensures 0 <= p <= 100
    ensures 2 * p * total - total <= 200 * upvotes < 2 * p * total + total
  {
    var lo, hi := p as real - 0.5, p as real + 0.5;
    ShareTimesTotal(upvotes as real, total as real, share);
    ScaledBounds(upvotes as real, total as real, share, lo, hi);
    IntBounds(p, total, upvotes, lo, hi);
  }

  lemma ShareTimesTotal(u: real, t: real, share: real)
    requires t > 0.0 && share == (u / t) * 100.0
    ensures share * t == 100.0 * u
  {
    assert (u / t) * t == u;
  }

  /** In reals: a share of at most 100 percent, and the rounding bounds scaled by the total. */
  lemma ScaledBounds(u: real, t: real, share: real, lo: real, hi: real)
    requires 0.0 <= u <= t && t > 0.0 && share * t == 100.0 * u
    requires lo <= share < hi
    ensures 0.0 <= share <= 100.0
    ensures lo * t <= 100.0 * u < hi * t
  {
    if share > 100.0 { MulStrict(100.0, share, t); }
    if share < 0.0 { MulStrict(share, 0.0, t); }
    MulLe(lo, share, t);
    MulStrict(share, hi, t);
  }

  /** The scaled bounds, read back in integers. */
  lemma IntBounds(p: int, total: int, upvotes: int, lo: real, hi: real)
    requires lo == p as real - 0.5 && hi == p as real + 0.5
    requires lo * (total as real) <= 100.0 * (upvotes as real) < hi * (total as real)
    ensures 2 * p * total - total <= 200 * upvotes < 2 * p * total + total
  {
    var t := total as real;
    CastMul(2 * p - 1, total);
    CastMul(2 * p + 1, total);
    Scale2(lo, t);
    Scale2(hi, t);
    assert ((2 * p - 1) * total) as real <= (200 * upvotes) as real < ((2 * p + 1) * total) as real;
  }

  lemma Scale2(a: real, t: real)
    ensures (2.0 * a) * t == 2.0 * (a * t)
  {}

  lemma CastMul(a: int, b: int)
    ensures (a * b) as real == a as real * b as real
  {}

  lemma MulLe(a: real, b: real, c: real)
    requires a <= b && c >= 0.0
    ensures a * c <= b * c
  {}

  lemma MulStrict(a: real, b: real, c: real)
    requires a < b && c > 0.0
    ensures a * c < b * c
  {}

  /**
   * `getTimeRemainingProgress`: the minutes left as a percentage of the
   * 70-minute cap, clamped to [0, 100]; 0 once past.
   */
  function GetTimeRemainingProgress(expiry: int, now: int): (progress: real)
    ensures 0.0 <= progress <= 100.0
    ensures IsReportExpired(expiry, now) ==> progress == 0.0
  {
    if IsReportExpired(expiry, now) then 0.0
    else
      var minutesRemaining := TimeRemainingMinutes(expiry, now);
      var progress := (minutesRemaining as real / MaxValidityCapMinutes as real) * 100.0;
      RealMin(100.0, RealMax(0.0, progress))
  }

  /** Whole minutes left never decrease when the expiry moves later. */
  lemma TimeRemainingMonotone(e1: int, e2: int, now: int)
    requires e1 <= e2
    ensures TimeRemainingMinutes(e1, now) <= TimeRemainingMinutes(e2, now)
  {
  }

  /** A later expiry never shows less progress. */
  lemma ProgressMonotone(e1: int, e2: int, now: int)
    requires e1 <= e2
    ensures GetTimeRemainingProgress(e1, now) <= GetTimeRemainingProgress(e2, now)
  {
    if !IsReportExpired(e1, now) {
      TimeRemainingMonotone(e1, e2, now);
      var m1, m2 := TimeRemainingMinutes(e1, now), TimeRemainingMinutes(e2, now);
      assert (m1 as real / 70.0) * 100.0 <= (m2 as real / 70.0) * 100.0;
    }
  }

  /**
   * The displays of one expiry agree: once past, the label reads "Expired",
   * no whole minute is left, the progress is 0 and the countdown reads
   * "0:00"; for any phrase other than "Expired" the label reads "Expired"
   * exactly when the report is past; with a whole minute left the progress
   * is above 0.
   */
  lemma ExpiredDisplaysAgree(expiry: int, now: int, relativePhrase: string)
    ensures IsReportExpired(expiry, now) ==>
      && FormatTimeRemaining(expiry, now, relativePhrase) == "Expired"
      && TimeRemainingMinutes(expiry, now) == 0
      && GetTimeRemainingProgress(expiry, now) == 0.0
      && FormatTimeRemainingDetailed(expiry, now) == "0:00"
    ensures relativePhrase != "Expired" ==>
      (FormatTimeRemaining(expiry, now, relativePhrase) == "Expired" <==> IsReportExpired(expiry, now))
    ensures expiry - now >= MsPerMinute ==> GetTimeRemainingProgress(expiry, now) > 0.0
  {
    if expiry - now >= MsPerMinute {
      var m := TimeRemainingMinutes(expiry, now);
      assert m >= 1;
      assert (m as real / 70.0) * 100.0 > 0.0;
    }
  }
}
