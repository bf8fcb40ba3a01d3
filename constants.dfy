/**
 * The configurable values of lib/constants.ts that the core uses.
 */
module Constants {

  /** Radius in metres for the nearby-report check before creating a report. */
  const ProximityRadiusMeters: real := 50.0

  /** Milliseconds in one minute: instants are integer milliseconds. */
  const MsPerMinute: int := 60000

  const InitialReportValidityMinutes: int := 60
  const UpvoteTimeExtensionMinutes: int := 20
  const MaxValidityCapMinutes: int := 70
  /** The upvote bonus cap written as a literal `10` in the vote route. */
  const UpvoteBonusCapMinutes: int := 10

  const DownvotesForTimeReduction: int := 5
  const TimeReducedPerDownvoteBatchMinutes: int := 2

  const MaxCommentLength: int := 500
  const CommentsPerPage: int := 20

  /** Distance thresholds of the temperature bands, in metres. */
  const NormalThreshold: real := 5000.0
  const CoolThreshold: real := 2000.0
  const ColdThreshold: real := 500.0
  const FreezeThreshold: real := 100.0

  /** Temperature values at the band boundaries. */
  const NormalValue: real := 0.0
  const CoolValue: real := 25.0
  const ColdValue: real := 50.0
  const FreezeValue: real := 75.0
  const ExtremeValue: real := 100.0

  /** Shipped as `false`; the IP-key rotation takes the flag as a parameter. */
  const EnableIpGeolocationFallback: bool := false
  const MaxRequestsPerIpKey: int := 900
  const IpKeyResetIntervalMs: int := 86400000
}
