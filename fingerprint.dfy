/**
 * lib/fingerprint.ts: the hexadecimal text of a digest and the five-minute
 * cache of the user's identity. The SHA-256 digest, the browser fingerprint
 * and the IP lookup are outside the model: the digest is a parameter and the
 * fingerprint and IP a fresh fetch would produce are inputs.
 */
module Fingerprint {
  import opened Basics
  import opened Text
  import opened Tables
  import opened Validation

  /** A hexadecimal digit in lower case, as `Number.prototype.toString(16)` writes it. */
  function HexChar(d: nat): (c: char)
    requires d < 16
    ensures IsLowerHex(c) && HexValue(c) == d
  {
    if d < 10 then ('0' as int + d) as char else ('a' as int + d - 10) as char
  }

  predicate IsLowerHex(c: char)
  {
    ('0' <= c <= '9') || ('a' <= c <= 'f')
  }

  function HexValue(c: char): nat
    requires IsLowerHex(c)
  {
    if c <= '9' then c as int - '0' as int else c as int - 'a' as int + 10
  }

  /** `n.toString(16)`: base 16 without leading zeros. */
  function NatToHex(n: nat): (s: string)
    ensures |s| >= 1
    ensures n < 16 <==> |s| == 1
    decreases n
  {
    if n < 16 then [HexChar(n)] else NatToHex(n / 16) + [HexChar(n % 16)]
  }

  /** `b.toString(16).padStart(2, "0")`. */
  function HexOfByte(b: byte): string
  {
    PadStart2(NatToHex(b as nat))
  }

  /** Every byte gives two lower-case hex digits, the high nibble first. */
  lemma HexOfByteDigits(b: byte)
    ensures HexOfByte(b) == [HexChar(b as nat / 16), HexChar(b as nat % 16)]
  {
    var n := b as nat;
    if n >= 16 {
      assert NatToHex(n / 16) == [HexChar(n / 16)];
    }
  }

  /** The `map(...).join("")` step of `hashString`. */
  function HexEncode(bytes: seq<byte>): (s: string)
    ensures |s| == 2 * |bytes|
    decreases |bytes|
  {
    if bytes == [] then []
    else
      HexOfByteDigits(bytes[0]);
      HexOfByte(bytes[0]) + HexEncode(bytes[1..])
  }

  /** Character `2i` is the high nibble of byte `i`, character `2i + 1` the low one. */
  lemma {:induction false} HexEncodePositions(bytes: seq<byte>, i: nat)
    requires i < |bytes|
    ensures var s := HexEncode(bytes);
      s[2 * i] == HexChar(bytes[i] as nat / 16) && s[2 * i + 1] == HexChar(bytes[i] as nat % 16)
    decreases i
  {
    HexOfByteDigits(bytes[0]);
    if i > 0 {
      HexEncodePositions(bytes[1..], i - 1);
    }
  }

  /** The text holds lower-case hex digits only. */
  lemma HexEncodeLowerHex(bytes: seq<byte>)
    ensures forall k :: 0 <= k < |HexEncode(bytes)| ==> IsLowerHex(HexEncode(bytes)[k])
  {
    var s := HexEncode(bytes);
    forall k | 0 <= k < |s| ensures IsLowerHex(s[k]) {
      HexEncodePositions(bytes, k / 2);
    }
  }

  /** Reading the text back, two digits per byte; `None` for anything that is not such a text. */
  function HexDecode(s: string): (r: Option<seq<byte>>)
    ensures r.Some? ==> 2 * |r.value| == |s|
    decreases |s|
  {
    if s == [] then Some([])
    else if |s| < 2 || !IsLowerHex(s[0]) || !IsLowerHex(s[1]) then None
    else
      match HexDecode(s[2..])
      case None => None
      case Some(rest) => Some([(HexValue(s[0]) * 16 + HexValue(s[1])) as byte] + rest)
  }

  /** The encoding loses nothing: decoding gives back the digest. */
  lemma {:induction false} HexRoundTrip(bytes: seq<byte>)
    ensures HexDecode(HexEncode(bytes)) == Some(bytes)
    decreases |bytes|
  {
    if bytes != [] {
      HexOfByteDigits(bytes[0]);
      var s := HexEncode(bytes);
      assert s[2..] == HexEncode(bytes[1..]);
      HexRoundTrip(bytes[1..]);
      assert bytes == [bytes[0]] + bytes[1..];
    }
  }

  /** A SHA-256 digest, 32 bytes, gives a text that `isValidHash` accepts. */
  lemma DigestTextIsValidHash(bytes: seq<byte>)
    requires |bytes| == 32
    ensures IsValidHash(Some(HexEncode(bytes)))
  {
    HexEncodeLowerHex(bytes);
  }

  /** `isValidHash` accepts the hex text of a digest exactly when the digest has the 32 bytes of SHA-256. */
  lemma DigestTextValidIffSha256Length(bytes: seq<byte>)
    ensures IsValidHash(Some(HexEncode(bytes))) <==> |bytes| == 32
  {
    if |bytes| == 32 {
      DigestTextIsValidHash(bytes);
    }
  }

  /** The digest function: the bytes of a string's SHA-256 digest. */
  type Digest = string -> seq<byte>

  /** `hashString`. */
  function HashString(digest: Digest, s: string): (h: string)
    ensures |h| == 2 * |digest(s)|
  {
    HexEncode(digest(s))
  }

  /** The identity the client sends: the raw fingerprint and IP and their hashes. */
  datatype UserIdentity = UserIdentity(fingerprint: string, ip: string, fingerprintHash: string, ipHash: string)

  /** The pair the routes key votes and flags on. */
  function IdentityOf(u: UserIdentity): Identity
  {
    Identity(u.fingerprintHash, u.ipHash)
  }

  const IdentityCacheDurationMs := 5 * 60 * 1000

  /** The cached identity is served, without a fetch, while it is younger than five minutes. */
  predicate CacheHit(cached: Option<UserIdentity>, lastFetch: int, now: int)
  {
    cached.Some? && now - lastFetch < IdentityCacheDurationMs
  }

  /** A cache entry is served for exactly the five minutes after its fetch; an empty cache never is. */
  lemma CacheHitWindow(cached: Option<UserIdentity>, lastFetch: int, now: int)
    ensures CacheHit(cached, lastFetch, now) <==> cached.Some? && now < lastFetch + 300000
    ensures !CacheHit(None, lastFetch, now)
  {}

  /** The module-level cache of `getUserIdentity`. */
  class IdentityCache {
    var cachedIdentity: Option<UserIdentity>
    var lastIdentityFetch: int

    constructor ()
      ensures cachedIdentity == None && lastIdentityFetch == 0
    {
      cachedIdentity, lastIdentityFetch := None, 0;
    }

    /**
     * `getUserIdentity` at time `now`: the cached identity on a hit; otherwise
     * the freshly fetched fingerprint and IP with their hashes, which become
     * the cache entry stamped with `now`.
     */
    method GetUserIdentity(now: int, fingerprint: string, ip: string, digest: Digest)
      returns (identity: UserIdentity, fetched: bool)
      modifies this
      ensures fetched <==> !CacheHit(old(cachedIdentity), old(lastIdentityFetch), now)
      ensures !fetched ==>
        && identity == old(cachedIdentity).value
        && cachedIdentity == old(cachedIdentity) && lastIdentityFetch == old(lastIdentityFetch)
      ensures fetched ==>
        && identity == UserIdentity(fingerprint, ip, HashString(digest, fingerprint), HashString(digest, ip))
        && cachedIdentity == Some(identity) && lastIdentityFetch == now
    {
      if cachedIdentity.Some? && now - lastIdentityFetch < IdentityCacheDurationMs {
        return cachedIdentity.value, false;
      }
      identity := UserIdentity(fingerprint, ip, HashString(digest, fingerprint), HashString(digest, ip));
      cachedIdentity := Some(identity);
      lastIdentityFetch := now;
      fetched := true;
    }

    /** `clearIdentityCache`: the next `getUserIdentity` fetches, whatever the time. */
    method ClearIdentityCache()
      modifies this
      ensures cachedIdentity == None && lastIdentityFetch == 0
      ensures forall now :: !CacheHit(cachedIdentity, lastIdentityFetch, now)
    {
      cachedIdentity, lastIdentityFetch := None, 0;
    }
  }
}
