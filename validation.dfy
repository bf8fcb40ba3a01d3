/**
 * utils/validation.ts: the input checks of the API routes and the comment
 * sanitiser. A JSON value that is not a number or not a string is `None`.
 */
module Validation {
  import opened Basics
  import opened Constants
  import opened Text

  /** `isValidLatitude`: a number in [-90, 90]. */
  predicate IsValidLatitude(lat: Option<real>)
  {
    lat.Some? && -90.0 <= lat.value <= 90.0
  }

  /** `isValidLongitude`: a number in [-180, 180]. */
  predicate IsValidLongitude(lng: Option<real>)
  {
    lng.Some? && -180.0 <= lng.value <= 180.0
  }

  predicate IsValidLocation(lat: Option<real>, lng: Option<real>)
  {
    IsValidLatitude(lat) && IsValidLongitude(lng)
  }

  /**
   * The accepted coordinates form the closed box [-90, 90] x [-180, 180]:
   * its edges and corners are accepted, anything beyond them and any
   * missing coordinate is not.
   */
  lemma ValidLocationIsClosedBox(lat: real, lng: real)
    ensures IsValidLocation(Some(lat), Some(lng)) <==> -90.0 <= lat <= 90.0 && -180.0 <= lng <= 180.0
    ensures IsValidLocation(Some(90.0), Some(-180.0)) && IsValidLocation(Some(-90.0), Some(180.0))
    ensures !IsValidLocation(None, Some(lng)) && !IsValidLocation(Some(lat), None)
  {}

  const EmptyCommentError := "Comment cannot be empty"
  const LongCommentError := "Comment must be less than 500 characters"

  /** The `{ valid, error? }` result of `isValidComment`. */
  datatype CommentCheck = CommentCheck(valid: bool, error: Option<string>)

  /**
   * `isValidComment`: a missing, empty or all-whitespace comment is empty; a
   * comment whose trimmed length exceeds 500 is too long; anything else passes.
   */
  function IsValidComment(content: Option<string>): (c: CommentCheck)
    ensures c.valid <==> c.error.None?
    ensures c.error == Some(EmptyCommentError) <==> content.None? || AllWhitespace(content.value)
    ensures c.error == Some(LongCommentError) <==>
      content.Some? && !AllWhitespace(content.value) && |Trim(content.value)| > MaxCommentLength
    ensures c.valid <==> content.Some? && 0 < |Trim(content.value)| <= MaxCommentLength
  {
    if content.None? || content.value == "" then
      TrimEmptyIffBlank(if content.None? then "" else content.value);
      CommentCheck(false, Some(EmptyCommentError))
    else
      var trimmed := Trim(content.value);
      TrimEmptyIffBlank(content.value);
      if |trimmed| == 0 then CommentCheck(false, Some(EmptyCommentError))
      else if |trimmed| > MaxCommentLength then CommentCheck(false, Some(LongCommentError))
      else CommentCheck(true, None)
  }

  /** The characters the sanitiser rewrites. */
  predicate IsHtmlSpecial(c: char)
  {
    c == '<' || c == '>' || c == '"' || c == '\'' || c == '/'
  }

  predicate NoHtmlSpecial(s: string)
  {
    forall i :: 0 <= i < |s| ==> !IsHtmlSpecial(s[i])
  }

  /** `s.replace(/c/g, replacement)`: every occurrence of `c` replaced. */
  function ReplaceAll(s: string, c: char, replacement: string): (r: string)
    decreases |s|
  {
    if s == [] then []
    else (if s[0] == c then replacement else [s[0]]) + ReplaceAll(s[1..], c, replacement)
  }

  lemma {:induction false} ReplaceAllAppend(a: string, b: string, c: char, replacement: string)
    ensures ReplaceAll(a + b, c, replacement) == ReplaceAll(a, c, replacement) + ReplaceAll(b, c, replacement)
    decreases |a|
  {
    if a == [] {
      assert a + b == b;
    } else {
      assert (a + b)[1..] == a[1..] + b;
      ReplaceAllAppend(a[1..], b, c, replacement);
    }
  }

  /** The five replacements of `sanitizeComment`, in their order. */
  function ReplaceChain(s: string): string
  {
    var s1 := ReplaceAll(s, '<', "&lt;");
    var s2 := ReplaceAll(s1, '>', "&gt;");
    var s3 := ReplaceAll(s2, '"', "&quot;");
    var s4 := ReplaceAll(s3, '\'', "&#x27;");
    ReplaceAll(s4, '/', "&#x2F;")
  }

  /** `sanitizeComment`: trim, then the replacement chain. */
  function SanitizeComment(content: string): (r: string)
    ensures r == EscapeHtml(Trim(content))
    ensures NoHtmlSpecial(r)
  {
    ChainIsEscape(Trim(content));
    ReplaceChain(Trim(content))
  }

  /** The independent per-character reading of the sanitiser. */
  function EscapeChar(c: char): (r: string)
    ensures NoHtmlSpecial(r)
    ensures !IsHtmlSpecial(c) ==> r == [c]
  {
    if c == '<' then "&lt;"
    else if c == '>' then "&gt;"
    else if c == '"' then "&quot;"
    else if c == '\'' then "&#x27;"
    else if c == '/' then "&#x2F;"
    else [c]
  }

  function EscapeHtml(s: string): (r: string)
    ensures NoHtmlSpecial(r)
    ensures NoHtmlSpecial(s) ==> r == s
    decreases |s|
  {
    if s == [] then []
    else
      var head, rest := EscapeChar(s[0]), EscapeHtml(s[1..]);
      assert NoHtmlSpecial(s) ==> NoHtmlSpecial(s[1..]) && [s[0]] + s[1..] == s;
      head + rest
  }

  /**
   * No replacement text contains a character that a later step replaces, so
   * the chain acts on each character on its own.
   */
  lemma {:induction false} ChainIsEscape(s: string)
    ensures ReplaceChain(s) == EscapeHtml(s)
    decreases |s|
  {
    if s != [] {
      var head, rest := [s[0]], s[1..];
      assert s == head + rest;
      ChainAppend(head, rest);
      ChainOneChar(s[0]);
      ChainIsEscape(rest);
    }
  }

  lemma ChainOneChar(c: char)
    ensures ReplaceChain([c]) == EscapeChar(c)
  {
    var e := EscapeChar(c);
    ReplaceSingle(c, '<', "&lt;");
    if c == '<' {
      LaterStagesKeep(e);
    } else {
      ReplaceSingle(c, '>', "&gt;");
      if c == '>' {
        LaterStagesKeep(e);
      } else {
        ReplaceSingle(c, '"', "&quot;");
        if c == '"' {
          LaterStagesKeep(e);
        } else {
          ReplaceSingle(c, '\'', "&#x27;");
          if c == '\'' {
            LaterStagesKeep(e);
          } else {
            ReplaceSingle(c, '/', "&#x2F;");
          }
        }
      }
    }
  }

  /** A string with no special character survives the later stages. */
  lemma LaterStagesKeep(s: string)
    requires NoHtmlSpecial(s)
    ensures ReplaceAll(s, '>', "&gt;") == s
    ensures ReplaceAll(s, '"', "&quot;") == s
    ensures ReplaceAll(s, '\'', "&#x27;") == s
    ensures ReplaceAll(s, '/', "&#x2F;") == s
  {
    UntouchedByReplace(s, '>', "&gt;");
    UntouchedByReplace(s, '"', "&quot;");
    UntouchedByReplace(s, '\'', "&#x27;");
    UntouchedByReplace(s, '/', "&#x2F;");
  }

  lemma ReplaceSingle(c: char, x: char, replacement: string)
    ensures ReplaceAll([c], x, replacement) == if c == x then replacement else [c]
  {
    assert [c][1..] == [];
  }

  /** A string without `c` is left as it is. */
  lemma {:induction false} UntouchedByReplace(s: string, c: char, replacement: string)
    ensures (forall i :: 0 <= i < |s| ==> s[i] != c) ==> ReplaceAll(s, c, replacement) == s
    decreases |s|
  {
    if s != [] {
      UntouchedByReplace(s[1..], c, replacement);
      assert s == [s[0]] + s[1..];
    }
  }

  lemma ChainAppend(a: string, b: string)
    ensures ReplaceChain(a + b) == ReplaceChain(a) + ReplaceChain(b)
  {
    ReplaceAllAppend(a, b, '<', "&lt;");
    var a1, b1 := ReplaceAll(a, '<', "&lt;"), ReplaceAll(b, '<', "&lt;");
    ReplaceAllAppend(a1, b1, '>', "&gt;");
    var a2, b2 := ReplaceAll(a1, '>', "&gt;"), ReplaceAll(b1, '>', "&gt;");
    ReplaceAllAppend(a2, b2, '"', "&quot;");
    var a3, b3 := ReplaceAll(a2, '"', "&quot;"), ReplaceAll(b2, '"', "&quot;");
    ReplaceAllAppend(a3, b3, '\'', "&#x27;");
    var a4, b4 := ReplaceAll(a3, '\'', "&#x27;"), ReplaceAll(b3, '\'', "&#x27;");
    ReplaceAllAppend(a4, b4, '/', "&#x2F;");
  }

  /** `&`, and every other character the chain does not name, passes through. */
  lemma SanitizeKeepsOtherCharacters(c: char)
    requires !IsHtmlSpecial(c) && !IsJsWhitespace(c)
    ensures SanitizeComment([c]) == [c]
  {
    TrimSlice([c]);
    assert Trim([c]) == [c];
  }

  predicate IsHexDigit(c: char)
  {
    ('0' <= c <= '9') || ('a' <= c <= 'f') || ('A' <= c <= 'F')
  }

  predicate AllHex(s: string)
  {
    forall i :: 0 <= i < |s| ==> IsHexDigit(s[i])
  }

  /**
   * Hex groups of the given lengths separated by single hyphens, and nothing
   * else: the shape of the case-insensitive UUID pattern.
   */
  predicate HexGroups(s: string, lengths: seq<nat>)
    decreases |lengths|
  {
    if lengths == [] then s == []
    else
      var n := lengths[0];
      |s| >= n && AllHex(s[..n])
      && if |lengths| == 1 then |s| == n
         else |s| > n && s[n] == '-' && HexGroups(s[n + 1..], lengths[1..])
  }

  /** `isValidUUID`: groups of 8, 4, 4, 4 and 12 hex digits, either case. */
  predicate IsValidUUID(s: Option<string>)
  {
    s.Some? && HexGroups(s.value, [8, 4, 4, 4, 12])
  }

  predicate IsDashPosition(i: int)
  {
    i == 8 || i == 13 || i == 18 || i == 23
  }

  /** The UUID shape by position: 36 characters, hyphens at 8, 13, 18 and 23, hex digits elsewhere. */
  lemma UUIDByPosition(s: string)
    ensures IsValidUUID(Some(s)) <==>
      |s| == 36 && forall i :: 0 <= i < 36 ==> if IsDashPosition(i) then s[i] == '-' else IsHexDigit(s[i])
  {
    var positional := |s| == 36 && forall i :: 0 <= i < 36 ==> if IsDashPosition(i) then s[i] == '-' else IsHexDigit(s[i]);
    if positional {
      assert AllHex(s[..8]) && s[8] == '-';
      assert AllHex(s[9..][..4]) && s[9..][4] == '-';
      assert AllHex(s[14..][..4]) && s[14..][4] == '-';
      assert AllHex(s[19..][..4]) && s[19..][4] == '-';
      assert AllHex(s[24..][..12]);
      assert s[9..][5..] == s[14..] && s[14..][5..] == s[19..] && s[19..][5..] == s[24..];
    }
    if IsValidUUID(Some(s)) {
      assert s[9..][5..] == s[14..] && s[14..][5..] == s[19..] && s[19..][5..] == s[24..];
      forall i | 0 <= i < 36
        ensures if IsDashPosition(i) then s[i] == '-' else IsHexDigit(s[i])
      {
        if i < 8 { assert s[i] == s[..8][i]; }
        else if 8 < i < 13 { assert s[i] == s[9..][..4][i - 9]; }
        else if 13 < i < 18 { assert s[i] == s[14..][..4][i - 14]; }
        else if 18 < i < 23 { assert s[i] == s[19..][..4][i - 19]; }
        else if 23 < i { assert s[i] == s[24..][..12][i - 24]; }
        else if i == 13 { assert s[i] == s[9..][4]; }
        else if i == 18 { assert s[i] == s[14..][4]; }
        else if i == 23 { assert s[i] == s[19..][4]; }
      }
    }
  }

  /** `isValidVoteType`: exactly "up" or "down". */
  predicate IsValidVoteType(t: string)
  {
    t == "up" || t == "down"
  }

  /** `isValidHash`: a string of exactly 64 hex digits, either case. */
  predicate IsValidHash(h: Option<string>)
  {
    h.Some? && |h.value| == 64 && AllHex(h.value)
  }
}
