/** `detectBrowser` and `isMobile` of `src/utils/browser.ts`, with the
    user-agent string as a parameter instead of `navigator.userAgent`. */
module Browser {

  /** `toLowerCase` on one character, for the ASCII letters. */
  function LowerChar(c: char): char {
    if 'A' <= c <= 'Z' then (c as int + 32) as char else c
  }

  function ToLower(s: string): (r: string)
    ensures |r| == |s|
    ensures forall i :: 0 <= i < |s| ==> r[i] == LowerChar(s[i])
  {
    if s == [] then [] else [LowerChar(s[0])] + ToLower(s[1..])
  }

  /** Lower-casing twice is lower-casing once. */
  lemma ToLowerIdempotent(s: string)
    ensures ToLower(ToLower(s)) == ToLower(s)
  {
    assert forall i :: 0 <= i < |s| ==> LowerChar(LowerChar(s[i])) == LowerChar(s[i]);
  }

  /** `t` occurs in `s` starting at position `i`. */
  predicate OccursAt(s: string, t: string, i: nat) {
    i + |t| <= |s| && s[i..i + |t|] == t
  }

  /** `s.includes(t)`. */
  function Contains(s: string, t: string): (b: bool)
    ensures b <==> exists i: nat :: OccursAt(s, t, i)
    decreases |s|
  {
    if |t| > |s| then false
    else if s[..|t|] == t then assert OccursAt(s, t, 0); true
    else
      var b := Contains(s[1..], t);
      assert forall i: nat :: OccursAt(s[1..], t, i) <==> OccursAt(s, t, i + 1);
      assert !OccursAt(s, t, 0);
      assert forall i: nat :: OccursAt(s, t, i) ==> i > 0 && OccursAt(s[1..], t, i - 1);
      b
  }

  datatype BrowserKind = Chrome | Firefox | Safari | Other

  function DetectBrowser(userAgent: string): (kind: BrowserKind)
    ensures var ua := ToLower(userAgent);
            (kind == Chrome <==> Contains(ua, "chrome") && !Contains(ua, "edg")) &&
            (kind == Firefox <==> Contains(ua, "firefox") && !(Contains(ua, "chrome") && !Contains(ua, "edg"))) &&
            (kind == Safari <==> Contains(ua, "safari") && !Contains(ua, "chrome") && !Contains(ua, "firefox"))
  {
    var ua := ToLower(userAgent);
    if Contains(ua, "chrome") && !Contains(ua, "edg") then Chrome
    else if Contains(ua, "firefox") then Firefox
    else if Contains(ua, "safari") && !Contains(ua, "chrome") then Safari
    else Other
  }

  /** A Chromium-based Edge string that does not mention Firefox is
      neither Chrome nor Safari: it is classified as other. */
  lemma EdgeIsOther(userAgent: string)
    requires var ua := ToLower(userAgent);
             Contains(ua, "chrome") && Contains(ua, "edg") && !Contains(ua, "firefox")
    ensures DetectBrowser(userAgent) == Other
  {
  }

  /** The classification ignores letter case. */
  lemma DetectBrowserIgnoresCase(userAgent: string)
    ensures DetectBrowser(ToLower(userAgent)) == DetectBrowser(userAgent)
  {
    ToLowerIdempotent(userAgent);
  }

  /** The alternatives of the `isMobile` pattern. */
  const MobileTokens: seq<string> :=
    ["Android", "webOS", "iPhone", "iPad", "iPod", "BlackBerry", "IEMobile", "Opera Mini"]

  /** The same alternatives, lower-cased once. */
  const LowerMobileTokens: seq<string> :=
    ["android", "webos", "iphone", "ipad", "ipod", "blackberry", "iemobile", "opera mini"]

  /** `r` is `s` lower-cased, checked character by character. */
  lemma LowerCharwise(s: string, r: string)
    requires |r| == |s| && forall i :: 0 <= i < |s| ==> r[i] == LowerChar(s[i])
    ensures ToLower(s) == r
  {
  }

  lemma LowerMobileTokensAreLowered()
    ensures |LowerMobileTokens| == |MobileTokens|
    ensures forall k :: 0 <= k < |MobileTokens| ==> LowerMobileTokens[k] == ToLower(MobileTokens[k])
  {
    forall k | 0 <= k < |MobileTokens|
      ensures LowerMobileTokens[k] == ToLower(MobileTokens[k])
    {
      LowerCharwise(MobileTokens[k], LowerMobileTokens[k]);
    }
  }

  function ContainsAny(s: string, tokens: seq<string>): (b: bool)
    ensures b <==> exists k :: 0 <= k < |tokens| && Contains(s, tokens[k])
  {
    if tokens == [] then false
    else
      var b := Contains(s, tokens[0]) || ContainsAny(s, tokens[1..]);
      assert forall k :: 1 <= k < |tokens| ==> tokens[1..][k - 1] == tokens[k];
      b
  }

  /** The case-insensitive pattern test: some alternative occurs in the
      user agent once both are lower-cased. */
  function IsMobile(userAgent: string): (mobile: bool)
    ensures mobile <==> exists k :: 0 <= k < |LowerMobileTokens| && Contains(ToLower(userAgent), LowerMobileTokens[k])
  {
    ContainsAny(ToLower(userAgent), LowerMobileTokens)
  }

  /** Spelled with the original alternatives. */
  lemma IsMobileMatchesIgnoringCase(userAgent: string)
    ensures IsMobile(userAgent) <==>
              exists k :: 0 <= k < |MobileTokens| && Contains(ToLower(userAgent), ToLower(MobileTokens[k]))
  {
    LowerMobileTokensAreLowered();
  }

  lemma IsMobileIgnoresCase(userAgent: string)
    ensures IsMobile(ToLower(userAgent)) == IsMobile(userAgent)
  {
    ToLowerIdempotent(userAgent);
  }
}
