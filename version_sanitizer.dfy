/**
 * `sanitizeVersionString`: every character outside `[A-Za-z0-9._-]` becomes `_`,
 * so that a remote version string is safe inside the download file name.
 */
module VersionSanitizer {

  /** The characters the pattern `[^a-zA-Z0-9.\-_]` leaves alone. */
  predicate IsSafeChar(c: char) {
    ('a' <= c <= 'z') || ('A' <= c <= 'Z') || ('0' <= c <= '9') || c == '.' || c == '-' || c == '_'
  }

  predicate IsSafe(s: string) {
    forall k :: 0 <= k < |s| ==> IsSafeChar(s[k])
  }

  /**
   * One replacement per character (the regex matches one code point at a time):
   * the length is kept, safe characters stay where they are, every other becomes `_`.
   */
  function SanitizeVersion(version: string): (r: string)
    ensures |r| == |version|
    ensures forall k :: 0 <= k < |version| ==> r[k] == (if IsSafeChar(version[k]) then version[k] else '_')
    ensures IsSafe(r)
  {
    if version == [] then []
    else [if IsSafeChar(version[0]) then version[0] else '_'] + SanitizeVersion(version[1..])
  }

  /** A string that is already safe comes back unchanged. */
  lemma {:induction false} SanitizeSafeIsIdentity(s: string)
    requires IsSafe(s)
    ensures SanitizeVersion(s) == s
  {
    if s != [] {
      SanitizeSafeIsIdentity(s[1..]);
    }
  }

  /** Sanitizing twice is sanitizing once. */
  lemma SanitizeIdempotent(s: string)
    ensures SanitizeVersion(SanitizeVersion(s)) == SanitizeVersion(s)
  {
    SanitizeSafeIsIdentity(SanitizeVersion(s));
  }

  /** The output is safe exactly when no character was replaced, that is, when the input was. */
  lemma SanitizeFixedPoints(s: string)
    ensures SanitizeVersion(s) == s <==> IsSafe(s)
  {
    if IsSafe(s) {
      SanitizeSafeIsIdentity(s);
    }
  }
}
