/**
 The shapes of text the review contracts share: digests, trees, lineages, blank text.
 */
module ReviewText {

  predicate LowerHex(c: char) {
    '0' <= c <= '9' || 'a' <= c <= 'f'
  }

  // The validators of digests also take upper-case digits; the hashes the code computes are lower case.
  predicate ValidDigest(s: string) {
    |s| == 71 && s[..7] == "sha256:" && forall i :: 7 <= i < 71 ==> LowerHex(s[i]) || 'A' <= s[i] <= 'F'
  }

  predicate ValidGitTree(s: string) {
    (|s| == 40 || |s| == 64) && forall i :: 0 <= i < |s| ==> LowerHex(s[i])
  }

  // What counts as space in Unicode.
  predicate Space(c: char) {
    || '\t' <= c <= '\r' || c == ' ' || c == '\U{0085}' || c == '\U{00A0}' || c == '\U{1680}'
    || '\U{2000}' <= c <= '\U{200A}' || c == '\U{2028}' || c == '\U{2029}' || c == '\U{202F}' || c == '\U{205F}'
    || c == '\U{3000}'
  }

  predicate BlankText(s: string) {
    forall i :: 0 <= i < |s| ==> Space(s[i])
  }

  predicate LineageChar(c: char) {
    c == '-' || 'a' <= c <= 'z' || '0' <= c <= '9'
  }

  // Lower-case kebab case, at most 128 characters, no leading, trailing or doubled hyphen.
  predicate ValidLineage(s: string) {
    && 0 < |s| <= 128 && s[0] != '-' && s[|s| - 1] != '-'
    && (forall i :: 0 <= i < |s| ==> LineageChar(s[i]))
    && (forall i :: 0 < i < |s| ==> !(s[i - 1] == '-' && s[i] == '-'))
  }

  method CheckLineage(s: string) returns (ok: bool)
    ensures ok <==> ValidLineage(s)
  {
    if s == "" || |s| > 128 || s[0] == '-' || s[|s| - 1] == '-' { return false; }
    var previousHyphen := false;
    for i := 0 to |s|
      invariant forall j :: 0 <= j < i ==> LineageChar(s[j])
      invariant forall j :: 0 < j < i ==> !(s[j - 1] == '-' && s[j] == '-')
      invariant previousHyphen == (i > 0 && s[i - 1] == '-')
    {
      if !LineageChar(s[i]) { return false; }
      if s[i] == '-' && previousHyphen { assert s[i - 1] == '-'; return false; }
      previousHyphen := s[i] == '-';
    }
    return true;
  }
}
