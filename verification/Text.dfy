/** Text as the components read it. */
module Text {
  /** The Unicode white space. */
  predicate IsSpace(c: char) {
    || '\t' <= c <= '\r' || c == ' ' || c == '\U{85}' || c == '\U{A0}' || c == '\U{1680}'
    || '\U{2000}' <= c <= '\U{200A}'
    || c == '\U{2028}' || c == '\U{2029}' || c == '\U{202F}' || c == '\U{205F}' || c == '\U{3000}'
  }

  predicate IsControl(c: char) {
    c < ' ' || '\U{7F}' <= c <= '\U{9F}'
  }

  predicate IsDigit(c: char) {
    '0' <= c <= '9'
  }

  predicate IsHexDigit(c: char) {
    IsDigit(c) || 'a' <= c <= 'f' || 'A' <= c <= 'F'
  }

  /** Without the white space at either end: trimming again changes nothing. */
  function Trim(s: string): (r: string)
    ensures |r| <= |s|
    ensures r != "" ==> !IsSpace(r[0]) && !IsSpace(r[|r| - 1])
  {
    if s != "" && IsSpace(s[0]) then Trim(s[1..])
    else if s != "" && IsSpace(s[|s| - 1]) then Trim(s[..|s| - 1])
    else s
  }

  /** It cuts off nothing else. */
  lemma {:induction false} TrimCutsOnlySpace(s: string) returns (i: nat, j: nat)
    ensures i <= j <= |s| && Trim(s) == s[i..j]
    ensures forall k :: 0 <= k < i || j <= k < |s| ==> IsSpace(s[k])
  {
    if s != "" && IsSpace(s[0]) {
      var a, b := TrimCutsOnlySpace(s[1..]);
      i, j := a + 1, b + 1;
      assert s[1..][a..b] == s[i..j];
      assert forall k :: 1 <= k < |s| ==> s[k] == s[1..][k - 1];
    } else if s != "" && IsSpace(s[|s| - 1]) {
      var front := s[..|s| - 1];
      i, j := TrimCutsOnlySpace(front);
      assert forall k :: 0 <= k < |front| ==> s[k] == front[k];
    } else {
      i, j := 0, |s|;
    }
  }

  /** Where `sep` first stands in `s`, or |s|. */
  function IndexOf(s: string, sep: string): (i: nat)
    ensures i <= |s|
  {
    if s == "" || sep <= s then 0 else 1 + IndexOf(s[1..], sep)
  }
}
