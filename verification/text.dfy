/** Whitespace trimming as every form of the application applies it to its inputs
    (ECMAScript's String.prototype.trim). */
module Text {
  import opened Types

  /** The characters trim removes: ECMAScript's WhiteSpace and LineTerminator code points. */
  predicate IsSpace(c: char) {
    || c == '\t' || c == '\n' || c == '\U{B}' || c == '\U{C}' || c == '\r' || c == ' '
    || c == '\U{A0}' || c == '\U{1680}' || ('\U{2000}' <= c <= '\U{200A}')
    || c == '\U{2028}' || c == '\U{2029}' || c == '\U{202F}' || c == '\U{205F}'
    || c == '\U{3000}' || c == '\U{FEFF}'
  }

  /** A string that trims to nothing; the forms treat it as "no input". */
  predicate Blank(s: string) {
    forall i :: 0 <= i < |s| ==> IsSpace(s[i])
  }

  /** Neither end of the string is whitespace. */
  predicate Tight(s: string) {
    s == [] || (!IsSpace(s[0]) && !IsSpace(s[|s| - 1]))
  }

  /** Every character of `s[lo..hi]` is whitespace. */
  predicate Spaces(s: string, lo: int, hi: int)
    requires 0 <= lo <= hi <= |s|
  {
    forall k :: lo <= k < hi ==> IsSpace(s[k])
  }

  /** Scans forward from `k` over whitespace: the index of the first non-whitespace
      character at or after `k`, or the length if there is none. */
  function SkipSpaces(s: string, k: nat): (n: nat)
    requires k <= |s|
    ensures k <= n <= |s| && Spaces(s, k, n)
    ensures n == |s| || !IsSpace(s[n])
    decreases |s| - k
  {
    if k < |s| && IsSpace(s[k]) then SkipSpaces(s, k + 1) else k
  }

  /** Scans backward from `k` over whitespace, not below `lo`: the smallest `n` such
      that `s[n..k]` is all whitespace. */
  function SkipSpacesBack(s: string, lo: nat, k: nat): (n: nat)
    requires lo <= k <= |s|
    ensures lo <= n <= k && Spaces(s, n, k)
    ensures n == lo || !IsSpace(s[n - 1])
    decreases k - lo
  {
    if lo < k && IsSpace(s[k - 1]) then SkipSpacesBack(s, lo, k - 1) else k
  }

  /** String.prototype.trim: the result is the slice of the input between a leading and
      a trailing whitespace run, where the leading run ends at the first non-whitespace
      character; it has no whitespace at either end, and it is empty exactly when the
      input was blank. */
  function Trim(s: string): (r: string)
    ensures var i := SkipSpaces(s, 0);
      && i + |r| <= |s| && r == s[i..i + |r|] && Spaces(s, 0, i) && Spaces(s, i + |r|, |s|)
    ensures Tight(r)
    ensures r == [] <==> Blank(s)
    ensures |r| <= |s|
  {
    var i := SkipSpaces(s, 0);
    var j := SkipSpacesBack(s, i, |s|);
    assert j > i ==> !IsSpace(s[j - 1]);
    assert Blank(s) ==> i == |s|;
    s[i..j]
  }

  /** A string that already has no whitespace at its ends is left alone by trim. */
  lemma TrimTight(s: string)
    requires Tight(s)
    ensures Trim(s) == s
  {
  }

  /** Trimming twice is trimming once. */
  lemma TrimIdempotent(s: string)
    ensures Trim(Trim(s)) == Trim(s)
  {
    TrimTight(Trim(s));
  }

  /** `description.trim() || undefined`. */
  function OptionalText(s: string): (r: Option<string>)
    ensures r.None? <==> Blank(s)
    ensures r.Some? ==> r.value == Trim(s) && Tight(r.value)
  {
    if Trim(s) == [] then None else Some(Trim(s))
  }
}
