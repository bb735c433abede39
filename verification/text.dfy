/**
 * The few java.lang.String operations the console relies on, restricted to ASCII:
 * toUpperCase, trim, equalsIgnoreCase, startsWith, contains, isEmpty, and the
 * conversion of a null reference to "null" when it is concatenated.
 */
module Text {
  import opened Wrappers

  /** A Java String reference: None stands for null. */
  type Nullable = Option<string>

  /** `s != null && !s.isEmpty()`, the guard the repositories put on every optional clause. */
  predicate Filled(s: Nullable) {
    s.Some? && s.value != ""
  }

  /** What `"..." + s` and `StringBuilder.append(s)` write for `s`: a null reference becomes "null". */
  function Show(s: Nullable): string {
    if s.None? then "null" else s.value
  }

  /** Character.toUpperCase on ASCII; every other character is left alone. */
  function UpperChar(c: char): char {
    if 'a' <= c <= 'z' then (c as int - 32) as char else c
  }

  function Upper(s: string): (r: string)
    ensures |r| == |s|
    ensures forall i :: 0 <= i < |s| ==> r[i] == UpperChar(s[i])
  {
    seq(|s|, i requires 0 <= i < |s| => UpperChar(s[i]))
  }

  /** The characters String.trim removes: every code point up to and including the space. */
  predicate IsBlank(c: char) {
    c <= ' '
  }

  function TrimStart(s: string): (r: string)
    ensures r == [] || !IsBlank(r[0])
    ensures |r| <= |s| && r == s[|s| - |r|..]
  {
    if s != [] && IsBlank(s[0]) then TrimStart(s[1..]) else s
  }

  function TrimEnd(s: string): string {
    if s != [] && IsBlank(s[|s| - 1]) then TrimEnd(s[..|s| - 1]) else s
  }

  /** String.trim: leading and trailing blanks removed. */
  function Trim(s: string): (r: string)
    ensures r == [] || (!IsBlank(r[0]) && !IsBlank(r[|r| - 1]))
  {
    TrimEndKeepsStart(TrimStart(s));
    TrimEnd(TrimStart(s))
  }

  /** String.equalsIgnoreCase on ASCII: same length and the same letters up to case. */
  predicate EqualsIgnoreCase(a: string, b: string) {
    |a| == |b| && forall i :: 0 <= i < |a| ==> UpperChar(a[i]) == UpperChar(b[i])
  }

  predicate StartsWith(s: string, prefix: string) {
    |prefix| <= |s| && s[..|prefix|] == prefix
  }

  predicate OccursAt(s: string, sub: string, i: nat) {
    i + |sub| <= |s| && s[i..i + |sub|] == sub
  }

  /** String.contains. */
  predicate Contains(s: string, sub: string) {
    exists i: nat :: i <= |s| && OccursAt(s, sub, i)
  }

  // ---------------------------------------------------------------------------
  // Facts about the operations above
  // ---------------------------------------------------------------------------

  lemma {:induction false} TrimEndKeepsStart(s: string)
    requires s == [] || !IsBlank(s[0])
    ensures TrimEnd(s) == [] || (!IsBlank(TrimEnd(s)[0]) && !IsBlank(TrimEnd(s)[|TrimEnd(s)| - 1]))
  {
    if s != [] && IsBlank(s[|s| - 1]) {
      TrimEndKeepsStart(s[..|s| - 1]);
    }
  }

  lemma UpperIdempotent(s: string)
    ensures Upper(Upper(s)) == Upper(s)
  {
  }

  /** equalsIgnoreCase is exactly "equal once both sides are upper-cased". */
  lemma EqualsIgnoreCaseIffSameUpper(a: string, b: string)
    ensures EqualsIgnoreCase(a, b) <==> Upper(a) == Upper(b)
  {
    if Upper(a) == Upper(b) {
      assert |a| == |b|;
      forall i | 0 <= i < |a| ensures UpperChar(a[i]) == UpperChar(b[i]) {
        assert Upper(a)[i] == Upper(b)[i];
      }
    }
  }

  /** A string always equals itself ignoring case, and so does its upper-cased form. */
  lemma EqualsIgnoreCaseUpper(s: string)
    ensures EqualsIgnoreCase(Upper(s), s) && EqualsIgnoreCase(s, Upper(s))
  {
  }

  lemma UpperCharKeepsBlank(c: char)
    ensures IsBlank(UpperChar(c)) <==> IsBlank(c)
  {
  }

  lemma {:induction false} UpperTrimStart(s: string)
    ensures Upper(TrimStart(s)) == TrimStart(Upper(s))
  {
    if s != [] {
      UpperCharKeepsBlank(s[0]);
      if IsBlank(s[0]) {
        assert Upper(s)[1..] == Upper(s[1..]);
        UpperTrimStart(s[1..]);
      }
    }
  }

  lemma {:induction false} UpperTrimEnd(s: string)
    ensures Upper(TrimEnd(s)) == TrimEnd(Upper(s))
  {
    if s != [] {
      UpperCharKeepsBlank(s[|s| - 1]);
      if IsBlank(s[|s| - 1]) {
        assert Upper(s)[..|s| - 1] == Upper(s[..|s| - 1]);
        UpperTrimEnd(s[..|s| - 1]);
      }
    }
  }

  /**
   * Upper-casing and trimming commute: the credential lookup computes
   * `toUpperCase().trim()` while the login computes `trim()` and then `toUpperCase()`.
   */
  lemma UpperTrimCommute(s: string)
    ensures Upper(Trim(s)) == Trim(Upper(s))
  {
    UpperTrimEnd(TrimStart(s));
    UpperTrimStart(s);
  }

  lemma {:induction false} TrimStartOfUnblank(s: string)
    requires s == [] || !IsBlank(s[0])
    ensures TrimStart(s) == s
  {
  }

  lemma {:induction false} TrimEndOfUnblank(s: string)
    requires s == [] || !IsBlank(s[|s| - 1])
    ensures TrimEnd(s) == s
  {
  }

  /** Trimming twice is trimming once. */
  lemma TrimIdempotent(s: string)
    ensures Trim(Trim(s)) == Trim(s)
  {
    var t := Trim(s);
    TrimStartOfUnblank(t);
    TrimEndOfUnblank(t);
  }

  /** A trimmed, upper-cased name is a fixed point of the credential lookup's normalisation. */
  lemma NormalisedIsStable(s: string)
    ensures Trim(Upper(Upper(Trim(s)))) == Upper(Trim(s))
  {
    UpperIdempotent(Trim(s));
    UpperTrimCommute(Trim(s));
    TrimIdempotent(s);
  }

  /** Every string contains each of its prefixes. */
  lemma ContainsPrefix(prefix: string, rest: string)
    ensures Contains(prefix + rest, prefix)
  {
    assert OccursAt(prefix + rest, prefix, 0);
  }
}
