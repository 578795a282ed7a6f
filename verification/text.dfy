/** The JavaScript string operations the application relies on: `trim`, `toLowerCase`,
    `includes`, `startsWith`, `split('\n')[0]`, number-to-string conversion and `join`. */
module Text {

  /** White space as JavaScript sees it: the WhiteSpace and LineTerminator code points of
      ECMA-262 (sections 12.2 and 12.3). `String.prototype.trim` strips exactly these, and
      the regular-expression class `\s` matches exactly these. */
  predicate IsSpace(c: char) {
    || '\t' <= c <= '\r'                  // tab, line feed, vertical tab, form feed, carriage return
    || c == ' ' || c == '\U{00A0}' || c == '\U{1680}'
    || '\U{2000}' <= c <= '\U{200A}'      // the typographic spaces
    || c == '\U{2028}' || c == '\U{2029}' // line and paragraph separators
    || c == '\U{202F}' || c == '\U{205F}' || c == '\U{3000}' || c == '\U{FEFF}'
  }

  /** The code points a regular-expression `.` does not match. */
  predicate IsLineTerminator(c: char) {
    c == '\n' || c == '\r' || c == '\U{2028}' || c == '\U{2029}'
  }

  predicate AllSpace(s: string) {
    forall i | 0 <= i < |s| :: IsSpace(s[i])
  }

  /** Ends that `trim` leaves alone. */
  predicate IsTrimmed(s: string) {
    s == [] || (!IsSpace(s[0]) && !IsSpace(s[|s| - 1]))
  }

  /** The first position at or after `i` that does not hold white space. */
  function SpaceEnd(s: string, i: nat): (r: nat)
    requires i <= |s|
    ensures i <= r <= |s|
    ensures forall j | i <= j < r :: IsSpace(s[j])
    ensures r < |s| ==> !IsSpace(s[r])
    decreases |s| - i
  {
    if i < |s| && IsSpace(s[i]) then SpaceEnd(s, i + 1) else i
  }

  /** The last position at or before `k` that ends a character other than white space. */
  function SpaceStart(s: string, k: nat): (r: nat)
    requires k <= |s|
    ensures r <= k
    ensures forall j | r <= j < k :: IsSpace(s[j])
    ensures r > 0 ==> !IsSpace(s[r - 1])
  {
    if k > 0 && IsSpace(s[k - 1]) then SpaceStart(s, k - 1) else k
  }

  /** How many white-space characters open `s`. */
  function LeadingSpace(s: string): (n: nat)
    ensures n <= |s|
    ensures AllSpace(s[..n])
    ensures n < |s| ==> !IsSpace(s[n])
  {
    SpaceEnd(s, 0)
  }

  /** How many white-space characters close `s`. */
  function TrailingSpace(s: string): (n: nat)
    ensures n <= |s|
    ensures AllSpace(s[|s| - n..])
    ensures n < |s| ==> !IsSpace(s[|s| - n - 1])
  {
    var r := SpaceStart(s, |s|);
    assert forall j | 0 <= j < |s| - r :: s[r..][j] == s[r + j];
    |s| - r
  }

  /** `String.prototype.trim`: drop the white space at both ends. */
  function Trim(s: string): (r: string)
    ensures |r| <= |s|
    ensures IsTrimmed(r)
    ensures r == [] <==> AllSpace(s)
  {
    var lead := LeadingSpace(s);
    var t := s[lead..];
    var trail := TrailingSpace(t);
    BlankIffAllTrailing(s);
    t[..|t| - trail]
  }

  /** Nothing is left after the leading white space is gone exactly when all of `s` is white space. */
  lemma BlankIffAllTrailing(s: string)
    ensures TrailingSpace(s[LeadingSpace(s)..]) == |s| - LeadingSpace(s) <==> AllSpace(s)
  {
    var lead := LeadingSpace(s);
    if TrailingSpace(s[lead..]) == |s| - lead {
      SpacesThenSpaces(s, lead);
    } else {
      CoreNotSpace(s, lead);
    }
  }

  lemma CoreNotSpace(s: string, lead: nat)
    requires lead <= |s| && TrailingSpace(s[lead..]) < |s| - lead
    ensures !AllSpace(s)
  {
    var t := s[lead..];
    var k := |t| - TrailingSpace(t) - 1;
    assert !IsSpace(t[k]);
    assert t[k] == s[lead + k];
  }

  lemma SpacesThenSpaces(s: string, lead: nat)
    requires lead <= |s| && AllSpace(s[..lead]) && TrailingSpace(s[lead..]) == |s| - lead
    ensures AllSpace(s)
  {
    var t := s[lead..];
    assert t[|t| - |t|..] == t;
    forall i | 0 <= i < |s| ensures IsSpace(s[i]) {
      if i < lead { assert s[i] == s[..lead][i]; } else { assert s[i] == t[i - lead]; }
    }
  }

  lemma AllSpaceConcat(a: string, b: string)
    ensures AllSpace(a + b) <==> AllSpace(a) && AllSpace(b)
  {
    if AllSpace(a) && AllSpace(b) {
      forall i | 0 <= i < |a + b| ensures IsSpace((a + b)[i]) {
        if i < |a| { assert (a + b)[i] == a[i]; } else { assert (a + b)[i] == b[i - |a|]; }
      }
    }
    if AllSpace(a + b) {
      forall i | 0 <= i < |a| ensures IsSpace(a[i]) { assert a[i] == (a + b)[i]; }
      forall i | 0 <= i < |b| ensures IsSpace(b[i]) { assert b[i] == (a + b)[|a| + i]; }
    }
  }

  /** Every string is its trimmed self between two runs of white space. */
  lemma TrimSplits(s: string) returns (a: string, b: string)
    ensures AllSpace(a) && AllSpace(b)
    ensures s == a + Trim(s) + b
  {
    var lead := LeadingSpace(s);
    var t := s[lead..];
    var trail := TrailingSpace(t);
    a := s[..lead];
    b := t[|t| - trail..];
    TrimUnfolds(s, lead, t, trail);
    Regroup(s, lead, t, |t| - trail);
  }

  lemma TrimUnfolds(s: string, lead: nat, t: string, trail: nat)
    requires lead == LeadingSpace(s) && t == s[lead..] && trail == TrailingSpace(t)
    ensures Trim(s) == t[..|t| - trail]
  {
  }

  lemma Regroup<T>(s: seq<T>, lead: nat, t: seq<T>, k: nat)
    requires lead <= |s| && t == s[lead..] && k <= |t|
    ensures s == s[..lead] + t[..k] + t[k..]
  {
    SplitAt(s, lead);
    SplitAt(t, k);
  }

  lemma SplitAt<T>(s: seq<T>, k: nat)
    requires k <= |s|
    ensures s == s[..k] + s[k..]
  {
  }

  /** A trimmed core surrounded by white space trims back to exactly that core. */
  lemma TrimPadded(a: string, core: string, b: string)
    requires AllSpace(a) && AllSpace(b) && IsTrimmed(core)
    ensures Trim(a + core + b) == core
  {
    var s := a + core + b;
    if core == [] {
      AllSpaceConcat(a, b);
      assert s == a + b;
    } else {
      LeadingCount(a, core + b);
      assert s == a + (core + b);
      var t := s[|a|..];
      assert t == core + b;
      TrailingCount(core, b);
    }
  }

  lemma LeadingCount(a: string, t: string)
    requires AllSpace(a) && t != [] && !IsSpace(t[0])
    ensures LeadingSpace(a + t) == |a|
  {
    assert (a + t)[|a|] == t[0];
    assert (a + t)[..|a|] == a;
  }

  lemma TrailingCount(t: string, b: string)
    requires AllSpace(b) && t != [] && !IsSpace(t[|t| - 1])
    ensures TrailingSpace(t + b) == |b|
  {
    var s := t + b;
    assert s[|s| - |b| - 1] == t[|t| - 1];
    assert s[|s| - |b|..] == b;
  }

  /** `trim` ignores extra white space around its argument. */
  lemma TrimIgnoresPadding(a: string, s: string, b: string)
    requires AllSpace(a) && AllSpace(b)
    ensures Trim(a + s + b) == Trim(s)
  {
    var a', b' := TrimSplits(s);
    var core := Trim(s);
    Reassociate(a, a', core, b', b);
    AllSpaceConcat(a, a');
    AllSpaceConcat(b', b);
    TrimPadded(a + a', core, b' + b);
  }

  lemma Reassociate<T>(a: seq<T>, a': seq<T>, core: seq<T>, b': seq<T>, b: seq<T>)
    ensures a + (a' + core + b') + b == (a + a') + core + (b' + b)
  {
  }

  lemma TrimIdempotent(s: string)
    ensures Trim(Trim(s)) == Trim(s)
  {
    assert [] + Trim(s) + [] == Trim(s);
    TrimPadded([], Trim(s), []);
  }

  predicate StartsWith(s: string, prefix: string) {
    |prefix| <= |s| && s[..|prefix|] == prefix
  }

  /** `String.prototype.includes`. */
  predicate Contains(s: string, sub: string) {
    exists i | 0 <= i <= |s| - |sub| :: OccursAt(s, sub, i)
  }

  predicate OccursAt(s: string, sub: string, i: int) {
    0 <= i <= |s| - |sub| && s[i..i + |sub|] == sub
  }

  /** `toLowerCase` on the ASCII letters. */
  function LowerChar(c: char): char {
    if 'A' <= c <= 'Z' then (c as int + 32) as char else c
  }

  function Lower(s: string): (r: string)
    ensures |r| == |s|
  {
    seq(|s|, i requires 0 <= i < |s| => LowerChar(s[i]))
  }

  /** The text before the first line feed: `s.split('\n')[0]`. */
  function FirstLine(s: string): (r: string)
    ensures StartsWith(s, r)
    ensures '\n' !in r
    ensures |r| < |s| ==> s[|r|] == '\n'
  {
    if s == [] || s[0] == '\n' then [] else [s[0]] + FirstLine(s[1..])
  }

  predicate IsDigit(c: char) {
    '0' <= c <= '9'
  }

  predicate AllDigits(s: string) {
    forall i | 0 <= i < |s| :: IsDigit(s[i])
  }

  function DigitChar(d: nat): (c: char)
    requires d < 10
    ensures IsDigit(c)
  {
    ('0' as int + d) as char
  }

  /** The number a run of decimal digits denotes. */
  function DigitsValue(s: string): nat
    requires AllDigits(s)
  {
    if s == [] then 0 else DigitsValue(s[..|s| - 1]) * 10 + (s[|s| - 1] as int - '0' as int)
  }

  /** Decimal notation of a non-negative integer, as `Number.prototype.toString` writes it. */
  function NatToString(n: nat): (r: string)
    ensures r != [] && AllDigits(r)
    ensures |r| > 1 ==> r[0] != '0'
  {
    if n < 10 then [DigitChar(n)] else NatToString(n / 10) + [DigitChar(n % 10)]
  }

  /** Reading the digits back gives the number that was written. */
  lemma {:induction false} NatToStringRoundTrip(n: nat)
    ensures DigitsValue(NatToString(n)) == n
    decreases n
  {
    if n >= 10 {
      var s := NatToString(n);
      assert s[..|s| - 1] == NatToString(n / 10);
      NatToStringRoundTrip(n / 10);
    }
  }

  /** Template-literal rendering of an integer (`${n}`). */
  function IntToString(n: int): (r: string)
    ensures r != []
    ensures n >= 0 ==> AllDigits(r)
    ensures n < 0 ==> r[0] == '-' && AllDigits(r[1..])
  {
    if n < 0 then "-" + NatToString(-n) else NatToString(n)
  }

  /** `parts.join(sep)`. */
  function Join(parts: seq<string>, sep: string): string {
    if parts == [] then ""
    else if |parts| == 1 then parts[0]
    else parts[0] + sep + Join(parts[1..], sep)
  }
}
