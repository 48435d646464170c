/** The parts of Python's `str` that the request handlers rely on:
    `strip`/`lstrip`/`rstrip` (with and without a character argument),
    `startswith`, `endswith`, `rfind`, slicing `s[:k]` and the decimal
    rendering of an `int` inside an f-string. */
module PyStr {

  /** The characters for which Python's `str.isspace()` holds: the ones
      `strip()` without an argument removes. */
  predicate IsSpace(c: char) {
    || ('\t' <= c <= '\r')
    || ('\U{1C}' <= c <= '\U{1F}')
    || c == ' '
    || c == '\U{85}'
    || c == '\U{A0}'
    || c == '\U{1680}'
    || ('\U{2000}' <= c <= '\U{200A}')
    || c == '\U{2028}'
    || c == '\U{2029}'
    || c == '\U{202F}'
    || c == '\U{205F}'
    || c == '\U{3000}'
  }

  /** The optional argument of `strip`, `lstrip` and `rstrip`: absent
      (strip whitespace) or a string read as a SET of characters. */
  datatype StripChars = Whitespace | Chars(chars: string)

  predicate Strips(sc: StripChars, c: char) {
    match sc
    case Whitespace => IsSpace(c)
    case Chars(cs) => c in cs
  }

  /** Every character of `s` is one that `sc` strips. */
  ghost predicate AllStripped(sc: StripChars, s: string) {
    forall i :: 0 <= i < |s| ==> Strips(sc, s[i])
  }

  /** `t` occurs in `s` starting at index `i`. */
  predicate OccursAt(t: string, s: string, i: int) {
    0 <= i && i + |t| <= |s| && s[i..i + |t|] == t
  }

  lemma OccursInItself(s: string)
    ensures OccursAt(s, s, 0)
  {
    assert s[0..|s|] == s;
  }

  /** An occurrence of an occurrence is an occurrence. */
  lemma OccursWithin(a: string, b: string, c: string, i: int, j: int)
    requires OccursAt(a, b, i) && OccursAt(b, c, j)
    ensures OccursAt(a, c, i + j)
  {
    forall k | 0 <= k < |a|
      ensures c[i + j + k] == a[k]
    {
      assert a[k] == b[i + k] == c[j + i + k];
    }
    assert c[i + j..i + j + |a|] == a;
  }

  /** `s[lo..hi]` is the whole run of characters stripped by `sc` that
      starts at `lo`. */
  ghost predicate MaxRun(s: string, lo: int, hi: int, sc: StripChars) {
    0 <= lo <= hi <= |s|
    && AllStripped(sc, s[lo..hi])
    && (hi == |s| || !Strips(sc, s[hi]))
  }

  /** The first index at or after `i` whose character `sc` keeps (or the
      length): the scan `lstrip` performs. */
  function KeptFrom(s: string, sc: StripChars, i: nat): (k: nat)
    requires i <= |s|
    ensures i <= k <= |s|
    ensures forall j :: i <= j < k ==> Strips(sc, s[j])
    ensures k == |s| || !Strips(sc, s[k])
    decreases |s| - i
  {
    if i < |s| && Strips(sc, s[i]) then KeptFrom(s, sc, i + 1) else i
  }

  /** One past the last index below `i` whose character `sc` keeps (or
      0): the scan `rstrip` performs. */
  function KeptUntil(s: string, sc: StripChars, i: nat): (k: nat)
    requires i <= |s|
    ensures k <= i
    ensures forall j :: k <= j < i ==> Strips(sc, s[j])
    ensures k == 0 || !Strips(sc, s[k - 1])
  {
    if i > 0 && Strips(sc, s[i - 1]) then KeptUntil(s, sc, i - 1) else i
  }

  /** `s.lstrip(chars)`: the longest suffix of `s` not starting with a
      stripped character; everything cut off is stripped. */
  function LStrip(s: string, sc: StripChars): (r: string)
    ensures |r| <= |s| && r == s[|s| - |r|..]
    ensures AllStripped(sc, s[..|s| - |r|])
    ensures r == [] || !Strips(sc, r[0])
  {
    s[KeptFrom(s, sc, 0)..]
  }

  /** `s.rstrip(chars)`: the longest prefix of `s` not ending with a
      stripped character; everything cut off is stripped. */
  function RStrip(s: string, sc: StripChars): (r: string)
    ensures |r| <= |s| && r == s[..|r|]
    ensures AllStripped(sc, s[|r|..])
    ensures r == [] || !Strips(sc, r[|r| - 1])
  {
    s[..KeptUntil(s, sc, |s|)]
  }

  /** `s.strip(chars)`: `s` with stripped characters removed from both
      ends; the result is a contiguous piece of `s` with only stripped
      characters around it. */
  function Strip(s: string, sc: StripChars): (r: string)
    ensures r == [] || (!Strips(sc, r[0]) && !Strips(sc, r[|r| - 1]))
    ensures exists i :: OccursAt(r, s, i) && AllStripped(sc, s[..i]) && AllStripped(sc, s[i + |r|..])
  {
    var l := LStrip(s, sc);
    var r := RStrip(l, sc);
    var i := |s| - |l|;
    assert OccursAt(r, s, i) by {
      assert s[i..i + |r|] == l[..|r|];
    }
    assert AllStripped(sc, s[i + |r|..]) by {
      assert s[i + |r|..] == l[|r|..];
    }
    assert r != [] ==> r[0] == l[0];
    r
  }

  /** `s.startswith(p)` */
  predicate StartsWith(s: string, p: string) {
    |p| <= |s| && s[..|p|] == p
  }

  /** `s.endswith(p)` */
  predicate EndsWith(s: string, p: string) {
    |p| <= |s| && s[|s| - |p|..] == p
  }

  /** `s.rfind(p)`: the highest index at which `p` occurs in `s`, or -1. */
  function RFind(s: string, p: string): (r: int)
    ensures r == -1 || OccursAt(p, s, r)
    ensures forall j :: r < j ==> !OccursAt(p, s, j)
  {
    RFindFrom(s, p, |s| - |p|)
  }

  function RFindFrom(s: string, p: string, j: int): (r: int)
    requires j <= |s| - |p|
    ensures r == -1 || OccursAt(p, s, r)
    ensures forall k :: r < k <= j ==> !OccursAt(p, s, k)
    decreases j + 1
  {
    if j < 0 then -1
    else if OccursAt(p, s, j) then j
    else RFindFrom(s, p, j - 1)
  }

  /** When `s` ends with `p`, its last occurrence of `p` is that suffix. */
  lemma RFindOfSuffix(s: string, p: string)
    requires EndsWith(s, p)
    ensures RFind(s, p) == |s| - |p|
  {
    assert OccursAt(p, s, |s| - |p|);
  }

  /** Python's slice `s[:k]`, where a negative `k` counts from the end. */
  function SliceTo(s: string, k: int): (r: string)
    ensures |r| <= |s| && r == s[..|r|]
    ensures 0 <= k <= |s| ==> |r| == k
    ensures k < 0 ==> |r| == if |s| + k < 0 then 0 else |s| + k
    ensures k > |s| ==> r == s
  {
    if k < 0 then (if |s| + k < 0 then [] else s[..|s| + k])
    else if k <= |s| then s[..k]
    else s
  }

  function DigitChar(d: nat): char
    requires d < 10
  {
    "0123456789"[d]
  }

  predicate IsDigit(c: char) {
    '0' <= c <= '9'
  }

  /** `str(n)` for a non-negative `int`, as an f-string renders it. */
  function Decimal(n: nat): (r: string)
    ensures |r| >= 1
    ensures forall i :: 0 <= i < |r| ==> IsDigit(r[i])
    ensures |r| > 1 ==> r[0] != '0'
  {
    if n < 10 then [DigitChar(n)] else Decimal(n / 10) + [DigitChar(n % 10)]
  }

  /** `int(s)` for a string of decimal digits: the inverse of Decimal. */
  function DecimalValue(s: string): nat
    requires forall i :: 0 <= i < |s| ==> IsDigit(s[i])
  {
    if s == [] then 0
    else
      assert IsDigit(s[|s| - 1]);
      DecimalValue(s[..|s| - 1]) * 10 + (s[|s| - 1] as int - '0' as int)
  }

  lemma {:induction false} DecimalRoundTrip(n: nat)
    ensures DecimalValue(Decimal(n)) == n
  {
    if n >= 10 {
      var t := Decimal(n / 10);
      var s := t + [DigitChar(n % 10)];
      assert s[..|s| - 1] == t;
      DecimalRoundTrip(n / 10);
    }
  }

  /** Different numbers render differently. */
  lemma DecimalInjective(m: nat, n: nat)
    requires m != n
    ensures Decimal(m) != Decimal(n)
  {
    DecimalRoundTrip(m);
    DecimalRoundTrip(n);
  }
}
