/** ASCII string helpers shared by the model: Python's str.lower/upper/strip/split,
    substring search, and decimal rendering and parsing of numbers.
    Case mapping covers A-Z only; whitespace is the ASCII part of str.isspace(). */
module Text {
  import opened Wrappers

  // ---------------------------------------------------------------------------
  // Characters
  // ---------------------------------------------------------------------------

  /** The ASCII characters for which Python's str.isspace() holds (and which the
      regular-expression class \s matches). */
  predicate IsSpace(c: char) {
    c == ' ' || c == '\t' || c == '\n' || c == '\r' || c == '\U{0B}' || c == '\U{0C}'
    || ('\U{1C}' <= c <= '\U{1F}')
  }

  predicate IsDigit(c: char) { '0' <= c <= '9' }

  predicate IsUpperAscii(c: char) { 'A' <= c <= 'Z' }

  predicate IsLowerAscii(c: char) { 'a' <= c <= 'z' }

  function LowerChar(c: char): (r: char)
    ensures !IsUpperAscii(r)
    ensures IsUpperAscii(c) || r == c
  {
    if IsUpperAscii(c) then (c as int + 32) as char else c
  }

  function UpperChar(c: char): (r: char)
    ensures !IsLowerAscii(r)
  {
    if IsLowerAscii(c) then (c as int - 32) as char else c
  }

  function Lower(s: string): (r: string)
    ensures |r| == |s|
    ensures forall i :: 0 <= i < |s| ==> r[i] == LowerChar(s[i])
  {
    if s == [] then [] else [LowerChar(s[0])] + Lower(s[1..])
  }

  function Upper(s: string): (r: string)
    ensures |r| == |s|
    ensures forall i :: 0 <= i < |s| ==> r[i] == UpperChar(s[i])
  {
    if s == [] then [] else [UpperChar(s[0])] + Upper(s[1..])
  }

  lemma LowerAppend(a: string, b: string)
    ensures Lower(a + b) == Lower(a) + Lower(b)
  {
    assert Lower(a + b) == Lower(a) + Lower(b);
  }

  /** Lowering is idempotent: lowered text is already lower case. */
  lemma LowerIdempotent(s: string)
    ensures Lower(Lower(s)) == Lower(s)
  {
  }

  /** Two strings that differ only in the case of ASCII letters lower to the same string. */
  predicate SameIgnoringCase(a: string, b: string) {
    |a| == |b| && forall i :: 0 <= i < |a| ==> LowerChar(a[i]) == LowerChar(b[i])
  }

  lemma SameIgnoringCaseLower(a: string, b: string)
    requires SameIgnoringCase(a, b)
    ensures Lower(a) == Lower(b)
  {
  }

  // ---------------------------------------------------------------------------
  // Whitespace stripping (str.lstrip / rstrip / strip with no argument)
  // ---------------------------------------------------------------------------

  predicate AllSpace(s: string) { forall i :: 0 <= i < |s| ==> IsSpace(s[i]) }

  function LStrip(s: string): (r: string)
    ensures |r| <= |s|
    ensures r == [] || !IsSpace(r[0])
  {
    if s != [] && IsSpace(s[0]) then LStrip(s[1..]) else s
  }

  /** lstrip removes a prefix, and that prefix is whitespace. */
  lemma {:induction false} LStripSuffix(s: string)
    ensures LStrip(s) == s[|s| - |LStrip(s)|..]
    ensures AllSpace(s[..|s| - |LStrip(s)|])
  {
    if s != [] && IsSpace(s[0]) {
      LStripSuffix(s[1..]);
    }
  }

  function RStrip(s: string): (r: string)
    ensures |r| <= |s| && r == s[..|r|]
    ensures r == [] || !IsSpace(r[|r| - 1])
    ensures AllSpace(s[|r|..])
  {
    if s != [] && IsSpace(s[|s| - 1]) then RStrip(s[..|s| - 1]) else s
  }

  function Strip(s: string): string {
    RStrip(LStrip(s))
  }

  lemma {:induction false} LStripSkipsSpaces(w: string, s: string)
    requires AllSpace(w)
    ensures LStrip(w + s) == LStrip(s)
  {
    if w != [] {
      assert (w + s)[1..] == w[1..] + s;
      LStripSkipsSpaces(w[1..], s);
    } else {
      assert w + s == s;
    }
  }

  lemma {:induction false} RStripSkipsSpaces(s: string, w: string)
    requires AllSpace(w)
    ensures RStrip(s + w) == RStrip(s)
  {
    if w != [] {
      assert (s + w)[..|s + w| - 1] == s + w[..|w| - 1];
      RStripSkipsSpaces(s, w[..|w| - 1]);
    } else {
      assert s + w == s;
    }
  }

  lemma LowerKeepsSpaces(w: string)
    requires AllSpace(w)
    ensures AllSpace(Lower(w))
  {
  }

  /** Stripping a string whose first and last characters are not whitespace changes nothing. */
  lemma StripNoOuterSpace(s: string)
    requires s == [] || (!IsSpace(s[0]) && !IsSpace(s[|s| - 1]))
    ensures Strip(s) == s
  {
  }

  lemma StripIdempotent(s: string)
    ensures Strip(Strip(s)) == Strip(s)
  {
    var l := LStrip(s);
    var r := RStrip(l);
    if r != [] {
      assert r[0] == l[0];
    }
    StripNoOuterSpace(r);
  }

  /** Python's str.strip(chars) for a single character. */
  function StripCharLeft(s: string, c: char): (r: string)
    ensures |r| <= |s| && r == s[|s| - |r|..]
    ensures r == [] || r[0] != c
  {
    if s != [] && s[0] == c then StripCharLeft(s[1..], c) else s
  }

  function StripCharRight(s: string, c: char): (r: string)
    ensures |r| <= |s| && r == s[..|r|]
    ensures r == [] || r[|r| - 1] != c
  {
    if s != [] && s[|s| - 1] == c then StripCharRight(s[..|s| - 1], c) else s
  }

  function StripChar(s: string, c: char): (r: string)
    ensures r == [] || (r[0] != c && r[|r| - 1] != c)
  {
    var l := StripCharLeft(s, c);
    var r := StripCharRight(l, c);
    assert r != [] ==> r[0] == l[0];
    r
  }

  /** str.replace(c, r) for a one-character pattern: every occurrence is replaced. */
  function ReplaceChar(s: string, c: char, r: string): string {
    if s == [] then [] else (if s[0] == c then r else [s[0]]) + ReplaceChar(s[1..], c, r)
  }

  // ---------------------------------------------------------------------------
  // Substrings
  // ---------------------------------------------------------------------------

  predicate StartsWith(s: string, p: string) { |p| <= |s| && s[..|p|] == p }

  predicate EndsWith(s: string, p: string) { |p| <= |s| && s[|s| - |p|..] == p }

  /** pat occurs in s starting at index j. */
  predicate OccursAt(s: string, pat: string, j: nat) {
    j + |pat| <= |s| && s[j..j + |pat|] == pat
  }

  function IndexFrom(s: string, pat: string, k: nat): (r: Option<nat>)
    requires k <= |s|
    ensures r.Some? ==>
      (k <= r.value && OccursAt(s, pat, r.value) && forall j: nat :: k <= j < r.value ==> !OccursAt(s, pat, j))
    ensures r.None? ==> forall j: nat :: k <= j ==> !OccursAt(s, pat, j)
    decreases |s| - k
  {
    if OccursAt(s, pat, k) then Some(k)
    else if k + |pat| >= |s| then None
    else IndexFrom(s, pat, k + 1)
  }

  /** The index of the leftmost occurrence of pat in s (str.find). */
  function IndexOf(s: string, pat: string): (r: Option<nat>)
    ensures r.Some? ==>
      (OccursAt(s, pat, r.value) && forall j: nat :: j < r.value ==> !OccursAt(s, pat, j))
    ensures r.None? ==> forall j: nat :: !OccursAt(s, pat, j)
  {
    IndexFrom(s, pat, 0)
  }

  /** Python's `pat in s`. */
  predicate Contains(s: string, pat: string) {
    IndexOf(s, pat).Some?
  }

  lemma ContainsIff(s: string, pat: string)
    ensures Contains(s, pat) <==> exists j: nat :: OccursAt(s, pat, j)
  {
  }

  /** A string occurring inside a prefix or suffix occurs in the whole. */
  lemma ContainsInfix(a: string, s: string, b: string, pat: string)
    requires Contains(s, pat)
    ensures Contains(a + s + b, pat)
  {
    var j := IndexOf(s, pat).value;
    assert (a + s + b)[|a| + j..|a| + j + |pat|] == s[j..j + |pat|];
    assert OccursAt(a + s + b, pat, |a| + j);
  }

  /** Python's any(p in s for p in pats). */
  predicate AnyContains(s: string, pats: seq<string>) {
    if pats == [] then false else Contains(s, pats[0]) || AnyContains(s, pats[1..])
  }

  lemma {:induction false} AnyContainsIff(s: string, pats: seq<string>)
    ensures AnyContains(s, pats) <==> exists k :: 0 <= k < |pats| && Contains(s, pats[k])
  {
    if pats != [] {
      AnyContainsIff(s, pats[1..]);
      if AnyContains(s, pats[1..]) {
        var k :| 0 <= k < |pats[1..]| && Contains(s, pats[1..][k]);
        assert Contains(s, pats[k + 1]);
      }
      if exists k :: 0 <= k < |pats| && Contains(s, pats[k]) {
        var k :| 0 <= k < |pats| && Contains(s, pats[k]);
        if k > 0 {
          assert Contains(s, pats[1..][k - 1]);
        }
      }
    }
  }

  /** The same, phrased by membership: convenient when pats is a list display. */
  lemma AnyContainsMember(s: string, pats: seq<string>)
    ensures AnyContains(s, pats) <==> exists p :: p in pats && Contains(s, p)
  {
    AnyContainsIff(s, pats);
    if exists p :: p in pats && Contains(s, p) {
      var p :| p in pats && Contains(s, p);
      var k :| 0 <= k < |pats| && pats[k] == p;
    }
  }

  /** An occurrence carries every character of the pattern: a text with fewer
      copies of some character than the pattern cannot contain it. */
  lemma ContainsCounts(s: string, pat: string)
    requires Contains(s, pat)
    ensures multiset(pat) <= multiset(s)
  {
    var j := IndexOf(s, pat).value;
    assert s == s[..j] + pat + s[j + |pat|..];
    assert multiset(s) == multiset(s[..j]) + multiset(pat) + multiset(s[j + |pat|..]);
  }

  /** Containment is transitive. */
  lemma ContainsTransitive(s: string, p: string, q: string)
    requires Contains(s, p) && Contains(p, q)
    ensures Contains(s, q)
  {
    var j := IndexOf(s, p).value;
    var k := IndexOf(p, q).value;
    assert OccursAt(s, p, j) && OccursAt(p, q, k);
    assert s[j..j + |p|][k..k + |q|] == s[j + k..j + k + |q|];
    assert OccursAt(s, q, j + k);
  }

  /** s[:n] in Python and JavaScript's slice(0, n). */
  function Take<T>(s: seq<T>, n: nat): (r: seq<T>)
    ensures |r| == if |s| < n then |s| else n
    ensures r == s[..|r|]
  {
    if |s| <= n then s else s[..n]
  }

  // ---------------------------------------------------------------------------
  // Splitting on a separator (str.split(sep)) and joining
  // ---------------------------------------------------------------------------

  function Split(s: string, sep: string): (parts: seq<string>)
    requires |sep| > 0
    ensures |parts| >= 1
    decreases |s|
  {
    match IndexOf(s, sep)
    case None => [s]
    case Some(i) => [s[..i]] + Split(s[i + |sep|..], sep)
  }

  function Join(parts: seq<string>, sep: string): string
    requires |parts| >= 1
  {
    if |parts| == 1 then parts[0] else parts[0] + sep + Join(parts[1..], sep)
  }

  /** Joining the pieces of a split with the separator gives back the text. */
  lemma {:induction false} JoinSplit(s: string, sep: string)
    requires |sep| > 0
    ensures Join(Split(s, sep), sep) == s
    decreases |s|
  {
    match IndexOf(s, sep)
    case None =>
    case Some(i) =>
      var rest := s[i + |sep|..];
      var tail := Split(rest, sep);
      assert Split(s, sep) == [s[..i]] + tail;
      JoinSplit(rest, sep);
      assert ([s[..i]] + tail)[1..] == tail;
      assert Join(Split(s, sep), sep) == s[..i] + sep + Join(tail, sep);
      assert s[i..i + |sep|] == sep;
      assert s == s[..i] + s[i..i + |sep|] + rest;
  }

  /** Splitting at the first occurrence of a one-character separator. */
  lemma SplitAtChar(a: string, c: char, rest: string)
    requires forall i :: 0 <= i < |a| ==> a[i] != c
    ensures Split(a + [c] + rest, [c]) == [a] + Split(rest, [c])
  {
    var s := a + [c] + rest;
    assert s[|a|..|a| + 1] == [c];
    assert OccursAt(s, [c], |a|);
    forall j: nat | j < |a| ensures !OccursAt(s, [c], j) {
      assert s[j..j + 1][0] == a[j];
    }
    var r := IndexOf(s, [c]);
    assert r.Some? && r.value <= |a|;
    assert !(r.value < |a|);
    assert s[..|a|] == a && s[|a| + 1..] == rest;
  }

  /** Text without the separator splits into itself alone. */
  lemma SplitWithoutChar(s: string, c: char)
    requires forall i :: 0 <= i < |s| ==> s[i] != c
    ensures Split(s, [c]) == [s]
  {
    forall j: nat | j + 1 <= |s| ensures !OccursAt(s, [c], j) {
      assert s[j..j + 1][0] == s[j];
    }
    assert IndexOf(s, [c]).None?;
  }

  /** No piece of a split contains the separator. */
  lemma {:induction false} SplitPiecesAvoidSeparator(s: string, sep: string)
    requires |sep| > 0
    ensures forall k :: 0 <= k < |Split(s, sep)| ==> !Contains(Split(s, sep)[k], sep)
    decreases |s|
  {
    match IndexOf(s, sep)
    case None =>
      assert Split(s, sep) == [s];
    case Some(i) =>
      var rest := s[i + |sep|..];
      SplitPiecesAvoidSeparator(rest, sep);
      var head := s[..i];
      forall j: nat | OccursAt(head, sep, j) ensures false {
        assert s[j..j + |sep|] == head[j..j + |sep|];
        assert OccursAt(s, sep, j);
      }
      assert !Contains(head, sep);
      assert Split(s, sep) == [head] + Split(rest, sep);
  }

  // ---------------------------------------------------------------------------
  // Decimal numbers
  // ---------------------------------------------------------------------------

  function DigitChar(k: nat): (c: char)
    requires k < 10
    ensures IsDigit(c)
  {
    ('0' as int + k) as char
  }

  function DigitValue(c: char): (k: nat)
    requires IsDigit(c)
    ensures k < 10 && DigitChar(k) == c
  {
    (c as int - '0' as int) as nat
  }

  lemma DigitRoundTrip(k: nat)
    requires k < 10
    ensures DigitValue(DigitChar(k)) == k
  {
  }

  predicate AllDigits(s: string) { forall i :: 0 <= i < |s| ==> IsDigit(s[i]) }

  /** str(n) for a non-negative integer: decimal without leading zeros. */
  function NatToString(n: nat): (s: string)
    ensures |s| >= 1 && AllDigits(s)
    ensures (n < 10) == (|s| == 1)
    decreases n
  {
    if n < 10 then [DigitChar(n)] else NatToString(n / 10) + [DigitChar(n % 10)]
  }

  /** The years 1000 to 9999 are written with exactly four digits. */
  lemma FourDigitYear(y: nat)
    requires 1000 <= y <= 9999
    ensures |NatToString(y)| == 4
  {
    assert NatToString(y) == NatToString(y / 10) + [DigitChar(y % 10)];
    assert NatToString(y / 10) == NatToString(y / 100) + [DigitChar(y / 10 % 10)];
    assert NatToString(y / 100) == NatToString(y / 1000) + [DigitChar(y / 100 % 10)];
  }

  /** Different numbers render differently. */
  lemma {:induction false} NatToStringInjective(a: nat, b: nat)
    requires NatToString(a) == NatToString(b)
    ensures a == b
    decreases a
  {
    var s := NatToString(a);
    if a < 10 {
      DigitRoundTrip(a);
      DigitRoundTrip(b);
    } else {
      assert b >= 10;
      var sa, sb := NatToString(a / 10), NatToString(b / 10);
      assert s == sa + [DigitChar(a % 10)] && s == sb + [DigitChar(b % 10)];
      assert s[..|s| - 1] == sa && s[..|s| - 1] == sb;
      DigitRoundTrip(a % 10);
      DigitRoundTrip(b % 10);
      NatToStringInjective(a / 10, b / 10);
    }
  }

  /** String(n) in JavaScript and str(n) in Python for any integer. */
  function IntToString(i: int): string {
    if i < 0 then "-" + NatToString(-i) else NatToString(i)
  }

  /** The value of a non-empty run of decimal digits. */
  function DigitsValue(s: string): nat
    requires AllDigits(s)
    decreases |s|
  {
    if s == [] then 0 else DigitsValue(s[..|s| - 1]) * 10 + DigitValue(s[|s| - 1])
  }

  /** Reading back a rendered number gives the number. */
  lemma {:induction false} DigitsValueNatToString(n: nat)
    ensures DigitsValue(NatToString(n)) == n
    decreases n
  {
    var s := NatToString(n);
    if n >= 10 {
      DigitsValueNatToString(n / 10);
      assert s[..|s| - 1] == NatToString(n / 10);
    }
    DigitRoundTrip(n % 10);
  }

  /** str.zfill(width) on a digit string, and JavaScript's padStart(width, c):
      left-pads to the width, never truncates. */
  function PadLeft(s: string, width: nat, c: char): (r: string)
    ensures |r| == if |s| < width then width else |s|
    ensures EndsWith(r, s)
    ensures forall i :: 0 <= i < |r| - |s| ==> r[i] == c
  {
    if |s| >= width then s else seq(width - |s|, _ => c) + s
  }

  /** Two-digit zero-padded rendering, as f"{n:02d}". */
  function Pad2(n: nat): string {
    PadLeft(NatToString(n), 2, '0')
  }

  lemma Pad2Small(n: nat)
    requires n < 100
    ensures |Pad2(n)| == 2 && AllDigits(Pad2(n))
  {
    if n >= 10 {
      assert NatToString(n) == NatToString(n / 10) + [DigitChar(n % 10)];
    }
  }

  // ---------------------------------------------------------------------------
  // Lexicographic order (Python's str comparison by code point)
  // ---------------------------------------------------------------------------

  predicate StrLess(a: string, b: string)
    decreases |a|
  {
    if a == [] then b != []
    else if b == [] then false
    else if a[0] != b[0] then a[0] < b[0]
    else StrLess(a[1..], b[1..])
  }

  lemma {:induction false} StrLessIrreflexive(a: string)
    ensures !StrLess(a, a)
    decreases |a|
  {
    if a != [] {
      StrLessIrreflexive(a[1..]);
    }
  }

  lemma {:induction false} StrLessTransitive(a: string, b: string, c: string)
    requires StrLess(a, b) && StrLess(b, c)
    ensures StrLess(a, c)
    decreases |a|
  {
    if a != [] && b != [] && c != [] && a[0] == b[0] && b[0] == c[0] {
      StrLessTransitive(a[1..], b[1..], c[1..]);
    }
  }

  /** Two different strings are ordered one way or the other. */
  lemma {:induction false} StrLessTotal(a: string, b: string)
    requires a != b
    ensures StrLess(a, b) || StrLess(b, a)
    decreases |a|
  {
    if a != [] && b != [] && a[0] == b[0] {
      assert a == [a[0]] + a[1..] && b == [b[0]] + b[1..];
      StrLessTotal(a[1..], b[1..]);
    }
  }
}
