/** The parts of Python's `str` that the core relies on: `strip()`, `str(int)`,
    `sep.join(...)` and `c * n`. */
module Text {
  import opened Wrappers

  /** Python truthiness of an optional string: present and not empty. */
  predicate Truthy(s: Option<string>) {
    s.Some? && s.value != ""
  }

  /** Python's `str.isspace` for one character: the characters `strip()` removes. */
  predicate IsSpace(c: char) {
    || ('\t' <= c <= '\r')
    || ('\U{1C}' <= c <= '\U{1F}')
    || c == ' ' || c == '\U{85}' || c == '\U{A0}' || c == '\U{1680}'
    || ('\U{2000}' <= c <= '\U{200A}')
    || c == '\U{2028}' || c == '\U{2029}' || c == '\U{202F}' || c == '\U{205F}'
    || c == '\U{3000}'
  }

  /** `s.lstrip()`: the suffix of `s` left after dropping leading whitespace. */
  function StripLeading(s: string): (r: string)
    ensures |r| <= |s| && r == s[|s| - |r|..]
    ensures r == [] || !IsSpace(r[0])
  {
    if s != [] && IsSpace(s[0]) then StripLeading(s[1..]) else s
  }

  /** Everything `lstrip()` drops is whitespace. */
  lemma {:induction false} StripLeadingDropsSpaces(s: string)
    ensures forall k :: 0 <= k < |s| - |StripLeading(s)| ==> IsSpace(s[k])
  {
    if s != [] && IsSpace(s[0]) {
      StripLeadingDropsSpaces(s[1..]);
      assert forall k :: 1 <= k < |s| ==> s[k] == s[1..][k - 1];
    }
  }

  /** `s.rstrip()`: the prefix of `s` left after dropping trailing whitespace. */
  function StripTrailing(s: string): (r: string)
    ensures |r| <= |s| && r == s[..|r|]
    ensures r == [] || !IsSpace(r[|r| - 1])
  {
    if s != [] && IsSpace(s[|s| - 1]) then StripTrailing(s[..|s| - 1]) else s
  }

  /** Everything `rstrip()` drops is whitespace. */
  lemma {:induction false} StripTrailingDropsSpaces(s: string)
    ensures forall k :: |StripTrailing(s)| <= k < |s| ==> IsSpace(s[k])
  {
    if s != [] && IsSpace(s[|s| - 1]) {
      StripTrailingDropsSpaces(s[..|s| - 1]);
    }
  }

  /** `s.strip()`: `s` with the whitespace at both ends removed. */
  function Strip(s: string): (r: string)
    ensures |r| <= |s|
  {
    StripTrailing(StripLeading(s))
  }

  /** What `strip()` leaves neither starts nor ends with whitespace. */
  lemma StripEnds(s: string)
    ensures var r := Strip(s); r == [] || (!IsSpace(r[0]) && !IsSpace(r[|r| - 1]))
  {
  }

  /** What `strip()` leaves is a contiguous piece of `s`, starting where `lstrip()`
      stops. */
  lemma StripIsSlice(s: string)
    ensures var r := Strip(s); var i := |s| - |StripLeading(s)|;
      i + |r| <= |s| && r == s[i..i + |r|]
  {
    var t := StripLeading(s);
    var r := StripTrailing(t);
    assert r == s[|s| - |t|..|s| - |t| + |r|];
  }

  /** Everything `strip()` removes around that piece is whitespace. */
  lemma StripDropsSpaces(s: string)
    ensures var r := Strip(s); var i := |s| - |StripLeading(s)|;
      && (forall k :: 0 <= k < i ==> IsSpace(s[k]))
      && (forall k :: i + |r| <= k < |s| ==> IsSpace(s[k]))
  {
    var t := StripLeading(s);
    var r := StripTrailing(t);
    StripLeadingDropsSpaces(s);
    StripTrailingDropsSpaces(t);
    assert forall k :: |s| - |t| + |r| <= k < |s| ==> s[k] == t[k - (|s| - |t|)];
  }

  /** Stripping a string that is already stripped changes nothing, which is why a second
      `len(x.strip()) > 10` test on a stripped fragment always gives the same answer. */
  lemma StripIdempotent(s: string)
    ensures Strip(Strip(s)) == Strip(s)
  {
    var r := Strip(s);
    StripEnds(s);
    assert StripLeading(r) == r;
  }

  /** Every character of `Strip(s)` is a character of `s`. */
  lemma StripChars(s: string, c: char)
    requires c in Strip(s)
    ensures c in s
  {
    var r := Strip(s);
    StripIsSlice(s);
    var i := |s| - |StripLeading(s)|;
    var k :| 0 <= k < |r| && r[k] == c;
    assert s[i + k] == c;
  }

  function DigitChar(d: nat): (c: char)
    requires d < 10
    ensures '0' <= c <= '9'
  {
    ['0', '1', '2', '3', '4', '5', '6', '7', '8', '9'][d]
  }

  /** `str(n)` for a non-negative integer: its decimal digits, most significant first. */
  function DecimalString(n: nat): (r: string)
    ensures |r| >= 1 && (n >= 10 <==> |r| >= 2)
    ensures forall k :: 0 <= k < |r| ==> '0' <= r[k] <= '9'
  {
    if n < 10 then [DigitChar(n)] else DecimalString(n / 10) + [DigitChar(n % 10)]
  }

  /** Different numbers print differently. */
  lemma {:induction false} DecimalStringInjective(a: nat, b: nat)
    requires DecimalString(a) == DecimalString(b)
    ensures a == b
  {
    var s := DecimalString(a);
    if a >= 10 && b >= 10 {
      assert s[..|s| - 1] == DecimalString(a / 10) == DecimalString(b / 10);
      DecimalStringInjective(a / 10, b / 10);
      assert DigitChar(a % 10) == s[|s| - 1] == DigitChar(b % 10);
      DigitCharInjective(a % 10, b % 10);
      assert a == 10 * (a / 10) + a % 10 && b == 10 * (b / 10) + b % 10;
    } else if a < 10 && b < 10 {
      DigitCharInjective(a, b);
    }
  }

  lemma DigitCharInjective(d: nat, e: nat)
    requires d < 10 && e < 10 && DigitChar(d) == DigitChar(e)
    ensures d == e
  {
  }

  /** `sep.join(parts)`. */
  function Join(sep: string, parts: seq<string>): (r: string)
    ensures |parts| == 1 ==> r == parts[0]
    ensures |parts| >= 2 ==> |r| >= |parts[0]| + |sep| && r[..|parts[0]| + |sep|] == parts[0] + sep
  {
    if parts == [] then ""
    else if |parts| == 1 then parts[0]
    else parts[0] + sep + Join(sep, parts[1..])
  }

  /** `c * n` for a one-character string `c`. */
  function Repeat(c: char, n: nat): (r: string)
    ensures |r| == n && forall k :: 0 <= k < n ==> r[k] == c
  {
    if n == 0 then "" else Repeat(c, n - 1) + [c]
  }
}
