/**
 * String helpers with Python's semantics: `sep.join(parts)`, `str.strip()`,
 * `str(n)` for natural numbers, and the small parsers that invert them.
 */
module Text {
  import opened Wrappers

  /** `sep.join(parts)`. */
  function Join(parts: seq<string>, sep: string): (r: string)
    ensures parts == [] ==> r == []
    ensures |parts| == 1 ==> r == parts[0]
  {
    if |parts| == 0 then []
    else if |parts| == 1 then parts[0]
    else parts[0] + sep + Join(parts[1..], sep)
  }

  /** Joining one more part appends the separator and that part. */
  lemma {:induction false} JoinSnoc(parts: seq<string>, sep: string, last: string)
    requires parts != []
    ensures Join(parts + [last], sep) == Join(parts, sep) + sep + last
  {
    if |parts| == 1 {
      assert parts + [last] == [parts[0], last];
      assert [parts[0], last][1..] == [last];
    } else {
      assert (parts + [last])[1..] == parts[1..] + [last];
      JoinSnoc(parts[1..], sep, last);
    }
  }

  /** The characters Python's `str.isspace()` accepts, which `str.strip()` removes. */
  predicate IsSpace(c: char) {
    var n := c as int;
    (0x09 <= n <= 0x0D) || (0x1C <= n <= 0x20) || n == 0x85 || n == 0xA0
    || n == 0x1680 || (0x2000 <= n <= 0x200A) || n == 0x2028 || n == 0x2029
    || n == 0x202F || n == 0x205F || n == 0x3000
  }

  /** Every character is whitespace (the empty string included). */
  predicate IsBlank(s: string) {
    forall i :: 0 <= i < |s| ==> IsSpace(s[i])
  }

  lemma BlankConcat(a: string, b: string)
    ensures IsBlank(a + b) <==> IsBlank(a) && IsBlank(b)
  {
    if IsBlank(a) && IsBlank(b) {
      forall i | 0 <= i < |a + b| ensures IsSpace((a + b)[i]) {
        if i >= |a| { assert (a + b)[i] == b[i - |a|]; }
      }
    }
    if IsBlank(a + b) {
      forall i | 0 <= i < |a| ensures IsSpace(a[i]) {
        assert (a + b)[i] == a[i];
      }
      forall i | 0 <= i < |b| ensures IsSpace(b[i]) {
        assert (a + b)[|a| + i] == b[i];
      }
    }
  }

  /**
   * A join whose separator is whitespace is blank exactly when every part is:
   * this is why `"\n".join(ms).strip()` is empty iff each message is blank.
   */
  lemma {:induction false} JoinBlank(parts: seq<string>, sep: string)
    requires IsBlank(sep)
    ensures IsBlank(Join(parts, sep)) <==> forall i :: 0 <= i < |parts| ==> IsBlank(parts[i])
  {
    if |parts| > 1 {
      var rest := parts[1..];
      JoinBlank(rest, sep);
      BlankConcat(parts[0], sep);
      BlankConcat(parts[0] + sep, Join(rest, sep));
      assert (forall i :: 0 <= i < |parts| ==> IsBlank(parts[i]))
        <==> IsBlank(parts[0]) && (forall i :: 0 <= i < |rest| ==> IsBlank(rest[i])) by {
        forall i | 0 <= i < |rest| ensures rest[i] == parts[i + 1] { }
      }
    }
  }

  /** `s.lstrip()`: drop leading whitespace. */
  function StripLeft(s: string): (r: string)
    ensures |r| <= |s| && r == s[|s| - |r|..]
    ensures IsBlank(s[..|s| - |r|])
    ensures r != [] ==> !IsSpace(r[0])
  {
    if |s| > 0 && IsSpace(s[0]) then
      var r := StripLeft(s[1..]);
      assert s[..|s| - |r|] == [s[0]] + s[1..][..|s[1..]| - |r|];
      r
    else s
  }

  /** `s.rstrip()`: drop trailing whitespace. */
  function StripRight(s: string): (r: string)
    ensures |r| <= |s| && r == s[..|r|]
    ensures IsBlank(s[|r|..])
    ensures r != [] ==> !IsSpace(r[|r| - 1])
  {
    if |s| > 0 && IsSpace(s[|s| - 1]) then
      var r := StripRight(s[..|s| - 1]);
      assert s[|r|..] == s[..|s| - 1][|r|..] + [s[|s| - 1]];
      r
    else s
  }

  /** `s.strip()`. */
  function Strip(s: string): (r: string)
    ensures |r| <= |s|
    ensures r != [] ==> !IsSpace(r[0]) && !IsSpace(r[|r| - 1])
  {
    StripRight(StripLeft(s))
  }

  /** `s.strip()` is a contiguous piece of `s` with only whitespace cut from either side. */
  lemma StripKeepsMiddle(s: string)
    ensures var r := Strip(s);
      exists a :: 0 <= a && a + |r| <= |s| && r == s[a..a + |r|] && IsBlank(s[..a]) && IsBlank(s[a + |r|..])
  {
    var left := StripLeft(s);
    var r := StripRight(left);
    var a := |s| - |left|;
    assert r == s[a..a + |r|];
    assert s[a + |r|..] == left[|r|..];
  }

  /** A string that does not end in whitespace is blank only when it is empty. */
  lemma TrimmedBlankIsEmpty(r: string)
    requires r != [] ==> !IsSpace(r[|r| - 1])
    ensures IsBlank(r) <==> r == []
  {
  }

  lemma StripLeftBlank(s: string)
    ensures IsBlank(StripLeft(s)) <==> IsBlank(s)
  {
    var l := StripLeft(s);
    var removed := s[..|s| - |l|];
    assert s == removed + l;
    BlankConcat(removed, l);
  }

  lemma StripRightBlank(s: string)
    ensures IsBlank(StripRight(s)) <==> IsBlank(s)
  {
    var r := StripRight(s);
    var removed := s[|r|..];
    assert s == r + removed;
    BlankConcat(r, removed);
  }

  /** `not s.strip()` holds exactly when `s` is whitespace only. */
  lemma StripEmptyIffBlank(s: string)
    ensures Strip(s) == [] <==> IsBlank(s)
  {
    StripLeftBlank(s);
    StripRightBlank(StripLeft(s));
    TrimmedBlankIsEmpty(Strip(s));
  }

  predicate IsDigit(c: char) {
    '0' <= c <= '9'
  }

  predicate AllDigits(s: string) {
    forall i :: 0 <= i < |s| ==> IsDigit(s[i])
  }

  function DigitChar(d: nat): (c: char)
    requires d < 10
    ensures IsDigit(c)
  {
    ('0' as int + d) as char
  }

  function DigitValue(c: char): (d: nat)
    requires IsDigit(c)
    ensures d < 10
  {
    c as int - '0' as int
  }

  /** `str(n)` for a natural number: its decimal digits, no leading zero. */
  function NatToString(n: nat): (r: string)
    ensures r != [] && AllDigits(r)
    ensures |r| > 1 ==> r[0] != '0'
  {
    if n < 10 then [DigitChar(n)]
    else
      var p := NatToString(n / 10);
      p + [DigitChar(n % 10)]
  }

  /** `int(s)` for a string of decimal digits. */
  function ParseNat(s: string): nat
    requires AllDigits(s)
  {
    if s == [] then 0
    else ParseNat(s[..|s| - 1]) * 10 + DigitValue(s[|s| - 1])
  }

  lemma {:induction false} ParseNatToString(n: nat)
    ensures ParseNat(NatToString(n)) == n
  {
    var r := NatToString(n);
    if n >= 10 {
      ParseNatToString(n / 10);
      assert r[..|r| - 1] == NatToString(n / 10);
    }
  }

  /** The longest prefix of `s` made of decimal digits. */
  function TakeDigits(s: string): (r: string)
    ensures AllDigits(r) && |r| <= |s| && r == s[..|r|]
    ensures |r| < |s| ==> !IsDigit(s[|r|])
  {
    if s != [] && IsDigit(s[0]) then [s[0]] + TakeDigits(s[1..]) else []
  }

  lemma {:induction false} TakeDigitsPrefix(ds: string, rest: string)
    requires AllDigits(ds)
    requires rest == [] || !IsDigit(rest[0])
    ensures TakeDigits(ds + rest) == ds
  {
    if ds != [] {
      assert (ds + rest)[1..] == ds[1..] + rest;
      TakeDigitsPrefix(ds[1..], rest);
    } else {
      assert ds + rest == rest;
    }
  }

  predicate StartsWith(s: string, prefix: string) {
    |prefix| <= |s| && s[..|prefix|] == prefix
  }

  /** Position of the last occurrence of `c` in `s`: Python's `s.rfind(c)`, with `None` for -1. */
  function LastIndexOf(s: string, c: char): (r: Option<nat>)
    ensures r.Some? ==> r.value < |s| && s[r.value] == c
    ensures r.Some? ==> forall j :: r.value < j < |s| ==> s[j] != c
    ensures r.None? <==> c !in s
  {
    if |s| == 0 then None
    else if s[|s| - 1] == c then Some(|s| - 1)
    else
      var r := LastIndexOf(s[..|s| - 1], c);
      assert s == s[..|s| - 1] + [s[|s| - 1]];
      r
  }
}
