// NUL-terminated text as the firmware handles it.  A C string is the sequence
// of its characters before the terminator; a `char *` into it is the suffix
// that starts there.
module CStrings {
  import opened Options

  predicate NoNul(s: string) { '\0' !in s }

  // ---------------------------------------------------------------- searching

  /** strstr: the suffix that starts at the first occurrence of pat. */
  function StrStr(s: string, pat: string): (r: Option<string>)
    ensures r.Some? ==> pat <= r.value
  {
    if pat <= s then Some(s)
    else if s == "" then None
    else StrStr(s[1..], pat)
  }

  lemma {:induction false} StrStrSuffix(s: string, pat: string)
    ensures var r := StrStr(s, pat);
            r.Some? ==> |r.value| <= |s| && r.value == s[|s| - |r.value|..]
  {
    if !(pat <= s) && s != "" { StrStrSuffix(s[1..], pat); }
  }

  /** What strstr means: the match is the leftmost one, and None means there is none. */
  lemma {:induction false} StrStrIsFirst(s: string, pat: string)
    ensures StrStr(s, pat).Some? ==> |StrStr(s, pat).value| <= |s|
    ensures StrStr(s, pat).Some? ==>
              forall k :: 0 <= k < |s| - |StrStr(s, pat).value| ==> !(pat <= s[k..])
    ensures StrStr(s, pat).None? ==> forall k :: 0 <= k <= |s| ==> !(pat <= s[k..])
  {
    assert s[0..] == s;
    if !(pat <= s) && s != "" {
      StrStrIsFirst(s[1..], pat);
      assert forall k :: 1 <= k <= |s| ==> s[k..] == s[1..][k - 1..];
    }
  }

  /** strchr. */
  function StrChr(s: string, c: char): (r: Option<string>)
    ensures r.Some? <==> c in s
    ensures r.Some? ==> 0 < |r.value| <= |s| && r.value[0] == c
  {
    if s == "" then None
    else if s[0] == c then Some(s)
    else StrChr(s[1..], c)
  }

  lemma {:induction false} StrChrAfter(p: string, c: char, t: string)
    requires c !in p
    ensures StrChr(p + [c] + t, c) == Some([c] + t)
  {
    if p == "" {
      assert p + [c] + t == [c] + t;
    } else {
      StrChrAfter(p[1..], c, t);
      assert (p + [c] + t)[1..] == p[1..] + [c] + t;
    }
  }

  /** memchr over a window: index of the first c, or None. */
  function MemChr(s: string, c: char): (r: Option<nat>)
    ensures r.Some? <==> c in s
    ensures r.Some? ==> r.value < |s| && s[r.value] == c && c !in s[..r.value]
  {
    if s == "" then None
    else if s[0] == c then Some(0)
    else
      match MemChr(s[1..], c)
      case None => None
      case Some(k) => Some(k + 1)
  }

  lemma {:induction false} MemChrAfter(p: string, c: char, t: string)
    requires c !in p
    ensures MemChr(p + [c] + t, c) == Some(|p|)
  {
    if p == "" {
      assert p + [c] + t == [c] + t;
    } else {
      MemChrAfter(p[1..], c, t);
      assert (p + [c] + t)[1..] == p[1..] + [c] + t;
    }
  }

  lemma Assoc(a: string, b: string, c: string)
    ensures a + (b + c) == a + b + c
  {
  }

  // ---------------------------------------------------------------- blanks

  predicate IsBlank(c: char) { c in {' ', ':', '\t', '\r', '\n'} }

  function SkipBlank(s: string): (r: string)
    ensures |r| <= |s|
  {
    if s != "" && IsBlank(s[0]) then SkipBlank(s[1..]) else s
  }

  lemma {:induction false} SkipBlankOver(p: string, t: string)
    requires forall c :: c in p ==> IsBlank(c)
    requires t != "" ==> !IsBlank(t[0])
    ensures SkipBlank(p + t) == t
  {
    if p == "" {
      assert p + t == t;
    } else {
      assert (p + t)[1..] == p[1..] + t;
      SkipBlankOver(p[1..], t);
    }
  }

  // ---------------------------------------------------------------- numbers

  predicate IsDigit(c: char) { '0' <= c <= '9' }

  function DigitChar(d: nat): (c: char)
    requires d < 10
    ensures IsDigit(c) && DigitVal(c) == d
  { '0' + (d as char) }

  function DigitVal(c: char): nat
    requires IsDigit(c)
  { (c - '0') as nat }

  /** "%u". */
  function Dec(n: nat): (s: string)
    ensures s != "" && forall c :: c in s ==> IsDigit(c)
  {
    if n < 10 then [DigitChar(n)] else Dec(n / 10) + [DigitChar(n % 10)]
  }

  /** The leading digits of s. */
  function Digits(s: string): (d: string)
    ensures d <= s && forall c :: c in d ==> IsDigit(c)
    ensures |d| < |s| ==> !IsDigit(s[|d|])
  {
    if s == "" || !IsDigit(s[0]) then ""
    else
      assert s == [s[0]] + s[1..];
      [s[0]] + Digits(s[1..])
  }

  function Val(d: string): nat
    requires forall c :: c in d ==> IsDigit(c)
  {
    if d == "" then 0 else Val(d[..|d| - 1]) * 10 + DigitVal(d[|d| - 1])
  }

  lemma {:induction false} ValDec(n: nat)
    ensures Val(Dec(n)) == n
  {
    if n >= 10 {
      ValDec(n / 10);
      var s := Dec(n);
      assert s[..|s| - 1] == Dec(n / 10);
      assert s[|s| - 1] == DigitChar(n % 10);
    } else {
      var s := Dec(n);
      assert s == [DigitChar(n)] && s[..0] == "";
    }
  }

  /** Decimal notation: the ten digit characters in order, and the leading digit weighs most. */
  lemma DigitCharacters(x: nat)
    requires x < 10
    ensures DigitChar(x) == "0123456789"[x]
  {
  }

  lemma {:induction false} LeadingDigit(d: string)
    requires d != "" && forall c :: c in d ==> IsDigit(c)
    ensures Val(d) == DigitVal(d[0]) * Pow10(|d| - 1) + Val(d[1..])
  {
    assert d[0] in d;
    var n: nat := |d| - 1;
    if n == 0 {
      assert d[..0] == "" && d[1..] == "";
    } else {
      LeadingDigit(d[..n]);
      assert d[..n][1..] == d[1..][..n - 1] && d[1..][n - 1] == d[n];
      TimesTen(DigitVal(d[0]), Pow10(n - 1));
    }
  }

  lemma TimesTen(x: nat, p: nat)
    ensures x * p * 10 == x * (10 * p)
  {
  }

  lemma {:induction false} DigitsOf(d: string, t: string)
    requires forall c :: c in d ==> IsDigit(c)
    requires t != "" ==> !IsDigit(t[0])
    ensures Digits(d + t) == d
  {
    if d == "" {
      assert d + t == t;
    } else {
      assert (d + t)[1..] == d[1..] + t;
      assert (d + t)[0] == d[0];
      DigitsOf(d[1..], t);
      assert [d[0]] + d[1..] == d;
    }
  }

  /** Conversion of a mathematical value by strtol when long has 32 bits. */
  function Saturate(v: int): (r: int)
    ensures -0x8000_0000 <= r < 0x8000_0000
    ensures -0x8000_0000 <= v < 0x8000_0000 ==> r == v
  {
    if v < -0x8000_0000 then -0x8000_0000 else if v > 0x7fff_ffff then 0x7fff_ffff else v
  }

  predicate IsSpace(c: char) { c in {' ', '\t', '\n', '\r'} || c == '\U{000B}' || c == '\U{000C}' }

  function SkipSpace(s: string): string
  {
    if s != "" && IsSpace(s[0]) then SkipSpace(s[1..]) else s
  }

  /** strtol(s, NULL, 10) on a 32-bit long. */
  function Strtol(s: string): (r: int)
    ensures -0x8000_0000 <= r < 0x8000_0000
  {
    var t := SkipSpace(s);
    if t != "" && t[0] == '-' then Saturate(-(Val(Digits(t[1..])) as int))
    else if t != "" && t[0] == '+' then Saturate(Val(Digits(t[1..])))
    else Saturate(Val(Digits(t)))
  }

  /** Reading back what "%u" printed: exact up to 2^31 - 1, then saturated. */
  lemma StrtolDec(n: nat, t: string)
    requires t != "" ==> !IsDigit(t[0])
    ensures Strtol(Dec(n) + t) == if n <= 0x7fff_ffff then n else 0x7fff_ffff
  {
    DigitsOf(Dec(n), t);
    ValDec(n);
    var s := Dec(n) + t;
    assert s[0] == Dec(n)[0] && Dec(n)[0] in Dec(n);
    assert SkipSpace(s) == s;
  }

  /** The (uint16_t) conversion. */
  function U16(v: int): (r: nat)
    ensures r < 0x1_0000
    ensures 0 <= v < 0x1_0000 ==> r == v
  { v % 0x1_0000 }

  // Decimal fractions: "%.2f" and strtof, over reals.

  function Pow10(k: nat): (p: nat)
    ensures p > 0
  { if k == 0 then 1 else 10 * Pow10(k - 1) }

  /** strtof without exponents, hexadecimal forms, "inf" and "nan". */
  function Strtof(s: string): real
  {
    var t := SkipSpace(s);
    if t != "" && t[0] == '-' then -Fixed(t[1..])
    else if t != "" && t[0] == '+' then Fixed(t[1..])
    else Fixed(t)
  }

  function Fixed(s: string): real
  {
    var whole := Digits(s);
    var rest := s[|whole|..];
    if rest != "" && rest[0] == '.' then
      var frac := Digits(rest[1..]);
      Val(whole) as real + Val(frac) as real / Pow10(|frac|) as real
    else Val(whole) as real
  }

  predicate Whole(x: real) { x.Floor as real == x }

  /** The nearest integer, ties to even. */
  function Round(x: real): (n: nat)
    requires x >= 0.0
    ensures n as real - 0.5 <= x <= n as real + 0.5
    ensures Whole(x) ==> n as real == x
  {
    var n := x.Floor;
    var f := x - n as real;
    if f > 0.5 || (f == 0.5 && n % 2 == 1) then n + 1 else n
  }

  /** "%.2f". */
  function Dec2(x: real): (s: string)
    ensures s != "" && (s[0] == '-' || IsDigit(s[0]))
    ensures forall c :: c in s ==> IsDigit(c) || c == '.' || c == '-'
  {
    if x < 0.0 then "-" + Hundredths(Round(-x * 100.0)) else Hundredths(Round(x * 100.0))
  }

  /** The value "%.2f" shows. */
  function ToHundredths(x: real): real
  {
    if x < 0.0 then -(Round(-x * 100.0) as real / 100.0) else Round(x * 100.0) as real / 100.0
  }

  function Hundredths(n: nat): (s: string)
    ensures s != "" && IsDigit(s[0])
    ensures forall c :: c in s ==> IsDigit(c) || c == '.'
  {
    var w := Dec(n / 100);
    assert w[0] in w;
    w + "." + [DigitChar(n / 10 % 10), DigitChar(n % 10)]
  }

  lemma PointParts(w: string, f: string, t: string)
    requires w != "" && (forall c :: c in w ==> IsDigit(c)) && (forall c :: c in f ==> IsDigit(c))
    requires t != "" ==> !IsDigit(t[0])
    ensures var s := w + "." + f + t;
            IsDigit(s[0]) && Digits(s) == w && s[|w|..] == "." + f + t && Digits(s[|w|..][1..]) == f
  {
    var s := w + "." + f + t;
    assert s == w + ("." + f + t);
    assert s[0] == w[0] && w[0] in w;
    DigitsOf(w, "." + f + t);
    assert s[|w|..] == "." + f + t;
    assert s[|w|..][1..] == f + t;
    DigitsOf(f, t);
  }

  lemma StrtofIsFixed(s: string)
    requires s != "" && IsDigit(s[0])
    ensures Strtof(s) == Fixed(s)
  {
    assert SkipSpace(s) == s;
  }

  lemma ValTwo(f: string)
    requires |f| == 2 && IsDigit(f[0]) && IsDigit(f[1])
    ensures forall c :: c in f ==> IsDigit(c)
    ensures Val(f) == DigitVal(f[0]) * 10 + DigitVal(f[1])
  {
    assert f[..1] == [f[0]];
    assert [f[0]][..0] == "";
    assert Val([f[0]]) == DigitVal(f[0]);
  }

  lemma FixedOfParts(s: string, w: string, f: string)
    requires Digits(s) == w && |w| < |s| && s[|w|] == '.' && Digits(s[|w|..][1..]) == f && |f| == 2
    ensures Fixed(s) == Val(w) as real + Val(f) as real / 100.0
  {
    assert Pow10(2) == 100 by { assert Pow10(1) == 10; assert Pow10(0) == 1; }
    assert s[|w|..][0] == '.';
  }

  lemma StrtofHundredths(n: nat, t: string)
    requires t != "" ==> !IsDigit(t[0])
    ensures Strtof(Hundredths(n) + t) == n as real / 100.0
  {
    var w, f := Dec(n / 100), [DigitChar(n / 10 % 10), DigitChar(n % 10)];
    var s := w + "." + f + t;
    assert Hundredths(n) + t == s;
    PointParts(w, f, t);
    assert Strtof(s) == Fixed(s) by { StrtofIsFixed(s); }
    assert Fixed(s) == Val(w) as real + Val(f) as real / 100.0 by { FixedOfParts(s, w, f); }
    assert Val(w) == n / 100 by { ValDec(n / 100); }
    assert Val(f) == n % 100 by { ValTwo(f); TwoDigits(n); }
    HundredthSum(n);
  }

  /** Reading back what "%.2f" printed. */
  lemma StrtofDec2(x: real, t: string)
    requires t != "" ==> !IsDigit(t[0])
    ensures Strtof(Dec2(x) + t) == ToHundredths(x)
  {
    if x < 0.0 {
      StrtofNegative(Round(-x * 100.0), t);
    } else {
      StrtofHundredths(Round(x * 100.0), t);
    }
  }

  lemma StrtofNegative(n: nat, t: string)
    requires t != "" ==> !IsDigit(t[0])
    ensures Strtof("-" + Hundredths(n) + t) == -(n as real / 100.0)
  {
    var s := Hundredths(n) + t;
    assert s[0] == Hundredths(n)[0];
    StrtofHundredths(n, t);
    StrtofIsFixed(s);
    NegativeFixed(s);
    assert "-" + Hundredths(n) + t == "-" + s;
  }

  lemma NegativeFixed(s: string)
    ensures Strtof("-" + s) == -Fixed(s)
  {
    var t := "-" + s;
    assert t[0] == '-' && t[1..] == s;
    assert SkipSpace(t) == t;
  }

  /** A value survives "%.2f" exactly if it is a whole number of hundredths. */
  lemma SurvivesTwoDecimals(x: real)
    ensures ToHundredths(x) == x <==> Whole(x * 100.0)
  {
    assert Whole(x * 100.0) ==> -x * 100.0 == (-(x * 100.0).Floor) as real;
    assert ToHundredths(x) == x ==>
        x * 100.0 == (if x < 0.0 then -(Round(-x * 100.0) as int) else Round(x * 100.0)) as real;
  }

  lemma HundredthSum(n: nat)
    ensures (n / 100) as real + (n % 100) as real / 100.0 == n as real / 100.0
  {
    assert n == n / 100 * 100 + n % 100;
  }

  lemma TwoDigits(n: nat)
    ensures n / 10 % 10 * 10 + n % 10 == n % 100
  {
  }

  // ---------------------------------------------------------------- buffers

  /** The text of a character array: everything before its first NUL. */
  function CStr(b: seq<char>): (s: string)
    ensures |s| <= |b| && s == b[..|s|] && NoNul(s)
  {
    if b == [] || b[0] == '\0' then "" else [b[0]] + CStr(b[1..])
  }

  /** At most n leading characters. */
  function Clip(s: string, n: nat): (r: string)
    ensures r <= s && |r| <= n
  { if |s| <= n then s else s[..n] }

  /** What a reader with a buffer of the given size sees of a file: the part that fits, up to the first NUL. */
  function Visible(data: string, size: nat): string
    requires size > 0
  { CStr(Clip(data, size - 1) + "\0") }

  predicate Holds(b: seq<char>, t: string) { |t| < |b| && b[..|t|] == t && b[|t|] == '\0' }

  lemma {:induction false} HoldsCStr(b: seq<char>, t: string)
    requires Holds(b, t) && NoNul(t)
    ensures CStr(b) == t
  {
    if t != "" {
      assert b[0] == t[0];
      assert b[1..][..|t| - 1] == t[1..];
      HoldsCStr(b[1..], t[1..]);
      assert t == [t[0]] + t[1..];
    }
  }

  lemma {:induction false} CacheText(b: seq<char>, t: string)
    requires Holds(b, t)
    ensures CStr(b) == CStr(t + "\0")
  {
    if t != "" && t[0] != '\0' {
      assert b[0] == t[0] && (t + "\0")[0] == t[0];
      assert b[1..][..|t| - 1] == t[1..];
      assert (t + "\0")[1..] == t[1..] + "\0";
      CacheText(b[1..], t[1..]);
    }
  }

  /** Writes n characters of s and a terminator at pos. */
  method CopyAt(buf: array<char>, pos: nat, s: string, n: nat)
    requires n <= |s| && pos + n < buf.Length
    modifies buf
    ensures buf[..pos] == old(buf[..pos]) && buf[pos..pos + n] == s[..n] && buf[pos + n] == '\0'
  {
    var i := 0;
    while i < n
      invariant i <= n
      invariant buf[..pos] == old(buf[..pos])
      invariant forall k :: 0 <= k < i ==> buf[pos + k] == s[k]
    {
      buf[pos + i] := s[i];
      i := i + 1;
    }
    buf[pos + n] := '\0';
  }

  /** snprintf(buf + pos, sizeof buf - pos, ...): appends what fits, reports the full length.
      `done` is the text printed so far; with pos past the buffer's end the C call is undefined. */
  method Snprintf(buf: array<char>, pos: nat, ghost done: string, s: string) returns (next: nat)
    requires 0 < buf.Length && pos == |done| <= buf.Length
    requires pos == 0 || Holds(buf[..], Clip(done, buf.Length - 1))
    modifies buf
    ensures next == |done + s|
    ensures Holds(buf[..], Clip(done + s, buf.Length - 1))
  {
    next := pos + |s|;
    if pos < buf.Length {
      var room := buf.Length - pos - 1;
      var n := if |s| <= room then |s| else room;
      assert buf[..pos] == done;
      CopyAt(buf, pos, s, n);
      ClipAppend(done, s, buf.Length - 1, n);
      assert buf[..pos + n] == buf[..pos] + buf[pos..pos + n];
    } else {
      assert Clip(done + s, buf.Length - 1) == Clip(done, buf.Length - 1);
    }
  }

  lemma ClipAppend(done: string, s: string, cap: nat, n: nat)
    requires |done| <= cap && n == (if |s| <= cap - |done| then |s| else cap - |done|)
    ensures Clip(done + s, cap) == done + s[..n]
  {
  }

  /** fs_read into the buffer, then the terminator the callers add. */
  method FillFrom(buf: array<char>, data: string) returns (n: nat)
    requires 0 < buf.Length
    modifies buf
    ensures n == |Clip(data, buf.Length - 1)|
    ensures Holds(buf[..], Clip(data, buf.Length - 1))
  {
    n := if |data| <= buf.Length - 1 then |data| else buf.Length - 1;
    for i := 0 to n
      invariant forall k :: 0 <= k < i ==> buf[k] == data[k]
    {
      buf[i] := data[i];
    }
    buf[n] := '\0';
    assert buf[..n] == Clip(data, buf.Length - 1);
  }
}
