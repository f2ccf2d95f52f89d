/**
  Helpers that give C library behaviour a meaning over Dafny strings:
  NUL-terminated buffers, `strncmp`, `atoi`, `strtol` and the division
  operators of C, which truncate toward zero.
 */
module CString {

  import opened Wrappers

  /** The C string held in a buffer: everything before the first NUL. */
  function CStr(buf: seq<char>): (s: string)
    ensures |s| <= |buf| && s == buf[..|s|]
    ensures '\0' !in s
    ensures |s| < |buf| ==> buf[|s|] == '\0'
  {
    if buf == [] || buf[0] == '\0' then [] else [buf[0]] + CStr(buf[1..])
  }

  /** A string without NUL is its own C string. */
  lemma {:induction false} CStrNoNul(x: seq<char>)
    requires '\0' !in x
    ensures CStr(x) == x
  {
    if x != [] {
      CStrNoNul(x[1..]);
    }
  }

  /** A NUL written after `x` ends the C string there, whatever follows. */
  lemma {:induction false} CStrCut(x: seq<char>, y: seq<char>)
    ensures CStr(x + ['\0'] + y) == CStr(x)
  {
    if x != [] {
      assert (x + ['\0'] + y)[1..] == x[1..] + ['\0'] + y;
      CStrCut(x[1..], y);
    }
  }

  /** The first `n` characters of `s`, or all of `s` when it is shorter. */
  function Take(s: string, n: int): (r: string)
    ensures |r| == if n < 0 then 0 else if n < |s| then n else |s|
    ensures r == s[..|r|]
  {
    if n <= 0 then [] else if n < |s| then s[..n] else s
  }

  /** `strncmp(a, b, n) == 0` for NUL-free strings `a` and `b`. */
  predicate StrNEq(a: string, b: string, n: int) {
    Take(a, n) == Take(b, n)
  }

  /** `strncmp(s, p, strlen(p)) == 0`: `p` is a prefix of `s`. */
  predicate IsPrefix(p: string, s: string) {
    |p| <= |s| && s[..|p|] == p
  }

  lemma StrNEqAsPrefix(s: string, p: string)
    ensures StrNEq(s, p, |p|) <==> IsPrefix(p, s)
  {
  }

  /** `isspace` of the C locale. */
  predicate IsSpace(c: char) {
    c == ' ' || c == '\t' || c == '\n' || c == '\r' || c == 11 as char || c == 12 as char
  }

  predicate IsDigit(c: char) {
    '0' <= c <= '9'
  }

  /** The number of decimal digits at the front of `s`. */
  function DigitRun(s: string): (n: nat)
    ensures n <= |s|
    ensures forall i :: 0 <= i < n ==> IsDigit(s[i])
    ensures n < |s| ==> !IsDigit(s[n])
  {
    if s != [] && IsDigit(s[0]) then 1 + DigitRun(s[1..]) else 0
  }

  /** The value of a string of decimal digits. */
  function DecimalValue(s: string): nat
    requires forall i :: 0 <= i < |s| ==> IsDigit(s[i])
  {
    if s == [] then 0
    else
      assert IsDigit(s[|s| - 1]);
      10 * DecimalValue(s[..|s| - 1]) + (s[|s| - 1] as int - '0' as int)
  }

  /** The number of whitespace characters at the front of `s`. */
  function SpaceRun(s: string): (n: nat)
    ensures n <= |s|
    ensures n < |s| ==> !IsSpace(s[n])
  {
    if s != [] && IsSpace(s[0]) then 1 + SpaceRun(s[1..]) else 0
  }

  /**
    The number `strtol(s, &e, 10)` reads: leading white space, an optional
    sign, then decimal digits. `None` when no digit follows, which is the
    case where `strtol` leaves `e` at the start of `s`.
   */
  function StrToL(s: string): (r: Option<int>)
  {
    var t := s[SpaceRun(s)..];
    var neg := t != [] && t[0] == '-';
    var u := if t != [] && (t[0] == '-' || t[0] == '+') then t[1..] else t;
    var n := DigitRun(u);
    if n == 0 then None
    else Some(if neg then -(DecimalValue(u[..n]) as int) else DecimalValue(u[..n]))
  }

  /** `atoi(s)`: the value `strtol` reads, or 0 when there is none. */
  function Atoi(s: string): int {
    match StrToL(s)
    case Some(v) => v
    case None => 0
  }

  function Abs(a: int): nat { if a < 0 then -a else a }

  /** The conversion of an integer to `uint8_t`: its value modulo 256. */
  function Byte(x: int): (b: int)
    ensures 0 <= b < 256
    ensures 0 <= x < 256 ==> b == x
    ensures (b - x) % 256 == 0
  {
    x % 256
  }

  /** C `/` on integers: the quotient truncated toward zero. */
  function CDiv(a: int, b: int): int
    requires b != 0
  {
    var q := Abs(a) / Abs(b);
    if (a < 0) == (b < 0) then q else -q
  }

  /** C `%` on integers: the remainder that goes with `CDiv`. */
  function CRem(a: int, b: int): int
    requires b != 0
  {
    a - b * CDiv(a, b)
  }

  /** The C remainder is smaller than the divisor and has the sign of the dividend. */
  lemma CRemBounds(a: int, b: int)
    requires b != 0
    ensures CRem(a, b) == (if a < 0 then -(Abs(a) % Abs(b)) else Abs(a) % Abs(b))
    ensures Abs(CRem(a, b)) < Abs(b)
    ensures Abs(CDiv(a, b)) <= Abs(a)
  {
    var q, r := Abs(a) / Abs(b), Abs(a) % Abs(b);
    DivModParts(Abs(a), Abs(b));
    CRemParts(a, b, q, r);
  }

  lemma DivModParts(n: nat, m: nat)
    requires m > 0
    ensures n == m * (n / m) + n % m && 0 <= n % m < m && 0 <= n / m <= n
  {
    MulAtLeast(m, n / m);
  }

  lemma {:induction false} MulAtLeast(m: nat, q: nat)
    requires m >= 1
    ensures q <= m * q
  {
    if m > 1 {
      MulAtLeast(m - 1, q);
      assert m * q == (m - 1) * q + q;
    }
  }

  /** `CRemBounds` with the quotient `q` and the remainder `r` of the magnitudes. */
  lemma CRemParts(a: int, b: int, q: int, r: int)
    requires b != 0 && 0 <= q && 0 <= r && Abs(a) == Abs(b) * q + r && r < Abs(b) && q <= Abs(a) && q == Abs(a) / Abs(b)
    ensures CRem(a, b) == (if a < 0 then -r else r)
    ensures Abs(CDiv(a, b)) <= Abs(a)
  {
    var m := Abs(b);
    var p := m * q;
    var d := CDiv(a, b);
    assert d == if (a < 0) == (b < 0) then q else -q;
    assert b * d == if a < 0 then -p else p by {
      if b < 0 { assert b == -m; assert b * d == -(m * d); }
      else { assert b == m; }
    }
  }

  /** The concatenation of buffers, one after another. */
  function Concat(parts: seq<string>): (s: string)
  {
    if parts == [] then [] else parts[0] + Concat(parts[1..])
  }

  lemma ConcatAppend(parts: seq<string>, x: string)
    ensures Concat(parts + [x]) == Concat(parts) + x
  {
    if parts != [] {
      assert (parts + [x])[1..] == parts[1..] + [x];
      ConcatAppend(parts[1..], x);
    }
  }

  lemma {:induction false} ConcatApp(x: seq<string>, y: seq<string>)
    ensures Concat(x + y) == Concat(x) + Concat(y)
  {
    if x == [] {
      assert x + y == y;
    } else {
      assert (x + y)[1..] == x[1..] + y;
      ConcatApp(x[1..], y);
    }
  }
}
