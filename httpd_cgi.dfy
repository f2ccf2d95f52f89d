/**
  The web server's script interface (`httpd-cgi.c`): the table of script
  names searched by `httpd_cgi`, and `itoa`, which writes the digits of a
  C `int` in any base from 2 to 36 into a caller's buffer and reverses
  them in place.
 */
module HttpdCgi {

  import opened Wrappers
  import opened CString

  // ---------------------------------------------------------------------
  // Script table
  // ---------------------------------------------------------------------

  /** The script functions the table names, and the one `httpd_cgi` falls back to. */
  datatype CgiFunction = PortStatus | PortToggle | PortNumber1 | PortNumber2 | PortAdc1 | NullFunction

  datatype CgiCall = CgiCall(name: string, script: CgiFunction)

  /** `calls[]`, in table order. */
  const Calls: seq<CgiCall> := [
    CgiCall("port-status", PortStatus),
    CgiCall("port-toggle", PortToggle),
    CgiCall("port-number1", PortNumber1),
    CgiCall("port-number2", PortNumber2),
    CgiCall("port-adc1", PortAdc1)
  ]

  /** Entry `i` is the first whose name `name` starts with. */
  predicate FirstMatch(name: string, i: int)
    requires 0 <= i < |Calls|
  {
    IsPrefix(Calls[i].name, name) && forall j :: 0 <= j < i ==> !IsPrefix(Calls[j].name, name)
  }

  /**
    `httpd_cgi`: the function of the first entry whose name is a prefix of
    `name`, or `nullfunction` when none is.
   */
  method Lookup(name: string) returns (f: CgiFunction)
    ensures f == NullFunction <==> forall i :: 0 <= i < |Calls| ==> !IsPrefix(Calls[i].name, name)
    ensures f != NullFunction ==> exists i :: 0 <= i < |Calls| && FirstMatch(name, i) && f == Calls[i].script
  {
    var k := 0;
    while k < |Calls|
      invariant 0 <= k <= |Calls|
      invariant forall j :: 0 <= j < k ==> !IsPrefix(Calls[j].name, name)
    {
      if IsPrefix(Calls[k].name, name) {
        assert FirstMatch(name, k);
        return Calls[k].script;
      }
      k := k + 1;
    }
    return NullFunction;
  }

  /** A script call may carry arguments after the name; a bare prefix of a name matches nothing. */
  lemma LookupExamples()
    ensures FirstMatch("port-status 1", 0)
    ensures FirstMatch("port-number2", 3)
    ensures forall i :: 0 <= i < |Calls| ==> !IsPrefix(Calls[i].name, "port-")
  {
    assert "port-status 1"[..11] == "port-status";
    assert "port-number2"[..12] != "port-number1" by {
      assert "port-number2"[11] != "port-number1"[11];
    }
    assert "port-number2"[..11] != "port-status" by {
      assert "port-number2"[5] != "port-status"[5];
    }
    assert "port-number2"[..11] != "port-toggle" by {
      assert "port-number2"[5] != "port-toggle"[5];
    }
  }

  // ---------------------------------------------------------------------
  // itoa
  // ---------------------------------------------------------------------

  /**
    The symmetric digit table `itoa` indexes at 35 plus a remainder, written
    in pieces of at most ten characters so that the verifier can index it.
   */
  const DigitTable: string :=
    "zyxwvu" + "tsrqponmlk" + "jihgfedcba" + "9876543210" + "123456789" + "abcdefghij" + "klmnopqrst" + "uvwxyz"

  lemma TableLength()
    ensures |DigitTable| == 71
  {
  }

  /** The digit of value `d`: the upper half of the table. */
  function Digit(d: int): char
    requires 0 <= d < 36
  {
    TableLength();
    DigitTable[35 + d]
  }

  predicate ValidBase(base: int) {
    2 <= base <= 36
  }

  /** The digits of `n` in `base`, most significant first, with no leading zero. */
  function ToBase(n: nat, base: int): (r: string)
    requires ValidBase(base)
    ensures |r| >= 1
    decreases n
  {
    if n < base then [Digit(n)] else ToBase(n / base, base) + [Digit(n % base)]
  }

  /** What `itoa` writes before the NUL: nothing for a bad base, else sign and digits of |value|. */
  function Itoa(value: int, base: int): string {
    if !ValidBase(base) then []
    else (if value < 0 then "-" else "") + ToBase(Abs(value), base)
  }

  lemma EuclidBase(m: nat, base: int)
    requires ValidBase(base)
    ensures m == base * (m / base) + m % base && 0 <= m % base < base
    ensures m / base == 0 <==> m < base
  {
  }

  lemma DivShrinks(m: nat, base: int)
    requires ValidBase(base)
    ensures m > 0 ==> m / base < m
  {
  }

  lemma CDivBase(v: int, base: int)
    requires ValidBase(base)
    ensures CDiv(v, base) == if v >= 0 then Abs(v) / base else -(Abs(v) / base)
  {
  }

  /** The magnitude of a C quotient is the quotient of the magnitudes. */
  lemma QuotientMagnitude(v: int, base: int)
    requires ValidBase(base)
    ensures Abs(CDiv(v, base)) == Abs(v) / base
    ensures CDiv(v, base) == 0 <==> Abs(v) < base
    ensures CRem(v, base) == if v >= 0 then Abs(v) % base else -(Abs(v) % base)
    ensures Abs(CRem(v, base)) == Abs(v) % base
    ensures -35 <= CRem(v, base) <= 35
  {
    EuclidBase(Abs(v), base);
    CDivBase(v, base);
  }

  /**
    The digits the do-while of `itoa` writes, least significant first:
    a table entry for each remainder until the quotient is 0.
   */
  function LowFirst(v: int, base: int): (r: string)
    requires ValidBase(base)
    ensures |r| >= 1
    decreases Abs(v)
  {
    QuotientMagnitude(v, base);
    DivShrinks(Abs(v), base);
    TableLength();
    var q := CDiv(v, base);
    [DigitTable[35 + CRem(v, base)]] + (if q == 0 then [] else LowFirst(q, base))
  }

  function Reverse(s: string): (r: string)
    ensures |r| == |s|
  {
    if s == [] then [] else Reverse(s[1..]) + [s[0]]
  }

  lemma {:induction false} ReverseIndex(s: string)
    ensures forall i :: 0 <= i < |s| ==> Reverse(s)[i] == s[|s| - 1 - i]
  {
    if s != [] {
      ReverseIndex(s[1..]);
    }
  }

  /** The two halves of the table mirror each other, ten entries at a time. */
  lemma MirrorLow(d: int)
    requires 0 <= d < 10
    ensures DigitTable[35 - d] == DigitTable[35 + d]
  {
  }

  lemma MirrorMid(d: int)
    requires 10 <= d < 20
    ensures DigitTable[35 - d] == DigitTable[35 + d]
  {
  }

  lemma MirrorHigh(d: int)
    requires 20 <= d < 30
    ensures DigitTable[35 - d] == DigitTable[35 + d]
  {
  }

  lemma MirrorTop(d: int)
    requires 30 <= d <= 35
    ensures DigitTable[35 - d] == DigitTable[35 + d]
  {
  }

  /** The table holds digit |r| at 35 + r, for a remainder r of either sign. */
  lemma TableDigit(r: int)
    requires -35 <= r <= 35
    ensures DigitTable[35 + r] == Digit(Abs(r))
  {
    TableLength();
    var d := Abs(r);
    if d < 10 {
      MirrorLow(d);
    } else if d < 20 {
      MirrorMid(d);
    } else if d < 30 {
      MirrorHigh(d);
    } else {
      MirrorTop(d);
    }
  }

  /** Reversed, the remainders' digits are the digits of |v|. */
  lemma {:induction false} LowFirstDigits(v: int, base: int)
    requires ValidBase(base)
    ensures Reverse(LowFirst(v, base)) == ToBase(Abs(v), base)
    decreases Abs(v)
  {
    QuotientMagnitude(v, base);
    TableDigit(CRem(v, base));
    var q, m := CDiv(v, base), Abs(v);
    var c := DigitTable[35 + CRem(v, base)];
    assert c == Digit(m % base);
    var low := LowFirst(v, base);
    if q == 0 {
      assert low == [c];
      assert m % base == m && m < base;
      assert ToBase(m, base) == [Digit(m)];
    } else {
      assert low == [c] + LowFirst(q, base);
      assert low[1..] == LowFirst(q, base);
      DivShrinks(m, base);
      LowFirstDigits(q, base);
      assert Reverse(low) == Reverse(LowFirst(q, base)) + [c];
      assert Abs(q) == m / base && m >= base;
      assert ToBase(m, base) == ToBase(m / base, base) + [Digit(m % base)];
    }
  }

  /** What the digits and the sign `itoa` writes read as once reversed. */
  lemma ItoaReversed(value: int, base: int)
    requires ValidBase(base)
    ensures Reverse(LowFirst(value, base) + (if value < 0 then "-" else "")) == Itoa(value, base)
  {
    var low := LowFirst(value, base);
    LowFirstDigits(value, base);
    if value < 0 {
      ReverseAppend(low, "-");
      assert Reverse("-") == "-";
      assert Itoa(value, base) == "-" + ToBase(Abs(value), base);
    } else {
      assert low + "" == low;
      assert Itoa(value, base) == ToBase(Abs(value), base);
    }
  }

  lemma ReverseAppend(s: string, t: string)
    ensures Reverse(s + t) == Reverse(t) + Reverse(s)
  {
    var a, b := Reverse(s + t), Reverse(t) + Reverse(s);
    ReverseIndex(s + t);
    ReverseIndex(s);
    ReverseIndex(t);
    assert |a| == |b|;
    forall i | 0 <= i < |a|
      ensures a[i] == b[i]
    {
      if i < |t| {
        assert b[i] == t[|t| - 1 - i];
      } else {
        assert b[i] == Reverse(s)[i - |t|];
      }
    }
  }

  /** One pass of the do-while: the digit of the remainder and the C quotient. */
  lemma LowFirstStep(v: int, base: int)
    requires ValidBase(base)
    ensures v - CDiv(v, base) * base == CRem(v, base) && -35 <= CRem(v, base) <= 35
    ensures LowFirst(v, base)[0] == DigitTable[35 + CRem(v, base)]
    ensures LowFirst(v, base)[1..] == if CDiv(v, base) == 0 then [] else LowFirst(CDiv(v, base), base)
    ensures CDiv(v, base) != 0 ==> Abs(CDiv(v, base)) < Abs(v)
    ensures (CDiv(v, base) < 0 ==> v < 0) && (CDiv(v, base) > 0 ==> v > 0)
  {
    QuotientMagnitude(v, base);
    DivShrinks(Abs(v), base);
    CDivBase(v, base);
    TableLength();
  }

  /**
    The digit loop of `itoa`: writes the remainders' digits at the start of
    `result`, least significant first, then '-' for a negative value.
   */
  method WriteDigits(value: int, result: array<char>, base: int) returns (ptr: nat)
    requires ValidBase(base)
    requires result.Length >= |LowFirst(value, base)| + 1
    modifies result
    ensures ptr == |LowFirst(value, base)| + (if value < 0 then 1 else 0)
    ensures result[..ptr] == LowFirst(value, base) + (if value < 0 then "-" else "")
    ensures forall k :: ptr <= k < result.Length ==> result[k] == old(result[k])
  {
    ghost var digits := LowFirst(value, base);
    TableLength();
    var v := value;
    var tmp := 0;
    ptr := 0;
    LowFirstStep(v, base);
    tmp := v;
    v := CDiv(tmp, base);
    result[ptr] := DigitTable[35 + (tmp - v * base)];
    ptr := ptr + 1;
    assert digits == result[..1] + digits[1..];
    while v != 0
      invariant 1 <= ptr <= |digits|
      invariant digits == result[..ptr] + (if v == 0 then [] else LowFirst(v, base))
      invariant (tmp < 0) == (value < 0) && (v < 0 ==> tmp < 0) && (v > 0 ==> tmp > 0)
      invariant forall k :: ptr <= k < result.Length ==> result[k] == old(result[k])
      decreases Abs(v)
    {
      LowFirstStep(v, base);
      ghost var done, low := result[..ptr], LowFirst(v, base);
      assert digits == done + [low[0]] + low[1..];
      tmp := v;
      v := CDiv(tmp, base);
      result[ptr] := DigitTable[35 + (tmp - v * base)];
      assert result[..ptr + 1] == done + [low[0]];
      ptr := ptr + 1;
    }
    assert result[..ptr] == digits;
    if tmp < 0 {
      result[ptr] := '-';
      ptr := ptr + 1;
      assert result[..ptr] == digits + "-";
    } else {
      assert digits + "" == digits;
    }
  }

  /** The reversal loop of `itoa`: the first `n` characters of `a`, swapped end for end. */
  method ReverseInPlace(a: array<char>, n: nat)
    requires n <= a.Length
    modifies a
    ensures a[..n] == Reverse(old(a[..n]))
    ensures forall k :: n <= k < a.Length ==> a[k] == old(a[k])
  {
    ghost var w := a[..n];
    var lo, hi := 0, n as int - 1;
    while lo < hi
      invariant 0 <= lo <= n && -1 <= hi < n && lo + hi == n - 1
      invariant forall k :: 0 <= k < lo ==> a[k] == w[n - 1 - k]
      invariant forall k :: hi < k < n ==> a[k] == w[n - 1 - k]
      invariant forall k :: lo <= k <= hi ==> a[k] == w[k]
      invariant forall k :: n <= k < a.Length ==> a[k] == old(a[k])
    {
      a[lo], a[hi] := a[hi], a[lo];
      lo, hi := lo + 1, hi - 1;
    }
    ReverseIndex(w);
    assert a[..n] == Reverse(w);
  }

  /**
    `itoa(value, result, base)`: writes `Itoa(value, base)` and a NUL at
    the start of `result` and returns its length. The caller's buffer must
    hold them, as the C function demands of its callers.
   */
  method ItoaInto(value: int, result: array<char>, base: int) returns (len: nat)
    requires result.Length >= |Itoa(value, base)| + 1
    modifies result
    ensures len == |Itoa(value, base)|
    ensures result[..len + 1] == Itoa(value, base) + ['\0']
    ensures forall k :: len < k < result.Length ==> result[k] == old(result[k])
  {
    if base < 2 || base > 36 {
      result[0] := '\0';
      assert result[..1] == ['\0'];
      return 0;
    }
    len := WriteReversed(value, result, base);
    result[len] := '\0';
    assert result[..len + 1] == result[..len] + [result[len]];
  }

  /** The digits, then the sign, written and reversed in place: `Itoa` of a valid base. */
  method WriteReversed(value: int, result: array<char>, base: int) returns (len: nat)
    requires ValidBase(base)
    requires result.Length >= |Itoa(value, base)| + 1
    modifies result
    ensures len == |Itoa(value, base)| && len < result.Length
    ensures result[..len] == Itoa(value, base)
    ensures forall k :: len <= k < result.Length ==> result[k] == old(result[k])
  {
    ghost var w := LowFirst(value, base) + (if value < 0 then "-" else "");
    ItoaReversed(value, base);
    assert |Itoa(value, base)| == |w|;
    len := WriteDigits(value, result, base);
    assert result[..len] == w;
    ReverseInPlace(result, len);
  }

  // ---------------------------------------------------------------------
  // Properties of Itoa
  // ---------------------------------------------------------------------

  /** 0 is written "0": the do-while runs once. */
  lemma ZeroIsWritten(base: int)
    requires ValidBase(base)
    ensures Itoa(0, base) == "0"
  {
  }

  /** A base outside 2..36 writes the empty string. */
  lemma BadBaseIsEmpty(value: int, base: int)
    requires !ValidBase(base)
    ensures Itoa(value, base) == ""
  {
  }

  /** The value of decimal digits written by ToBase, most significant first. */
  lemma {:induction false} DecimalDigits(n: nat)
    ensures forall i :: 0 <= i < |ToBase(n, 10)| ==> IsDigit(ToBase(n, 10)[i])
    ensures DecimalValue(ToBase(n, 10)) == n
    decreases n
  {
    if n >= 10 {
      DecimalDigits(n / 10);
      var d := ToBase(n, 10);
      assert d[..|d| - 1] == ToBase(n / 10, 10);
      assert d[|d| - 1] == Digit(n % 10);
      DigitValue(n % 10);
    } else {
      DigitValue(n);
    }
  }

  lemma DigitValue(k: nat)
    requires k < 10
    ensures IsDigit(Digit(k)) && Digit(k) as int - '0' as int == k
  {
    assert |DigitTable| == 71;
  }

  lemma {:induction false} DigitRunAll(d: string)
    requires forall i :: 0 <= i < |d| ==> IsDigit(d[i])
    ensures DigitRun(d) == |d|
  {
    if d != [] {
      DigitRunAll(d[1..]);
    }
  }

  /** `strtol` reads a run of digits to its end. */
  lemma ReadDigits(d: string)
    requires |d| >= 1 && forall i :: 0 <= i < |d| ==> IsDigit(d[i])
    ensures StrToL(d) == Some(DecimalValue(d) as int)
  {
    DigitRunAll(d);
    assert d[..|d|] == d;
    assert !IsSpace(d[0]);
    assert SpaceRun(d) == 0 && d[0..] == d;
  }

  /** `strtol` reads a minus sign and a run of digits to its end. */
  lemma ReadNegative(d: string)
    requires |d| >= 1 && forall i :: 0 <= i < |d| ==> IsDigit(d[i])
    ensures StrToL("-" + d) == Some(-(DecimalValue(d) as int))
  {
    DigitRunAll(d);
    assert d[..|d|] == d;
    var m := "-" + d;
    assert !IsSpace(m[0]);
    assert SpaceRun(m) == 0 && m[0..] == m;
    assert m[1..] == d;
  }

  /** Base 10 round trip: `atoi` reads back the value `itoa` wrote. */
  lemma DecimalRoundTrip(value: int)
    ensures Atoi(Itoa(value, 10)) == value
  {
    var d := ToBase(Abs(value), 10);
    DecimalDigits(Abs(value));
    if value < 0 {
      ReadNegative(d);
    } else {
      ReadDigits(d);
    }
  }
}
