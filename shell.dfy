/**
  The command shell behind the Telnet server (`shell.cpp`): the checksum
  keyed command table, the table scan that picks a command, the texts the
  commands print and the fixed-width port formatter used by `conn`.

  The routines that print through the Telnet line table (`shell_start`,
  `shell_input`, `connections`, `help`, `unknown`) are methods of the
  Telnet session class in module Telnetd, because their output goes into
  that session's state.
 */
module Shell {

  import opened CString

  /** The handlers the table can select. */
  datatype Command = Help | Connections | Quit | Unknown

  /** One table entry: the checksum of a command word and its handler. */
  datatype Entry = Entry(cs: int, command: Command)

  const Prompt: string := "> "
  const Banner: string := "Smoothie command shell"
  const UnknownPrefix: string := "Unknown command: "
  const ConnectionsHeader: string := "Current TCP connections: "

  /** What `help` prints, one `shell_output` call per element. */
  const HelpLines: seq<string> := [
    "Available commands:",
    "stats   - show network statistics",
    "conn    - show TCP connections",
    "help, ? - show help",
    "exit    - exit shell"
  ]

  /**
    `parsetab`: the command words hashed with the same checksum function
    the shell applies to input lines, ending in the 0 sentinel, whose
    handler is `unknown`.
   */
  function Table(checksum: string -> int): (t: seq<Entry>)
    ensures |t| == 6 && t[5] == Entry(0, Unknown)
  {
    [ Entry(checksum("stats"), Help),
      Entry(checksum("conn"), Connections),
      Entry(checksum("help"), Help),
      Entry(checksum("exit"), Quit),
      Entry(checksum("?"), Help),
      Entry(0, Unknown) ]
  }

  /** A table the scan can walk: some entry carries the 0 checksum. */
  predicate HasSentinel(table: seq<Entry>) {
    exists k :: 0 <= k < |table| && table[k].cs == 0
  }

  /** The entry at `k` ends the scan for `key`, and no earlier entry does. */
  predicate FirstStop(table: seq<Entry>, key: int, k: int) {
    && 0 <= k < |table|
    && (table[k].cs == 0 || table[k].cs == key)
    && forall j :: 0 <= j < k ==> table[j].cs != 0 && table[j].cs != key
  }

  /** The handler `parse` runs for an input whose checksum is `key`. */
  function Lookup(table: seq<Entry>, key: int): (c: Command)
    requires HasSentinel(table)
  {
    if table[0].cs == 0 || table[0].cs == key then table[0].command
    else
      assert table[0].cs != 0;
      assert HasSentinel(table[1..]) by {
        var k :| 0 <= k < |table| && table[k].cs == 0;
        assert table[1..][k - 1].cs == 0;
      }
      Lookup(table[1..], key)
  }

  /** The handler `Lookup` picks is the one of the first entry that stops the scan. */
  lemma {:induction false} LookupIsFirstStop(table: seq<Entry>, key: int)
    requires HasSentinel(table)
    ensures exists k :: FirstStop(table, key, k) && table[k].command == Lookup(table, key)
  {
    if table[0].cs == 0 || table[0].cs == key {
      assert FirstStop(table, key, 0);
    } else {
      assert HasSentinel(table[1..]) by {
        var k :| 0 <= k < |table| && table[k].cs == 0;
        assert table[1..][k - 1].cs == 0;
      }
      LookupIsFirstStop(table[1..], key);
      var k :| FirstStop(table[1..], key, k) && table[1..][k].command == Lookup(table[1..], key);
      assert FirstStop(table, key, k + 1);
    }
  }

  /**
    `parse`: walk the table until an entry's checksum equals the input's
    or the 0 sentinel is reached, and return that entry's handler.
   */
  method Parse(str: string, table: seq<Entry>, checksum: string -> int) returns (c: Command)
    requires HasSentinel(table)
    ensures exists k :: FirstStop(table, checksum(str), k) && table[k].command == c
  {
    var key := checksum(str);
    var p := 0;
    while table[p].cs != 0
      invariant 0 <= p < |table|
      invariant forall j :: 0 <= j < p ==> table[j].cs != 0 && table[j].cs != key
      invariant exists k :: p <= k < |table| && table[k].cs == 0
      decreases |table| - p
    {
      if key == table[p].cs {
        break;
      }
      p := p + 1;
    }
    c := table[p].command;
    assert FirstStop(table, key, p);
  }

  /**
    With the five command words hashing to distinct non-zero checksums,
    the shell table sends "stats", "help" and "?" to `help`, "conn" to
    `connections` and "exit" to `shell_quit`; a line whose checksum
    matches none of them reaches the `unknown` sentinel.
   */
  lemma TableDispatch(checksum: string -> int, str: string)
    requires forall w :: w in ["stats", "conn", "help", "exit", "?"] ==> checksum(w) != 0
    ensures HasSentinel(Table(checksum))
    ensures str in ["stats", "help", "?"] && checksum(str) !in {checksum("conn"), checksum("exit")} ==>
              Lookup(Table(checksum), checksum(str)) == Help
    ensures str == "conn" && checksum("stats") != checksum("conn") ==>
              Lookup(Table(checksum), checksum(str)) == Connections
    ensures str == "exit" && checksum("exit") !in {checksum("stats"), checksum("conn"), checksum("help")} ==>
              Lookup(Table(checksum), checksum(str)) == Quit
    ensures checksum(str) !in {checksum("stats"), checksum("conn"), checksum("help"), checksum("exit"), checksum("?")} ==>
              Lookup(Table(checksum), checksum(str)) == Unknown
  {
    if str in ["stats", "help", "?"] && checksum(str) !in {checksum("conn"), checksum("exit")} {
      DispatchHelp(checksum, str);
    }
    if str == "conn" && checksum("stats") != checksum("conn") {
      DispatchAt(checksum, checksum(str), 1);
    }
    if str == "exit" && checksum("exit") !in {checksum("stats"), checksum("conn"), checksum("help")} {
      DispatchAt(checksum, checksum(str), 3);
    }
    if checksum(str) !in {checksum("stats"), checksum("conn"), checksum("help"), checksum("exit"), checksum("?")} {
      DispatchAt(checksum, checksum(str), 5);
    }
  }

  lemma DispatchHelp(checksum: string -> int, str: string)
    requires forall w :: w in ["stats", "conn", "help", "exit", "?"] ==> checksum(w) != 0
    requires str in ["stats", "help", "?"] && checksum(str) != checksum("conn") && checksum(str) != checksum("exit")
    ensures Lookup(Table(checksum), checksum(str)) == Help
  {
    var key := checksum(str);
    var m := if checksum("stats") == key then 0 else if checksum("help") == key then 2 else 4;
    DispatchAt(checksum, key, m);
  }

  /** The entry at `m` is the first whose checksum is the key or the sentinel. */
  lemma DispatchAt(checksum: string -> int, key: int, m: int)
    requires forall w :: w in ["stats", "conn", "help", "exit", "?"] ==> checksum(w) != 0
    requires 0 <= m < 6 && (m == 5 || Table(checksum)[m].cs == key)
    requires forall j :: 0 <= j < m ==> Table(checksum)[j].cs != key
    ensures Lookup(Table(checksum), key) == Table(checksum)[m].command
  {
    var t := Table(checksum);
    var words := ["stats", "conn", "help", "exit", "?"];
    assert forall j :: 0 <= j < 5 ==> t[j].cs == checksum(words[j]) && words[j] in words;
    StopsAt(t, key, m);
  }

  /** The scan ends at the entry where it first meets the key or the sentinel. */
  lemma StopsAt(t: seq<Entry>, key: int, m: int)
    requires HasSentinel(t) && FirstStop(t, key, m)
    ensures Lookup(t, key) == t[m].command
  {
    LookupIsFirstStop(t, key);
    var k :| FirstStop(t, key, k) && t[k].command == Lookup(t, key);
    assert !(k < m) && !(m < k);
  }

  /** What `unknown` prints for a line: nothing for the empty line. */
  function UnknownOutput(str: string): (out: seq<string>)
    ensures |out| <= 1
    ensures out == [] <==> str == []
    ensures out != [] ==> out[0] == UnknownPrefix + str
  {
    if |str| > 0 then [UnknownPrefix + str] else []
  }

  /** The character a C `char` holds after `n` is stored in it (8 bits). */
  function Char8(n: int): char {
    (n % 256) as char
  }

  /** The five bytes `inttostr` writes for `i`. */
  function IntToStrSpec(i: nat): (s: seq<char>)
    ensures |s| == 5
  {
    var c0 := Char8('0' as int + i / 100);
    var c0' := if c0 == '0' then ' ' else c0;
    var c1 := Char8('0' as int + (i / 10) % 10);
    var c1' := if c0' == ' ' && c1 == '0' then ' ' else c1;
    [c0', c1', Char8('0' as int + i % 10), ' ', '\0']
  }

  /**
    `inttostr`: write three right-aligned digits, a space and a NUL into
    the first five bytes of the caller's buffer.
   */
  method IntToStr(str: array<char>, i: nat)
    requires str.Length >= 5
    modifies str
    ensures str[..5] == IntToStrSpec(i)
    ensures str[5..] == old(str[5..])
  {
    str[0] := Char8('0' as int + i / 100);
    if str[0] == '0' {
      str[0] := ' ';
    }
    str[1] := Char8('0' as int + (i / 10) % 10);
    if str[0] == ' ' && str[1] == '0' {
      str[1] := ' ';
    }
    str[2] := Char8('0' as int + i % 10);
    str[3] := ' ';
    str[4] := '\0';
  }

  function Digit(d: nat): char
    requires d < 10
  {
    ('0' as int + d) as char
  }

  /** The decimal numeral of `n`, without leading zeros. */
  function Decimal(n: nat): (s: string)
    ensures 1 <= |s|
  {
    if n < 10 then [Digit(n)] else Decimal(n / 10) + [Digit(n % 10)]
  }

  function Spaces(n: nat): (s: string)
    ensures |s| == n && forall j :: 0 <= j < n ==> s[j] == ' '
  {
    if n == 0 then [] else [' '] + Spaces(n - 1)
  }

  /**
    Below 1000, the text `inttostr` produces is the decimal numeral of `i`
    right-aligned in three columns (leading zeros become spaces), then a
    space: 80 gives " 80 ", 5 gives "  5 ".
   */
  lemma IntToStrDecimal(i: nat)
    requires i < 1000
    ensures |Decimal(i)| <= 3
    ensures CStr(IntToStrSpec(i)) == Spaces(3 - |Decimal(i)|) + Decimal(i) + " "
  {
    if i < 10 {
      OneDigit(i);
    } else if i < 100 {
      TwoDigits(i);
    } else {
      ThreeDigits(i);
    }
  }

  lemma OneDigit(i: nat)
    requires i < 10
    ensures Decimal(i) == [Digit(i)]
    ensures CStr(IntToStrSpec(i)) == Spaces(2) + Decimal(i) + " "
  {
    assert Char8('0' as int + i) == Digit(i);
    assert IntToStrSpec(i) == [' ', ' ', Digit(i), ' ', '\0'];
    CStrFive(' ', ' ', Digit(i));
    assert Spaces(2) == [' ', ' '];
  }

  lemma TwoDigits(i: nat)
    requires 10 <= i < 100
    ensures Decimal(i) == [Digit(i / 10), Digit(i % 10)]
    ensures CStr(IntToStrSpec(i)) == Spaces(1) + Decimal(i) + " "
  {
    var b, c := i / 10, i % 10;
    assert (i / 10) % 10 == b && i / 100 == 0;
    assert Char8('0' as int + b) == Digit(b);
    assert Char8('0' as int + c) == Digit(c);
    assert IntToStrSpec(i) == [' ', Digit(b), Digit(c), ' ', '\0'];
    CStrFive(' ', Digit(b), Digit(c));
    assert Spaces(1) == [' '];
  }

  lemma ThreeDigits(i: nat)
    requires 100 <= i < 1000
    ensures Decimal(i) == [Digit(i / 100), Digit((i / 10) % 10), Digit(i % 10)]
    ensures CStr(IntToStrSpec(i)) == Spaces(0) + Decimal(i) + " "
  {
    var a, b, c := i / 100, (i / 10) % 10, i % 10;
    assert (i / 10) / 10 == a;
    TwoDigits(i / 10);
    assert Char8('0' as int + a) == Digit(a);
    assert Char8('0' as int + b) == Digit(b);
    assert Char8('0' as int + c) == Digit(c);
    assert IntToStrSpec(i) == [Digit(a), Digit(b), Digit(c), ' ', '\0'];
    CStrFive(Digit(a), Digit(b), Digit(c));
  }

  /** The C string of three non-NUL bytes, a space and a NUL. */
  lemma CStrFive(x: char, y: char, z: char)
    requires x != '\0' && y != '\0' && z != '\0'
    ensures CStr([x, y, z, ' ', '\0']) == [x, y, z, ' ']
  {
    var buf := [x, y, z, ' ', '\0'];
    assert buf[4..] == ['\0'] && CStr(buf[4..]) == [];
    assert buf[3..][1..] == buf[4..] && CStr(buf[3..]) == [' '];
    assert buf[2..][1..] == buf[3..] && CStr(buf[2..]) == [z, ' '];
    assert buf[1..][1..] == buf[2..] && CStr(buf[1..]) == [y, z, ' '];
    assert buf[0..][1..] == buf[1..];
  }
}
