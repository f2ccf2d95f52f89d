/**
  The configuration decisions of `Network.cpp`: `parse_ip_str`, which splits
  an address at a separator into a fixed number of byte fields, the choice
  of MAC and IP addresses at start-up, the choice of server for a
  connection, and the hand-over of one telnet command per main-loop pass.
 */
module Network {

  import opened Wrappers
  import opened CString
  import HttpdCgi

  // ---------------------------------------------------------------------
  // parse_ip_str
  // ---------------------------------------------------------------------

  /** `s.find(sep, p)`: the first position at or after `p` that holds `sep`. */
  function Find(s: string, sep: char, p: nat): (o: Option<nat>)
    requires p <= |s|
    ensures o.Some? ==> p <= o.value < |s| && s[o.value] == sep
    ensures o.Some? ==> forall j :: p <= j < o.value ==> s[j] != sep
    ensures o.None? ==> forall j :: p <= j < |s| ==> s[j] != sep
    decreases |s| - p
  {
    if p == |s| then None else if s[p] == sep then Some(p) else Find(s, sep, p + 1)
  }

  /** The number of times `sep` occurs in `s` at or after `p`. */
  function Count(s: string, sep: char, p: nat): nat
    requires p <= |s|
    decreases |s| - p
  {
    if p == |s| then 0 else (if s[p] == sep then 1 else 0) + Count(s, sep, p + 1)
  }

  /** How `parse_ip_str` makes a byte of a field: `atoi`, truncated to `uint8_t`. */
  function AtoiByte(t: string): (b: int)
    ensures 0 <= b < 256
  {
    Byte(Atoi(t))
  }

  /** The base-16 reading of a field that a MAC address calls for. */
  function HexByte(t: string): (b: int)
    ensures 0 <= b < 256
  {
    Byte(HexNumber(t[..HexRun(t)]))
  }

  /**
    The bytes `parse_ip_str` writes for `k` fields starting at `p`, each
    made by `read`, and whether it succeeds: each field but the last ends at
    the next separator, the last is the remainder, and a missing separator
    stops it with `false`.
   */
  function FieldsFrom(s: string, sep: char, p: nat, k: nat, read: string -> int): (r: (bool, seq<int>))
    requires p <= |s|
    ensures r.0 ==> |r.1| == k
    ensures !r.0 ==> |r.1| < k - 1
    decreases k
  {
    if k == 0 then (true, [])
    else if k == 1 then (true, [read(s[p..])])
    else
      match Find(s, sep, p)
      case None => (false, [])
      case Some(o) =>
        var r := FieldsFrom(s, sep, o + 1, k - 1, read);
        (r.0, [read(s[p..o])] + r.1)
  }

  /** `parse_ip_str(s, a, k, sep)` as values. */
  function Fields(s: string, sep: char, k: nat, read: string -> int): (bool, seq<int>) {
    FieldsFrom(s, sep, 0, k, read)
  }

  /**
    `parse_ip_str(s, a, len, sep)`, with `read` for `atoi` and its cast:
    writes the bytes of `Fields` at the start of `a`, leaves the rest of `a`
    alone, and returns whether all `len` fields were found.
   */
  method ParseIpStr(s: string, a: array<int>, len: nat, sep: char, read: string -> int) returns (ok: bool)
    requires len <= a.Length
    modifies a
    ensures var r := Fields(s, sep, len, read);
      ok == r.0 && a[..|r.1|] == r.1
    ensures forall k :: |Fields(s, sep, len, read).1| <= k < a.Length ==> a[k] == old(a[k])
  {
    var p := 0;
    var i := 0;
    ok := true;
    ghost var whole := Fields(s, sep, len, read);
    ghost var rest := whole;
    ghost var done: seq<int> := [];
    assert [] + whole.1 == whole.1;
    while ok && i < len
      invariant 0 <= i <= len && 0 <= p <= |s| && |done| == i
      invariant forall k :: 0 <= k < i ==> a[k] == done[k]
      invariant forall k :: i <= k < a.Length ==> a[k] == old(a[k])
      invariant rest == (if ok then FieldsFrom(s, sep, p, len - i, read) else (false, []))
      invariant whole.0 == rest.0 && whole.1 == done + rest.1
    {
      var found, v, q := TakeField(s, sep, p, len - i, read);
      if !found {
        ok, rest := false, (false, []);
      } else {
        ghost var next := FieldsFrom(s, sep, q, len - i - 1, read);
        assert done + ([v] + next.1) == (done + [v]) + next.1;
        a[i] := v;
        done, rest := done + [v], next;
        p := q;
        i := i + 1;
      }
    }
    assert done + [] == done;
    assert a[..i] == done;
  }

  /**
    One pass of `parse_ip_str`'s loop from position `p` with `k` fields to
    go: the last field is the remainder, any other ends at the next
    separator and fails when there is none.
   */
  method TakeField(s: string, sep: char, p: nat, k: nat, read: string -> int) returns (found: bool, v: int, q: nat)
    requires p <= |s| && k >= 1
    ensures found == (k == 1 || Find(s, sep, p).Some?)
    ensures !found ==> FieldsFrom(s, sep, p, k, read) == (false, [])
    ensures found ==> q <= |s|
    ensures found ==>
      var r := FieldsFrom(s, sep, q, k - 1, read);
      FieldsFrom(s, sep, p, k, read) == (r.0, [v] + r.1)
  {
    FieldsFromStep(s, sep, p, k, read);
    if k > 1 {
      var o := Find(s, sep, p);
      if o.None? {
        return false, 0, p;
      }
      return true, read(s[p..o.value]), o.value + 1;
    }
    assert [read(s[p..])] + [] == [read(s[p..])];
    return true, read(s[p..]), p;
  }

  /** One field of `parse_ip_str`: the last is the remainder; any other ends at the next separator. */
  lemma FieldsFromStep(s: string, sep: char, p: nat, k: nat, read: string -> int)
    requires p <= |s| && k >= 1
    ensures k == 1 ==> FieldsFrom(s, sep, p, k, read) == (true, [read(s[p..])]) && FieldsFrom(s, sep, p, 0, read) == (true, [])
    ensures k > 1 && Find(s, sep, p).None? ==> FieldsFrom(s, sep, p, k, read) == (false, [])
    ensures k > 1 && Find(s, sep, p).Some? ==>
      var o := Find(s, sep, p).value;
      var r := FieldsFrom(s, sep, o + 1, k - 1, read);
      FieldsFrom(s, sep, p, k, read) == (r.0, [read(s[p..o])] + r.1)
  {
  }

  lemma {:induction false} CountAfterFind(s: string, sep: char, p: nat)
    requires p <= |s|
    ensures Find(s, sep, p).None? ==> Count(s, sep, p) == 0
    ensures Find(s, sep, p).Some? ==> Count(s, sep, p) == 1 + Count(s, sep, Find(s, sep, p).value + 1)
    decreases |s| - p
  {
    if p < |s| && s[p] != sep {
      CountAfterFind(s, sep, p + 1);
    }
  }

  /** `parse_ip_str` fails exactly when fewer than `len - 1` separators occur. */
  lemma {:induction false} FailsIffFewSeparators(s: string, sep: char, p: nat, k: nat, read: string -> int)
    requires p <= |s|
    ensures FieldsFrom(s, sep, p, k, read).0 <==> k <= 1 || Count(s, sep, p) >= k - 1
    decreases k
  {
    CountAfterFind(s, sep, p);
    if k >= 2 && Find(s, sep, p).Some? {
      FailsIffFewSeparators(s, sep, Find(s, sep, p).value + 1, k - 1, read);
    }
  }

  /** Field texts joined by a separator, as an address is written. */
  function Join(texts: seq<string>, sep: char): string
    requires texts != []
  {
    if |texts| == 1 then texts[0] else texts[0] + [sep] + Join(texts[1..], sep)
  }

  /** The bytes of each field text, in order. */
  function FieldsOf(texts: seq<string>, read: string -> int): (bytes: seq<int>)
    ensures |bytes| == |texts|
  {
    if texts == [] then [] else [read(texts[0])] + FieldsOf(texts[1..], read)
  }

  lemma {:induction false} FieldsOfAre(texts: seq<string>, read: string -> int, bytes: seq<int>)
    requires |texts| == |bytes| && forall i :: 0 <= i < |texts| ==> read(texts[i]) == bytes[i]
    ensures FieldsOf(texts, read) == bytes
  {
    if texts != [] {
      FieldsOfAre(texts[1..], read, bytes[1..]);
    }
  }

  /**
    Writing fields that contain no separator and joining them gives text
    that `parse_ip_str` reads back as exactly those fields' bytes.
   */
  lemma {:induction false} ParseJoin(s: string, p: nat, texts: seq<string>, sep: char, read: string -> int)
    requires texts != [] && forall i :: 0 <= i < |texts| ==> sep !in texts[i]
    requires p <= |s| && s[p..] == Join(texts, sep)
    ensures FieldsFrom(s, sep, p, |texts|, read) == (true, FieldsOf(texts, read))
    decreases |texts|
  {
    if |texts| > 1 {
      var e := p + |texts[0]|;
      JoinSplit(s, p, texts, sep);
      ParseJoin(s, e + 1, texts[1..], sep, read);
    } else {
      assert s[p..] == texts[0];
      assert FieldsOf(texts[1..], read) == [];
      assert FieldsOf(texts, read) == [read(texts[0])];
    }
  }

  /** In joined texts, the first separator ends the first text and the rest follows it. */
  lemma JoinSplit(s: string, p: nat, texts: seq<string>, sep: char)
    requires |texts| > 1 && sep !in texts[0]
    requires p <= |s| && s[p..] == Join(texts, sep)
    ensures var e := p + |texts[0]|;
      e < |s| && Find(s, sep, p) == Some(e) && s[p..e] == texts[0] && s[e + 1..] == Join(texts[1..], sep)
  {
    var e := p + |texts[0]|;
    var rest := Join(texts[1..], sep);
    assert s[p..] == texts[0] + [sep] + rest;
    assert s[p..e] == s[p..][..|texts[0]|];
    assert s[e + 1..] == s[p..][|texts[0]| + 1..];
    forall j | p <= j < e
      ensures s[j] != sep
    {
      assert s[j] == texts[0][j - p];
    }
    FindSkips(s, sep, p, e);
  }

  /** `find` passes over a stretch free of separators. */
  lemma {:induction false} FindSkips(s: string, sep: char, p: nat, e: nat)
    requires p <= e < |s| && s[e] == sep && forall j :: p <= j < e ==> s[j] != sep
    ensures Find(s, sep, p) == Some(e)
    decreases e - p
  {
    if p < e {
      FindSkips(s, sep, p + 1, e);
    }
  }

  // ---------------------------------------------------------------------
  // Reading and writing fields
  // ---------------------------------------------------------------------

  predicate IsHex(c: char) {
    '0' <= c <= '9' || 'a' <= c <= 'f' || 'A' <= c <= 'F'
  }

  function HexOf(c: char): (d: nat)
    requires IsHex(c)
    ensures d < 16
  {
    if c <= '9' then c as int - '0' as int
    else if c <= 'F' then c as int - 'A' as int + 10
    else c as int - 'a' as int + 10
  }

  /** The length of the run of hex digits at the start of `t`. */
  function HexRun(t: string): (n: nat)
    ensures n <= |t| && forall i :: 0 <= i < n ==> IsHex(t[i])
    ensures n < |t| ==> !IsHex(t[n])
  {
    if t != [] && IsHex(t[0]) then 1 + HexRun(t[1..]) else 0
  }

  function HexNumber(t: string): nat
    requires forall i :: 0 <= i < |t| ==> IsHex(t[i])
  {
    if t == [] then 0 else 16 * HexNumber(t[..|t| - 1]) + HexOf(t[|t| - 1])
  }

  /** An upper-case hex digit. */
  function HexChar(d: nat): (c: char)
    requires d < 16
    ensures IsHex(c) && HexOf(c) == d
  {
    if d < 10 then ('0' as int + d) as char else ('A' as int + d - 10) as char
  }

  /** A MAC byte as two hex digits. */
  function Octet(b: int): (t: string)
    requires 0 <= b < 256
    ensures |t| == 2 && ':' !in t
  {
    [HexChar(b / 16), HexChar(b % 16)]
  }

  lemma OctetValue(b: int)
    requires 0 <= b < 256
    ensures HexByte(Octet(b)) == b
  {
    var t := Octet(b);
    assert HexRun(t[1..]) == 1;
    assert t[..HexRun(t)] == t;
    assert t[..1] == [t[0]];
    assert HexNumber(t[..1]) == HexOf(t[0]) by {
      assert t[..1][..0] == [];
    }
  }

  /** The decimal text of a byte: what `%d` prints. */
  function Decimal(b: int): (t: string)
    requires 0 <= b < 256
    ensures '.' !in t && ':' !in t
  {
    HttpdCgi.DecimalDigits(b);
    HttpdCgi.ToBase(b, 10)
  }

  lemma DecimalField(b: int)
    requires 0 <= b < 256
    ensures AtoiByte(Decimal(b)) == b
  {
    HttpdCgi.DecimalRoundTrip(b);
    assert HttpdCgi.Itoa(b, 10) == Decimal(b);
  }

  /** Each byte in decimal. */
  function Decimals(bytes: seq<int>): (texts: seq<string>)
    requires forall i :: 0 <= i < |bytes| ==> 0 <= bytes[i] < 256
    ensures |texts| == |bytes| && forall i :: 0 <= i < |bytes| ==> texts[i] == Decimal(bytes[i])
  {
    if bytes == [] then [] else [Decimal(bytes[0])] + Decimals(bytes[1..])
  }

  /** The dotted address `a.b.c.d` that `init` prints. */
  function Dotted(bytes: seq<int>): string
    requires |bytes| == 4 && forall i :: 0 <= i < 4 ==> 0 <= bytes[i] < 256
  {
    Join(Decimals(bytes), '.')
  }

  /** A printed address reads back as the same four bytes. */
  lemma DottedRoundTrip(bytes: seq<int>)
    requires |bytes| == 4 && forall i :: 0 <= i < 4 ==> 0 <= bytes[i] < 256
    ensures Fields(Dotted(bytes), '.', 4, AtoiByte) == (true, bytes)
  {
    var texts := Decimals(bytes);
    forall i | 0 <= i < 4
      ensures AtoiByte(texts[i]) == bytes[i]
    {
      DecimalField(bytes[i]);
    }
    ParseBack(texts, '.', AtoiByte, bytes);
  }

  /** Texts without separators whose readings are `bytes` parse back to `bytes`. */
  lemma ParseBack(texts: seq<string>, sep: char, read: string -> int, bytes: seq<int>)
    requires texts != [] && forall i :: 0 <= i < |texts| ==> sep !in texts[i]
    requires |texts| == |bytes| && forall i :: 0 <= i < |texts| ==> read(texts[i]) == bytes[i]
    ensures Fields(Join(texts, sep), sep, |texts|, read) == (true, bytes)
  {
    var s := Join(texts, sep);
    assert s[0..] == s;
    ParseJoin(s, 0, texts, sep, read);
    FieldsOfAre(texts, read, bytes);
  }

  /** Each byte as two hex digits. */
  function Octets(bytes: seq<int>): (texts: seq<string>)
    requires forall i :: 0 <= i < |bytes| ==> 0 <= bytes[i] < 256
    ensures |texts| == |bytes| && forall i :: 0 <= i < |bytes| ==> texts[i] == Octet(bytes[i])
  {
    if bytes == [] then [] else [Octet(bytes[0])] + Octets(bytes[1..])
  }

  /** A MAC address written as six two-digit hex fields separated by ':'. */
  function MacText(bytes: seq<int>): string
    requires |bytes| == 6 && forall i :: 0 <= i < 6 ==> 0 <= bytes[i] < 256
  {
    Join(Octets(bytes), ':')
  }

  /** Texts of two characters each, joined, take three characters per text but one. */
  lemma {:induction false} JoinPairs(texts: seq<string>, sep: char)
    requires texts != [] && forall i :: 0 <= i < |texts| ==> |texts[i]| == 2
    ensures |Join(texts, sep)| == 3 * |texts| - 1
    decreases |texts|
  {
    if |texts| > 1 {
      JoinPairs(texts[1..], sep);
    }
  }

  /**
    Every MAC written in the usual notation is 17 characters long, so it is
    taken as an override, and the hex reading gives back its bytes.
   */
  lemma MacRoundTrip(bytes: seq<int>)
    requires |bytes| == 6 && forall i :: 0 <= i < 6 ==> 0 <= bytes[i] < 256
    ensures |MacText(bytes)| == 17
    ensures Fields(MacText(bytes), ':', 6, HexByte) == (true, bytes)
  {
    var texts := Octets(bytes);
    JoinPairs(texts, ':');
    forall i | 0 <= i < 6
      ensures HexByte(texts[i]) == bytes[i]
    {
      OctetValue(bytes[i]);
    }
    ParseBack(texts, ':', HexByte, bytes);
  }

  /**
    As written, `parse_ip_str` reads a MAC override with `atoi`, which stops
    at the first letter: "00:1F:11:02:04:AB" becomes 00:01:0B:02:04:00,
    while the hex reading gives back the address.
   */
  lemma MacReadAsDecimal()
    ensures var mac := [0x00, 0x1F, 0x11, 0x02, 0x04, 0xAB];
      Fields(MacText(mac), ':', 6, AtoiByte) == (true, [0, 1, 11, 2, 4, 0]) &&
      Fields(MacText(mac), ':', 6, HexByte) == (true, mac)
  {
    MacRoundTrip([0x00, 0x1F, 0x11, 0x02, 0x04, 0xAB]);
    MacAtoiFields([0x00, 0x1F, 0x11, 0x02, 0x04, 0xAB], [0, 1, 11, 2, 4, 0]);
  }

  lemma MacAtoiFields(mac: seq<int>, read: seq<int>)
    requires mac == [0x00, 0x1F, 0x11, 0x02, 0x04, 0xAB] && read == [0, 1, 11, 2, 4, 0]
    ensures Fields(MacText(mac), ':', 6, AtoiByte) == (true, read)
  {
    var texts := Octets(mac);
    forall i | 0 <= i < 6
      ensures AtoiByte(texts[i]) == read[i]
    {
      assert texts[i] == Octet(mac[i]);
      AtoiOctet(mac[i]);
      if i == 0 { assert mac[i] == 0x00; } else if i == 1 { assert mac[i] == 0x1F; }
      else if i == 2 { assert mac[i] == 0x11; } else if i == 3 { assert mac[i] == 0x02; }
      else if i == 4 { assert mac[i] == 0x04; } else { assert mac[i] == 0xAB; }
    }
    ParseBack(texts, ':', AtoiByte, read);
  }

  /** `atoi` of a two-digit hex field: the decimal digits before the first letter. */
  lemma AtoiOctet(b: int)
    requires 0 <= b < 256
    ensures AtoiByte(Octet(b)) ==
      if b / 16 >= 10 then 0 else if b % 16 >= 10 then b / 16 else 10 * (b / 16) + b % 16
  {
    var t := Octet(b);
    assert t[0] == HexChar(b / 16) && t[1] == HexChar(b % 16);
    AtoiTwo(t, if b / 16 >= 10 then 0 else if b % 16 >= 10 then b / 16 else 10 * (b / 16) + b % 16);
  }

  /** `atoi` of a two-character field. */
  lemma AtoiTwo(t: string, v: int)
    requires |t| == 2 && !IsSpace(t[0]) && t[0] != '-' && t[0] != '+'
    requires v == if !IsDigit(t[0]) then 0
                  else if !IsDigit(t[1]) then t[0] as int - '0' as int
                  else 10 * (t[0] as int - '0' as int) + (t[1] as int - '0' as int)
    ensures AtoiByte(t) == v
  {
    assert SpaceRun(t) == 0;
    assert t[0..] == t;
    if IsDigit(t[0]) {
      assert t[1..][1..] == [];
      if IsDigit(t[1]) {
        assert DigitRun(t) == 2;
        assert t[..2] == t;
        assert t[..|t| - 1][..0] == [];
      } else {
        assert t[1..][0] == t[1];
        assert DigitRun(t) == 1;
        assert t[..1] == [t[0]] && [t[0]][..0] == [];
        assert DecimalValue([t[0]]) == t[0] as int - '0' as int;
      }
    } else {
      assert DigitRun(t) == 0;
    }
  }

  // ---------------------------------------------------------------------
  // Start-up (on_module_loaded)
  // ---------------------------------------------------------------------

  /** The network settings read at start-up; `None` is a setting that is absent. */
  datatype Config = Config(
    enable: Option<bool>, webserver: Option<bool>, telnet: Option<bool>,
    mac: Option<string>, ip: Option<string>, mask: Option<string>, gateway: Option<string>)

  datatype Startup =
    | Disabled
    | BadMac
    | BadAddress(mac: seq<int>)
    | Up(mac: seq<int>, ip: seq<int>, mask: seq<int>, gateway: seq<int>, webserver: bool, telnet: bool)

  function BoolSetting(v: Option<bool>): bool {
    if v.Some? then v.value else false
  }

  function TextSetting(v: Option<string>, default: string): string {
    if v.Some? then v.value else default
  }

  /** The address defaults: 192.168.3.222, mask 255.255.255.0, gateway 192.168.3.1. */
  const DefaultIp: string := Join(["192", "168", "3", "222"], '.')
  const DefaultMask: string := Join(["255", "255", "255", "0"], '.')
  const DefaultGateway: string := Join(["192", "168", "3", "1"], '.')

  /** The MAC made from the board's serial-number hash. */
  function AutoMac(hash: nat): (mac: seq<int>)
    ensures |mac| == 6 && mac[5] == hash % 256
  {
    [0x00, 0x1F, 0x11, 0x02, 0x04, Byte(hash)]
  }

  /**
    `on_module_loaded`: a MAC override of exactly 17 characters is parsed,
    anything else gives the generated MAC; the three addresses are all
    parsed, and any of them failing stops start-up. The MAC fields are read
    in base 16, the corrected reader (see `MacReadAsDecimal` for the
    source's decimal one).
   */
  function Start(cfg: Config, hash: nat): (s: Startup)
    ensures s.Up? ==> |s.mac| == 6 && |s.ip| == 4 && |s.mask| == 4 && |s.gateway| == 4
    ensures s.BadAddress? ==> |s.mac| == 6
  {
    if !BoolSetting(cfg.enable) then Disabled
    else
      var macText := TextSetting(cfg.mac, "");
      var m := if |macText| == 17 then Fields(macText, ':', 6, HexByte) else (true, AutoMac(hash));
      if !m.0 then BadMac
      else
        var ip := Fields(TextSetting(cfg.ip, DefaultIp), '.', 4, AtoiByte);
        var mask := Fields(TextSetting(cfg.mask, DefaultMask), '.', 4, AtoiByte);
        var gw := Fields(TextSetting(cfg.gateway, DefaultGateway), '.', 4, AtoiByte);
        if !ip.0 || !mask.0 || !gw.0 then BadAddress(m.1)
        else Up(m.1, ip.1, mask.1, gw.1, BoolSetting(cfg.webserver), BoolSetting(cfg.telnet))
  }

  /**
    The network starts exactly when it is enabled, the MAC override (if it
    has 17 characters) parses and all three addresses parse; the servers
    started are the ones enabled.
   */
  lemma StartDecisions(cfg: Config, hash: nat)
    ensures var macText := TextSetting(cfg.mac, "");
      var macOk := |macText| != 17 || Fields(macText, ':', 6, HexByte).0;
      var addrOk := Fields(TextSetting(cfg.ip, DefaultIp), '.', 4, AtoiByte).0 &&
        Fields(TextSetting(cfg.mask, DefaultMask), '.', 4, AtoiByte).0 &&
        Fields(TextSetting(cfg.gateway, DefaultGateway), '.', 4, AtoiByte).0;
      (Start(cfg, hash).Up? <==> BoolSetting(cfg.enable) && macOk && addrOk) &&
      (Start(cfg, hash).Disabled? <==> !BoolSetting(cfg.enable)) &&
      (Start(cfg, hash).BadMac? <==> BoolSetting(cfg.enable) && !macOk)
    ensures Start(cfg, hash).Up? ==>
      Start(cfg, hash).webserver == BoolSetting(cfg.webserver) &&
      Start(cfg, hash).telnet == BoolSetting(cfg.telnet)
  {
  }

  /** A MAC setting of any length but 17 is ignored in favour of the generated MAC. */
  lemma MacOverrideOnly17(cfg: Config, hash: nat)
    requires |TextSetting(cfg.mac, "")| != 17
    ensures Start(cfg, hash).Up? || Start(cfg, hash).BadAddress? ==> Start(cfg, hash).mac == AutoMac(hash)
    ensures !Start(cfg, hash).BadMac?
  {
  }

  /** Enabled with nothing else set: generated MAC, 192.168.3.222/255.255.255.0 via 192.168.3.1, no servers. */
  lemma Defaults(hash: nat)
    ensures Start(Config(Some(true), None, None, None, None, None, None), hash) ==
      Up(AutoMac(hash), [192, 168, 3, 222], [255, 255, 255, 0], [192, 168, 3, 1], false, false)
  {
    DefaultIpParses();
    DefaultMaskParses();
    DefaultGatewayParses();
  }

  lemma DefaultIpParses()
    ensures Fields(DefaultIp, '.', 4, AtoiByte) == (true, [192, 168, 3, 222])
  {
    ByteLiterals();
    ParseQuad("192", "168", "3", "222", 192, 168, 3, 222);
  }

  lemma DefaultMaskParses()
    ensures Fields(DefaultMask, '.', 4, AtoiByte) == (true, [255, 255, 255, 0])
  {
    ByteLiterals();
    ParseQuad("255", "255", "255", "0", 255, 255, 255, 0);
  }

  lemma DefaultGatewayParses()
    ensures Fields(DefaultGateway, '.', 4, AtoiByte) == (true, [192, 168, 3, 1])
  {
    ByteLiterals();
    ParseQuad("192", "168", "3", "1", 192, 168, 3, 1);
  }

  /** The fields of the default addresses read as the numbers they spell. */
  lemma ByteLiterals()
    ensures AtoiByte("0") == 0 && AtoiByte("1") == 1 && AtoiByte("3") == 3
    ensures AtoiByte("168") == 168 && AtoiByte("192") == 192
    ensures AtoiByte("222") == 222 && AtoiByte("255") == 255
  {
    DecimalLiterals();
    AtoiOne('0');
    AtoiOne('1');
    AtoiOne('3');
    AtoiThree('1', '6', '8');
    AtoiThree('1', '9', '2');
    AtoiThree('2', '2', '2');
    AtoiThree('2', '5', '5');
  }

  lemma AtoiOne(a: char)
    requires IsDigit(a)
    ensures Atoi([a]) == DecimalValue([a])
  {
    AtoiDigits([a]);
  }

  lemma AtoiThree(a: char, b: char, c: char)
    requires IsDigit(a) && IsDigit(b) && IsDigit(c)
    ensures Atoi([a, b, c]) == DecimalValue([a, b, c])
  {
    var t := [a, b, c];
    forall i | 0 <= i < 3
      ensures IsDigit(t[i])
    {
      if i == 0 {} else if i == 1 {} else {}
    }
    AtoiDigits(t);
  }

  lemma ParseQuad(a: string, b: string, c: string, d: string, va: int, vb: int, vc: int, vd: int)
    requires '.' !in a && '.' !in b && '.' !in c && '.' !in d
    requires AtoiByte(a) == va && AtoiByte(b) == vb && AtoiByte(c) == vc && AtoiByte(d) == vd
    ensures Fields(Join([a, b, c, d], '.'), '.', 4, AtoiByte) == (true, [va, vb, vc, vd])
  {
    var texts := [a, b, c, d];
    forall i | 0 <= i < 4
      ensures '.' !in texts[i] && AtoiByte(texts[i]) == [va, vb, vc, vd][i]
    {
      if i == 0 {} else if i == 1 {} else if i == 2 {} else {}
    }
    ParseBack(texts, '.', AtoiByte, [va, vb, vc, vd]);
  }

  lemma DecimalLiterals()
    ensures DecimalValue("0") == 0 && DecimalValue("1") == 1 && DecimalValue("3") == 3
    ensures DecimalValue("168") == 168 && DecimalValue("192") == 192
    ensures DecimalValue("222") == 222 && DecimalValue("255") == 255
  {
    assert "0"[..0] == [] && "1"[..0] == [] && "3"[..0] == [];
    assert "168"[..2] == "16" && "16"[..1] == "1";
    assert "192"[..2] == "19" && "19"[..1] == "1";
    assert "222"[..2] == "22" && "22"[..1] == "2" && "2"[..0] == [];
    assert "255"[..2] == "25" && "25"[..1] == "2";
  }

  /** `atoi` of a run of decimal digits is their value. */
  lemma AtoiDigits(t: string)
    requires |t| >= 1 && forall i :: 0 <= i < |t| ==> IsDigit(t[i])
    ensures Atoi(t) == DecimalValue(t)
  {
    assert !IsSpace(t[0]) && t[0] != '-' && t[0] != '+';
    assert SpaceRun(t) == 0;
    assert t[0..] == t;
    assert t[..DigitRun(t)] == t;
  }

  // ---------------------------------------------------------------------
  // Connections and the main loop
  // ---------------------------------------------------------------------

  datatype App = HttpApp | TelnetApp | NoApp

  /** `app_select_appcall`: the server a connection's local port is handled by. */
  function SelectApp(port: int, webserver: bool, telnet: bool): App {
    if port == 80 then (if webserver then HttpApp else NoApp)
    else if port == 23 then (if telnet then TelnetApp else NoApp)
    else NoApp
  }

  /** Port 80 reaches the web server and port 23 the telnet server, each only when enabled. */
  lemma SelectAppRules(port: int, webserver: bool, telnet: bool)
    ensures SelectApp(port, webserver, telnet) == HttpApp <==> port == 80 && webserver
    ensures SelectApp(port, webserver, telnet) == TelnetApp <==> port == 23 && telnet
  {
  }

  /** What a main-loop pass does with the telnet shell's command. */
  datatype MainEvent = Cleared | ConsoleLine(cmd: string) | ShellDone

  /**
    `on_main_loop`: a pending shell command is cleared, handed to the
    console with the ethernet stream, and followed by the end-of-command
    response to the shell.
   */
  function MainLoop(pending: Option<string>): (out: (Option<string>, seq<MainEvent>))
    ensures out.0 == None
  {
    if pending.None? then (None, [])
    else (None, [Cleared, ConsoleLine(pending.value), ShellDone])
  }

  /**
    A step around the main loop: the telnet shell's handler leaves a command
    in the slot, or the main loop makes a pass.
   */
  datatype LoopStep = Submit(cmd: string) | Pass

  /** Passes of the main loop interleaved with commands left by the shell. */
  function Run(pending: Option<string>, steps: seq<LoopStep>): (Option<string>, seq<MainEvent>)
    decreases |steps|
  {
    if steps == [] then (pending, [])
    else match steps[0]
      case Submit(c) => Run(Some(c), steps[1..])
      case Pass =>
        var (p, ev) := MainLoop(pending);
        var (q, rest) := Run(p, steps[1..]);
        (q, ev + rest)
  }

  /**
    The shell waits for the end-of-command response: it leaves a command
    only while no earlier one is pending.
   */
  predicate Waits(pending: Option<string>, steps: seq<LoopStep>)
    decreases |steps|
  {
    steps == [] ||
    match steps[0]
      case Submit(c) => pending.None? && Waits(Some(c), steps[1..])
      case Pass => Waits(None, steps[1..])
  }

  /** The commands the shell leaves, in order. */
  function Submitted(steps: seq<LoopStep>): seq<string>
    decreases |steps|
  {
    if steps == [] then []
    else (if steps[0].Submit? then [steps[0].cmd] else []) + Submitted(steps[1..])
  }

  /** The commands handed to the console, in order. */
  function ConsoleLines(ev: seq<MainEvent>): seq<string>
    decreases |ev|
  {
    if ev == [] then []
    else (if ev[0].ConsoleLine? then [ev[0].cmd] else []) + ConsoleLines(ev[1..])
  }

  /** Each command cleared, handed to the console and answered, one after another. */
  function Answered(cmds: seq<string>): seq<MainEvent>
    decreases |cmds|
  {
    if cmds == [] then [] else [Cleared, ConsoleLine(cmds[0]), ShellDone] + Answered(cmds[1..])
  }

  function OptSeq(o: Option<string>): seq<string> {
    if o.Some? then [o.value] else []
  }

  lemma {:induction false} ConsoleLinesAppend(a: seq<MainEvent>, b: seq<MainEvent>)
    ensures ConsoleLines(a + b) == ConsoleLines(a) + ConsoleLines(b)
    decreases |a|
  {
    if a == [] {
      assert a + b == b;
    } else {
      assert (a + b)[1..] == a[1..] + b;
      ConsoleLinesAppend(a[1..], b);
    }
  }

  lemma {:induction false} ConsoleLinesAnswered(cmds: seq<string>)
    ensures ConsoleLines(Answered(cmds)) == cmds
    decreases |cmds|
  {
    if cmds != [] {
      var head: seq<MainEvent> := [Cleared, ConsoleLine(cmds[0]), ShellDone];
      ConsoleLinesAppend(head, Answered(cmds[1..]));
      assert ConsoleLines(head[2..]) == [] by {
        assert head[2..][1..] == [];
      }
      assert ConsoleLines(head[1..]) == [cmds[0]] by {
        assert head[1..][1..] == head[2..];
      }
      assert ConsoleLines(head) == [cmds[0]] by {
        assert head[1..] == [ConsoleLine(cmds[0]), ShellDone];
      }
      ConsoleLinesAnswered(cmds[1..]);
    }
  }

  /**
    While the shell waits for each answer, every command it leaves reaches
    the console exactly once and in order, each cleared from the slot
    before it is handed over and followed by the end-of-command response;
    a command left after the last pass is still pending.
   */
  lemma {:induction false} LoopDelivers(pending: Option<string>, steps: seq<LoopStep>)
    requires Waits(pending, steps)
    ensures var (q, ev) := Run(pending, steps);
      ev == Answered(ConsoleLines(ev)) &&
      OptSeq(pending) + Submitted(steps) == ConsoleLines(ev) + OptSeq(q)
    decreases |steps|
  {
    var (q, ev) := Run(pending, steps);
    if steps == [] {
      assert ev == [];
    } else {
      var rest := steps[1..];
      match steps[0]
      case Submit(c) =>
        LoopDelivers(Some(c), rest);
        assert Submitted(steps) == [c] + Submitted(rest);
      case Pass =>
        LoopDelivers(None, rest);
        var (p, head) := MainLoop(pending);
        var (q', tail) := Run(None, rest);
        assert ev == head + tail && q == q';
        assert Submitted(steps) == Submitted(rest);
        ConsoleLinesAppend(head, tail);
        if pending.Some? {
          ConsoleLinesAnswered([pending.value]);
          assert Answered([pending.value]) == head;
          assert Answered([pending.value] + ConsoleLines(tail)) == head + Answered(ConsoleLines(tail)) by {
            assert ([pending.value] + ConsoleLines(tail))[1..] == ConsoleLines(tail);
          }
        } else {
          assert head == [] && ev == tail;
        }
    }
  }
}
