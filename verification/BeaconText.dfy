/** Text forms of beacon identities in main/beacon_config.c: UUID and MAC address. */
module BeaconText {
  import opened Basics

  type Nibble = x: int | 0 <= x < 16

  function HexValue(c: char): Option<Nibble> {
    if '0' <= c <= '9' then Some(c as int - '0' as int)
    else if 'a' <= c <= 'f' then Some(c as int - 'a' as int + 10)
    else if 'A' <= c <= 'F' then Some(c as int - 'A' as int + 10)
    else None
  }

  predicate IsHex(c: char) { HexValue(c).Some? }

  function HexDigit(n: Nibble): (c: char)
    ensures HexValue(c) == Some(n) && c != '-' && c != ':' && Upper(c) == c
  {
    if n < 10 then '0' + n as char else 'A' + (n - 10) as char
  }

  function Upper(c: char): char {
    if 'a' <= c <= 'z' then 'A' + (c - 'a') else c
  }

  function UpperText(s: string): (u: string)
    ensures |u| == |s| && forall k :: 0 <= k < |s| ==> u[k] == Upper(s[k])
  {
    seq(|s|, k requires 0 <= k < |s| => Upper(s[k]))
  }

  lemma HexDigitOfValue(c: char)
    requires IsHex(c)
    ensures HexDigit(HexValue(c).value) == Upper(c)
  {
  }

  function Octet(hi: Nibble, lo: Nibble): Byte { 16 * hi + lo }

  // ---- UUID ----

  predicate DashAt(k: int) { k == 8 || k == 13 || k == 18 || k == 23 }

  /** The 8-4-4-4-12 form, in either case. */
  predicate Canonical(s: string) {
    |s| == 36 && forall k :: 0 <= k < 36 ==> if DashAt(k) then s[k] == '-' else IsHex(s[k])
  }

  /** Values of the hexadecimal digits, in order; everything else is left out. */
  function Digits(s: string): seq<Nibble> {
    if s == [] then []
    else
      var before := Digits(s[..|s| - 1]);
      match HexValue(s[|s| - 1])
      case Some(v) => before + [v]
      case None => before
  }

  function Paired(digits: seq<Nibble>): (bytes: seq<Byte>)
    ensures |bytes| == |digits| / 2
  {
    seq(|digits| / 2, k requires 0 <= k < |digits| / 2 => Octet(digits[2 * k], digits[2 * k + 1]))
  }

  function Dashes(s: string): nat {
    if s == [] then 0 else Dashes(s[..|s| - 1]) + if s[|s| - 1] == '-' then 1 else 0
  }

  function UuidOf(s: string): Option<seq<Byte>> {
    if Canonical(s) then Some(Paired(Digits(s))) else None
  }

  function HexText(bytes: seq<Byte>): (s: string)
    ensures |s| == 2 * |bytes|
  {
    if bytes == [] then []
    else HexText(bytes[..|bytes| - 1]) +
         [HexDigit(bytes[|bytes| - 1] / 16), HexDigit(bytes[|bytes| - 1] % 16)]
  }

  function UuidText(u: seq<Byte>): (s: string)
    requires |u| == 16
    ensures |s| == 36
  {
    HexText(u[..4]) + "-" + HexText(u[4..6]) + "-" + HexText(u[6..8]) + "-" + HexText(u[8..10]) + "-" +
    HexText(u[10..])
  }

  lemma DigitsOfOneMore(s: string, i: nat)
    requires i < |s|
    ensures Digits(s[..i + 1]) ==
            Digits(s[..i]) + match HexValue(s[i]) { case Some(v) => [v] case None => [] }
    ensures Dashes(s[..i + 1]) == Dashes(s[..i]) + if s[i] == '-' then 1 else 0
  {
    assert s[..i + 1][..i] == s[..i];
  }

  lemma PairedOfOneMore(digits: seq<Nibble>, hi: Nibble, lo: Nibble)
    requires |digits| % 2 == 0
    ensures Paired(digits + [hi, lo]) == Paired(digits) + [Octet(hi, lo)]
  {
  }

  /** Dashes the canonical form has before position i. */
  function DueDashes(i: nat): nat {
    (if 8 < i then 1 else 0) + (if 13 < i then 1 else 0) + (if 18 < i then 1 else 0) + if 23 < i then 1 else 0
  }

  predicate DashesInPlace(s: string) {
    |s| == 36 && s[8] == '-' && s[13] == '-' && s[18] == '-' && s[23] == '-'
  }

  lemma {:induction false} DashCount(s: string, i: nat)
    requires DashesInPlace(s) && i <= 36
    ensures DueDashes(i) <= Dashes(s[..i])
    ensures Dashes(s[..i]) == DueDashes(i) <==> forall k :: 0 <= k < i && s[k] == '-' ==> DashAt(k)
  {
    if 0 < i {
      DashCount(s, i - 1);
      DigitsOfOneMore(s, i - 1);
    }
  }

  lemma PairRead(str: string, i: nat, hi: Nibble, lo: Nibble)
    requires i + 1 < |str| && HexValue(str[i]) == Some(hi) && HexValue(str[i + 1]) == Some(lo)
    requires |Digits(str[..i])| % 2 == 0
    ensures Dashes(str[..i + 2]) == Dashes(str[..i])
    ensures Digits(str[..i + 2]) == Digits(str[..i]) + [hi, lo]
    ensures Paired(Digits(str[..i + 2])) == Paired(Digits(str[..i])) + [Octet(hi, lo)]
  {
    DigitsOfOneMore(str, i);
    DigitsOfOneMore(str, i + 1);
    PairedOfOneMore(Digits(str[..i]), hi, lo);
    assert Digits(str[..i]) + [hi] + [lo] == Digits(str[..i]) + [hi, lo];
  }

  /** The loop has turned str[..i] into bytes. */
  ghost predicate Parsed(str: string, i: nat, bytes: seq<Byte>) {
    && i <= 36 == |str| && |bytes| <= 16
    && i == 2 * |bytes| + Dashes(str[..i])
    && |Digits(str[..i])| == 2 * |bytes| && bytes == Paired(Digits(str[..i]))
    && forall k :: 0 <= k < i ==> str[k] == '-' || IsHex(str[k])
  }

  lemma ParseBegins(str: string)
    requires |str| == 36
    ensures Parsed(str, 0, [])
  {
  }

  lemma DashSkipped(str: string, i: nat, bytes: seq<Byte>)
    requires Parsed(str, i, bytes) && i < 36 && str[i] == '-'
    ensures Parsed(str, i + 1, bytes)
  {
    DigitsOfOneMore(str, i);
  }

  lemma PairTaken(str: string, i: nat, bytes: seq<Byte>, hi: Nibble, lo: Nibble)
    requires Parsed(str, i, bytes) && i < 35 && |bytes| < 16
    requires HexValue(str[i]) == Some(hi) && HexValue(str[i + 1]) == Some(lo)
    ensures Parsed(str, i + 2, bytes + [Octet(hi, lo)])
  {
    hide HexValue;
    hide Octet;
    hide Paired;
    PairRead(str, i, hi, lo);
  }

  /** A pair cut by a dash, by the end, or by a character that is not a digit. */
  lemma BadPairRefused(str: string, i: nat, bytes: seq<Byte>)
    requires Parsed(str, i, bytes) && i < 36 && DashesInPlace(str) && str[i] != '-'
    requires i == 35 || str[i + 1] == '-' || !IsHex(str[i]) || !IsHex(str[i + 1])
    ensures !Canonical(str)
  {
    if Canonical(str) {
      DashCount(str, i);
    }
  }

  /** All of a canonical text is sixteen pairs, and nothing else is. */
  lemma SixteenPairs(str: string, i: nat, bytes: seq<Byte>)
    requires DashesInPlace(str) && Parsed(str, i, bytes)
    requires i == 36 || |bytes| == 16
    ensures UuidOf(str) == if |bytes| == 16 then Some(bytes) else None
  {
    DashCount(str, i);
    assert !IsHex('-');
    assert i == 36 ==> str[..i] == str;
  }

  /** Accepts exactly the canonical form, although the loop only skips dashes. */
  method ParseUuid(str: string) returns (uuid: Option<seq<Byte>>)
    ensures uuid == UuidOf(str)
  {
    if |str| != 36 {
      return None;
    }
    if str[8] != '-' || str[13] != '-' || str[18] != '-' || str[23] != '-' {
      return None;
    }
    hide Parsed;
    var bytes: seq<Byte> := [];
    var i := 0;
    ParseBegins(str);
    while i < 36 && |bytes| < 16
      invariant i <= 36 && |bytes| <= 16
      invariant Parsed(str, i, bytes)
    {
      if str[i] == '-' {
        DashSkipped(str, i, bytes);
        i := i + 1;
      } else {
        if i + 1 >= 36 || str[i + 1] == '-' {
          BadPairRefused(str, i, bytes);
          return None;
        }
        var hi := HexValue(str[i]);
        var lo := HexValue(str[i + 1]);
        if hi.None? || lo.None? {
          BadPairRefused(str, i, bytes);
          return None;
        }
        PairTaken(str, i, bytes, hi.value, lo.value);
        bytes := bytes + [Octet(hi.value, lo.value)];
        i := i + 2;
        ParsedBounds(str, i, bytes);
      }
    }
    SixteenPairs(str, i, bytes);
    if |bytes| != 16 {
      return None;
    }
    return Some(bytes);
  }

  lemma ParsedBounds(str: string, i: nat, bytes: seq<Byte>)
    requires Parsed(str, i, bytes)
    ensures i <= 36 && |bytes| <= 16
  {
  }

  // ---- UUID round trips ----

  function Nibbles(bytes: seq<Byte>): seq<Nibble> {
    if bytes == [] then []
    else Nibbles(bytes[..|bytes| - 1]) + [bytes[|bytes| - 1] / 16, bytes[|bytes| - 1] % 16]
  }

  lemma {:induction false} PairedNibbles(bytes: seq<Byte>)
    ensures |Nibbles(bytes)| == 2 * |bytes| && Paired(Nibbles(bytes)) == bytes
  {
    if bytes != [] {
      var n := |bytes| - 1;
      PairedNibbles(bytes[..n]);
      PairedOfOneMore(Nibbles(bytes[..n]), bytes[n] / 16, bytes[n] % 16);
    }
  }

  lemma {:induction false} NibblesAdd(x: seq<Byte>, y: seq<Byte>)
    ensures Nibbles(x + y) == Nibbles(x) + Nibbles(y)
  {
    if y == [] {
      assert x + y == x;
    } else {
      assert (x + y)[..|x + y| - 1] == x + y[..|y| - 1];
      NibblesAdd(x, y[..|y| - 1]);
    }
  }

  lemma {:induction false} DigitsAdd(x: string, y: string)
    ensures Digits(x + y) == Digits(x) + Digits(y)
  {
    if y == [] {
      assert x + y == x;
    } else {
      assert (x + y)[..|x + y| - 1] == x + y[..|y| - 1];
      DigitsAdd(x, y[..|y| - 1]);
    }
  }

  lemma {:induction false} DigitsOfHexText(bytes: seq<Byte>)
    ensures Digits(HexText(bytes)) == Nibbles(bytes)
    ensures forall k :: 0 <= k < 2 * |bytes| ==> IsHex(HexText(bytes)[k])
  {
    if bytes != [] {
      var n := |bytes| - 1;
      var hi, lo: Nibble := bytes[n] / 16, bytes[n] % 16;
      DigitsOfHexText(bytes[..n]);
      PairPrinted(HexText(bytes[..n]), hi, lo);
      hide Digits;
      hide HexValue;
      hide HexDigit;
    }
  }

  lemma PairPrinted(before: string, hi: Nibble, lo: Nibble)
    ensures Digits(before + [HexDigit(hi), HexDigit(lo)]) == Digits(before) + [hi, lo]
    ensures IsHex(HexDigit(hi)) && IsHex(HexDigit(lo))
  {
    var s := before + [HexDigit(hi), HexDigit(lo)];
    hide HexDigit;
    assert s[..|before|] == before && s[..|before| + 2] == s;
    DigitsOfOneMore(s, |before|);
    DigitsOfOneMore(s, |before| + 1);
  }

  /** The five groups of a canonical text. */
  function Grouped(a: string, b: string, c: string, d: string, e: string): string {
    a + "-" + b + "-" + c + "-" + d + "-" + e
  }

  lemma DigitsOfGroups(x: string, y: string)
    ensures Digits(x + "-" + y) == Digits(x) + Digits(y)
  {
    DigitsAdd(x + "-", y);
    DigitsAdd(x, "-");
    assert Digits("-") == [];
  }

  lemma DigitsOfGrouped(a: string, b: string, c: string, d: string, e: string)
    ensures Digits(Grouped(a, b, c, d, e)) == Digits(a) + Digits(b) + Digits(c) + Digits(d) + Digits(e)
  {
    hide Digits;
    var ab := a + "-" + b;
    var abc := ab + "-" + c;
    var abcd := abc + "-" + d;
    DigitsOfGroups(a, b);
    DigitsOfGroups(ab, c);
    DigitsOfGroups(abc, d);
    DigitsOfGroups(abcd, e);
  }

  lemma NibblesOfGroups(u: seq<Byte>)
    requires |u| == 16
    ensures Nibbles(u[..4]) + Nibbles(u[4..6]) + Nibbles(u[6..8]) + Nibbles(u[8..10]) + Nibbles(u[10..]) ==
            Nibbles(u)
  {
    hide Nibbles;
    assert u[..4] + u[4..6] == u[..6] && u[..6] + u[6..8] == u[..8] && u[..8] + u[8..10] == u[..10];
    assert u[..10] + u[10..] == u;
    NibblesAdd(u[..4], u[4..6]);
    NibblesAdd(u[..6], u[6..8]);
    NibblesAdd(u[..8], u[8..10]);
    NibblesAdd(u[..10], u[10..]);
  }

  predicate AllHex(s: string) {
    forall k :: 0 <= k < |s| ==> IsHex(s[k])
  }

  lemma GroupedIsCanonical(a: string, b: string, c: string, d: string, e: string)
    requires |a| == 8 && |b| == |c| == |d| == 4 && |e| == 12
    requires AllHex(a) && AllHex(b) && AllHex(c) && AllHex(d) && AllHex(e)
    ensures Canonical(Grouped(a, b, c, d, e))
  {
    hide HexValue;
  }

  /** Formatting and then parsing gives the same sixteen bytes. */
  lemma UuidTextParses(u: seq<Byte>)
    requires |u| == 16
    ensures UuidOf(UuidText(u)) == Some(u)
  {
    hide Digits;
    hide Nibbles;
    hide HexText;
    hide Canonical;
    hide HexValue;
    hide Paired;
    DigitsOfHexText(u[..4]);
    DigitsOfHexText(u[4..6]);
    DigitsOfHexText(u[6..8]);
    DigitsOfHexText(u[8..10]);
    DigitsOfHexText(u[10..]);
    var a, b, c, d, e := HexText(u[..4]), HexText(u[4..6]), HexText(u[6..8]), HexText(u[8..10]), HexText(u[10..]);
    GroupedIsCanonical(a, b, c, d, e);
    DigitsOfGrouped(a, b, c, d, e);
    NibblesOfGroups(u);
    PairedNibbles(u);
  }

  /** Nibbles are the digits of the text: the bytes of a text print as the text. */
  lemma {:induction false} HexTextOfDigits(s: string)
    requires AllHex(s) && |s| % 2 == 0
    ensures |Digits(s)| == |s| && HexText(Paired(Digits(s))) == UpperText(s)
  {
    hide HexText;
    hide HexValue;
    hide HexDigit;
    hide Upper;
    hide Octet;
    if s == [] {
      HexTextOfNothing();
    } else {
      hide Digits;
      hide Paired;
      var n := |s| - 2;
      assert s[..n + 2] == s;
      HexTextOfDigits(s[..n]);
      var hi, lo := HexValue(s[n]).value, HexValue(s[n + 1]).value;
      PairRead(s, n, hi, lo);
      HexDigitOfValue(s[n]);
      HexDigitOfValue(s[n + 1]);
      HexTextOfOneMore(Paired(Digits(s[..n])), hi, lo);
    }
  }

  lemma HexTextOfNothing()
    ensures Paired([]) == [] && HexText([]) == []
  {
  }

  lemma HexTextOfOneMore(bytes: seq<Byte>, hi: Nibble, lo: Nibble)
    ensures HexText(bytes + [Octet(hi, lo)]) == HexText(bytes) + [HexDigit(hi), HexDigit(lo)]
  {
    OctetParts(hi, lo);
    hide Octet;
    hide HexDigit;
    assert (bytes + [Octet(hi, lo)])[..|bytes|] == bytes;
  }

  lemma OctetParts(hi: Nibble, lo: Nibble)
    ensures Octet(hi, lo) / 16 == hi && Octet(hi, lo) % 16 == lo
  {
  }

  lemma PairedAdd(x: seq<Nibble>, y: seq<Nibble>)
    requires |x| % 2 == 0
    ensures Paired(x + y) == Paired(x) + Paired(y)
  {
  }

  lemma CanonicalIsGrouped(s: string)
    requires Canonical(s)
    ensures s == Grouped(s[..8], s[9..13], s[14..18], s[19..23], s[24..])
    ensures AllHex(s[..8]) && AllHex(s[9..13]) && AllHex(s[14..18]) && AllHex(s[19..23]) && AllHex(s[24..])
    ensures UpperText(s) ==
      Grouped(UpperText(s[..8]), UpperText(s[9..13]), UpperText(s[14..18]), UpperText(s[19..23]), UpperText(s[24..]))
  {
    hide HexValue;
    assert Upper('-') == '-';
  }

  /** Parsing a canonical text and formatting the result gives the text in capitals. */
  lemma ParsedUuidPrints(s: string)
    requires Canonical(s)
    ensures |UuidOf(s).value| == 16 && UuidText(UuidOf(s).value) == UpperText(s)
  {
    hide Digits;
    hide HexText;
    hide HexValue;
    hide UpperText;
    hide Paired;
    CanonicalIsGrouped(s);
    var a, b, c, d, e := s[..8], s[9..13], s[14..18], s[19..23], s[24..];
    hide Canonical;
    DigitsOfGrouped(a, b, c, d, e);
    HexTextOfDigits(a);
    HexTextOfDigits(b);
    HexTextOfDigits(c);
    HexTextOfDigits(d);
    HexTextOfDigits(e);
    PairedAdd(Digits(a), Digits(b));
    PairedAdd(Digits(a) + Digits(b), Digits(c));
    PairedAdd(Digits(a) + Digits(b) + Digits(c), Digits(d));
    PairedAdd(Digits(a) + Digits(b) + Digits(c) + Digits(d), Digits(e));
    var u := Paired(Digits(a)) + Paired(Digits(b)) + Paired(Digits(c)) + Paired(Digits(d)) + Paired(Digits(e));
    assert UuidOf(s) == Some(u);
    assert u[..4] == Paired(Digits(a)) && u[4..6] == Paired(Digits(b)) && u[6..8] == Paired(Digits(c));
    assert u[8..10] == Paired(Digits(d)) && u[10..] == Paired(Digits(e));
  }

  // ---- MAC address ----

  /** AA:BB:CC:DD:EE:FF, in either case. */
  predicate MacShape(s: string) {
    |s| == 17 && forall k :: 0 <= k < 17 ==> if k % 3 == 2 then s[k] == ':' else IsHex(s[k])
  }

  function MacOctet(s: string, i: nat): Byte
    requires i < 6 && MacShape(s)
  {
    assert IsHex(s[3 * i]) && IsHex(s[3 * i + 1]);
    Octet(HexValue(s[3 * i]).value, HexValue(s[3 * i + 1]).value)
  }

  function MacOf(s: string): Option<seq<Byte>> {
    if MacShape(s) then Some(seq(6, i requires 0 <= i < 6 => MacOctet(s, i))) else None
  }

  function MacText(mac: seq<Byte>): (s: string)
    requires |mac| == 6
    ensures |s| == 17
  {
    seq(17, k requires 0 <= k < 17 =>
      if k % 3 == 2 then ':' else HexDigit(if k % 3 == 0 then mac[k / 3] / 16 else mac[k / 3] % 16))
  }

  method ParseMac(str: string) returns (mac: Option<seq<Byte>>)
    ensures mac == MacOf(str)
  {
    if |str| != 17 {
      return None;
    }
    var bytes: seq<Byte> := [];
    for i := 0 to 6
      invariant |bytes| == i
      invariant forall k :: 0 <= k < 3 * i && k < 17 ==> if k % 3 == 2 then str[k] == ':' else IsHex(str[k])
      invariant MacShape(str) ==> forall k :: 0 <= k < i ==> bytes[k] == MacOctet(str, k)
    {
      var hi := HexValue(str[i * 3]);
      var lo := HexValue(str[i * 3 + 1]);
      if hi.None? || lo.None? {
        return None;
      }
      bytes := bytes + [Octet(hi.value, lo.value)];
      if i < 5 && str[i * 3 + 2] != ':' {
        return None;
      }
    }
    assert MacShape(str);
    assert bytes == MacOf(str).value;
    return Some(bytes);
  }

  lemma MacTextParses(mac: seq<Byte>)
    requires |mac| == 6
    ensures MacOf(MacText(mac)) == Some(mac)
  {
    hide HexDigit;
    hide HexValue;
    var s := MacText(mac);
    assert MacShape(s);
    forall i | 0 <= i < 6 ensures MacOctet(s, i) == mac[i] {
      assert s[3 * i] == HexDigit(mac[i] / 16) && s[3 * i + 1] == HexDigit(mac[i] % 16);
    }
    assert MacOf(s).value == mac;
  }

  lemma ParsedMacPrints(s: string)
    requires MacShape(s)
    ensures |MacOf(s).value| == 6 && MacText(MacOf(s).value) == UpperText(s)
  {
    var mac := MacOf(s).value;
    forall k | 0 <= k < 17 ensures MacText(mac)[k] == Upper(s[k]) {
      if k % 3 != 2 {
        var i := k / 3;
        assert k == 3 * i || k == 3 * i + 1;
        assert mac[i] == MacOctet(s, i);
        OctetParts(HexValue(s[3 * i]).value, HexValue(s[3 * i + 1]).value);
        HexDigitOfValue(s[k]);
        hide HexDigit;
        hide HexValue;
        hide Octet;
        hide Upper;
      }
    }
  }
}
