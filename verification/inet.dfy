/**
 * IPv4 text conversion as the bootstrap code uses it: inet_pton(AF_INET, ...)
 * turns a dotted-quad text into four octets in network order, which land in
 * a 32-bit variable of the host.
 */
module Inet {
  import opened Wrappers

  type byte = x: int | 0 <= x < 256
  type uint32 = x: int | 0 <= x < 0x1_0000_0000

  /** INADDR_LOOPBACK of <netinet/in.h>: the address 127.0.0.1 written in HOST byte order. */
  const INADDR_LOOPBACK: uint32 := 0x7F00_0001

  predicate IsDigit(c: char)
  {
    '0' <= c <= '9'
  }

  predicate AllDigits(s: seq<char>)
  {
    forall k :: 0 <= k < |s| ==> IsDigit(s[k])
  }

  function DigitValue(c: char): (d: nat)
    requires IsDigit(c)
    ensures d < 10
  {
    (c as int) - ('0' as int)
  }

  function DigitChar(d: nat): (c: char)
    requires d < 10
    ensures IsDigit(c) && DigitValue(c) == d
  {
    (('0' as int) + d) as char
  }

  /** The length of the run of decimal digits that starts `s`. */
  function DigitRun(s: seq<char>): (n: nat)
    ensures n <= |s| && AllDigits(s[..n])
    ensures n < |s| ==> !IsDigit(s[n])
  {
    if s == [] || !IsDigit(s[0]) then 0 else 1 + DigitRun(s[1..])
  }

  /** The value of a decimal digit string. */
  function DecimalValue(s: seq<char>): nat
    requires AllDigits(s)
  {
    if s == [] then 0 else 10 * DecimalValue(s[..|s| - 1]) + DigitValue(s[|s| - 1])
  }

  /**
   * One octet field inet_pton accepts: digits only, no leading zero
   * (a lone "0" is fine), value at most 255 -- hence one to three digits.
   */
  predicate ValidOctetText(f: seq<char>)
  {
    0 < |f| <= 3 && AllDigits(f) && (|f| > 1 ==> f[0] != '0') && DecimalValue(f) <= 255
  }

  /**
   * `count` dot-separated octet fields and nothing after them; None where
   * inet_pton returns 0.
   */
  function ParseFields(s: seq<char>, count: nat): (r: Option<seq<byte>>)
    requires count >= 1
    ensures r.Some? ==> |r.value| == count
    decreases count
  {
    var n := DigitRun(s);
    var field := s[..n];
    if !ValidOctetText(field) then None
    else if count == 1 then
      (if n == |s| then Some([DecimalValue(field)]) else None)
    else if n < |s| && s[n] == '.' then
      match ParseFields(s[n + 1..], count - 1)
      case None => None
      case Some(rest) => Some([DecimalValue(field) as byte] + rest)
    else None
  }

  /** inet_pton(AF_INET, s, dst): the four octets, in network (text) order, or None when it returns 0. */
  function ParseIPv4(s: seq<char>): (r: Option<seq<byte>>)
    ensures r.Some? ==> |r.value| == 4
  {
    ParseFields(s, 4)
  }

  /** The canonical decimal text of one octet. */
  function OctetText(b: byte): (f: seq<char>)
    ensures ValidOctetText(f) && DecimalValue(f) == b
  {
    if b < 10 then
      DecimalValue1(DigitChar(b));
      [DigitChar(b)]
    else if b < 100 then
      TwoDigitText(b);
      [DigitChar(b / 10), DigitChar(b % 10)]
    else
      ThreeDigitText(b);
      [DigitChar(b / 100), DigitChar(b / 10 % 10), DigitChar(b % 10)]
  }

  lemma TwoDigitText(b: byte)
    requires 10 <= b < 100
    ensures var f := [DigitChar(b / 10), DigitChar(b % 10)];
      ValidOctetText(f) && DecimalValue(f) == b
  {
    DecimalValue2(DigitChar(b / 10), DigitChar(b % 10));
  }

  lemma ThreeDigitText(b: byte)
    requires 100 <= b
    ensures var f := [DigitChar(b / 100), DigitChar(b / 10 % 10), DigitChar(b % 10)];
      ValidOctetText(f) && DecimalValue(f) == b
  {
    DecimalValue3(DigitChar(b / 100), DigitChar(b / 10 % 10), DigitChar(b % 10));
  }

  lemma DecimalValue1(x: char)
    requires IsDigit(x)
    ensures DecimalValue([x]) == DigitValue(x)
  {
    assert [x][..0] == [];
  }

  lemma DecimalValue2(x: char, y: char)
    requires IsDigit(x) && IsDigit(y)
    ensures DecimalValue([x, y]) == 10 * DigitValue(x) + DigitValue(y)
  {
    assert [x, y][..1] == [x];
    DecimalValue1(x);
  }

  lemma DecimalValue3(x: char, y: char, z: char)
    requires IsDigit(x) && IsDigit(y) && IsDigit(z)
    ensures DecimalValue([x, y, z]) == 100 * DigitValue(x) + 10 * DigitValue(y) + DigitValue(z)
  {
    assert [x, y, z][..2] == [x, y];
    DecimalValue2(x, y);
  }

  /** The dotted text of a sequence of octets. */
  function FieldsText(o: seq<byte>): (s: seq<char>)
    requires |o| >= 1
  {
    if |o| == 1 then OctetText(o[0]) else OctetText(o[0]) + "." + FieldsText(o[1..])
  }

  /** The dotted-quad text of an address, as inet_ntop would write it. */
  function FormatIPv4(o: seq<byte>): (s: seq<char>)
    requires |o| == 4
  {
    FieldsText(o)
  }

  /**
   * The 32-bit value a host reads from the four octets inet_pton stored, on
   * a little-endian host: the first octet is the least significant byte.
   */
  function HostWord(o: seq<byte>): (w: uint32)
    requires |o| == 4
    ensures w % 0x100 == o[0] && w / 0x100 % 0x100 == o[1]
    ensures w / 0x1_0000 % 0x100 == o[2] && w / 0x100_0000 == o[3]
  {
    WordBytes(o[0], o[1], o[2], o[3]);
    (o[0] as int) + 0x100 * (o[1] as int) + 0x1_0000 * (o[2] as int) + 0x100_0000 * (o[3] as int)
  }

  /** The bytes of a little-endian word are recovered by division and remainder. */
  lemma WordBytes(a: byte, b: byte, c: byte, d: byte)
    ensures var w := a + 0x100 * b + 0x1_0000 * c + 0x100_0000 * d;
      w < 0x1_0000_0000 && w % 0x100 == a && w / 0x100 % 0x100 == b && w / 0x1_0000 % 0x100 == c && w / 0x100_0000 == d
  {
    var w := a + 0x100 * b + 0x1_0000 * c + 0x100_0000 * d;
    var hi2 := c + 0x100 * d;
    var hi1 := b + 0x100 * hi2;
    assert w == a + 0x100 * hi1;
    assert w / 0x100 == hi1 && w % 0x100 == a;
    assert hi1 / 0x100 == hi2 && hi1 % 0x100 == b;
    assert w / 0x1_0000 == hi2 && hi2 % 0x100 == c;
    assert w / 0x100_0000 == d;
  }

  /** A digit run followed by a non-digit is exactly the run. */
  lemma {:induction false} DigitRunOfPrefix(a: seq<char>, b: seq<char>)
    requires AllDigits(a)
    requires b == [] || !IsDigit(b[0])
    ensures DigitRun(a + b) == |a|
  {
    if a != [] {
      assert (a + b)[1..] == a[1..] + b;
      DigitRunOfPrefix(a[1..], b);
    }
  }

  lemma DigitCharOfValue(c: char)
    requires IsDigit(c)
    ensures DigitChar(DigitValue(c)) == c
  {
  }

  /** Every valid octet field is the canonical text of its own value. */
  lemma OctetTextCanonical(f: seq<char>)
    requires ValidOctetText(f)
    ensures DecimalValue(f) < 256 && OctetText(DecimalValue(f) as byte) == f
  {
    if |f| == 1 {
      OneDigitCanonical(f);
    } else if |f| == 2 {
      TwoDigitsCanonical(f);
    } else {
      ThreeDigitsCanonical(f);
    }
  }

  lemma OneDigitCanonical(f: seq<char>)
    requires ValidOctetText(f) && |f| == 1
    ensures OctetText(DecimalValue(f) as byte) == f
  {
    assert f == [f[0]];
    DecimalValue1(f[0]);
    DigitCharOfValue(f[0]);
  }

  lemma TwoDigitsCanonical(f: seq<char>)
    requires ValidOctetText(f) && |f| == 2
    ensures OctetText(DecimalValue(f) as byte) == f
  {
    assert f == [f[0], f[1]];
    var a, b := DigitValue(f[0]), DigitValue(f[1]);
    DecimalValue2(f[0], f[1]);
    var v := 10 * a + b;
    assert v / 10 == a && v % 10 == b;
    DigitCharOfValue(f[0]);
    DigitCharOfValue(f[1]);
  }

  lemma ThreeDigitsCanonical(f: seq<char>)
    requires ValidOctetText(f) && |f| == 3
    ensures OctetText(DecimalValue(f) as byte) == f
  {
    var a, b, c := DigitValue(f[0]), DigitValue(f[1]), DigitValue(f[2]);
    var v := DecimalValue(f);
    assert v == 100 * a + 10 * b + c by {
      assert f == [f[0], f[1], f[2]];
      DecimalValue3(f[0], f[1], f[2]);
    }
    DigitsOfThree(a, b, c);
    assert f == [DigitChar(a), DigitChar(b), DigitChar(c)] by {
      DigitCharOfValue(f[0]);
      DigitCharOfValue(f[1]);
      DigitCharOfValue(f[2]);
    }
  }

  /** The decimal digits of a three-digit number. */
  lemma DigitsOfThree(a: nat, b: nat, c: nat)
    requires a < 10 && b < 10 && c < 10
    ensures var v := 100 * a + 10 * b + c; v / 100 == a && v / 10 % 10 == b && v % 10 == c
  {
    var v := 100 * a + 10 * b + c;
    assert v / 10 == 10 * a + b;
  }

  /** A single valid field parses as the last octet. */
  lemma ParseLastField(t: seq<char>)
    requires ValidOctetText(t)
    ensures ParseFields(t, 1) == Some([DecimalValue(t) as byte])
  {
    assert t + [] == t;
    DigitRunOfPrefix(t, []);
    assert t[..|t|] == t;
  }

  /** A valid field and a dot in front of parsable fields parse as one more octet. */
  lemma ParseFieldThenDot(s: seq<char>, t: seq<char>, rest: seq<char>, count: nat)
    requires s == t + "." + rest
    requires ValidOctetText(t) && count >= 2
    requires ParseFields(rest, count - 1).Some?
    ensures ParseFields(s, count) == Some([DecimalValue(t) as byte] + ParseFields(rest, count - 1).value)
  {
    assert s == t + ("." + rest);
    DigitRunOfPrefix(t, "." + rest);
    assert s[..|t|] == t;
    assert s[|t|] == '.';
    assert s[|t| + 1..] == rest;
  }

  /** Parsing the dotted text `s` of octets gives back those octets. */
  lemma {:induction false} ParseFieldsText(o: seq<byte>, s: seq<char>)
    requires |o| >= 1 && s == FieldsText(o)
    ensures ParseFields(s, |o|) == Some(o)
  {
    if |o| == 1 {
      ParseOneFieldText(o);
    } else {
      var tail := o[1..];
      assert [o[0]] + tail == o;
      assert ParseFields(s, |o|) == Some([o[0]] + tail) by {
        ParseFieldsText(tail, FieldsText(tail));
        ParseMoreFieldsText(o[0], tail, s);
      }
    }
  }

  lemma ParseOneFieldText(o: seq<byte>)
    requires |o| == 1
    ensures ParseFields(FieldsText(o), 1) == Some(o)
  {
    ParseLastField(OctetText(o[0]));
    assert [o[0]] == o;
  }

  lemma ParseMoreFieldsText(x: byte, tail: seq<byte>, s: seq<char>)
    requires |tail| >= 1 && s == OctetText(x) + "." + FieldsText(tail)
    requires ParseFields(FieldsText(tail), |tail|) == Some(tail)
    ensures ParseFields(s, |tail| + 1) == Some([x] + tail)
  {
    ParseFieldThenDot(s, OctetText(x), FieldsText(tail), |tail| + 1);
  }

  /** What a successful parse says about its input: a valid field, then the end or a dot and the remaining fields. */
  lemma ParsedFieldsShape(s: seq<char>, count: nat)
    requires count >= 1
    requires ParseFields(s, count).Some?
    ensures var n := DigitRun(s);
      && ValidOctetText(s[..n])
      && ParseFields(s, count).value[0] == DecimalValue(s[..n])
      && (count == 1 ==> n == |s|)
      && (count > 1 ==> n < |s| && s[n] == '.' && ParseFields(s[n + 1..], count - 1).Some?
                        && ParseFields(s, count).value[1..] == ParseFields(s[n + 1..], count - 1).value)
  {
  }

  /** A text with a dot at `n` is the text before it, the dot and the text after it. */
  lemma SplitAtDot(s: seq<char>, n: nat)
    requires n < |s| && s[n] == '.'
    ensures s == s[..n] + "." + s[n + 1..]
  {
  }

  /** Whatever parses is the canonical dotted text of what it parses to. */
  lemma {:induction false} ParsedFieldsAreText(s: seq<char>, count: nat)
    requires count >= 1
    requires ParseFields(s, count).Some?
    ensures FieldsText(ParseFields(s, count).value) == s
    decreases count
  {
    var n := DigitRun(s);
    var field := s[..n];
    var o := ParseFields(s, count).value;
    ParsedFieldsShape(s, count);
    OctetTextCanonical(field);
    assert OctetText(o[0]) == field;
    if count == 1 {
      assert s == field;
    } else {
      var tail := s[n + 1..];
      ParsedFieldsAreText(tail, count - 1);
      assert FieldsText(o[1..]) == tail;
      SplitAtDot(s, n);
    }
  }

  /** A text inet_pton accepts holds nothing but digits and dots. */
  lemma {:induction false} ParsedTextChars(s: seq<char>, count: nat)
    requires count >= 1 && ParseFields(s, count).Some?
    ensures forall j :: 0 <= j < |s| ==> IsDigit(s[j]) || s[j] == '.'
    decreases count
  {
    var n := DigitRun(s);
    assert forall j :: 0 <= j < n ==> IsDigit(s[j]) by {
      assert forall j :: 0 <= j < n ==> s[..n][j] == s[j];
    }
    if count > 1 && n < |s| {
      var tail := s[n + 1..];
      assert ParseFields(tail, count - 1).Some?;
      ParsedTextChars(tail, count - 1);
      forall j | n < j < |s|
        ensures IsDigit(s[j]) || s[j] == '.'
      {
        assert s[j] == tail[j - n - 1];
      }
    }
  }

  /** inet_pton rejects every text holding a character other than a digit or a dot. */
  lemma OtherCharRejected(s: seq<char>, j: nat)
    requires j < |s| && !IsDigit(s[j]) && s[j] != '.'
    ensures ParseIPv4(s).None?
  {
    if ParseIPv4(s).Some? {
      ParsedTextChars(s, 4);
      assert false;
    }
  }

  /** inet_pton and the dotted-quad format are inverse: a text parses exactly when it is the canonical text of its octets. */
  lemma ParseFormatRoundTrip(o: seq<byte>)
    requires |o| == 4
    ensures ParseIPv4(FormatIPv4(o)) == Some(o)
  {
    ParseFieldsText(o, FormatIPv4(o));
  }

  lemma ParsedIsCanonical(s: seq<char>)
    requires ParseIPv4(s).Some?
    ensures FormatIPv4(ParseIPv4(s).value) == s
  {
    ParsedFieldsAreText(s, 4);
  }
}
