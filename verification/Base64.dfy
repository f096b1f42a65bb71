/**
 Base64, section 4 of RFC 4648, as Node's buffers write and read it. Reading is lenient: the
 URL-safe characters stand for the standard ones, other characters are skipped, padding may be
 missing, and a last lone digit is dropped.
 */
module Base64 {
  import opened Common
  import opened Texts

  type Sextet = x: int | 0 <= x < 64

  function DigitChar(d: Sextet): char {
    if d < 26 then 'A' + d as char
    else if d < 52 then 'a' + (d - 26) as char
    else if d < 62 then '0' + (d - 52) as char
    else if d == 62 then '+' else '/'
  }

  /** The characters of base64 text. */
  predicate IsDigitChar(c: char) {
    'A' <= c <= 'Z' || 'a' <= c <= 'z' || '0' <= c <= '9' || c == '+' || c == '/'
  }

  function CharDigit(c: char): Option<Sextet> {
    if 'A' <= c <= 'Z' then Some(c as int - 'A' as int)
    else if 'a' <= c <= 'z' then Some(c as int - 'a' as int + 26)
    else if '0' <= c <= '9' then Some(c as int - '0' as int + 52)
    else if c == '+' || c == '-' then Some(62)
    else if c == '/' || c == '_' then Some(63)
    else None
  }

  function Digits(b: Bytes): seq<Sextet> {
    if b == [] then []
    else if |b| == 1 then [b[0] / 4, b[0] % 4 * 16]
    else if |b| == 2 then [b[0] / 4, b[0] % 4 * 16 + b[1] / 16, b[1] % 16 * 4]
    else [b[0] / 4, b[0] % 4 * 16 + b[1] / 16, b[1] % 16 * 4 + b[2] / 64, b[2] % 64] + Digits(b[3..])
  }

  function FromDigits(d: seq<Sextet>): Bytes {
    if |d| < 2 then []
    else
      var d0: int, d1: int := d[0], d[1];
      if |d| == 2 then [d0 * 4 + d1 / 16]
      else
        var d2: int := d[2];
        if |d| == 3 then [d0 * 4 + d1 / 16, d1 % 16 * 16 + d2 / 4]
        else [d0 * 4 + d1 / 16, d1 % 16 * 16 + d2 / 4, d2 % 4 * 64 + d[3]] + FromDigits(d[4..])
  }

  function Chars(d: seq<Sextet>): (s: string)
    ensures |s| == |d|
    ensures forall c :: c in s ==> IsDigitChar(c)
  {
    if d == [] then "" else [DigitChar(d[0])] + Chars(d[1..])
  }

  function LegalDigits(s: string): (d: seq<Sextet>)
    ensures |d| <= |s|
  {
    if s == "" then []
    else
      var rest := LegalDigits(s[1..]);
      match CharDigit(s[0])
      case None => rest
      case Some(x) => [x] + rest
  }

  /** `toString('base64')`: the last group is filled up with `=`. */
  function Encode(b: Bytes): string {
    Chars(Digits(b)) + (if |b| % 3 == 1 then "==" else if |b| % 3 == 2 then "=" else "")
  }

  /** `Buffer(s, 'base64')`. */
  function Decode(s: string): Bytes {
    FromDigits(LegalDigits(s))
  }

  /** Base64 text without padding, section 3.2 of RFC 4648. */
  function Text(b: Bytes): (s: string)
    ensures forall c :: c in s ==> IsDigitChar(c)
  {
    Chars(Digits(b))
  }

  lemma {:induction false} ReplaceAbsent(s: string, c: char, replacement: string)
    requires c !in s
    ensures ReplaceAll(s, [c], replacement) == s
  {
    if s != "" {
      assert [c] <= s <==> s[0] == c;
      ReplaceAbsent(s[1..], c, replacement);
    }
  }

  /** Stripping every `=` leaves exactly the digits. */
  lemma PaddingStripped(b: Bytes)
    ensures ReplaceAll(Encode(b), "=", "") == Text(b)
  {
    var padding := if |b| % 3 == 1 then "==" else if |b| % 3 == 2 then "=" else "";
    ReplaceAbsent(Text(b), '=', "");
    ReplaceCharSplits(Text(b), padding, '=', "");
    assert "="[1..] == "" && "=="[1..] == "=";
    assert ReplaceAll("=", "=", "") == "";
    assert ReplaceAll("==", "=", "") == ReplaceAll("=", "=", "");
    assert ReplaceAll(padding, "=", "") == "";
  }

  lemma DigitRead(d: Sextet)
    ensures CharDigit(DigitChar(d)) == Some(d)
  {
  }

  lemma {:induction false} CharsRoundTrip(d: seq<Sextet>)
    ensures LegalDigits(Chars(d)) == d
  {
    if d != [] {
      CharsRoundTrip(d[1..]);
      DigitRead(d[0]);
    }
  }

  lemma {:induction false} DigitsRoundTrip(b: Bytes)
    ensures FromDigits(Digits(b)) == b
  {
    if |b| >= 3 {
      DigitsRoundTrip(b[3..]);
      var d := Digits(b);
      assert d[4..] == Digits(b[3..]);
      assert b == [b[0], b[1], b[2]] + b[3..];
    }
  }

  /** Every byte sequence survives, whatever its length, with the padding stripped. */
  lemma TextRoundTrip(b: Bytes)
    ensures Decode(Text(b)) == b
  {
    CharsRoundTrip(Digits(b));
    DigitsRoundTrip(b);
  }

  function DigitAt(d: seq<Sextet>, i: nat): int {
    if i < |d| then d[i] else 0
  }

  /** Four digits from a position on, as one number of 24 bits. */
  function DigitBits(d: seq<Sextet>, i: nat): int {
    ((DigitAt(d, i) * 64 + DigitAt(d, i + 1)) * 64 + DigitAt(d, i + 2)) * 64 + DigitAt(d, i + 3)
  }

  /** Three bytes from a position on, as one number of 24 bits. */
  function ByteBits(b: Bytes, i: nat): int {
    (ByteAt(b, i) * 256 + ByteAt(b, i + 1)) * 256 + ByteAt(b, i + 2)
  }

  /**
   The digits `4 * k` up to `4 * k + 3` have the bits of the bytes `3 * k` up to `3 * k + 2`, most
   significant first, for every group; what is missing in the last group are zero bits.
   */
  lemma {:induction false} GroupBits(b: Bytes, k: nat)
    ensures DigitBits(Digits(b), 4 * k) == ByteBits(b, 3 * k)
  {
    if k == 0 {
      FirstGroup(b);
    } else if |b| >= 3 {
      GroupBits(b[3..], k - 1);
      NextGroup(b, Digits(b), 4 * (k - 1), 3 * (k - 1));
    }
  }

  lemma FirstGroup(b: Bytes)
    ensures DigitBits(Digits(b), 0) == ByteBits(b, 0)
  {
    var b0, b1, b2 := ByteAt(b, 0), ByteAt(b, 1), ByteAt(b, 2);
    assert (((b0 / 4) * 64 + (b0 % 4 * 16 + b1 / 16)) * 64 + (b1 % 16 * 4 + b2 / 64)) * 64 + b2 % 64
           == (b0 * 256 + b1) * 256 + b2;
  }

  lemma NextGroup(b: Bytes, d: seq<Sextet>, i: nat, j: nat)
    requires |b| >= 3 && |d| >= 4
    ensures DigitBits(d, i + 4) == DigitBits(d[4..], i) && ByteBits(b, j + 3) == ByteBits(b[3..], j)
  {
  }

  /** Digit by digit: which bits of which bytes the digits of a group have. */
  predicate IsGroup(d: seq<Sextet>, b: Bytes, k: nat) {
    var b0, b1, b2 := ByteAt(b, 3 * k), ByteAt(b, 3 * k + 1), ByteAt(b, 3 * k + 2);
    && DigitAt(d, 4 * k) == b0 / 4
    && DigitAt(d, 4 * k + 1) == b0 % 4 * 16 + b1 / 16
    && DigitAt(d, 4 * k + 2) == b1 % 16 * 4 + b2 / 64
    && DigitAt(d, 4 * k + 3) == b2 % 64
  }

  lemma DigitsOfGroup(b: Bytes, k: nat)
    ensures IsGroup(Digits(b), b, k)
  {
    var d, i, j := Digits(b), 4 * k, 3 * k;
    GroupBits(b, k);
    BitsSplit(DigitAt(d, i), DigitAt(d, i + 1), DigitAt(d, i + 2), DigitAt(d, i + 3),
              ByteAt(b, j), ByteAt(b, j + 1), ByteAt(b, j + 2));
  }

  lemma BitsSplit(d0: int, d1: int, d2: int, d3: int, b0: int, b1: int, b2: int)
    requires 0 <= d0 < 64 && 0 <= d1 < 64 && 0 <= d2 < 64 && 0 <= d3 < 64
    requires 0 <= b0 < 256 && 0 <= b1 < 256 && 0 <= b2 < 256
    requires ((d0 * 64 + d1) * 64 + d2) * 64 + d3 == (b0 * 256 + b1) * 256 + b2
    ensures d0 == b0 / 4 && d1 == b0 % 4 * 16 + b1 / 16 && d2 == b1 % 16 * 4 + b2 / 64 && d3 == b2 % 64
  {
  }

  /** There are as many digits as the bits need. */
  lemma {:induction false} DigitsLength(b: Bytes)
    ensures |Digits(b)| == (4 * |b| + 2) / 3
  {
    if |b| >= 3 {
      DigitsLength(b[3..]);
    }
  }

  /** The alphabet: capital letters, small letters, ciphers, each in order, then plus and slash. */
  lemma Alphabet(d: Sextet)
    ensures DigitChar(0) == 'A' && DigitChar(25) == 'Z' && DigitChar(26) == 'a' && DigitChar(51) == 'z'
    ensures DigitChar(52) == '0' && DigitChar(61) == '9' && DigitChar(62) == '+' && DigitChar(63) == '/'
    ensures d < 61 && d != 25 && d != 51 ==> DigitChar(d + 1) as int == DigitChar(d) as int + 1
  {
  }

  /** Three bytes are four characters. */
  lemma GroupText(b: Bytes, x: Byte, y: Byte, z: Byte, tail: Bytes, text: string)
    requires b == [x] + ([y] + ([z] + tail))
    requires text == [DigitChar(x / 4)] + [DigitChar(x % 4 * 16 + y / 16)]
                     + [DigitChar(y % 16 * 4 + z / 64)] + [DigitChar(z % 64)]
    ensures Text(b) == text + Text(tail)
  {
    assert b[3..] == tail;
    var d: seq<Sextet> := [x / 4, x % 4 * 16 + y / 16, y % 16 * 4 + z / 64, z % 64];
    assert Digits(b) == d + Digits(tail);
    CharsConcat(d, Digits(tail));
    FourChars(d[0], d[1], d[2], d[3]);
  }

  lemma {:induction false} CharsConcat(d: seq<Sextet>, e: seq<Sextet>)
    ensures Chars(d + e) == Chars(d) + Chars(e)
  {
    if d == [] {
      assert d + e == e;
    } else {
      assert (d + e)[1..] == d[1..] + e;
      CharsConcat(d[1..], e);
    }
  }

  lemma CharsStep(x: Sextet, d: seq<Sextet>)
    ensures Chars([x] + d) == [DigitChar(x)] + Chars(d)
  {
    assert ([x] + d)[1..] == d;
  }

  lemma FourChars(x: Sextet, y: Sextet, z: Sextet, t: Sextet)
    ensures Chars([x, y, z, t]) == [DigitChar(x)] + [DigitChar(y)] + [DigitChar(z)] + [DigitChar(t)]
  {
    TwoChars(z, t);
    CharsStep(y, [z, t]);
    CharsStep(x, [y, z, t]);
    assert [x, y, z, t] == [x] + [y, z, t] && [y, z, t] == [y] + [z, t];
  }

  lemma TwoChars(x: Sextet, y: Sextet)
    ensures Chars([x, y]) == [DigitChar(x)] + [DigitChar(y)]
  {
    CharsStep(y, []);
    CharsStep(x, [y]);
    assert [y] + [] == [y] && [x] + [y] == [x, y];
  }

  lemma LastGroupText(x: Byte)
    ensures Text([x]) == [DigitChar(x / 4)] + [DigitChar(x % 4 * 16)]
  {
    TwoChars(x / 4, x % 4 * 16);
  }

  // ----- Any text at all -----

  lemma {:induction false} LegalConcat(s: string, t: string)
    ensures LegalDigits(s + t) == LegalDigits(s) + LegalDigits(t)
  {
    if s == "" {
      assert s + t == t;
    } else {
      assert (s + t)[1..] == s[1..] + t;
      LegalConcat(s[1..], t);
    }
  }

  lemma LegalOne(c: char)
    ensures LegalDigits([c]) == if CharDigit(c).Some? then [CharDigit(c).value] else []
  {
    assert [c][1..] == "";
  }

  /** A character that is no digit is skipped, and the URL-safe digits are read like the standard ones. */
  lemma Lenient(s: string, c: char, t: string)
    ensures !IsDigitChar(c) && c != '-' && c != '_' ==> Decode(s + [c] + t) == Decode(s + t)
    ensures Decode(s + "-" + t) == Decode(s + "+" + t) && Decode(s + "_" + t) == Decode(s + "/" + t)
  {
    ReadAround(s, [c], t);
    LegalConcat(s, t);
    LegalOne(c);
    assert LegalDigits(s) + [] + LegalDigits(t) == LegalDigits(s) + LegalDigits(t);
    ReadSame(s, "-", "+", t);
    ReadSame(s, "_", "/", t);
  }

  lemma ReadAround(s: string, m: string, t: string)
    ensures LegalDigits(s + m + t) == LegalDigits(s) + LegalDigits(m) + LegalDigits(t)
  {
    LegalConcat(s + m, t);
    LegalConcat(s, m);
  }

  lemma ReadSame(s: string, x: string, y: string, t: string)
    requires |x| == |y| == 1 && CharDigit(x[0]).Some? && CharDigit(x[0]) == CharDigit(y[0])
    ensures Decode(s + x + t) == Decode(s + y + t)
  {
    ReadAround(s, x, t);
    ReadAround(s, y, t);
    assert x == [x[0]] && y == [y[0]];
    LegalOne(x[0]);
    LegalOne(y[0]);
  }

  /** How many bytes digits are read as, and which bits each byte has; left-over bits are dropped. */
  lemma {:induction false} FromDigitsAt(d: seq<Sextet>, i: nat)
    ensures |FromDigits(d)| == 3 * |d| / 4
    ensures i < |FromDigits(d)| ==>
              var q := i / 3 * 4;
              FromDigits(d)[i] == if i % 3 == 0 then DigitAt(d, q) * 4 + DigitAt(d, q + 1) / 16
                                  else if i % 3 == 1 then DigitAt(d, q + 1) % 16 * 16 + DigitAt(d, q + 2) / 4
                                  else DigitAt(d, q + 2) % 4 * 64 + DigitAt(d, q + 3)
    decreases |d|
  {
    if |d| >= 4 {
      FromDigitsAt(d[4..], if i < 3 then 0 else i - 3);
      if i >= 3 {
        assert (i - 3) / 3 * 4 + 4 == i / 3 * 4 && (i - 3) % 3 == i % 3;
      }
    }
  }
}
