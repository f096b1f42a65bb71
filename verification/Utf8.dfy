/**
 UTF-8, section 3 of RFC 3629, as Node's buffers apply it. A JavaScript string without lone
 surrogates is a sequence of Unicode scalar values, which is Dafny's `string`. Decoding is total:
 every maximal ill-formed piece is read as U+FFFD.
 */
module Utf8 {
  import opened Common

  const REPLACEMENT: char := '\U{FFFD}'

  function EncodeChar(c: char): (b: Bytes)
    ensures 1 <= |b| <= 4
  {
    var x := c as int;
    if x < 0x80 then [x]
    else if x < 0x800 then [0xC0 + x / 64, 0x80 + x % 64]
    else if x < 0x10000 then [0xE0 + x / 64 / 64, 0x80 + x / 64 % 64, 0x80 + x % 64]
    else [0xF0 + x / 64 / 64 / 64, 0x80 + x / 64 / 64 % 64, 0x80 + x / 64 % 64, 0x80 + x % 64]
  }

  function Encode(s: string): Bytes {
    if s == "" then [] else EncodeChar(s[0]) + Encode(s[1..])
  }

  /** How many continuation bytes a lead byte announces; 0 for a byte that cannot lead. */
  function Announced(lead: Byte): (n: nat)
    ensures n <= 3
  {
    if 0xC2 <= lead <= 0xDF then 1
    else if 0xE0 <= lead <= 0xEF then 2
    else if 0xF0 <= lead <= 0xF4 then 3
    else 0
  }

  /**
   Whether `b[i]` may be the `i`-th continuation byte after `b[0]`: the first one is narrowed so that
   overlong forms, surrogates and values past U+10FFFF are ill-formed.
   */
  predicate Continues(b: Bytes, i: nat)
    requires b != [] && i > 0
  {
    && i < |b| && 0x80 <= b[i] <= 0xBF
    && (i == 1 ==> (b[0] == 0xE0 ==> 0xA0 <= b[1]) && (b[0] == 0xED ==> b[1] <= 0x9F)
                   && (b[0] == 0xF0 ==> 0x90 <= b[1]) && (b[0] == 0xF4 ==> b[1] <= 0x8F))
  }

  /** Whether the bytes start with a whole well-formed character. */
  predicate StartsWell(b: Bytes)
    requires b != []
  {
    || b[0] < 0x80
    || (Announced(b[0]) > 0 && forall i :: 1 <= i <= Announced(b[0]) ==> Continues(b, i))
  }

  /** The length of the ill-formed piece at the start. */
  function BadLength(b: Bytes): (n: nat)
    requires b != [] && !StartsWell(b)
    ensures 1 <= n <= |b|
  {
    if Announced(b[0]) == 0 || !Continues(b, 1) then 1
    else if !Continues(b, 2) then 2
    else 3
  }

  /** Appends the six bits of a continuation byte. */
  function Append(high: int, continuation: int): int {
    high * 64 + (continuation - 0x80)
  }

  /** The code point of the well-formed character at the start. */
  function CodePoint(b: Bytes): (x: int)
    requires b != [] && StartsWell(b)
    ensures 0 <= x < 0xD800 || 0xE000 <= x < 0x110000
  {
    var n, lead: int := Announced(b[0]), b[0];
    if n == 0 then lead
    else
      assert Continues(b, 1);
      if n == 1 then Append(lead - 0xC0, b[1])
      else
        assert Continues(b, 2);
        if n == 2 then Append(Append(lead - 0xE0, b[1]), b[2])
        else
          assert Continues(b, 3);
          Append(Append(Append(lead - 0xF0, b[1]), b[2]), b[3])
  }

  /** The first character and the number of bytes it takes. */
  function DecodeOne(b: Bytes): (r: (char, nat))
    requires b != []
    ensures 1 <= r.1 <= |b|
  {
    if StartsWell(b) then
      assert Announced(b[0]) > 0 ==> Continues(b, Announced(b[0]));
      (CodePoint(b) as char, 1 + Announced(b[0]))
    else (REPLACEMENT, BadLength(b))
  }

  function Decode(b: Bytes): string
    decreases |b|
  {
    if b == [] then ""
    else
      var (c, n) := DecodeOne(b);
      [c] + Decode(b[n..])
  }

  lemma DecodeOneEncoded(c: char, rest: Bytes)
    ensures DecodeOne(EncodeChar(c) + rest) == (c, |EncodeChar(c)|)
  {
    var x, b := c as int, EncodeChar(c) + rest;
    if x < 0x80 {
    } else if x < 0x800 {
      assert Continues(b, 1);
      AppendDigits(x);
    } else if x < 0x10000 {
      assert Continues(b, 1) && Continues(b, 2);
      AppendDigits(x);
      AppendDigits(x / 64);
    } else {
      assert Continues(b, 1) && Continues(b, 2) && Continues(b, 3);
      AppendDigits(x);
      AppendDigits(x / 64);
      AppendDigits(x / 64 / 64);
    }
  }

  lemma DecodeFront(c: char, rest: Bytes)
    ensures Decode(EncodeChar(c) + rest) == [c] + Decode(rest)
  {
    DecodeOneEncoded(c, rest);
    assert (EncodeChar(c) + rest)[|EncodeChar(c)|..] == rest;
  }

  lemma AppendDigits(x: nat)
    ensures Append(x / 64, 0x80 + x % 64) == x
  {
  }

  lemma AppendInverse(high: int, continuation: int)
    requires 0x80 <= continuation <= 0xBF
    ensures Append(high, continuation) / 64 == high && Append(high, continuation) % 64 == continuation - 0x80
  {
  }

  /** What starts well starts with the encoding of its first character. */
  lemma WellEncoded(b: Bytes)
    requires b != [] && StartsWell(b)
    ensures EncodeChar(DecodeOne(b).0) == b[..DecodeOne(b).1]
  {
    var n, lead: int := Announced(b[0]), b[0];
    if n == 1 {
      assert Continues(b, 1);
      AppendInverse(lead - 0xC0, b[1]);
    } else if n == 2 {
      assert Continues(b, 1) && Continues(b, 2);
      AppendInverse(lead - 0xE0, b[1]);
      AppendInverse(Append(lead - 0xE0, b[1]), b[2]);
    } else if n == 3 {
      assert Continues(b, 1) && Continues(b, 2) && Continues(b, 3);
      AppendInverse(lead - 0xF0, b[1]);
      AppendInverse(Append(lead - 0xF0, b[1]), b[2]);
      AppendInverse(Append(Append(lead - 0xF0, b[1]), b[2]), b[3]);
    }
  }

  /** What decodes to anything but U+FFFD is the encoding of that character. */
  lemma DecodedOneEncodes(b: Bytes)
    requires b != [] && DecodeOne(b).0 != REPLACEMENT
    ensures EncodeChar(DecodeOne(b).0) == b[..DecodeOne(b).1]
  {
    WellEncoded(b);
  }

  /** Every text survives encoding and decoding. */
  lemma {:induction false} RoundTrip(s: string)
    ensures Decode(Encode(s)) == s
  {
    if s != "" {
      DecodeFront(s[0], Encode(s[1..]));
      RoundTrip(s[1..]);
    }
  }

  /** Bytes that decode without a replacement character are the encoding of what they decode to. */
  lemma {:induction false} DecodedEncodes(b: Bytes)
    requires REPLACEMENT !in Decode(b)
    ensures Encode(Decode(b)) == b
    decreases |b|
  {
    if b != [] {
      var one := DecodeOne(b);
      var rest := b[one.1..];
      DecodeStep(b);
      DecodedSplits(one.0, Decode(rest));
      DecodedEncodes(rest);
      DecodedOneEncodes(b);
      Glue(b, one.1, one.0, Decode(rest));
    }
  }

  lemma Glue(b: Bytes, n: nat, c: char, s: string)
    requires n <= |b| && EncodeChar(c) == b[..n] && Encode(s) == b[n..]
    ensures Encode([c] + s) == b
  {
    assert ([c] + s)[1..] == s;
    assert b == b[..n] + b[n..];
  }

  lemma DecodeStep(b: Bytes)
    requires b != []
    ensures Decode(b) == [DecodeOne(b).0] + Decode(b[DecodeOne(b).1..])
  {
  }

  lemma DecodedSplits(c: char, rest: string)
    requires REPLACEMENT !in [c] + rest
    ensures c != REPLACEMENT && REPLACEMENT !in rest
  {
    assert ([c] + rest)[0] == c;
    assert forall i :: 0 <= i < |rest| ==> ([c] + rest)[i + 1] == rest[i];
  }

  lemma {:induction false} EncodeConcat(s: string, t: string)
    ensures Encode(s + t) == Encode(s) + Encode(t)
  {
    if s == "" {
      assert s + t == t;
    } else {
      assert (s + t)[1..] == s[1..] + t;
      EncodeConcat(s[1..], t);
    }
  }

  predicate IsContinuation(x: int) {
    0x80 <= x <= 0xBF
  }

  /**
   What surrounds any byte of encoded text: a continuation byte follows a byte that is not ASCII, and a
   lead byte is one that may lead and has a continuation byte behind it.
   */
  predicate IsShaped(b: Bytes, p: nat) {
    var x, y := ByteAt(b, p), ByteAt(b, p + 1);
    && x != 0xC0 && x != 0xC1 && x <= 0xF4
    && (IsContinuation(y) ==> x >= 0x80)
    && (x >= 0xC0 ==> IsContinuation(y))
  }

  lemma {:induction false} BytesShape(s: string, p: nat)
    ensures IsShaped(Encode(s), p)
    ensures p < |Encode(s)| && Encode(s)[p] < 0x80 ==> Encode(s)[p] as char in s
  {
    if s != "" {
      var head, tail := EncodeChar(s[0]), Encode(s[1..]);
      CharShape(s[0]);
      if p < |head| {
        if p + 1 == |head| && tail != [] {
          CharShape(s[1]);
          assert tail[0] == EncodeChar(s[1])[0];
        }
      } else {
        BytesShape(s[1..], p - |head|);
        assert ByteAt(Encode(s), p) == ByteAt(tail, p - |head|);
        assert ByteAt(Encode(s), p + 1) == ByteAt(tail, p + 1 - |head|);
      }
    }
  }

  /** A character starts with ASCII or a lead byte, and the rest are continuation bytes. */
  lemma CharShape(c: char)
    ensures var b := EncodeChar(c);
            && (|b| == 1 ==> b[0] == c as int < 0x80) && (|b| > 1 ==> 0xC2 <= b[0] <= 0xF4)
            && forall i :: 1 <= i < |b| ==> IsContinuation(b[i])
  {
  }

  // ----- Any bytes at all -----

  /** Every character's encoding starts well, and says its own length. */
  lemma EncodedWell(c: char)
    ensures var b := EncodeChar(c);
            Announced(b[0]) == |b| - 1 && forall i :: 1 <= i < |b| ==> Continues(b, i)
  {
  }

  lemma SameContinues(b: Bytes, e: Bytes, n: nat)
    requires 1 <= n < |b| && b[..n + 1] <= e
    ensures e[0] == b[0] && n < |e| && Continues(e, n) == Continues(b, n)
  {
    assert forall i :: 0 <= i <= n ==> e[i] == b[..n + 1][i] == b[i];
  }

  /** Bytes whose next one does not continue them, or that nothing continues, begin no character. */
  lemma BeginsNone(b: Bytes, n: nat, c: char)
    requires 1 <= n < |b| && (!Continues(b, n) || Announced(b[0]) == 0)
    ensures !(b[..n + 1] <= EncodeChar(c))
  {
    EncodedWell(c);
    if b[..n + 1] <= EncodeChar(c) {
      SameContinues(b, EncodeChar(c), n);
      assert false;
    }
  }

  /** A well-formed beginning of a character is one: filled up, it encodes a character. */
  lemma BeginsSome(b: Bytes, n: nat) returns (c: char)
    requires 1 < n <= |b| && n <= Announced(b[0]) && forall i :: 1 <= i < n ==> Continues(b, i)
    ensures b[..n] < EncodeChar(c)
  {
    var p: Bytes := b[..n] + seq(1 + Announced(b[0]) - n, _ => 0x80);
    forall i | 1 <= i <= Announced(p[0])
      ensures Continues(p, i)
    {
      assert i < n ==> Continues(b, i) && p[i] == b[i];
      assert p[1] == b[1] && Continues(b, 1);
    }
    WellEncoded(p);
    c := DecodeOne(p).0;
    assert p[..|p|] == p;
  }

  lemma WellPrefix(b: Bytes)
    requires b != []
    ensures StartsWell(b) ==> EncodeChar(DecodeOne(b).0) <= b
  {
    if StartsWell(b) {
      WellEncoded(b);
    }
  }

  /**
   Where no character starts, U+FFFD is read for the longest piece that begins one, or for a single byte
   when none does.
   */
  lemma IllFormed(b: Bytes)
    requires b != [] && forall c: char :: !(EncodeChar(c) <= b)
    ensures var r, n := DecodeOne(b).0, DecodeOne(b).1;
            && r == '\U{FFFD}' && 1 <= n <= |b| && (n == 1 || exists c: char :: b[..n] < EncodeChar(c))
            && (n < |b| ==> forall c: char :: !(b[..n + 1] <= EncodeChar(c)))
  {
    var n := DecodeOne(b).1;
    WellPrefix(b);
    assert !StartsWell(b);
    if n > 1 {
      var c := BeginsSome(b, n);
    }
    if n < |b| {
      forall c: char
        ensures !(b[..n + 1] <= EncodeChar(c))
      {
        BeginsNone(b, n, c);
      }
    }
  }

  /** The bits of the code point in the bytes, and how many bytes it takes. */
  lemma CharValue(c: char)
    ensures var b, x := EncodeChar(c), c as int;
            && |b| == (if x < 0x80 then 1 else if x < 0x800 then 2 else if x < 0x10000 then 3 else 4)
            && var lead, y, z, u := ByteAt(b, 0), ByteAt(b, 1) - 0x80, ByteAt(b, 2) - 0x80, ByteAt(b, 3) - 0x80;
               x == if |b| == 1 then lead
                    else if |b| == 2 then (lead - 0xC0) * 0x40 + y
                    else if |b| == 3 then (lead - 0xE0) * 0x1000 + y * 0x40 + z
                    else (lead - 0xF0) * 0x40000 + y * 0x1000 + z * 0x40 + u
  {
  }
}
