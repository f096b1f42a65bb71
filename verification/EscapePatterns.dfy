/**
 Which strings have a base64 text that the escape loses. The patterns are text, but UTF-8 lets them stand
 only where they take up five bytes of one shape.
 */
module EscapePatterns {
  import opened Common
  import opened Texts
  import opened Escape
  import Base64
  import Utf8

  /** The bytes from `3 * k + 1` on that are written with a lost pattern at the digit `4 * k + 2`. */
  predicate Collides(b: Bytes, k: nat) {
    && ByteAt(b, 3 * k + 1) % 16 in {4, 15} && ByteAt(b, 3 * k + 2) == 0x8B && ByteAt(b, 3 * k + 3) == 0x01
    && ByteAt(b, 3 * k + 4) == 0x21 && ByteAt(b, 3 * k + 5) >= 0xC0
  }

  predicate HasCollision(b: Bytes) {
    exists k :: 0 <= k < |b| && Collides(b, k)
  }

  predicate IsFakeSlash(t: string) {
    "SLASH" <= t || "+LASH" <= t
  }

  /** The two groups that a pattern reaches into, over bytes that may be encoded text. */
  predicate Around(d: seq<Base64.Sextet>, b: Bytes, k: nat) {
    && Base64.IsGroup(d, b, k) && Base64.IsGroup(d, b, k + 1)
    && forall i :: 3 * k <= i < 3 * k + 6 ==> Utf8.IsShaped(b, i)
  }

  lemma AroundText(s: string, k: nat)
    ensures Around(Base64.Digits(Utf8.Encode(s)), Utf8.Encode(s), k)
  {
    var b := Utf8.Encode(s);
    Base64.DigitsOfGroup(b, k);
    Base64.DigitsOfGroup(b, k + 1);
    forall i | 3 * k <= i < 3 * k + 6
      ensures Utf8.IsShaped(b, i)
    {
      Utf8.BytesShape(s, i);
    }
  }

  predicate HasDigits(d: seq<Base64.Sextet>, i: nat, x0: int, x1: int, x2: int, x3: int) {
    && Base64.DigitAt(d, i) == x0 && Base64.DigitAt(d, i + 1) == x1
    && Base64.DigitAt(d, i + 2) == x2 && Base64.DigitAt(d, i + 3) == x3
  }

  lemma NoHitAt0(d: seq<Base64.Sextet>, b: Bytes, k: nat, x: int, y: int)
    requires Around(d, b, k) && x in {18, 62, 15}
    ensures !HasDigits(d, 4 * k, x, 11, y, 18)
  {
    assert Utf8.IsShaped(b, 3 * k);
    ReadAt0(x, ByteAt(b, 3 * k), ByteAt(b, 3 * k + 1));
  }

  lemma ReadAt0(x: int, b0: int, b1: int)
    requires 0 <= b0 < 256 && 0 <= b1 < 256 && x in {18, 62, 15}
    ensures b0 / 4 == x && b0 % 4 * 16 + b1 / 16 == 11 ==> b0 in {0x48, 0xF8, 0x3C} && Utf8.IsContinuation(b1)
  {
  }

  lemma NoHitAt1(d: seq<Base64.Sextet>, b: Bytes, k: nat, x: int, y: int)
    requires Around(d, b, k) && ((x in {18, 62} && y == 0) || x == 15)
    ensures !HasDigits(d, 4 * k + 1, x, 11, y, 18)
  {
    assert Utf8.IsShaped(b, 3 * k + 1) && Utf8.IsShaped(b, 3 * k + 2);
    ReadAt1(x, ByteAt(b, 3 * k), ByteAt(b, 3 * k + 1), ByteAt(b, 3 * k + 2));
  }

  lemma ReadAt1(x: int, b0: int, b1: int, b2: int)
    requires 0 <= b0 < 256 && 0 <= b1 < 256 && 0 <= b2 < 256 && x in {18, 62, 15}
    ensures b0 % 4 * 16 + b1 / 16 == x && b1 % 16 * 4 + b2 / 64 == 11 ==>
              b1 in {0x22, 0xE2, 0xF2} && b2 >= 0xC0 && (x == 15 ==> b1 == 0xF2) && (b2 % 64 == 0 ==> b2 == 0xC0)
  {
  }

  lemma NoHitAt3(d: seq<Base64.Sextet>, b: Bytes, k: nat, x: int, y: int)
    requires Around(d, b, k) && y in {0, 20}
    ensures !(HasDigits(d, 4 * k + 3, x, 11, y, 18))
  {
    var j := 3 * (k + 1);
    assert Utf8.IsShaped(b, j + 1) && 4 * (k + 1) == 4 * k + 4;
    ReadAt3(y, ByteAt(b, j), ByteAt(b, j + 1), ByteAt(b, j + 2));
  }

  lemma ReadAt3(y: int, b3: int, b4: int, b5: int)
    requires 0 <= b3 < 256 && 0 <= b4 < 256 && 0 <= b5 < 256 && y in {0, 20}
    ensures b3 / 4 == 11 && b3 % 4 * 16 + b4 / 16 == y && b4 % 16 * 4 + b5 / 64 == 18 ==>
              b4 in {0x04, 0x44} && Utf8.IsContinuation(b5)
  {
  }

  lemma NoPlusAt2(d: seq<Base64.Sextet>, b: Bytes, k: nat)
    requires Around(d, b, k)
    ensures !HasDigits(d, 4 * k + 2, 15, 11, 20, 18)
  {
    assert Utf8.IsShaped(b, 3 * k + 2) && 4 * (k + 1) == 4 * k + 4 && 3 * (k + 1) == 3 * k + 3;
    ReadAt2(15, 20, ByteAt(b, 3 * k + 1), ByteAt(b, 3 * k + 2), ByteAt(b, 3 * k + 3), ByteAt(b, 3 * k + 4));
  }

  lemma ReadAt2(x: int, y: int, b1: int, b2: int, b3: int, b4: int)
    requires 0 <= b1 < 256 && 0 <= b2 < 256 && 0 <= b3 < 256 && 0 <= b4 < 256
    requires (x in {18, 62} && y == 0) || (x == 15 && y == 20)
    ensures b1 % 16 * 4 + b2 / 64 == x && b2 % 64 == 11 && b3 / 4 == y && b3 % 4 * 16 + b4 / 16 == 18 <==>
            (&& b1 % 16 == x / 4 && b2 == (if x == 15 then 0xCB else 0x8B)
             && b3 == (if y == 0 then 0x01 else 0x51) && b4 / 16 == 2)
  {
  }

  /** Where a lost pattern stands, and over which bytes. */
  lemma HitAt2(d: seq<Base64.Sextet>, b: Bytes, k: nat, x: int)
    requires Around(d, b, k) && x in {18, 62}
    ensures HasDigits(d, 4 * k + 2, x, 11, 0, 18) && Base64.DigitAt(d, 4 * k + 6) == 7 <==>
            Collides(b, k) && ByteAt(b, 3 * k + 1) % 16 == x / 4
  {
    assert 4 * (k + 1) == 4 * k + 4 && 3 * (k + 1) == 3 * k + 3;
    var b4, b5 := ByteAt(b, 3 * k + 4), ByteAt(b, 3 * k + 5);
    ReadAt2(x, 0, ByteAt(b, 3 * k + 1), ByteAt(b, 3 * k + 2), ByteAt(b, 3 * k + 3), b4);
    LastDigit(b4, b5);
  }

  lemma LastDigit(b4: int, b5: int)
    requires 0 <= b4 < 256 && 0 <= b5 < 256
    ensures b4 / 16 == 2 && b4 % 16 * 4 + b5 / 64 == 7 <==> b4 == 0x21 && b5 >= 0xC0
  {
  }

  // ----- From the digits to the text -----

  /** A character of base64 text stands for its digit. */
  lemma {:induction false} CharsAt(d: seq<Base64.Sextet>, i: nat)
    requires i < |d|
    ensures Base64.Chars(d)[i] == Base64.DigitChar(d[i])
  {
    if i > 0 {
      CharsAt(d[1..], i - 1);
    }
  }

  lemma CharIs(d: seq<Base64.Sextet>, i: nat, c: char, x: Base64.Sextet)
    requires c == Base64.DigitChar(x)
    ensures i < |d| ==> (Base64.Chars(d)[i] == c <==> Base64.DigitAt(d, i) == x)
  {
    if i < |d| {
      CharsAt(d, i);
      SameDigit(d[i], x);
    }
  }

  lemma SameDigit(x: Base64.Sextet, y: Base64.Sextet)
    ensures Base64.DigitChar(x) == Base64.DigitChar(y) <==> x == y
  {
    Base64.DigitRead(x);
    Base64.DigitRead(y);
  }

  lemma FourChars(t: string, q: nat, w: string)
    requires |w| == 4 && q <= |t|
    ensures w <= t[q..] <==>
            q + 4 <= |t| && t[q] == w[0] && t[q + 1] == w[1] && t[q + 2] == w[2] && t[q + 3] == w[3]
  {
    if q + 4 <= |t| {
      assert t[q..][..4] == [t[q], t[q + 1], t[q + 2], t[q + 3]];
      assert w == [w[0], w[1], w[2], w[3]];
    }
  }

  lemma FourSpelled(d: seq<Base64.Sextet>, t: string, q: nat, w: string, x0: int, x1: int, x2: int, x3: int)
    requires |t| == |d| && q <= |d| && |w| == 4 && x3 != 0
    requires q < |d| ==> (t[q] == w[0] <==> Base64.DigitAt(d, q) == x0)
    requires q + 1 < |d| ==> (t[q + 1] == w[1] <==> Base64.DigitAt(d, q + 1) == x1)
    requires q + 2 < |d| ==> (t[q + 2] == w[2] <==> Base64.DigitAt(d, q + 2) == x2)
    requires q + 3 < |d| ==> (t[q + 3] == w[3] <==> Base64.DigitAt(d, q + 3) == x3)
    ensures w <= t[q..] <==> HasDigits(d, q, x0, x1, x2, x3)
  {
    FourChars(t, q, w);
  }

  lemma FiveChars(t: string, w: string, last: char)
    requires |w| == 4
    ensures w + [last] <= t <==> w <= t && |t| >= 5 && t[4] == last
  {
    if |t| >= 5 {
      assert t[..5] == t[..4] + [t[4]];
      assert (w + [last])[..4] == w;
    }
  }

  /** The digits of SLASH and +LASH. */
  lemma FakeSlashSpelled(d: seq<Base64.Sextet>, q: nat, w: string, x: Base64.Sextet)
    requires q <= |d| && |w| == 4 && w[0] == Base64.DigitChar(x) && w[1] == 'L' && w[2] == 'A' && w[3] == 'S'
    ensures w + ['H'] <= Base64.Chars(d)[q..] <==> HasDigits(d, q, x, 11, 0, 18) && Base64.DigitAt(d, q + 4) == 7
  {
    var t := Base64.Chars(d);
    CharIs(d, q, w[0], x);
    CharIs(d, q + 1, 'L', 11);
    CharIs(d, q + 2, 'A', 0);
    CharIs(d, q + 3, 'S', 18);
    CharIs(d, q + 4, 'H', 7);
    FourSpelled(d, t, q, w, x, 11, 0, 18);
    FiveChars(t[q..], w, 'H');
  }

  lemma PlusSpelled(d: seq<Base64.Sextet>, q: nat)
    requires q <= |d|
    ensures "PLUS" <= Base64.Chars(d)[q..] <==> HasDigits(d, q, 15, 11, 20, 18)
  {
    CharIs(d, q, 'P', 15);
    CharIs(d, q + 1, 'L', 11);
    CharIs(d, q + 2, 'U', 20);
    CharIs(d, q + 3, 'S', 18);
    FourSpelled(d, Base64.Chars(d), q, "PLUS", 15, 11, 20, 18);
  }

  // ----- Where the patterns stand -----

  lemma PatternPlace(d: seq<Base64.Sextet>, b: Bytes, k: nat, r: nat, x: int)
    requires Around(d, b, k) && r < 4 && x in {18, 62}
    ensures HasDigits(d, 4 * k + r, x, 11, 0, 18) && Base64.DigitAt(d, 4 * k + r + 4) == 7 <==>
            r == 2 && Collides(b, k) && ByteAt(b, 3 * k + 1) % 16 == x / 4
  {
    if r == 0 {
      NoHitAt0(d, b, k, x, 0);
    } else if r == 1 {
      NoHitAt1(d, b, k, x, 0);
    } else if r == 2 {
      HitAt2(d, b, k, x);
    } else {
      NoHitAt3(d, b, k, x, 0);
    }
  }

  lemma NoPlusPlace(d: seq<Base64.Sextet>, b: Bytes, k: nat, r: nat)
    requires Around(d, b, k) && r < 4
    ensures !HasDigits(d, 4 * k + r, 15, 11, 20, 18)
  {
    if r == 0 {
      NoHitAt0(d, b, k, 15, 20);
    } else if r == 1 {
      NoHitAt1(d, b, k, 15, 20);
    } else if r == 2 {
      NoPlusAt2(d, b, k);
    } else {
      NoHitAt3(d, b, k, 15, 20);
    }
  }

  lemma PatternAt(s: string, q: nat, w: string, x: Base64.Sextet)
    requires q <= |B64Text(s)| && x in {18, 62}
    requires |w| == 4 && w[0] == Base64.DigitChar(x) && w[1] == 'L' && w[2] == 'A' && w[3] == 'S'
    ensures var b := Utf8.Encode(s);
            w + ['H'] <= B64Text(s)[q..] <==>
            q % 4 == 2 && Collides(b, q / 4) && ByteAt(b, 3 * (q / 4) + 1) % 16 == x / 4
  {
    var b, k, r := Utf8.Encode(s), q / 4, q % 4;
    assert q == 4 * k + r;
    AroundText(s, k);
    FakeSlashSpelled(Base64.Digits(b), q, w, x);
    PatternPlace(Base64.Digits(b), b, k, r, x);
  }

  /** A lost pattern stands exactly over colliding bytes, two digits into a group. */
  lemma FakeSlashAt(s: string, q: nat)
    requires q <= |B64Text(s)|
    ensures IsFakeSlash(B64Text(s)[q..]) <==> q % 4 == 2 && Collides(Utf8.Encode(s), q / 4)
  {
    PatternAt(s, q, "SLAS", 18);
    PatternAt(s, q, "+LAS", 62);
    assert "SLASH" == "SLAS" + ['H'] && "+LASH" == "+LAS" + ['H'];
  }

  lemma NoPlusAt(s: string, q: nat)
    requires q <= |B64Text(s)|
    ensures !("PLUS" <= B64Text(s)[q..])
  {
    AroundText(s, q / 4);
    PlusSpelled(Base64.Digits(Utf8.Encode(s)), q);
    NoPlusPlace(Base64.Digits(Utf8.Encode(s)), Utf8.Encode(s), q / 4, q % 4);
    assert q == 4 * (q / 4) + q % 4;
  }

  /** The base64 text of a string never holds PLUS. */
  lemma NoPlus(s: string)
    ensures !Contains(B64Text(s), "PLUS")
  {
    if Contains(B64Text(s), "PLUS") {
      var q := FindContained(B64Text(s), "PLUS");
      NoPlusAt(s, q);
      assert false;
    }
  }

  /** Where a text that is not escapable holds its first lost pattern. */
  lemma {:induction false} FirstFakeSlash(t: string) returns (q: nat)
    requires Contains(t, "SLASH") || Contains(t, "+LASH")
    ensures q < |t| && IsFakeSlash(t[q..])
    ensures forall i :: 0 <= i < q ==> !IsFakeSlash(t[i..])
  {
    if IsFakeSlash(t) {
      q := 0;
    } else {
      q := FirstFakeSlash(t[1..]);
      forall i | 0 < i < q + 1
        ensures !IsFakeSlash(t[i..])
      {
        assert t[i..] == t[1..][i - 1..];
      }
      assert t[q + 1..] == t[1..][q..];
      q := q + 1;
    }
  }

  /** A string survives the escape exactly when its bytes nowhere collide. */
  lemma EscapableExactly(s: string)
    ensures Escapable(B64Text(s)) <==> !HasCollision(Utf8.Encode(s))
  {
    var b := Utf8.Encode(s);
    if !Escapable(B64Text(s)) {
      var k := LostCollides(s);
      assert k < |b| && Collides(b, k);
    } else if HasCollision(b) {
      var k :| 0 <= k < |b| && Collides(b, k);
      CollisionLoses(s, k);
    }
  }

  lemma LostCollides(s: string) returns (k: nat)
    requires !Escapable(B64Text(s))
    ensures Collides(Utf8.Encode(s), k)
  {
    NoPlus(s);
    var q := FirstFakeSlash(B64Text(s));
    FakeSlashAt(s, q);
    k := q / 4;
  }

  lemma CollisionLoses(s: string, k: nat)
    requires Collides(Utf8.Encode(s), k)
    ensures !Escapable(B64Text(s))
  {
    var q := 4 * k + 2;
    CollisionIsText(s, k);
    assert q % 4 == 2 && q / 4 == k;
    FakeSlashAt(s, q);
    FakeSlashContained(B64Text(s), q);
  }

  lemma FakeSlashContained(t: string, q: nat)
    requires q <= |t| && IsFakeSlash(t[q..])
    ensures !Escapable(t)
  {
    if "SLASH" <= t[q..] {
      ContainedAt(t, "SLASH", q);
    } else {
      ContainedAt(t, "+LASH", q);
    }
  }

  lemma CollisionIsText(s: string, k: nat)
    requires Collides(Utf8.Encode(s), k)
    ensures 4 * k + 2 < |B64Text(s)|
  {
    Base64.DigitsLength(Utf8.Encode(s));
  }

  /** So a string without U+0001, or without an exclamation mark, survives. */
  lemma OrdinaryText(s: string)
    requires '\U{0001}' !in s || '!' !in s
    ensures Escapable(B64Text(s))
  {
    var b := Utf8.Encode(s);
    EscapableExactly(s);
    forall k | 0 <= k < |b|
      ensures !Collides(b, k)
    {
      Utf8.BytesShape(s, 3 * k + 3);
      Utf8.BytesShape(s, 3 * k + 4);
    }
  }
}
