/**
 What a string that the escape loses is read back as. The first lost pattern of its base64 text is read as
 another digit, so the byte that this digit feeds is another one, and so is the character it belongs to.
 */
module FirstDifference {
  import opened Common
  import opened Texts
  import opened Escape
  import opened EscapePatterns
  import Base64
  import Utf8

  // ----- The text -----

  /** What follows does not complete a PLUS that the escape did not write. */
  lemma {:induction false} LusNotCompleted(w: string, u: string, y: string)
    requires w in ["LUS", "US", "S", ""] && y != "" && y[0] !in "LUS"
    ensures w <= EscapePlus(u) + y ==> w <= u
  {
    if w != "" {
      if u == "" {
        PrefixStep(w, y);
        assert EscapePlus(u) + y == y;
      } else {
        var rest := EscapePlus(u[1..]) + y;
        PlusFront(u, y);
        PrefixStep(w, EscapePlus(u) + y);
        PrefixStep(w, u);
        if u[0] == '+' {
          assert ("PLUS" + rest)[0] == 'P';
        } else {
          LusNotCompleted(w[1..], u[1..], y);
          assert ([u[0]] + rest)[1..] == rest;
        }
      }
    }
  }

  lemma PlusFront(u: string, y: string)
    requires u != ""
    ensures EscapePlus(u) + y == (if u[0] == '+' then "PLUS" else [u[0]]) + (EscapePlus(u[1..]) + y)
  {
    assert u == [u[0]] + u[1..];
    EscapedStep(u[0], u[1..]);
  }

  lemma PlusRead(rest: string)
    ensures UnescapePlus("PLUS" + rest) == "+" + UnescapePlus(rest)
  {
    assert ("PLUS" + rest)[4..] == rest;
  }

  /** Text that holds no PLUS is read back up to what follows. */
  lemma {:induction false} PlusUndoneBefore(u: string, y: string)
    requires !Contains(u, "PLUS") && y != "" && y[0] !in "LUS"
    ensures UnescapePlus(EscapePlus(u) + y) == u + UnescapePlus(y)
  {
    if u == "" {
      assert EscapePlus(u) + y == y;
    } else {
      PlusFront(u, y);
      PlusFrontRead(u, y);
      PlusUndoneBefore(u[1..], y);
      assert u + UnescapePlus(y) == [u[0]] + (u[1..] + UnescapePlus(y));
    }
  }

  lemma PlusFrontRead(u: string, y: string)
    requires u != "" && !("PLUS" <= u) && y != "" && y[0] !in "LUS"
    ensures UnescapePlus((if u[0] == '+' then "PLUS" else [u[0]]) + (EscapePlus(u[1..]) + y))
            == [u[0]] + UnescapePlus(EscapePlus(u[1..]) + y)
  {
    var rest := EscapePlus(u[1..]) + y;
    if u[0] == '+' {
      PlusRead(rest);
    } else {
      LusNotCompleted("LUS", u[1..], y);
      PrefixStep("PLUS", u);
      Passes(u[0], rest, "PLUS", "+");
    }
  }

  lemma OneRead(t: string)
    requires t != "" && !IsFakeSlash(t)
    ensures UnescapeSlash(Escaped(t)) == (if t[0] == '+' then "PLUS" else [t[0]]) + UnescapeSlash(Escaped(t[1..]))
  {
    ReadBack(t);
  }

  /** Up to the first lost pattern only the escapes of PLUS are left. */
  lemma {:induction false} SlashUndoneBefore(u: string, t: string)
    requires forall i :: 0 <= i < |u| ==> !IsFakeSlash((u + t)[i..])
    ensures UnescapeSlash(Escaped(u + t)) == EscapePlus(u) + UnescapeSlash(Escaped(t))
  {
    if u == "" {
      assert u + t == t;
    } else {
      var y := UnescapeSlash(Escaped(t));
      assert (u + t)[0..] == u + t && (u + t)[1..] == u[1..] + t;
      OneRead(u + t);
      NoneBefore(u, t);
      SlashUndoneBefore(u[1..], t);
      PlusFront(u, y);
    }
  }

  lemma NoneBefore(u: string, t: string)
    requires u != "" && forall i :: 0 <= i < |u| ==> !IsFakeSlash((u + t)[i..])
    ensures forall i :: 0 <= i < |u| - 1 ==> !IsFakeSlash((u[1..] + t)[i..])
  {
    forall i | 0 <= i < |u| - 1
      ensures !IsFakeSlash((u[1..] + t)[i..])
    {
      assert (u[1..] + t)[i..] == (u + t)[i + 1..];
    }
  }

  /** A lost pattern at the front is read as another character. */
  lemma FakeSlashRead(t: string)
    requires IsFakeSlash(t)
    ensures var y := UnescapeSlash(Escaped(t));
            && y != "" && y[0] in "/P" && UnescapePlus(y) != ""
            && UnescapePlus(y)[0] == if t[0] == 'S' then '/' else 'P'
  {
    ReadBack(t);
    PrefixStep("SLASH", t);
    PrefixStep("+LASH", t);
    var rest := UnescapeSlash(Escaped(t[5..]));
    if t[0] == 'S' {
      Passes('/', rest, "PLUS", "+");
    } else {
      assert "PLU/" + rest == ['P'] + ("LU/" + rest);
      assert ("LU/" + rest)[2] == '/';
      Passes('P', "LU/" + rest, "PLUS", "+");
    }
  }

  /** The text is read back up to its first lost pattern, and differently there. */
  lemma FirstLoss(t: string, q: nat)
    requires !Contains(t, "PLUS")
    requires q < |t| && IsFakeSlash(t[q..]) && forall i :: 0 <= i < q ==> !IsFakeSlash(t[i..])
    ensures var back := Unescaped(Escaped(t));
            && |back| > q && back[..q] == t[..q]
            && back[q] == if t[q] == 'S' then '/' else 'P'
    ensures t[q] in "S+"
  {
    var y := UnescapeSlash(Escaped(t[q..]));
    assert t == t[..q] + t[q..];
    SlashUndoneBefore(t[..q], t[q..]);
    FakeSlashRead(t[q..]);
    if Contains(t[..q], "PLUS") {
      ContainedPrefix(t[..q], t[q..], "PLUS");
      assert false;
    }
    PlusUndoneBefore(t[..q], y);
    assert t[q..][0] == t[q];
  }

  // ----- The digits and the bytes -----

  lemma {:induction false} CharsTake(d: seq<Base64.Sextet>, q: nat)
    requires q <= |d|
    ensures Base64.Chars(d)[..q] == Base64.Chars(d[..q])
  {
    if q > 0 {
      CharsTake(d[1..], q - 1);
      assert d[..q][1..] == d[1..][..q - 1];
    }
  }

  /** Digits that agree up to the third of a group, and differ there, make bytes that differ in its second. */
  lemma {:induction false} BytesDiffer(d: seq<Base64.Sextet>, e: seq<Base64.Sextet>, k: nat)
    requires 4 * k + 2 < |d| && 4 * k + 2 < |e| && forall i :: 0 <= i < 4 * k + 2 ==> d[i] == e[i]
    requires d[4 * k + 2] / 4 != e[4 * k + 2] / 4
    ensures var b, c, p := Base64.FromDigits(d), Base64.FromDigits(e), 3 * k + 1;
            p < |b| && p < |c| && b[..p] == c[..p] && b[p] != c[p]
  {
    if k == 0 {
      SecondByte(d, e);
    } else {
      var b, c := Base64.FromDigits(d[4..]), Base64.FromDigits(e[4..]);
      BytesDiffer(d[4..], e[4..], k - 1);
      NextBytes(d);
      NextBytes(e);
      SameFront(ThreeBytes(d[0], d[1], d[2], d[3]), b, c, 3 * (k - 1) + 1);
    }
  }

  lemma SecondByte(d: seq<Base64.Sextet>, e: seq<Base64.Sextet>)
    requires |d| > 2 && |e| > 2 && d[0] == e[0] && d[1] == e[1] && d[2] / 4 != e[2] / 4
    ensures var b, c := Base64.FromDigits(d), Base64.FromDigits(e);
            1 < |b| && 1 < |c| && b[..1] == c[..1] && b[1] != c[1]
  {
    var b, c := Base64.FromDigits(d), Base64.FromDigits(e);
    assert b[..1] == [b[0]] && c[..1] == [c[0]];
  }

  function ThreeBytes(d0: Base64.Sextet, d1: Base64.Sextet, d2: Base64.Sextet, d3: Base64.Sextet): Bytes {
    var x0: int, x1: int, x2: int, x3: int := d0, d1, d2, d3;
    [x0 * 4 + x1 / 16, x1 % 16 * 16 + x2 / 4, x2 % 4 * 64 + x3]
  }

  lemma NextBytes(d: seq<Base64.Sextet>)
    requires |d| > 3
    ensures Base64.FromDigits(d) == ThreeBytes(d[0], d[1], d[2], d[3]) + Base64.FromDigits(d[4..])
  {
  }

  lemma SameFront(front: Bytes, b: Bytes, c: Bytes, p: nat)
    requires p < |b| && p < |c| && b[..p] == c[..p] && b[p] != c[p]
    ensures var i := |front| + p; (front + b)[..i] == (front + c)[..i] && (front + b)[i] != (front + c)[i]
  {
    assert (front + b)[..|front| + p] == front + b[..p];
    assert (front + c)[..|front| + p] == front + c[..p];
  }

  /** The digits of a text that starts like the text of some digits and goes on with another digit. */
  lemma ReadDigits(d: seq<Base64.Sextet>, q: nat, back: string, c: char, x: Base64.Sextet)
    requires q < |d| && q < |back| && back[..q] == Base64.Chars(d)[..q] && back[q] == c
    requires Base64.CharDigit(c) == Some(x)
    ensures var e := Base64.LegalDigits(back);
            q < |e| && e[q] == x && forall i :: 0 <= i < q ==> e[i] == d[i]
  {
    CharsTake(d, q);
    assert back == Base64.Chars(d[..q]) + ([c] + back[q + 1..]);
    ReadFirst(d[..q], c, x, back[q + 1..]);
  }

  lemma ReadFirst(d: seq<Base64.Sextet>, c: char, x: Base64.Sextet, rest: string)
    requires Base64.CharDigit(c) == Some(x)
    ensures Base64.LegalDigits(Base64.Chars(d) + ([c] + rest)) == d + ([x] + Base64.LegalDigits(rest))
  {
    LegalFront(d, [c] + rest);
    LegalFirst(c, x, rest);
  }

  lemma LegalFront(d: seq<Base64.Sextet>, rest: string)
    ensures Base64.LegalDigits(Base64.Chars(d) + rest) == d + Base64.LegalDigits(rest)
  {
    Base64.CharsRoundTrip(d);
    Base64.LegalConcat(Base64.Chars(d), rest);
  }

  lemma LegalFirst(c: char, x: Base64.Sextet, rest: string)
    requires Base64.CharDigit(c) == Some(x)
    ensures Base64.LegalDigits([c] + rest) == [x] + Base64.LegalDigits(rest)
  {
    assert ([c] + rest)[1..] == rest;
  }

  /** The bytes agree up to a position, and differ there in front of the byte 0x8B. */
  predicate LeavesAt(b: Bytes, c: Bytes, p: nat) {
    p + 1 < |b| && p < |c| && b[..p] == c[..p] && b[p] != c[p] && b[p + 1] == 0x8B
  }

  /** A text that is read back up to a lost pattern, and differently there. */
  predicate IsLostAt(t: string, back: string, q: nat) {
    && q < |t| && q < |back| && back[..q] == t[..q] && t[q] in "S+"
    && back[q] == if t[q] == 'S' then '/' else 'P'
  }

  lemma LostText(s: string) returns (k: nat)
    requires !Escapable(B64Text(s))
    ensures Collides(Utf8.Encode(s), k)
    ensures IsLostAt(B64Text(s), Unescaped(Escaped(B64Text(s))), 4 * k + 2)
  {
    NoPlus(s);
    var q := FirstFakeSlash(B64Text(s));
    FirstLoss(B64Text(s), q);
    FakeSlashAt(s, q);
    k := q / 4;
    assert q == 4 * k + 2;
  }

  lemma LostGroup(d: seq<Base64.Sextet>, k: nat, back: string)
    requires IsLostAt(Base64.Chars(d), back, 4 * k + 2)
    ensures var b, c, p := Base64.FromDigits(d), Base64.Decode(back), 3 * k + 1;
            p < |b| && p < |c| && b[..p] == c[..p] && b[p] != c[p]
  {
    var q := 4 * k + 2;
    CharsAt(d, q);
    var x := if Base64.Chars(d)[q] == 'S' then 63 else 15;
    ReadDigits(d, q, back, back[q], x);
    LostDigit(d[q], Base64.Chars(d)[q], x);
    BytesDiffer(d, Base64.LegalDigits(back), k);
  }

  /** The bytes of a lost text and the bytes that it is read back as. */
  lemma LostBytes(b: Bytes, k: nat, back: string)
    requires IsLostAt(Base64.Text(b), back, 4 * k + 2) && Collides(b, k)
    ensures LeavesAt(b, Base64.Decode(back), 3 * k + 1)
  {
    LostGroup(Base64.Digits(b), k, back);
    Base64.DigitsRoundTrip(b);
  }

  lemma LostDigit(d: Base64.Sextet, c: char, x: Base64.Sextet)
    requires Base64.DigitChar(d) == c && c in "S+" && x == if c == 'S' then 63 else 15
    ensures d / 4 != x / 4
  {
    SameDigit(d, 18);
    SameDigit(d, 62);
  }

  // ----- The characters -----

  /** A text agrees with a string up to a character, and differs there; the character is no U+FFFD. */
  predicate PartsAt(s: string, w: string, j: nat) {
    && j < |s| && s[..j] <= w && !(s[..j + 1] <= w)
    && s[j] as int >= 0x80 && s[j] != Utf8.REPLACEMENT
  }

  /** Bytes that leave the encoding of a string within a character are read differently there. */
  lemma {:induction false} CharDiffers(s: string, c: Bytes, p: nat) returns (j: nat)
    requires LeavesAt(Utf8.Encode(s), c, p)
    ensures PartsAt(s, Utf8.Decode(c), j)
  {
    var head, rest := Utf8.EncodeChar(s[0]), Utf8.Encode(s[1..]);
    var n := |head|;
    if p < n {
      FirstCharDiffers(s[0], s[1..], c, p);
      assert s == [s[0]] + s[1..];
      j := 0;
    } else {
      PastFront(head, rest, c, p);
      Utf8.DecodeFront(s[0], c[n..]);
      j := CharDiffers(s[1..], c[n..], p - n);
      PartsLater(s, Utf8.Decode(c[n..]), j);
      j := j + 1;
    }
  }

  lemma PastFront(head: Bytes, rest: Bytes, c: Bytes, p: nat)
    requires |head| <= p && LeavesAt(head + rest, c, p)
    ensures c == head + c[|head|..] && LeavesAt(rest, c[|head|..], p - |head|)
  {
    assert c[..|head|] == c[..p][..|head|] == (head + rest)[..p][..|head|];
    assert c[|head|..][..p - |head|] == c[..p][|head|..];
    assert rest[..p - |head|] == (head + rest)[..p][|head|..];
  }

  lemma PartsLater(s: string, rest: string, j: nat)
    requires s != "" && PartsAt(s[1..], rest, j)
    ensures PartsAt(s, [s[0]] + rest, j + 1)
  {
    var w := [s[0]] + rest;
    assert s[..j + 1] == [s[0]] + s[1..][..j];
    assert s[..j + 2] == [s[0]] + s[1..][..j + 1];
    PrefixStep(s[..j + 2], w);
  }

  lemma PartsForGood(s: string, w: string, j: nat)
    requires PartsAt(s, w, j)
    ensures !(s <= w)
  {
    assert s[..j + 1] <= s;
  }

  lemma FirstCharDiffers(a: char, s: string, c: Bytes, p: nat)
    requires p < |Utf8.EncodeChar(a)| && LeavesAt(Utf8.EncodeChar(a) + Utf8.Encode(s), c, p)
    ensures PartsAt([a] + s, Utf8.Decode(c), 0)
  {
    StartsCharacter(s);
    InsideCharacter(a, Utf8.Encode(s), c, p);
    Utf8.DecodeStep(c);
    assert ([a] + s)[..1] == [a];
  }

  lemma InsideCharacter(a: char, rest: Bytes, c: Bytes, p: nat)
    requires p < |Utf8.EncodeChar(a)| && LeavesAt(Utf8.EncodeChar(a) + rest, c, p)
    requires rest == [] || !Utf8.IsContinuation(rest[0])
    ensures a as int >= 0x80 && a != Utf8.REPLACEMENT && Utf8.DecodeOne(c).0 != a
  {
    var head := Utf8.EncodeChar(a);
    Utf8.CharShape(a);
    assert (head + rest)[p + 1] == head[p + 1];
    if Utf8.DecodeOne(c).0 == a {
      Utf8.DecodedOneEncodes(c);
      assert false;
    }
  }

  lemma StartsCharacter(s: string)
    ensures Utf8.Encode(s) == [] || !Utf8.IsContinuation(Utf8.Encode(s)[0])
  {
    if s != "" {
      Utf8.CharShape(s[0]);
    }
  }

  // ----- b64Encode and b64Decode -----

  /** A lost string is not even the beginning of what is read back. */
  lemma LostParts(s: string) returns (j: nat)
    requires !Escapable(B64Text(s))
    ensures PartsAt(s, B64Decode(B64Encode(s)), j) && !(s <= B64Decode(B64Encode(s)))
  {
    B64EncodeAlphanumeric(s);
    var k := LostText(s);
    LostBytes(Utf8.Encode(s), k, Unescaped(B64Encode(s)));
    j := CharDiffers(s, Base64.Decode(Unescaped(B64Encode(s))), 3 * k + 1);
    PartsForGood(s, B64Decode(B64Encode(s)), j);
  }

  /** The encoding is undone exactly when its base64 text is escapable. */
  lemma B64Exact(s: string)
    ensures B64Decode(B64Encode(s)) == s <==> Escapable(B64Text(s))
  {
    if Escapable(B64Text(s)) {
      B64RoundTrip(s);
    } else {
      var j := LostParts(s);
    }
  }
}
