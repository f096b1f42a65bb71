/**
 The escape on top of base64: `/` is written SLASH and `+` is written PLUS, and the reader undoes
 SLASH first. The escape is not injective, and this module says exactly when it can be undone.
 */
module Escape {
  import opened Texts
  import Base64
  import Utf8

  function EscapeSlash(t: string): string {
    ReplaceAll(t, "/", "SLASH")
  }

  function EscapePlus(t: string): string {
    ReplaceAll(t, "+", "PLUS")
  }

  function Escaped(t: string): string {
    EscapePlus(EscapeSlash(t))
  }

  function UnescapeSlash(t: string): string {
    ReplaceAll(t, "SLASH", "/")
  }

  function UnescapePlus(t: string): string {
    ReplaceAll(t, "PLUS", "+")
  }

  function Unescaped(t: string): string {
    UnescapePlus(UnescapeSlash(t))
  }

  /**
   The text holds nothing that, once escaped, reads as an escape it did not have: `+LASH` becomes
   PLUSLASH, which ends in SLASH.
   */
  predicate Escapable(t: string) {
    !Contains(t, "SLASH") && !Contains(t, "+LASH") && !Contains(t, "PLUS")
  }

  // ----- Escaping goes character by character -----

  function EscapedChar(c: char): string {
    if c == '/' then "SLASH" else if c == '+' then "PLUS" else [c]
  }

  lemma ReplaceOne(c: char, d: char, replacement: string)
    ensures ReplaceAll([c], [d], replacement) == if c == d then replacement else [c]
  {
    if c == d {
      assert [c][1..] == "";
      assert ReplaceAll([c], [d], replacement) == replacement + "";
    } else {
      Base64.ReplaceAbsent([c], d, replacement);
    }
  }

  lemma EscapedStep(c: char, t: string)
    ensures EscapePlus([c] + t) == (if c == '+' then "PLUS" else [c]) + EscapePlus(t)
    ensures Escaped([c] + t) == EscapedChar(c) + Escaped(t)
  {
    ReplaceCharSplits([c], t, '/', "SLASH");
    ReplaceOne(c, '/', "SLASH");
    ReplaceCharSplits([c], t, '+', "PLUS");
    ReplaceOne(c, '+', "PLUS");
    var head := if c == '/' then "SLASH" else [c];
    ReplaceCharSplits(head, EscapeSlash(t), '+', "PLUS");
    Base64.ReplaceAbsent("SLASH", '+', "PLUS");
  }

  lemma PrefixStep(w: string, t: string)
    requires w != "" && t != ""
    ensures w <= t <==> w[0] == t[0] && w[1..] <= t[1..]
  {
    assert w == [w[0]] + w[1..] && t == [t[0]] + t[1..];
  }

  /** No escape looks like an end of SLASH, so what follows an S is read as it stood in the text. */
  lemma {:induction false} LashKept(w: string, t: string)
    requires w in ["LASH", "ASH", "SH", "H", ""]
    ensures w <= Escaped(t) <==> w <= t
  {
    if w != "" && t != "" {
      var c, r := t[0], t[1..];
      assert t == [c] + r;
      EscapedStep(c, r);
      LashKept(w[1..], r);
      PrefixStep(w, Escaped(t));
      PrefixStep(w, t);
      if c == '/' {
        assert Escaped(t)[0] == 'S' && Escaped(t)[1] == 'L';
      } else if c == '+' {
        assert Escaped(t)[0] == 'P';
      } else {
        assert Escaped(t)[1..] == Escaped(r);
      }
    }
  }

  lemma {:induction false} LusKept(w: string, t: string)
    requires w in ["LUS", "US", "S", ""]
    ensures w <= EscapePlus(t) <==> w <= t
  {
    if w != "" && t != "" {
      var c, r := t[0], t[1..];
      assert t == [c] + r;
      EscapedStep(c, r);
      LusKept(w[1..], r);
      PrefixStep(w, EscapePlus(t));
      PrefixStep(w, t);
      if c == '+' {
        assert EscapePlus(t)[0] == 'P';
      } else {
        assert EscapePlus(t)[1..] == EscapePlus(r);
      }
    }
  }

  // ----- Undoing the escapes -----

  /** A replacement passes over a character at which the pattern does not start. */
  lemma Passes(c: char, t: string, pattern: string, replacement: string)
    requires pattern != "" && (pattern[0] != c || !(pattern[1..] <= t))
    ensures ReplaceAll([c] + t, pattern, replacement) == [c] + ReplaceAll(t, pattern, replacement)
  {
    PrefixStep(pattern, [c] + t);
    assert ([c] + t)[1..] == t;
    if |t| + 1 < |pattern| {
      assert ReplaceAll(t, pattern, replacement) == t;
    }
  }

  /** A replacement passes over a piece without the first character of its pattern. */
  lemma {:induction false} PassesAll(w: string, t: string, pattern: string, replacement: string)
    requires pattern != "" && pattern[0] !in w
    ensures ReplaceAll(w + t, pattern, replacement) == w + ReplaceAll(t, pattern, replacement)
  {
    if w == "" {
      assert w + t == t;
    } else {
      assert w + t == [w[0]] + (w[1..] + t);
      Passes(w[0], w[1..] + t, pattern, replacement);
      PassesAll(w[1..], t, pattern, replacement);
    }
  }

  lemma SlashRead(t: string)
    ensures UnescapeSlash("SLASH" + t) == "/" + UnescapeSlash(t)
  {
    assert ("SLASH" + t)[5..] == t;
  }

  /** Text without `/` and `+` is not changed by escaping. */
  lemma {:induction false} PlainEscaped(w: string, t: string)
    requires '/' !in w && '+' !in w
    ensures Escaped(w + t) == w + Escaped(t)
  {
    if w == "" {
      assert w + t == t;
    } else {
      assert w + t == [w[0]] + (w[1..] + t);
      EscapedStep(w[0], w[1..] + t);
      PlainEscaped(w[1..], t);
    }
  }

  /** A `/` comes back as itself. */
  lemma ReadSlash(r: string)
    ensures UnescapeSlash(Escaped("/" + r)) == "/" + UnescapeSlash(Escaped(r))
  {
    EscapedStep('/', r);
    SlashRead(Escaped(r));
  }

  /** `SLASH` in the text is read as an escape. */
  lemma ReadFakeSlash(r: string)
    ensures UnescapeSlash(Escaped("SLASH" + r)) == "/" + UnescapeSlash(Escaped(r))
  {
    EscapedStep('S', "LASH" + r);
    PlainEscaped("LASH", r);
    assert "SLASH" + r == ['S'] + ("LASH" + r);
    assert ['S'] + ("LASH" + Escaped(r)) == "SLASH" + Escaped(r);
    SlashRead(Escaped(r));
  }

  /** `+LASH` in the text is read as PLU and an escape. */
  lemma ReadFakePlusLash(r: string)
    ensures UnescapeSlash(Escaped("+LASH" + r)) == "PLU/" + UnescapeSlash(Escaped(r))
  {
    EscapedStep('+', "LASH" + r);
    PlainEscaped("LASH", r);
    assert "+LASH" + r == ['+'] + ("LASH" + r);
    assert "PLUS" + ("LASH" + Escaped(r)) == "PLU" + ("SLASH" + Escaped(r));
    PassesAll("PLU", "SLASH" + Escaped(r), "SLASH", "/");
    SlashRead(Escaped(r));
    assert "PLU" + ("/" + UnescapeSlash(Escaped(r))) == "PLU/" + UnescapeSlash(Escaped(r));
  }

  lemma PluSplits(t: string)
    ensures "PLUS" + t == "PLU" + (['S'] + t)
  {
  }

  /** A `+` that LASH does not follow keeps its escape. */
  lemma ReadPlus(r: string)
    requires !("LASH" <= r)
    ensures UnescapeSlash(Escaped("+" + r)) == "PLUS" + UnescapeSlash(Escaped(r))
  {
    var e := Escaped(r);
    EscapedStep('+', r);
    LashKept("LASH", r);
    Passes('S', e, "SLASH", "/");
    PassesAll("PLU", ['S'] + e, "SLASH", "/");
    PluSplits(e);
    PluSplits(UnescapeSlash(e));
  }

  /** Any other character at which SLASH does not start is passed over. */
  lemma ReadOther(c: char, r: string)
    requires c != '/' && c != '+' && (c != 'S' || !("LASH" <= r))
    ensures UnescapeSlash(Escaped([c] + r)) == [c] + UnescapeSlash(Escaped(r))
  {
    EscapedStep(c, r);
    LashKept("LASH", r);
    Passes(c, Escaped(r), "SLASH", "/");
  }

  /** How much of a text the reader takes at once. */
  function Taken(t: string): (n: nat)
    requires t != ""
    ensures n <= |t|
  {
    if t[0] != '/' && ("+LASH" <= t || "SLASH" <= t) then 5 else 1
  }

  /** What the reader sees in place of the characters it took. */
  function Read(t: string): string
    requires t != ""
  {
    if "+LASH" <= t then "PLU/" else if t[0] == '+' then "PLUS" else if "SLASH" <= t then "/" else [t[0]]
  }

  /** How the reader sees an escaped text, from its first character on. */
  lemma ReadBack(t: string)
    requires t != ""
    ensures UnescapeSlash(Escaped(t)) == Read(t) + UnescapeSlash(Escaped(t[Taken(t)..]))
  {
    var c, r := t[0], t[1..];
    assert t == [c] + r;
    PrefixStep("+LASH", t);
    PrefixStep("SLASH", t);
    if c == '/' {
      ReadSlash(r);
    } else if "+LASH" <= t {
      assert t == "+LASH" + t[5..];
      ReadFakePlusLash(t[5..]);
    } else if "SLASH" <= t {
      assert t == "SLASH" + t[5..];
      ReadFakeSlash(t[5..]);
    } else if c == '+' {
      ReadPlus(r);
    } else {
      ReadOther(c, r);
    }
  }

  lemma {:induction false} SlashUndone(t: string)
    requires !Contains(t, "SLASH") && !Contains(t, "+LASH")
    ensures UnescapeSlash(Escaped(t)) == EscapePlus(t)
  {
    if t != "" {
      ReadBack(t);
      assert t == [t[0]] + t[1..];
      EscapedStep(t[0], t[1..]);
      SlashUndone(t[1..]);
    }
  }

  lemma {:induction false} PlusUndone(t: string)
    requires !Contains(t, "PLUS")
    ensures UnescapePlus(EscapePlus(t)) == t
  {
    if t != "" {
      var c, r := t[0], t[1..];
      assert t == [c] + r;
      EscapedStep(c, r);
      PlusUndone(r);
      if c == '+' {
        assert ("PLUS" + EscapePlus(r))[4..] == EscapePlus(r);
      } else {
        LusKept("LUS", r);
        PrefixStep("PLUS", [c] + EscapePlus(r));
        PrefixStep("PLUS", t);
        assert ([c] + EscapePlus(r))[1..] == EscapePlus(r);
        Passes(c, EscapePlus(r), "PLUS", "+");
      }
    }
  }

  // ----- Losing characters -----

  /** Reading PLUS in two pieces finds at most as many as reading them joined. */
  lemma {:induction false} PlusJoined(x: string, y: string)
    ensures |UnescapePlus(x + y)| <= |UnescapePlus(x)| + |UnescapePlus(y)|
    decreases |x|
  {
    if x == "" {
      assert x + y == y;
    } else if "PLUS" <= x {
      assert (x + y)[4..] == x[4..] + y;
      PlusJoined(x[4..], y);
    } else if "PLUS" <= x + y {
      var w, rest := "PLUS"[|x|..], y[4 - |x|..];
      assert (x + y)[4..] == rest;
      assert y == w + rest;
      assert w == "LUS" || w == "US" || w == "S";
      PassesAll(w, rest, "PLUS", "+");
    } else {
      assert (x + y)[1..] == x[1..] + y;
      PlusJoined(x[1..], y);
      if |x| >= 4 {
        assert |UnescapePlus(x)| == 1 + |UnescapePlus(x[1..])|;
      }
    }
  }

  /** Escaping and reading back never makes a text longer, and makes every text that is not escapable shorter. */
  lemma {:induction false} ReadBackLength(t: string)
    ensures |Unescaped(Escaped(t))| <= |t|
    ensures !Escapable(t) ==> |Unescaped(Escaped(t))| < |t|
    decreases |t|, 1
  {
    if t != "" {
      var rest := t[Taken(t)..];
      ReadBack(t);
      PlusJoined(Read(t), UnescapeSlash(Escaped(rest)));
      ReadBackLength(rest);
      ReadLength(t);
      if "PLUS" <= t {
        PlusLost(t);
      }
    }
  }

  /** `PLUS` at the front is read as one character, unless its S was already read as part of SLASH. */
  lemma {:induction false} PlusLost(t: string)
    requires "PLUS" <= t
    ensures |Unescaped(Escaped(t))| < |t|
    decreases |t|, 0
  {
    var r := t[4..];
    assert t == ['P'] + (['L'] + (['U'] + (['S'] + r)));
    ReadOther('P', ['L'] + (['U'] + (['S'] + r)));
    ReadOther('L', ['U'] + (['S'] + r));
    ReadOther('U', ['S'] + r);
    var back := UnescapeSlash(Escaped(['S'] + r));
    assert UnescapeSlash(Escaped(t)) == "PLU" + back;
    if "LASH" <= r {
      PrefixStep("SLASH", ['S'] + r);
      PlusJoined("PLU", back);
      ReadBackLength(['S'] + r);
    } else {
      ReadOther('S', r);
      assert "PLU" + back == "PLUS" + UnescapeSlash(Escaped(r));
      PlusJoined("PLUS", UnescapeSlash(Escaped(r)));
      assert "PLUS"[4..] == "";
      ReadBackLength(r);
    }
  }

  lemma ReadLength(t: string)
    requires t != ""
    ensures |UnescapePlus(Read(t))| <= Taken(t)
    ensures "+LASH" <= t || "SLASH" <= t ==> |UnescapePlus(Read(t))| < Taken(t)
  {
    if "+LASH" <= t {
      Passes('/', "", "PLUS", "+");
    } else if t[0] == '+' {
      assert "PLUS"[4..] == "";
    }
  }

  /** The escape can be undone on exactly the texts that hold none of SLASH, +LASH and PLUS. */
  lemma EscapeExact(t: string)
    ensures Unescaped(Escaped(t)) == t <==> Escapable(t)
  {
    if Escapable(t) {
      SlashUndone(t);
      PlusUndone(t);
    } else {
      ReadBackLength(t);
    }
  }

  // ----- b64Encode and b64Decode -----

  function B64Encode(s: string): string {
    Escaped(ReplaceAll(Base64.Encode(Utf8.Encode(s)), "=", ""))
  }

  function B64Decode(data: string): string {
    Utf8.Decode(Base64.Decode(Unescaped(data)))
  }

  /** The base64 text of a string, before it is escaped. */
  function B64Text(s: string): string {
    Base64.Text(Utf8.Encode(s))
  }

  /** A letter or a digit. */
  predicate IsAlphanumeric(c: char) {
    'A' <= c <= 'Z' || 'a' <= c <= 'z' || '0' <= c <= '9'
  }

  lemma {:induction false} EscapedAlphanumeric(t: string)
    requires forall c :: c in t ==> Base64.IsDigitChar(c)
    ensures forall c :: c in Escaped(t) ==> IsAlphanumeric(c)
  {
    if t != "" {
      var c, r := t[0], t[1..];
      assert t == [c] + r;
      EscapedStep(c, r);
      EscapedAlphanumeric(r);
      assert Base64.IsDigitChar(c) by {
        assert c in t;
      }
      assert forall d :: d in EscapedChar(c) ==> IsAlphanumeric(d);
    }
  }

  /** Encoded text is made of letters and digits only, so it holds no brace and no underscore. */
  lemma B64EncodeAlphanumeric(s: string)
    ensures B64Encode(s) == Escaped(B64Text(s))
    ensures forall c :: c in B64Encode(s) ==> IsAlphanumeric(c)
  {
    Base64.PaddingStripped(Utf8.Encode(s));
    EscapedAlphanumeric(B64Text(s));
  }

  lemma B64RoundTrip(s: string)
    requires Escapable(B64Text(s))
    ensures B64Decode(B64Encode(s)) == s
  {
    B64EncodeAlphanumeric(s);
    EscapeExact(B64Text(s));
    Base64.TextRoundTrip(Utf8.Encode(s));
    Utf8.RoundTrip(s);
  }
}
