/**
 How a variable name is written for translators and read back:
 `E_` for a leading `=`, `VAR_`, a readable form of the name, `_B64_`, and the name in escaped base64.
 */
module NameCodec {
  import opened Common
  import opened Texts
  import opened Escape
  import opened FirstDifference
  import Base64
  import Utf8

  datatype Error = MissingPrefix | WrongParts

  const EQUAL_PREFIX := "E_"
  const VAR_PREFIX := "VAR_"
  const B64_PREFIX := "_B64_"

  predicate IsWordChar(c: char) {
    IsAlphanumeric(c) || c == '_'
  }

  function StripOthers(s: string): (r: string)
    ensures forall c :: c in r ==> IsWordChar(c)
  {
    if s == "" then "" else (if IsWordChar(s[0]) then [s[0]] else "") + StripOthers(s[1..])
  }

  function ToUpper(s: string): (r: string)
    requires forall c :: c in s ==> IsWordChar(c)
    ensures forall c :: c in r ==> IsWordChar(c)
  {
    if s == "" then ""
    else
      assert s[0] in s;
      [if 'a' <= s[0] <= 'z' then s[0] - 'a' + 'A' else s[0]] + ToUpper(s[1..])
  }

  /** What stands before a name that is read from its delimiter on. */
  const EARLY := "\U{0007}\U{FFFD}?"

  /** The readable form: spaces become underscores, other characters are dropped, letters are upper case. */
  function Sanitized(name: string): (r: string)
    ensures forall c :: c in r ==> IsWordChar(c)
  {
    ToUpper(StripOthers(ReplaceAll(name, " ", "_")))
  }

  predicate HasEqual(varName: string) {
    "=" <= varName
  }

  /** The name without the leading `=`. */
  function BareName(varName: string): string {
    if HasEqual(varName) then varName[1..] else varName
  }

  /** The parts of an encoded name, put together. */
  function Assembled(equal: bool, readable: string, b64: string): string {
    (if equal then EQUAL_PREFIX else "") + VAR_PREFIX + readable + B64_PREFIX + b64
  }

  function EncodeVarName(varName: string): string {
    var name := BareName(varName);
    Assembled(HasEqual(varName), Sanitized(name), B64Encode(name))
  }

  /** Takes the prefixes off: whether there was a leading `=`, and the rest. */
  function Payload(encoded: string): Result<(bool, string), Error> {
    var equal := EQUAL_PREFIX <= encoded;
    var data := if equal then encoded[|EQUAL_PREFIX|..] else encoded;
    if VAR_PREFIX <= data then Ok((equal, data[|VAR_PREFIX|..])) else Err(MissingPrefix)
  }

  function DecodeVarName(encoded: string): Result<string, Error> {
    match Payload(encoded)
    case Err(e) => Err(e)
    case Ok((equal, data)) =>
      var parts := Split(data, B64_PREFIX);
      if |parts| != 2 then Err(WrongParts)
      else Ok((if equal then "=" else "") + B64Decode(parts[1]))
  }

  /**
   The readable form neither holds the delimiter nor ends in a beginning of it that the delimiter's own
   first character completes.
   */
  predicate Delimited(sanitized: string) {
    !Contains(sanitized, B64_PREFIX) && !EndsWith(sanitized, "_B64")
  }

  /** What a name must satisfy to be read back. */
  predicate NameOk(varName: string) {
    Delimited(Sanitized(BareName(varName))) && Escapable(B64Text(BareName(varName)))
  }

  // ----- The delimiter -----

  /** Inside the delimiter only its last character is its first. */
  lemma StraddlingDelimiter(a: string, t: string, i: nat)
    requires a <= t && i < |a| < i + 5 <= |t| && t[|a|] == '_' && t[i..i + 5] == B64_PREFIX
    ensures i + 4 == |a| && EndsWith(a, "_B64")
  {
    var u := t[i..i + 5];
    assert u[|a| - i] == t[|a|];
    assert u[1] == 'B' && u[2] == '6' && u[3] == '4';
    assert a[i..] == u[..4];
  }

  /** A delimiter that ends within a piece at the front is a delimiter of that piece. */
  lemma InnerDelimiter(a: string, t: string, i: nat)
    requires a <= t && i + 5 <= |a| && B64_PREFIX <= t[i..]
    ensures Contains(a, B64_PREFIX)
  {
    assert a[i..][..5] == t[i..][..5];
    ContainedAt(a, B64_PREFIX, i);
  }

  /** The delimiter is found early either inside the readable form or completed by its own first character. */
  lemma EarlyDelimiter(a: string, b: string, i: nat)
    requires i < |a| && B64_PREFIX <= (a + B64_PREFIX + b)[i..]
    ensures Contains(a, B64_PREFIX) || EndsWith(a, "_B64")
  {
    var t := a + B64_PREFIX + b;
    if i + 5 <= |a| {
      InnerDelimiter(a, t, i);
    } else {
      assert t[i..i + 5] == t[i..][..5] == B64_PREFIX;
      StraddlingDelimiter(a, t, i);
    }
  }

  lemma SplitDelimited(a: string, b: string)
    requires '_' !in b && Delimited(a)
    ensures Split(a + B64_PREFIX + b, B64_PREFIX) == [a, b]
  {
    forall i | 0 <= i < |a|
      ensures !(B64_PREFIX <= (a + B64_PREFIX + b)[i..])
    {
      if B64_PREFIX <= (a + B64_PREFIX + b)[i..] {
        EarlyDelimiter(a, b, i);
        assert false;
      }
    }
    SplitFirst(a, B64_PREFIX, b);
    ContainsNeedsFirst(b, B64_PREFIX);
    SplitNone(b, B64_PREFIX);
  }

  /** When the readable form ends in `_B64`, the delimiter is found four characters early. */
  lemma SplitEarly(p: string, b: string)
    requires '_' !in b && !Contains(p + "_B64", B64_PREFIX)
    ensures Split(p + B64_PREFIX + ("B64_" + b), B64_PREFIX) == [p, "B64_" + b]
  {
    var t := p + B64_PREFIX + ("B64_" + b);
    assert t == (p + "_B64") + ("_" + ("B64_" + b));
    forall i | 0 <= i < |p|
      ensures !(B64_PREFIX <= t[i..])
    {
      NoInnerDelimiter(p + "_B64", t, i);
    }
    SplitFirst(p, B64_PREFIX, "B64_" + b);
    NoDelimiterInRest(b);
    SplitNone("B64_" + b, B64_PREFIX);
  }

  lemma NoInnerDelimiter(a: string, t: string, i: nat)
    requires a <= t && i + 5 <= |a| && !Contains(a, B64_PREFIX)
    ensures !(B64_PREFIX <= t[i..])
  {
    if B64_PREFIX <= t[i..] {
      InnerDelimiter(a, t, i);
      assert false;
    }
  }

  /** The delimiter has underscores four characters apart. */
  lemma {:induction false} NoUnderscorePair(s: string)
    requires forall i :: 0 <= i < |s| - 4 ==> s[i] != '_' || s[i + 4] != '_'
    ensures !Contains(s, B64_PREFIX)
  {
    assert B64_PREFIX[0] == '_' && B64_PREFIX[4] == '_';
    if |s| >= 5 {
      assert s[0] != '_' || s[0 + 4] != '_';
    }
    if s != "" {
      NoUnderscorePair(s[1..]);
    }
  }

  lemma NoDelimiterInRest(b: string)
    requires '_' !in b
    ensures !Contains("B64_" + b, B64_PREFIX)
  {
    NoUnderscorePair("B64_" + b);
  }

  // ----- Reading a name back -----

  lemma PayloadAssembled(equal: bool, readable: string, b64: string)
    ensures Payload(Assembled(equal, readable, b64)) == Ok((equal, readable + B64_PREFIX + b64))
  {
    var tail := readable + B64_PREFIX + b64;
    var data := VAR_PREFIX + tail;
    var e := Assembled(equal, readable, b64);
    assert data[|VAR_PREFIX|..] == tail;
    if equal {
      assert e == EQUAL_PREFIX + data;
      assert e[|EQUAL_PREFIX|..] == data;
    } else {
      assert e == data;
      assert e[0] == 'V';
    }
  }

  /** The text `B64_` in front of an encoded name is read as three bytes, one of which is not UTF-8. */
  lemma EarlyPartRead(t: string)
    ensures B64Decode("B64_" + t) == EARLY + B64Decode(t)
  {
    var rest := Unescaped(t);
    PassesAll("B64_", t, "SLASH", "/");
    PassesAll("B64_", UnescapeSlash(t), "PLUS", "+");
    LegalHead(rest);
    var d := Base64.LegalDigits(rest);
    assert ([1, 58, 56, 63] + d)[4..] == d;
    IllFormedHead(Base64.FromDigits(d));
  }

  lemma IllFormedHead(rest: Bytes)
    ensures Utf8.Decode([7, 174, 63] + rest) == EARLY + Utf8.Decode(rest)
  {
    var b: Bytes := [7, 174, 63] + rest;
    var c: Bytes := [174, 63] + rest;
    var d: Bytes := [63] + rest;
    assert b[1..] == c && c[1..] == d && d[1..] == rest;
    assert Utf8.DecodeOne(b) == (7 as char, 1);
    assert Utf8.DecodeOne(c) == (Utf8.REPLACEMENT, 1);
    assert Utf8.DecodeOne(d) == ('?', 1);
    Utf8.DecodeStep(b);
    Utf8.DecodeStep(c);
    Utf8.DecodeStep(d);
  }

  lemma LegalHead(rest: string)
    ensures Base64.LegalDigits("B64_" + rest) == [1, 58, 56, 63] + Base64.LegalDigits(rest)
  {
    var t1 := "_" + rest;
    var t2 := "4" + t1;
    var t3 := "6" + t2;
    assert "B64_" + rest == "B" + t3;
    assert t1[1..] == rest && t2[1..] == t1 && t3[1..] == t2 && ("B" + t3)[1..] == t3;
    assert Base64.LegalDigits(t1) == [63] + Base64.LegalDigits(rest);
    assert Base64.LegalDigits(t2) == [56] + Base64.LegalDigits(t1);
    assert Base64.LegalDigits(t3) == [58] + Base64.LegalDigits(t2);
  }

  /** The three ways of reading an encoded name, decided by its readable form. */
  lemma DecodeCases(varName: string)
    ensures var name := BareName(varName);
            var equal := if HasEqual(varName) then "=" else "";
            DecodeVarName(EncodeVarName(varName)) ==
            if Contains(Sanitized(name), B64_PREFIX) then Err(WrongParts)
            else if EndsWith(Sanitized(name), "_B64") then Ok(equal + B64Decode("B64_" + B64Encode(name)))
            else Ok(equal + B64Decode(B64Encode(name)))
  {
    var name := BareName(varName);
    B64EncodeAlphanumeric(name);
    Cases(HasEqual(varName), Sanitized(name), B64Encode(name));
  }

  lemma Cases(equal: bool, readable: string, b64: string)
    requires '_' !in b64
    ensures DecodeVarName(Assembled(equal, readable, b64)) ==
            if Contains(readable, B64_PREFIX) then Err(WrongParts)
            else if EndsWith(readable, "_B64") then Ok((if equal then "=" else "") + B64Decode("B64_" + b64))
            else Ok((if equal then "=" else "") + B64Decode(b64))
  {
    PayloadAssembled(equal, readable, b64);
    FoundParts(readable, b64);
  }

  /** The parts that the reader finds. */
  lemma FoundParts(readable: string, b64: string)
    requires '_' !in b64
    ensures var parts := Split(readable + B64_PREFIX + b64, B64_PREFIX);
            if Contains(readable, B64_PREFIX) then |parts| > 2
            else |parts| == 2 && parts[1] == if EndsWith(readable, "_B64") then "B64_" + b64 else b64
  {
    if Contains(readable, B64_PREFIX) {
      SplitTooMany(readable, B64_PREFIX, b64);
    } else if EndsWith(readable, "_B64") {
      var p := readable[..|readable| - 4];
      assert readable == p + "_B64";
      MovedDelimiter(p, b64);
      SplitEarly(p, b64);
    } else {
      SplitDelimited(readable, b64);
    }
  }

  lemma MovedDelimiter(p: string, b: string)
    ensures (p + "_B64") + B64_PREFIX + b == p + B64_PREFIX + ("B64_" + b)
  {
    assert "_B64" + B64_PREFIX == B64_PREFIX + "B64_";
  }

  /** A name that meets the two conditions is read back as it was, the leading `=` included. */
  lemma NameRoundTrip(varName: string)
    requires NameOk(varName)
    ensures DecodeVarName(EncodeVarName(varName)) == Ok(varName)
  {
    var name := BareName(varName);
    DecodeCases(varName);
    B64RoundTrip(name);
    assert varName == (if HasEqual(varName) then "=" else "") + name;
  }

  /** The reader throws on an encoded name exactly when its readable form holds the delimiter. */
  lemma NameThrows(varName: string)
    ensures DecodeVarName(EncodeVarName(varName)).Err? <==> Contains(Sanitized(BareName(varName)), B64_PREFIX)
  {
    DecodeCases(varName);
  }

  /** A string that starts like a text put before what the string starts like repeats that text. */
  lemma {:induction false} Repeats(s: string, x: string, w: string, k: nat, i: nat)
    requires x != "" && s <= x + w && k <= |s| && s[..k] <= w && i < |s| && i < k + |x|
    ensures s[i] in x
    decreases i
  {
    assert s[i] == (x + w)[i];
    if i >= |x| {
      assert s[i] == w[i - |x|] == s[..k][i - |x|];
      Repeats(s, x, w, k, i - |x|);
    }
  }

  lemma {:induction false} StripAll(s: string)
    requires forall c :: c in s ==> !IsWordChar(c)
    ensures StripOthers(s) == ""
  {
    if s != "" {
      assert s[0] in s;
      StripAll(s[1..]);
    }
  }

  /** Text that no name is made of, and that no lost character is in. */
  predicate IsForeign(x: string) {
    && x != "" && ' ' !in x
    && forall c :: c in x ==> !IsWordChar(c) && (c as int < 0x80 || c == Utf8.REPLACEMENT)
  }

  lemma NotEarlyKept(name: string, x: string)
    requires Sanitized(name) != "" && IsForeign(x)
    ensures !(name <= x + name)
  {
    if name <= x + name {
      forall i | 0 <= i < |name|
        ensures name[i] in x
      {
        Repeats(name, x, name, |name|, i);
      }
      Base64.ReplaceAbsent(name, ' ', "_");
      StripAll(name);
      assert false;
    }
  }

  lemma NotEarlyLost(name: string, x: string, w: string, j: nat)
    requires IsForeign(x) && PartsAt(name, w, j)
    ensures !(name <= x + w)
  {
    if name <= x + w {
      Repeats(name, x, w, j, j);
      assert false;
    }
  }

  /** A name is never the beginning of what stands early and what the name is read back as. */
  lemma NotEarly(name: string)
    requires Sanitized(name) != ""
    ensures !(name <= EARLY + B64Decode(B64Encode(name)))
  {
    assert IsForeign(EARLY);
    if Escapable(B64Text(name)) {
      B64RoundTrip(name);
      NotEarlyKept(name, EARLY);
    } else {
      var j := LostParts(name);
      NotEarlyLost(name, EARLY, B64Decode(B64Encode(name)), j);
    }
  }

  /** A name that is read from its delimiter on comes back behind three characters that it does not have. */
  lemma EarlyName(varName: string)
    requires var name := BareName(varName);
             && EndsWith(Sanitized(name), "_B64") && !Contains(Sanitized(name), B64_PREFIX)
             && Escapable(B64Text(name))
    ensures DecodeVarName(EncodeVarName(varName)) ==
            Ok((if HasEqual(varName) then "=" else "") + (EARLY + BareName(varName)))
  {
    DecodeCases(varName);
    EarlyPartRead(B64Encode(BareName(varName)));
    B64RoundTrip(BareName(varName));
  }

  /**
   A name that breaks a condition is not read back: the reader throws, or the name is not even the
   beginning of what it shows.
   */
  lemma NameDiffers(varName: string)
    requires !NameOk(varName)
    ensures var d := DecodeVarName(EncodeVarName(varName)); d.Err? || !(varName <= d.value)
  {
    var name := BareName(varName);
    var equal, w := if HasEqual(varName) then "=" else "", B64Decode(B64Encode(name));
    DecodeCases(varName);
    assert varName == equal + name;
    if EndsWith(Sanitized(name), "_B64") {
      EarlyPartRead(B64Encode(name));
      NotEarly(name);
      SamePrefix(equal, name, EARLY + w);
    } else if !Contains(Sanitized(name), B64_PREFIX) {
      var j := LostParts(name);
      SamePrefix(equal, name, w);
    }
  }

  lemma SamePrefix(front: string, s: string, t: string)
    ensures front + s <= front + t <==> s <= t
  {
    if front + s <= front + t {
      assert s == (front + s)[|front|..] == (front + t)[..|front + s|][|front|..] == t[..|s|];
    }
  }

  /** The two conditions are also necessary. */
  lemma NameExact(varName: string)
    ensures DecodeVarName(EncodeVarName(varName)) == Ok(varName) <==> NameOk(varName)
  {
    if NameOk(varName) {
      NameRoundTrip(varName);
    } else {
      NameDiffers(varName);
    }
  }

  /** An encoded name holds no brace, and it holds the delimiter. */
  lemma EncodedNameShape(varName: string)
    ensures '{' !in EncodeVarName(varName) && '}' !in EncodeVarName(varName)
    ensures Contains(EncodeVarName(varName), B64_PREFIX)
  {
    var name := BareName(varName);
    B64EncodeAlphanumeric(name);
    AssembledShape(HasEqual(varName), Sanitized(name), B64Encode(name));
  }

  lemma AssembledShape(equal: bool, readable: string, b64: string)
    requires forall c :: c in readable || c in b64 ==> IsWordChar(c)
    ensures '{' !in Assembled(equal, readable, b64) && '}' !in Assembled(equal, readable, b64)
    ensures Contains(Assembled(equal, readable, b64), B64_PREFIX)
  {
    var head := (if equal then EQUAL_PREFIX else "") + VAR_PREFIX + readable;
    assert Assembled(equal, readable, b64) == head + (B64_PREFIX + b64);
    ContainedSuffix(head, B64_PREFIX + b64, B64_PREFIX);
  }

  // ----- Any text at all -----

  /** The base64 reader undoes SLASH first and PLUS second, in any text. */
  lemma ReadsBase64(data: string)
    ensures B64Decode(data) ==
            Utf8.Decode(Base64.Decode(ReplaceAll(ReplaceAll(data, "SLASH", "/"), "PLUS", "+")))
  {
  }

  /** A text without the prefix, or with another number of delimiters than one, makes the reader throw. */
  lemma ReaderThrows(encoded: string)
    ensures var data := if "E_" <= encoded then encoded[2..] else encoded;
            && (DecodeVarName(encoded) == Err(MissingPrefix) <==> !("VAR_" <= data))
            && (DecodeVarName(encoded) == Err(WrongParts) <==> "VAR_" <= data && |Split(data[4..], "_B64_")| != 2)
  {
    assert EQUAL_PREFIX == "E_" && |EQUAL_PREFIX| == 2 && VAR_PREFIX == "VAR_" && |VAR_PREFIX| == 4;
  }

  /** Of any other text the reader takes what stands behind the delimiter. */
  lemma ReaderTakes(equal: bool, readable: string, b64: string)
    requires !Contains(b64, "_B64_")
    requires forall i :: 0 <= i < |readable| ==> !("_B64_" <= (readable + "_B64_" + b64)[i..])
    ensures DecodeVarName((if equal then "E_" else "") + "VAR_" + readable + "_B64_" + b64) ==
            Ok((if equal then "=" else "") + B64Decode(b64))
  {
    assert EQUAL_PREFIX == "E_" && VAR_PREFIX == "VAR_" && B64_PREFIX == "_B64_";
    PayloadAssembled(equal, readable, b64);
    SplitFirst(readable, B64_PREFIX, b64);
    SplitNone(b64, B64_PREFIX);
  }
}
