/** What the readable form of a name looks like, and what the printer makes of a name. */
module ReadableName {
  import opened Texts
  import opened Escape
  import opened NameCodec

  import Base64
  import Utf8

  /** The readable form of one character: nothing for a character that is dropped. */
  function ReadableChar(c: char): string {
    if c == ' ' then "_"
    else if 'a' <= c <= 'z' then [c - 'a' + 'A']
    else if IsWordChar(c) then [c]
    else ""
  }

  function Readable(name: string): string {
    if name == "" then "" else ReadableChar(name[0]) + Readable(name[1..])
  }

  /** The three replacements on the whole name come to one replacement of each character. */
  lemma {:induction false} SanitizedIsReadable(name: string)
    ensures Sanitized(name) == Readable(name)
  {
    if name != "" {
      var c, rest := name[0], name[1..];
      assert name == [c] + rest;
      ReplaceCharSplits([c], rest, ' ', "_");
      ReplaceOne(c, ' ', "_");
      var d := if c == ' ' then '_' else c;
      StripStep(d, ReplaceAll(rest, " ", "_"));
      SanitizedIsReadable(rest);
    }
  }

  lemma StripStep(d: char, rest: string)
    ensures ToUpper(StripOthers([d] + rest)) ==
            (if IsWordChar(d) then [if 'a' <= d <= 'z' then d - 'a' + 'A' else d] else "") + ToUpper(StripOthers(rest))
  {
    assert ([d] + rest)[1..] == rest;
    if IsWordChar(d) {
      assert ([d] + StripOthers(rest))[1..] == StripOthers(rest);
    } else {
      assert "" + StripOthers(rest) == StripOthers(rest);
      assert "" + ToUpper(StripOthers(rest)) == ToUpper(StripOthers(rest));
    }
  }

  /** Sanitizing a readable form again changes nothing. */
  lemma {:induction false} ReadableIdempotent(name: string)
    ensures Sanitized(Sanitized(name)) == Sanitized(name)
  {
    SanitizedIsReadable(name);
    SanitizedIsReadable(Readable(name));
    ReadableTwice(name);
  }

  lemma {:induction false} ReadableTwice(name: string)
    ensures Readable(Readable(name)) == Readable(name)
  {
    if name != "" {
      var head, rest := ReadableChar(name[0]), Readable(name[1..]);
      ReadableTwice(name[1..]);
      if head == "" {
        assert head + rest == rest;
      } else {
        assert head + rest == [head[0]] + rest;
        assert ([head[0]] + rest)[1..] == rest;
        assert ReadableChar(head[0]) == head;
      }
    }
  }

  /** A printed name: the mark of a leading `=`, the readable form, and the name in escaped base64. */
  lemma PrintedName(varName: string)
    ensures var bare := if "=" <= varName then varName[1..] else varName;
            EncodeVarName(varName) ==
            (if "=" <= varName then "E_" else "") + "VAR_" + Readable(bare) + "_B64_" + Escaped(B64Text(bare))
  {
    SanitizedIsReadable(BareName(varName));
    B64EncodeAlphanumeric(BareName(varName));
  }

  lemma ReadableStep(c: char, rest: string)
    ensures Readable([c] + rest) == ReadableChar(c) + Readable(rest)
  {
    assert ([c] + rest)[1..] == rest;
  }

  /** Three ASCII characters of a name are three readable ones and four digits. */
  lemma ThreeMore(s: string, c0: char, c1: char, c2: char, rest: string, readable: string, text: string)
    requires s == [c0] + ([c1] + ([c2] + rest)) && c0 as int < 0x80 && c1 as int < 0x80 && c2 as int < 0x80
    requires readable == ReadableChar(c0) + (ReadableChar(c1) + ReadableChar(c2))
    requires var x, y, z := c0 as int, c1 as int, c2 as int;
             text == [Base64.DigitChar(x / 4)] + [Base64.DigitChar(x % 4 * 16 + y / 16)]
                     + [Base64.DigitChar(y % 16 * 4 + z / 64)] + [Base64.DigitChar(z % 64)]
    ensures Readable(s) == readable + Readable(rest) && B64Text(s) == text + B64Text(rest)
  {
    ThreeReadable(s, c0, c1, c2, rest);
    ThreeBytes(s, c0, c1, c2, rest);
    Base64.GroupText(Utf8.Encode(s), c0 as int, c1 as int, c2 as int, Utf8.Encode(rest), text);
  }

  lemma ThreeReadable(s: string, c0: char, c1: char, c2: char, rest: string)
    requires s == [c0] + ([c1] + ([c2] + rest))
    ensures Readable(s) == (ReadableChar(c0) + (ReadableChar(c1) + ReadableChar(c2))) + Readable(rest)
  {
    ReadableStep(c0, [c1] + ([c2] + rest));
    ReadableStep(c1, [c2] + rest);
    ReadableStep(c2, rest);
  }

  lemma ThreeBytes(s: string, c0: char, c1: char, c2: char, rest: string)
    requires s == [c0] + ([c1] + ([c2] + rest)) && c0 as int < 0x80 && c1 as int < 0x80 && c2 as int < 0x80
    ensures Utf8.Encode(s) == [c0 as int] + ([c1 as int] + ([c2 as int] + Utf8.Encode(rest)))
  {
    AsciiStep(c0, [c1] + ([c2] + rest));
    AsciiStep(c1, [c2] + rest);
    AsciiStep(c2, rest);
  }

  lemma AsciiStep(c: char, rest: string)
    requires c as int < 0x80
    ensures Utf8.Encode([c] + rest) == [c as int] + Utf8.Encode(rest)
  {
    assert ([c] + rest)[1..] == rest;
  }

  lemma LastOne(c: char)
    requires c as int < 0x80
    ensures Readable([c]) == ReadableChar(c)
    ensures B64Text([c]) == [Base64.DigitChar(c as int / 4)] + [Base64.DigitChar(c as int % 4 * 16)]
  {
    assert [c][1..] == "";
    assert Utf8.Encode([c]) == [c as int];
    Base64.LastGroupText(c as int);
  }

  /** The example that documents the format. */
  lemma DocumentedExample(varName: string)
    requires varName == "=Apple and banana"
    ensures EncodeVarName(varName) == "E_VAR_APPLE_AND_BANANA_B64_QXBwbGUgYW5kIGJhbmFuYQ"
  {
    ExampleWords(varName);
    ExampleParts("App", "le ", "and", " ba", "nan", "a");
    JoinParts();
    PrintedPlain(varName, "App" + ("le " + ("and" + (" ba" + ("nan" + "a")))),
                 "APPLE_AND_BANANA", "QXBwbGUgYW5kIGJhbmFuYQ");
    JoinPrinted("E_", "VAR_", "APPLE_AND_BANANA", "_B64_", "QXBwbGUgYW5kIGJhbmFuYQ");
  }

  lemma JoinPrinted(e: string, v: string, readable: string, delimiter: string, text: string)
    requires e == "E_" && v == "VAR_" && delimiter == "_B64_"
    requires readable == "APPLE_AND_BANANA" && text == "QXBwbGUgYW5kIGJhbmFuYQ"
    ensures e + v + readable + delimiter + text == "E_VAR_APPLE_AND_BANANA_B64_QXBwbGUgYW5kIGJhbmFuYQ"
  {
    assert e + v == "E_VAR_";
    assert e + v + readable == "E_VAR_APPLE_AND_BANANA";
    assert e + v + readable + delimiter == "E_VAR_APPLE_AND_BANANA_B64_";
    var front, all := e + v + readable + delimiter, "E_VAR_APPLE_AND_BANANA_B64_QXBwbGUgYW5kIGJhbmFuYQ";
    assert |front| == 27 && |text| == 22 && |all| == 49;
    forall i | 0 <= i < 49
      ensures (front + text)[i] == all[i]
    {
    }
  }

  lemma PrintedPlain(varName: string, bare: string, readable: string, text: string)
    requires varName == "=" + bare && Readable(bare) == readable && B64Text(bare) == text
    requires '/' !in text && '+' !in text
    ensures EncodeVarName(varName) == "E_" + "VAR_" + readable + "_B64_" + text
  {
    assert varName[1..] == bare;
    PrintedName(varName);
    PlainEscaped(text, "");
    assert text + "" == text && text + Escaped("") == text;
  }

  lemma ExampleWords(varName: string)
    requires varName == "=Apple and banana"
    ensures varName == "=" + ("App" + ("le " + ("and" + (" ba" + ("nan" + "a")))))
  {
  }

  lemma ExampleParts(p0: string, p1: string, p2: string, p3: string, p4: string, p5: string)
    requires p0 == "App" && p1 == "le " && p2 == "and" && p3 == " ba" && p4 == "nan" && p5 == "a"
    ensures var name := p0 + (p1 + (p2 + (p3 + (p4 + p5))));
            && Readable(name) == "APP" + ("LE_" + ("AND" + ("_BA" + ("NAN" + "A"))))
            && B64Text(name) == "QXBw" + ("bGUg" + ("YW5k" + ("IGJh" + ("bmFu" + "YQ"))))
  {
    Piece4(p5);
    Piece3(p4 + p5);
    Piece2(p3 + (p4 + p5));
    Piece1(p2 + (p3 + (p4 + p5)));
    Piece0(p1 + (p2 + (p3 + (p4 + p5))));
    LastOne('a');
    assert p5 == ['a'] && [Base64.DigitChar(24)] + [Base64.DigitChar(16)] == "YQ" && ReadableChar('a') == "A";
  }

  lemma JoinParts()
    ensures "APP" + ("LE_" + ("AND" + ("_BA" + ("NAN" + "A")))) == "APPLE_AND_BANANA"
    ensures "QXBw" + ("bGUg" + ("YW5k" + ("IGJh" + ("bmFu" + "YQ")))) == "QXBwbGUgYW5kIGJhbmFuYQ"
  {
  }

  lemma Piece0(rest: string)
    ensures Readable("App" + rest) == "APP" + Readable(rest) && B64Text("App" + rest) == "QXBw" + B64Text(rest)
  {
    ThreeMore("App" + rest, 'A', 'p', 'p', rest, "APP", "QXBw");
  }

  lemma Piece1(rest: string)
    ensures Readable("le " + rest) == "LE_" + Readable(rest) && B64Text("le " + rest) == "bGUg" + B64Text(rest)
  {
    ThreeMore("le " + rest, 'l', 'e', ' ', rest, "LE_", "bGUg");
  }

  lemma Piece2(rest: string)
    ensures Readable("and" + rest) == "AND" + Readable(rest) && B64Text("and" + rest) == "YW5k" + B64Text(rest)
  {
    ThreeMore("and" + rest, 'a', 'n', 'd', rest, "AND", "YW5k");
  }

  lemma Piece3(rest: string)
    ensures Readable(" ba" + rest) == "_BA" + Readable(rest) && B64Text(" ba" + rest) == "IGJh" + B64Text(rest)
  {
    ThreeMore(" ba" + rest, ' ', 'b', 'a', rest, "_BA", "IGJh");
  }

  lemma Piece4(rest: string)
    ensures Readable("nan" + rest) == "NAN" + Readable(rest) && B64Text("nan" + rest) == "bmFu" + B64Text(rest)
  {
    ThreeMore("nan" + rest, 'n', 'a', 'n', rest, "NAN", "bmFu");
  }
}
