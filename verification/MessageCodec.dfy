/**
 Whole messages: the printer that hides variables from translators and the parser that restores
 them, as the two scripts run them, and what a translator may do in between.
 */
module MessageCodec {
  import opened Common
  import opened Texts
  import opened Escape
  import opened NameCodec

  type Rename = string -> Result<string, Error>

  /**
   The loop that both scripts share: text outside brackets is copied, the text inside is renamed
   where a bracket closes. An opening bracket inside a bracket is skipped, and a bracket that never
   closes is dropped.
   */
  function Scan(rename: Rename, s: string, name: string, inBracket: bool): Result<string, Error>
    decreases |s|
  {
    if s == "" then Ok("")
    else if s[0] == '{' then Scan(rename, s[1..], name, true)
    else if s[0] == '}' then InBraces(rename(name), Scan(rename, s[1..], "", false))
    else if inBracket then Scan(rename, s[1..], name + [s[0]], true)
    else Prepend([s[0]], Scan(rename, s[1..], name, false))
  }

  function Prepend(head: string, tail: Result<string, Error>): Result<string, Error> {
    match tail
    case Err(e) => Err(e)
    case Ok(t) => Ok(head + t)
  }

  /** A renamed variable and what follows it; its own error comes first. */
  function InBraces(renamed: Result<string, Error>, tail: Result<string, Error>): Result<string, Error> {
    match renamed
    case Err(e) => Err(e)
    case Ok(n) => Prepend("{" + n + "}", tail)
  }

  function EncodeName(name: string): Result<string, Error> {
    Ok(EncodeVarName(name))
  }

  lemma {:induction false} EncodingNeverFails(s: string, name: string, inBracket: bool)
    ensures Scan(EncodeName, s, name, inBracket).Ok?
    decreases |s|
  {
    if s != "" {
      if s[0] == '{' {
        EncodingNeverFails(s[1..], name, true);
      } else if s[0] == '}' {
        EncodingNeverFails(s[1..], "", false);
      } else if inBracket {
        EncodingNeverFails(s[1..], name + [s[0]], true);
      } else {
        EncodingNeverFails(s[1..], name, false);
      }
    }
  }

  /** The printer hides the whole message when it starts with `{=` and ends with `}`. */
  predicate IsWhole(s: string) {
    "{=" <= s && EndsWith(s, "}")
  }

  function Body(s: string): string
    requires IsWhole(s)
  {
    s[1..|s| - 1]
  }

  function Encoded(s: string): string {
    if IsWhole(s) then "{" + VAR_PREFIX + B64Encode(Body(s)) + "}"
    else
      EncodingNeverFails(s, "", false);
      Scan(EncodeName, s, "", false).value
  }

  /** The parser takes a text for a hidden message when it is one bracket without a delimiter. */
  predicate IsBlob(e: string) {
    "{VAR_" <= e && EndsWith(e, "}") && !Contains(e, B64_PREFIX)
  }

  function Decoded(e: string): Result<string, Error> {
    if IsBlob(e) then
      assert e[|e| - 1] == '}' && e[4] == '_';
      Ok("{" + B64Decode(e[5..|e| - 1]) + "}")
    else Scan(DecodeVarName, e, "", false)
  }

  // ----- The scripts' loops -----

  method Encode(s: string) returns (out: string)
    ensures out == Encoded(s)
  {
    if "{=" <= s && EndsWith(s, "}") {
      return "{" + VAR_PREFIX + B64Encode(s[1..|s| - 1]) + "}";
    }
    out := "";
    var varName, inBracket := "", false;
    ghost var all := Scan(EncodeName, s, "", false);
    PrependNothing(all);
    assert s[0..] == s;
    for i := 0 to |s|
      invariant Prepend(out, Scan(EncodeName, s[i..], varName, inBracket)) == all
    {
      var cur := s[i];
      assert s[i..][0] == cur && s[i..][1..] == s[i + 1..];
      ghost var before := out;
      if cur == '{' {
        inBracket := true;
        continue;
      } else if cur == '}' {
        inBracket := false;
        out := out + ("{" + EncodeVarName(varName) + "}");
        varName := "";
        PrependTwice(before, "{" + EncodeName(varName).value + "}", Scan(EncodeName, s[i + 1..], "", false));
        PrependTwice(before, out[|before|..], Scan(EncodeName, s[i + 1..], "", false));
        continue;
      }
      if inBracket {
        varName := varName + [cur];
      } else {
        out := out + [cur];
        PrependTwice(before, [cur], Scan(EncodeName, s[i + 1..], varName, false));
      }
    }
    EncodingNeverFails(s, "", false);
  }

  method Decode(e: string) returns (r: Result<string, Error>)
    ensures r == Decoded(e)
  {
    if "{VAR_" <= e && EndsWith(e, "}") && !Contains(e, B64_PREFIX) {
      assert e[|e| - 1] == '}' && e[4] == '_';
      return Ok("{" + B64Decode(e[5..|e| - 1]) + "}");
    }
    var out, encodedVarName, inBracket := "", "", false;
    ghost var all := Scan(DecodeVarName, e, "", false);
    PrependNothing(all);
    assert e[0..] == e;
    for i := 0 to |e|
      invariant Prepend(out, Scan(DecodeVarName, e[i..], encodedVarName, inBracket)) == all
    {
      var cur := e[i];
      assert e[i..][0] == cur && e[i..][1..] == e[i + 1..];
      ghost var rest := e[i + 1..];
      if cur == '{' {
        inBracket := true;
        continue;
      } else if cur == '}' {
        inBracket := false;
        var decodedVarName := DecodeVarName(encodedVarName);
        if decodedVarName.Err? {
          return Err(decodedVarName.error);
        }
        PrependTwice(out, "{" + decodedVarName.value + "}", Scan(DecodeVarName, rest, "", false));
        out := out + ("{" + decodedVarName.value + "}");
        encodedVarName := "";
        continue;
      }
      if inBracket {
        encodedVarName := encodedVarName + [cur];
      } else {
        PrependTwice(out, [cur], Scan(DecodeVarName, rest, encodedVarName, false));
        out := out + [cur];
      }
    }
    assert out + "" == out;
    r := Ok(out);
  }

  lemma PrependTwice(a: string, b: string, r: Result<string, Error>)
    ensures Prepend(a + b, r) == Prepend(a, Prepend(b, r))
  {
    if r.Ok? {
      assert (a + b) + r.value == a + (b + r.value);
    }
  }

  lemma PrependNothing(r: Result<string, Error>)
    ensures Prepend("", r) == r
  {
    if r.Ok? {
      assert "" + r.value == r.value;
    }
  }

  // ----- Messages as segments -----

  /** A piece of a message: a character of its text, or a variable. */
  datatype Segment = Char(c: char) | Var(name: string)

  predicate BraceFree(s: string) {
    '{' !in s && '}' !in s
  }

  function Shown(seg: Segment): string {
    match seg
    case Char(c) => [c]
    case Var(name) => "{" + name + "}"
  }

  function Render(segs: seq<Segment>): string {
    if segs == [] then "" else Shown(segs[0]) + Render(segs[1..])
  }

  predicate WellFormedSegment(seg: Segment) {
    match seg
    case Char(c) => c != '{' && c != '}'
    case Var(name) => BraceFree(name)
  }

  predicate WellFormed(segs: seq<Segment>) {
    forall seg :: seg in segs ==> WellFormedSegment(seg)
  }

  /** Brackets open only outside and close only inside brackets, and none stays open. */
  predicate Balanced(s: string, inBracket: bool) {
    if s == "" then !inBracket
    else if s[0] == '{' then !inBracket && Balanced(s[1..], true)
    else if s[0] == '}' then inBracket && Balanced(s[1..], false)
    else Balanced(s[1..], inBracket)
  }

  function Parse(s: string, name: string, inBracket: bool): (segs: seq<Segment>)
    requires Balanced(s, inBracket) && BraceFree(name)
    ensures WellFormed(segs)
    decreases |s|
  {
    if s == "" then []
    else if s[0] == '{' then Parse(s[1..], "", true)
    else if s[0] == '}' then [Var(name)] + Parse(s[1..], "", false)
    else if inBracket then Parse(s[1..], name + [s[0]], true)
    else [Char(s[0])] + Parse(s[1..], "", false)
  }

  /** A balanced message is what its segments show. */
  lemma {:induction false} ParseRenders(s: string, name: string, inBracket: bool)
    requires Balanced(s, inBracket) && BraceFree(name)
    ensures Render(Parse(s, name, inBracket)) == (if inBracket then "{" + name else "") + s
    decreases |s|
  {
    if s != "" {
      var c, r := s[0], s[1..];
      assert s == [c] + r;
      if c == '{' {
        ParseRenders(r, "", true);
        assert "{" + "" + r == s;
      } else if c == '}' {
        ParseRenders(r, "", false);
        RenderCons(Var(name), Parse(r, "", false));
        Associates("{" + name, "}", r);
      } else if inBracket {
        ParseRenders(r, name + [c], true);
        Associates("{" + name, [c], r);
        assert "{" + (name + [c]) == ("{" + name) + [c];
      } else {
        ParseRenders(r, "", false);
        RenderCons(Char(c), Parse(r, "", false));
      }
    }
  }

  lemma RenderCons(seg: Segment, segs: seq<Segment>)
    ensures Render([seg] + segs) == Shown(seg) + Render(segs)
  {
    assert ([seg] + segs)[1..] == segs;
  }

  lemma Associates(a: string, b: string, c: string)
    ensures (a + b) + c == a + (b + c)
  {
  }

  /** The segments of a balanced message. */
  function Segments(s: string): (segs: seq<Segment>)
    requires Balanced(s, false)
    ensures WellFormed(segs) && Render(segs) == s
  {
    ParseRenders(s, "", false);
    Parse(s, "", false)
  }

  /** The variables of a message, in order. */
  function Names(segs: seq<Segment>): seq<string> {
    if segs == [] then []
    else (match segs[0] case Char(c) => [] case Var(name) => [name]) + Names(segs[1..])
  }

  /** Scanning a message renames segment by segment. */
  function Renamed(rename: Rename, segs: seq<Segment>): Result<string, Error> {
    if segs == [] then Ok("")
    else
      match segs[0]
      case Char(c) => Prepend([c], Renamed(rename, segs[1..]))
      case Var(name) => InBraces(rename(name), Renamed(rename, segs[1..]))
  }

  lemma {:induction false} ScanBracket(rename: Rename, name: string, before: string, rest: string)
    requires BraceFree(name)
    ensures Scan(rename, name + "}" + rest, before, true) == Scan(rename, "}" + rest, before + name, true)
    decreases |name|
  {
    if name == "" {
      assert name + "}" + rest == "}" + rest && before + name == before;
    } else {
      var s := name + "}" + rest;
      assert s[0] == name[0] && s[1..] == name[1..] + "}" + rest;
      ScanBracket(rename, name[1..], before + [name[0]], rest);
      assert before + [name[0]] + name[1..] == before + name;
    }
  }

  lemma ScanChar(rename: Rename, c: char, rest: string)
    requires c != '{' && c != '}'
    ensures Scan(rename, [c] + rest, "", false) == Prepend([c], Scan(rename, rest, "", false))
  {
    assert ([c] + rest)[1..] == rest;
  }

  lemma ScanVar(rename: Rename, name: string, rest: string)
    requires BraceFree(name)
    ensures Scan(rename, "{" + name + "}" + rest, "", false) == InBraces(rename(name), Scan(rename, rest, "", false))
  {
    var s := "{" + name + "}" + rest;
    assert s[0] == '{' && s[1..] == name + "}" + rest;
    ScanBracket(rename, name, "", rest);
    assert "" + name == name;
    assert ("}" + rest)[1..] == rest;
  }

  /** The scan distributes over the segments of a message. */
  lemma {:induction false} ScanIsRenamed(rename: Rename, segs: seq<Segment>)
    requires WellFormed(segs)
    ensures Scan(rename, Render(segs), "", false) == Renamed(rename, segs)
  {
    if segs != [] {
      assert WellFormedSegment(segs[0]);
      assert WellFormed(segs[1..]);
      ScanIsRenamed(rename, segs[1..]);
      match segs[0] {
        case Char(c) => ScanChar(rename, c, Render(segs[1..]));
        case Var(name) => ScanVar(rename, name, Render(segs[1..]));
      }
    }
  }

  // ----- Any text at all -----

  /** What a renamed variable and the rest come to: the error of the first variable that has one. */
  predicate Follows(r: Result<string, Error>, renamed: Result<string, Error>, rest: Result<string, Error>) {
    if renamed.Err? then r == Err(renamed.error)
    else if rest.Err? then r == Err(rest.error)
    else r == Ok("{" + renamed.value + "}" + rest.value)
  }

  /** Text in front of the first bracket is copied. */
  lemma {:induction false} ScanText(rename: Rename, text: string, rest: string)
    requires BraceFree(text)
    ensures var r, tail := Scan(rename, text + rest, "", false), Scan(rename, rest, "", false);
            if tail.Err? then r == tail else r == Ok(text + tail.value)
  {
    if text == "" {
      assert text + rest == rest;
      PrependNothing(Scan(rename, rest, "", false));
    } else {
      assert text + rest == [text[0]] + (text[1..] + rest);
      ScanText(rename, text[1..], rest);
      ScanChar(rename, text[0], text[1..] + rest);
      var tail := Scan(rename, rest, "", false);
      assert tail.Ok? ==> [text[0]] + (text[1..] + tail.value) == text + tail.value;
    }
  }

  /** Up to the next closing bracket, opening brackets are skipped and everything else is the variable. */
  lemma {:induction false} ScanInside(rename: Rename, inside: string, rest: string, before: string)
    requires '}' !in inside
    ensures Scan(rename, inside + "}" + rest, before, true) ==
            Scan(rename, "}" + rest, before + ReplaceAll(inside, "{", ""), true)
    ensures Scan(rename, inside, before, true) == Ok("")
    decreases |inside|
  {
    if inside == "" {
      assert inside + "}" + rest == "}" + rest && before + ReplaceAll(inside, "{", "") == before;
    } else {
      var c, s := inside[0], inside + "}" + rest;
      assert s[0] == c && s[1..] == inside[1..] + "}" + rest;
      assert "{" <= inside <==> c == '{';
      if c == '{' {
        ScanInside(rename, inside[1..], rest, before);
        assert ReplaceAll(inside, "{", "") == ReplaceAll(inside[1..], "{", "");
      } else {
        ScanInside(rename, inside[1..], rest, before + [c]);
        assert before + [c] + ReplaceAll(inside[1..], "{", "") == before + ([c] + ReplaceAll(inside[1..], "{", ""));
      }
    }
  }

  /** A variable ends at the first closing bracket behind its opening one; brackets that open inside are skipped. */
  lemma ScanVariable(rename: Rename, inside: string, rest: string)
    requires '}' !in inside
    ensures Follows(Scan(rename, "{" + inside + "}" + rest, "", false),
                    rename(ReplaceAll(inside, "{", "")), Scan(rename, rest, "", false))
  {
    var s := "{" + inside + "}" + rest;
    assert s[0] == '{' && s[1..] == inside + "}" + rest;
    ScanInside(rename, inside, rest, "");
    assert "" + ReplaceAll(inside, "{", "") == ReplaceAll(inside, "{", "");
    assert ("}" + rest)[1..] == rest;
  }

  /** A bracket that never closes is dropped with everything behind it. */
  lemma ScanUnclosed(rename: Rename, inside: string)
    requires '}' !in inside
    ensures Scan(rename, "{" + inside, "", false) == Ok("")
  {
    assert ("{" + inside)[1..] == inside;
    ScanInside(rename, inside, "", "");
  }

  /** A closing bracket without an opening one is a variable without a name. */
  lemma ScanStray(rename: Rename, rest: string)
    ensures Follows(Scan(rename, "}" + rest, "", false), rename(""), Scan(rename, rest, "", false))
  {
    assert ("}" + rest)[1..] == rest;
  }

  /** Which texts the parser takes for hidden messages, and what it makes of them and of all others. */
  lemma ReadText(e: string)
    ensures if "{VAR_" <= e && e[|e| - 1] == '}' && !Contains(e, "_B64_")
            then Decoded(e) == Ok("{" + B64Decode(e[5..|e| - 1]) + "}")
            else Decoded(e) == Scan(DecodeVarName, e, "", false)
  {
    if e != "" {
      assert e[|e| - 1..] == [e[|e| - 1]];
    }
    assert B64_PREFIX == "_B64_";
  }
}
