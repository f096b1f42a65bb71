/** What the printer and the parser of messages achieve together. */
module Translation {
  import opened Common
  import opened Texts
  import opened Escape
  import opened EscapePatterns
  import opened FirstDifference
  import opened NameCodec
  import opened MessageCodec
  import Base64
  import Utf8

  function Map(f: string -> string, names: seq<string>): (r: seq<string>)
    ensures |r| == |names|
    ensures forall i :: 0 <= i < |r| ==> r[i] == f(names[i])
  {
    seq(|names|, i requires 0 <= i < |names| => f(names[i]))
  }

  /** The segments with every variable renamed. */
  function MapNames(f: string -> string, segs: seq<Segment>): (r: seq<Segment>)
    ensures |r| == |segs|
  {
    if segs == [] then []
    else [match segs[0] case Char(c) => Char(c) case Var(name) => Var(f(name))] + MapNames(f, segs[1..])
  }

  /** The text of a message with a mark, `None`, where a variable stands. */
  function Skeleton(segs: seq<Segment>): seq<Option<char>> {
    if segs == [] then []
    else [match segs[0] case Char(c) => Some(c) case Var(name) => None] + Skeleton(segs[1..])
  }

  lemma {:induction false} MapNamesMaps(f: string -> string, segs: seq<Segment>)
    ensures Names(MapNames(f, segs)) == Map(f, Names(segs))
    ensures Skeleton(MapNames(f, segs)) == Skeleton(segs)
  {
    if segs != [] {
      MapNamesMaps(f, segs[1..]);
      var head := match segs[0] case Char(c) => [] case Var(name) => [name];
      assert Map(f, head + Names(segs[1..])) == Map(f, head) + Map(f, Names(segs[1..]));
    }
  }

  lemma {:induction false} MapNamesWellFormed(f: string -> string, segs: seq<Segment>)
    requires WellFormed(segs) && forall name :: name in Names(segs) ==> BraceFree(f(name))
    ensures WellFormed(MapNames(f, segs))
  {
    if segs != [] {
      assert WellFormedSegment(segs[0]);
      MapNamesWellFormed(f, segs[1..]);
    }
  }

  /** Renaming that succeeds on every variable shows the renamed segments. */
  lemma {:induction false} RenamedAll(rename: Rename, f: string -> string, segs: seq<Segment>)
    requires forall name :: name in Names(segs) ==> rename(name) == Ok(f(name))
    ensures Renamed(rename, segs) == Ok(Render(MapNames(f, segs)))
  {
    if segs != [] {
      RenamedAll(rename, f, segs[1..]);
    }
  }

  lemma {:induction false} ParseBracket(before: string, name: string, rest: string)
    requires BraceFree(name) && BraceFree(before) && Balanced(rest, false)
    ensures Balanced(name + "}" + rest, true)
    ensures Parse(name + "}" + rest, before, true) == [Var(before + name)] + Parse(rest, "", false)
    decreases |name|
  {
    var s := name + "}" + rest;
    if name == "" {
      assert s[1..] == rest && before + name == before;
    } else {
      assert s[0] == name[0] && s[1..] == name[1..] + "}" + rest;
      ParseBracket(before + [name[0]], name[1..], rest);
      assert before + [name[0]] + name[1..] == before + name;
    }
  }

  lemma ParseChar(c: char, rest: string)
    requires c != '{' && c != '}' && Balanced(rest, false)
    ensures Balanced([c] + rest, false)
    ensures Parse([c] + rest, "", false) == [Char(c)] + Parse(rest, "", false)
  {
    assert ([c] + rest)[1..] == rest;
  }

  lemma ParseVar(name: string, rest: string)
    requires BraceFree(name) && Balanced(rest, false)
    ensures Balanced("{" + name + "}" + rest, false)
    ensures Parse("{" + name + "}" + rest, "", false) == [Var(name)] + Parse(rest, "", false)
  {
    var s := "{" + name + "}" + rest;
    assert s[0] == '{' && s[1..] == name + "}" + rest;
    ParseBracket("", name, rest);
    assert "" + name == name;
  }

  /** Segments are recovered from what they show. */
  lemma {:induction false} ParseAfterRender(segs: seq<Segment>)
    requires WellFormed(segs)
    ensures Balanced(Render(segs), false) && Parse(Render(segs), "", false) == segs
  {
    if segs != [] {
      assert WellFormedSegment(segs[0]);
      ParseAfterRender(segs[1..]);
      match segs[0] {
        case Char(c) => ParseChar(c, Render(segs[1..]));
        case Var(name) => ParseVar(name, Render(segs[1..]));
      }
    }
  }

  // ----- Encoded messages -----

  function EncodedSegments(segs: seq<Segment>): seq<Segment> {
    MapNames(EncodeVarName, segs)
  }

  /** A message that is not hidden whole is printed with every variable encoded and its text untouched. */
  lemma EncodedShows(s: string)
    requires Balanced(s, false) && !IsWhole(s)
    ensures WellFormed(EncodedSegments(Segments(s))) && Encoded(s) == Render(EncodedSegments(Segments(s)))
  {
    var segs := Segments(s);
    forall name | name in Names(segs)
      ensures BraceFree(EncodeVarName(name))
    {
      EncodedNameShape(name);
    }
    MapNamesWellFormed(EncodeVarName, segs);
    ScanIsRenamed(EncodeName, segs);
    RenamedAll(EncodeName, EncodeVarName, segs);
  }

  /** A text whose variables all carry the delimiter is not taken for a hidden message. */
  lemma NotABlob(segs: seq<Segment>)
    requires WellFormed(segs) && forall name :: name in Names(segs) ==> Contains(name, B64_PREFIX)
    ensures !IsBlob(Render(segs))
  {
    var s := Render(segs);
    if s != "" && s[0] == '{' {
      assert WellFormedSegment(segs[0]);
      assert segs[0].name in Names(segs);
      BracketContains(segs[0].name, Render(segs[1..]));
    }
  }

  lemma BracketContains(name: string, rest: string)
    requires Contains(name, B64_PREFIX)
    ensures Contains("{" + name + "}" + rest, B64_PREFIX)
  {
    ContainedPrefix(name, "}" + rest, B64_PREFIX);
    ContainedSuffix("{", name + ("}" + rest), B64_PREFIX);
    assert "{" + name + "}" + rest == "{" + (name + ("}" + rest));
  }

  lemma {:induction false} NamesCarryDelimiter(segs: seq<Segment>)
    ensures forall name :: name in Names(EncodedSegments(segs)) ==> Contains(name, B64_PREFIX)
  {
    MapNamesMaps(EncodeVarName, segs);
    forall i | 0 <= i < |Names(segs)|
      ensures Contains(Names(EncodedSegments(segs))[i], B64_PREFIX)
    {
      EncodedNameShape(Names(segs)[i]);
    }
  }

  /** What is read back from a message that is not hidden whole. */
  lemma DecodedSegments(s: string)
    requires Balanced(s, false) && !IsWhole(s)
    ensures Decoded(Encoded(s)) == Renamed(DecodeVarName, EncodedSegments(Segments(s)))
  {
    var segs := Segments(s);
    EncodedShows(s);
    NamesCarryDelimiter(segs);
    NotABlob(EncodedSegments(segs));
    ScanIsRenamed(DecodeVarName, EncodedSegments(segs));
  }

  // ----- Round trip -----

  predicate InDomain(s: string) {
    IsWhole(s) || Balanced(s, false)
  }

  /** Every piece that is written in base64 can be read back. */
  predicate MessageOk(s: string)
    requires InDomain(s)
  {
    if IsWhole(s) then Escapable(B64Text(Body(s)))
    else forall name :: name in Names(Segments(s)) ==> NameOk(name)
  }

  /** The parser takes exactly the messages that the printer hid for hidden ones. */
  lemma BlobIffWhole(s: string)
    requires InDomain(s)
    ensures IsBlob(Encoded(s)) <==> IsWhole(s)
  {
    if IsWhole(s) {
      WholeIsBlob(s);
    } else {
      EncodedShows(s);
      NamesCarryDelimiter(Segments(s));
      NotABlob(EncodedSegments(Segments(s)));
    }
  }

  lemma WholeIsBlob(s: string)
    requires IsWhole(s)
    ensures IsBlob(Encoded(s))
    ensures Decoded(Encoded(s)) == Ok("{" + B64Decode(B64Encode(Body(s))) + "}")
  {
    var b := B64Encode(Body(s));
    B64EncodeAlphanumeric(Body(s));
    BlobRead(b);
  }

  lemma BlobRead(b: string)
    requires forall c :: c in b ==> IsAlphanumeric(c)
    ensures var e := "{" + VAR_PREFIX + b + "}"; IsBlob(e) && Decoded(e) == Ok("{" + B64Decode(b) + "}")
  {
    var e := "{" + VAR_PREFIX + b + "}";
    assert e[|e| - 1..] == "}";
    assert e[5..|e| - 1] == b;
    assert e[..5] == "{VAR_";
    forall i | 0 <= i < |e| - 4
      ensures e[i] != '_' || e[i + 4] != '_'
    {
      if i > 0 {
        assert e[i + 4] == (b + "}")[i - 1];
        assert i <= |b| ==> b[i - 1] in b;
      } else {
        assert e[0] == '{';
      }
    }
    NoUnderscorePair(e);
  }

  lemma WholeIsBodyInBraces(s: string)
    requires IsWhole(s)
    ensures s == "{" + Body(s) + "}"
  {
    assert s[|s| - 1] == '}';
  }

  /** A message that meets the conditions survives printing and parsing. */
  lemma RoundTrip(s: string)
    requires InDomain(s) && MessageOk(s)
    ensures Decoded(Encoded(s)) == Ok(s)
  {
    if IsWhole(s) {
      WholeIsBlob(s);
      B64RoundTrip(Body(s));
      WholeIsBodyInBraces(s);
    } else {
      var segs := Segments(s);
      DecodedSegments(s);
      RenamedBack(segs);
    }
  }

  lemma {:induction false} RenamedBack(segs: seq<Segment>)
    requires forall name :: name in Names(segs) ==> NameOk(name)
    ensures Renamed(DecodeVarName, EncodedSegments(segs)) == Ok(Render(segs))
  {
    if segs != [] {
      RenamedBack(segs[1..]);
      if segs[0].Var? {
        assert segs[0].name in Names(segs);
        NameRoundTrip(segs[0].name);
      }
    }
  }

  /** A name that is not read back, not even as a beginning, changes what stands in its brackets. */
  lemma BracedDiffers(name: string, back: string, rest: string, restBack: string)
    requires BraceFree(name) && !(name <= back)
    ensures "{" + back + "}" + restBack != "{" + name + "}" + rest
  {
    var s, t := "{" + back + "}" + restBack, "{" + name + "}" + rest;
    if |name| <= |back| {
      assert s[1..|name| + 1] == back[..|name|] && t[1..|name| + 1] == name;
    } else {
      assert s[|back| + 1] == '}' && t[|back| + 1] == name[|back|];
    }
  }

  /** One name that breaks its condition is enough to lose the message. */
  lemma {:induction false} RenamedDiffers(segs: seq<Segment>)
    requires WellFormed(segs) && exists name :: name in Names(segs) && !NameOk(name)
    ensures Renamed(DecodeVarName, EncodedSegments(segs)) != Ok(Render(segs))
  {
    assert WellFormedSegment(segs[0]) && WellFormed(segs[1..]);
    match segs[0] {
      case Char(c) =>
        RenamedDiffers(segs[1..]);
        SamePrefixes([c], Render(segs[1..]));
      case Var(name) =>
        if NameOk(name) {
          NameRoundTrip(name);
          RenamedDiffers(segs[1..]);
          SamePrefixes("{" + name + "}", Render(segs[1..]));
        } else {
          NameDiffers(name);
          VariableLost(name, Renamed(DecodeVarName, EncodedSegments(segs[1..])), Render(segs[1..]));
        }
    }
  }

  lemma SamePrefixes(front: string, s: string)
    ensures forall t: Result<string, Error> :: Prepend(front, t) == Ok(front + s) ==> t == Ok(s)
  {
    forall t: Result<string, Error> | Prepend(front, t) == Ok(front + s)
      ensures t == Ok(s)
    {
      assert (front + t.value)[|front|..] == t.value && (front + s)[|front|..] == s;
    }
  }

  lemma VariableLost(name: string, tail: Result<string, Error>, rest: string)
    requires BraceFree(name)
    requires var d := DecodeVarName(EncodeVarName(name)); d.Err? || !(name <= d.value)
    ensures InBraces(DecodeVarName(EncodeVarName(name)), tail) != Ok("{" + name + "}" + rest)
  {
    var d := DecodeVarName(EncodeVarName(name));
    if d.Ok? && tail.Ok? {
      BracedDiffers(name, d.value, rest, tail.value);
    }
  }

  /**
   A message that is hidden whole or has balanced, un-nested brackets is given back by printing and
   parsing exactly when every base64 text is escapable and every readable name leaves the delimiter
   recognisable.
   */
  lemma RoundTripExact(s: string)
    requires InDomain(s)
    ensures Decoded(Encoded(s)) == Ok(s) <==> MessageOk(s)
  {
    if MessageOk(s) {
      RoundTrip(s);
    } else if IsWhole(s) {
      WholeIsBlob(s);
      WholeIsBodyInBraces(s);
      B64Exact(Body(s));
      SameBody(B64Decode(B64Encode(Body(s))), Body(s));
    } else {
      DecodedSegments(s);
      RenamedDiffers(Segments(s));
    }
  }

  lemma SameBody(a: string, b: string)
    ensures "{" + a + "}" == "{" + b + "}" <==> a == b
  {
    if "{" + a + "}" == "{" + b + "}" {
      assert a == ("{" + a + "}")[1..|a| + 1] && b == ("{" + b + "}")[1..|b| + 1];
    }
  }

  /**
   A message without U+0001, or without an exclamation mark, survives exactly when its names leave the
   delimiter recognisable; when it is hidden whole it survives in any case.
   */
  lemma OrdinaryMessage(s: string)
    requires InDomain(s) && ('\U{0001}' !in s || '!' !in s)
    ensures Decoded(Encoded(s)) == Ok(s) <==>
            IsWhole(s) || forall name :: name in Names(Segments(s)) ==> Delimited(Sanitized(BareName(name)))
  {
    RoundTripExact(s);
    if IsWhole(s) {
      OrdinaryText(Body(s));
    } else {
      forall name | name in Names(Segments(s))
        ensures Escapable(B64Text(BareName(name)))
      {
        NamesAreText(Segments(s), name);
        OrdinaryText(BareName(name));
      }
    }
  }

  /** The characters of a variable are characters of the message. */
  lemma {:induction false} NamesAreText(segs: seq<Segment>, name: string)
    requires name in Names(segs)
    ensures forall c :: c in name ==> c in Render(segs)
  {
    if segs[0] == Var(name) {
      assert forall i :: 0 <= i < |name| ==> Render(segs)[i + 1] == name[i];
    } else {
      NamesAreText(segs[1..], name);
    }
  }

  // ----- The messages that are hidden whole -----

  lemma EndsWithChar(s: string)
    ensures EndsWith(s, "}") <==> s != "" && s[|s| - 1] == '}'
  {
    if s != "" {
      assert s[|s| - 1..] == [s[|s| - 1]];
    }
  }

  lemma ShownLast(seg: Segment)
    requires WellFormedSegment(seg)
    ensures Shown(seg) != "" && (Shown(seg)[|Shown(seg)| - 1] == '}' <==> seg.Var?)
  {
  }

  lemma {:induction false} EndsInVariable(segs: seq<Segment>)
    requires WellFormed(segs) && segs != []
    ensures Render(segs) != ""
    ensures Render(segs)[|Render(segs)| - 1] == '}' <==> segs[|segs| - 1].Var?
  {
    assert WellFormedSegment(segs[0]) && WellFormed(segs[1..]);
    if |segs| == 1 {
      ShownLast(segs[0]);
      assert Render(segs) == Shown(segs[0]);
    } else {
      EndsInVariable(segs[1..]);
      var rest := Render(segs[1..]);
      assert Render(segs)[|Render(segs)| - 1] == rest[|rest| - 1];
    }
  }

  lemma StartsHidden(seg: Segment, rest: string)
    requires WellFormedSegment(seg)
    ensures "{=" <= Shown(seg) + rest <==> seg.Var? && HasEqual(seg.name)
  {
    var s := Shown(seg) + rest;
    assert "{=" <= s <==> |s| >= 2 && s[0] == '{' && s[1] == '=';
    assert seg.Var? ==> s[1] == if seg.name == "" then '}' else seg.name[0];
  }

  predicate HidesWhole(segs: seq<Segment>) {
    segs != [] && segs[0].Var? && HasEqual(segs[0].name) && segs[|segs| - 1].Var?
  }

  lemma RenderedWhole(segs: seq<Segment>)
    requires WellFormed(segs)
    ensures IsWhole(Render(segs)) <==> HidesWhole(segs)
  {
    EndsWithChar(Render(segs));
    if segs != [] {
      assert WellFormedSegment(segs[0]);
      EndsInVariable(segs);
      StartsHidden(segs[0], Render(segs[1..]));
    }
  }

  /** A balanced message is hidden exactly when it starts with a variable with a leading `=` and ends in a variable. */
  lemma WholeShape(s: string)
    requires Balanced(s, false)
    ensures IsWhole(s) <==> HidesWhole(Segments(s))
  {
    RenderedWhole(Segments(s));
  }

  function TextSegments(text: string): (segs: seq<Segment>)
    ensures |segs| == |text| && forall i :: 0 <= i < |segs| ==> segs[i] == Char(text[i])
  {
    seq(|text|, i requires 0 <= i < |text| => Char(text[i]))
  }

  lemma {:induction false} ParseText(text: string, rest: string)
    requires BraceFree(text) && Balanced(rest, false)
    ensures Balanced(text + rest, false)
    ensures Parse(text + rest, "", false) == TextSegments(text) + Parse(rest, "", false)
  {
    if text == "" {
      assert text + rest == rest;
    } else {
      ParseText(text[1..], rest);
      ParseChar(text[0], text[1..] + rest);
      assert [text[0]] + (text[1..] + rest) == text + rest;
      assert [Char(text[0])] + TextSegments(text[1..]) == TextSegments(text);
    }
  }

  /** What a hidden message is printed as: one variable that holds everything between the outer brackets. */
  lemma HiddenAs(s: string)
    requires "{=" <= s && s[|s| - 1] == '}'
    ensures Encoded(s) == "{VAR_" + Escaped(B64Text(s[1..|s| - 1])) + "}"
  {
    EndsWithChar(s);
    B64EncodeAlphanumeric(s[1..|s| - 1]);
    assert "{" + VAR_PREFIX == "{VAR_";
  }

  /** So the text between two such variables is hidden with them, as in `{=a} and {=b}`. */
  lemma HiddenWithText(a: string, text: string, b: string)
    requires BraceFree(a) && BraceFree(text) && BraceFree(b) && HasEqual(a)
    ensures var s := "{" + a + "}" + (text + ("{" + b + "}"));
            Balanced(s, false) && IsWhole(s) && Segments(s) == [Var(a)] + TextSegments(text) + [Var(b)]
    ensures a == "=a" && text == " and " && b == "=b" ==>
              "{" + a + "}" + (text + ("{" + b + "}")) == "{=a} and {=b}"
  {
    var last := "{" + b + "}";
    assert last == "{" + b + "}" + "" && Balanced("", false);
    ParseVar(b, "");
    ParseText(text, last);
    ParseVar(a, text + last);
    WholeShape("{" + a + "}" + (text + last));
  }

  // ----- Translators -----

  /** What a variable is read as. */
  function Restored(encoded: string): string {
    match DecodeVarName(encoded)
    case Ok(name) => name
    case Err(_) => ""
  }

  function Without(a: seq<string>, i: nat): seq<string>
    requires i < |a|
  {
    a[..i] + a[i + 1..]
  }

  lemma WithoutOne(a: seq<string>, i: nat)
    requires i < |a|
    ensures multiset(a) == multiset(Without(a, i)) + multiset{a[i]}
    ensures multiset(Without(a, i)) == multiset(a) - multiset{a[i]}
  {
    assert a == a[..i] + [a[i]] + a[i + 1..];
  }

  lemma {:induction false} MapPermutes(f: string -> string, a: seq<string>, b: seq<string>)
    requires multiset(a) == multiset(b)
    ensures multiset(Map(f, a)) == multiset(Map(f, b))
    decreases |a|
  {
    if a == [] {
      assert |b| == |multiset(b)| == 0;
    } else {
      assert a[0] in multiset(b);
      var i :| 0 <= i < |b| && b[i] == a[0];
      WithoutOne(a, 0);
      WithoutOne(b, i);
      MapPermutes(f, Without(a, 0), Without(b, i));
      MapWithout(f, a, 0);
      MapWithout(f, b, i);
    }
  }

  lemma MapWithout(f: string -> string, a: seq<string>, i: nat)
    requires i < |a|
    ensures multiset(Map(f, a)) == multiset(Map(f, Without(a, i))) + multiset{f(a[i])}
  {
    forall j | 0 <= j < |a| - 1
      ensures Map(f, Without(a, i))[j] == Without(Map(f, a), i)[j]
    {
      assert Without(a, i)[j] == a[if j < i then j else j + 1];
    }
    assert Map(f, Without(a, i)) == Without(Map(f, a), i);
    WithoutOne(Map(f, a), i);
  }

  /**
   A translator may reorder the encoded variables of a message and rewrite the text around them.
   The parser then shows the translator's text, with the original variables, each in the place to
   which its encoded form was moved.
   */
  lemma TranslatorFreedom(s: string, t: string)
    requires Balanced(s, false) && !IsWhole(s) && MessageOk(s)
    requires Balanced(t, false)
    requires multiset(Names(Segments(t))) == multiset(Map(EncodeVarName, Names(Segments(s))))
    ensures Decoded(t).Ok? && Balanced(Decoded(t).value, false)
    ensures var u := Decoded(t).value;
            && Skeleton(Segments(u)) == Skeleton(Segments(t))
            && Names(Segments(t)) == Map(EncodeVarName, Names(Segments(u)))
            && multiset(Names(Segments(u))) == multiset(Names(Segments(s)))
  {
    var source, target := Segments(s), Segments(t);
    var names := Names(source);
    EncodedBalanced(s);
    NamesBraceFree(source);
    MovedNames(names, Names(target));
    MapNamesMaps(Restored, target);
    NotABlob(target);
    ScanIsRenamed(DecodeVarName, target);
    RenamedAll(DecodeVarName, Restored, target);
    MapNamesWellFormed(Restored, target);
    ParseAfterRender(MapNames(Restored, target));
  }

  /** Moved encoded names are read as the original names, moved the same way. */
  lemma MovedNames(names: seq<string>, moved: seq<string>)
    requires forall name :: name in names ==> NameOk(name)
    requires multiset(moved) == multiset(Map(EncodeVarName, names))
    ensures forall e :: e in moved ==>
              DecodeVarName(e) == Ok(Restored(e)) && Restored(e) in names && Contains(e, B64_PREFIX)
    ensures Map(EncodeVarName, Map(Restored, moved)) == moved
    ensures multiset(Map(Restored, moved)) == multiset(names)
  {
    var encoded, back := Map(EncodeVarName, names), Map(Restored, moved);
    forall k | 0 <= k < |moved|
      ensures DecodeVarName(moved[k]) == Ok(Restored(moved[k])) && Restored(moved[k]) in names
      ensures Contains(moved[k], B64_PREFIX)
      ensures EncodeVarName(Restored(moved[k])) == moved[k]
    {
      assert moved[k] in multiset(moved);
      MovedName(names, moved[k]);
    }
    assert Map(EncodeVarName, back) == moved;
    RestoredAll(names);
    MapPermutes(Restored, moved, encoded);
  }

  lemma MovedName(names: seq<string>, e: string)
    requires forall name :: name in names ==> NameOk(name)
    requires e in Map(EncodeVarName, names)
    ensures DecodeVarName(e) == Ok(Restored(e)) && Restored(e) in names
    ensures EncodeVarName(Restored(e)) == e && Contains(e, B64_PREFIX)
  {
    var i :| 0 <= i < |names| && Map(EncodeVarName, names)[i] == e;
    NameRoundTrip(names[i]);
    EncodedNameShape(names[i]);
  }

  lemma RestoredAll(names: seq<string>)
    requires forall name :: name in names ==> NameOk(name)
    ensures Map(Restored, Map(EncodeVarName, names)) == names
  {
    forall i | 0 <= i < |names|
      ensures Restored(EncodeVarName(names[i])) == names[i]
    {
      NameRoundTrip(names[i]);
    }
  }

  lemma {:induction false} NamesBraceFree(segs: seq<Segment>)
    requires WellFormed(segs)
    ensures forall name :: name in Names(segs) ==> BraceFree(name)
  {
    if segs != [] {
      assert WellFormedSegment(segs[0]);
      NamesBraceFree(segs[1..]);
    }
  }

  /** What the printer writes is balanced, so a translator starts from brackets that pair up. */
  lemma EncodedBalanced(s: string)
    requires Balanced(s, false) && !IsWhole(s)
    ensures Balanced(Encoded(s), false)
    ensures Names(Segments(Encoded(s))) == Map(EncodeVarName, Names(Segments(s)))
    ensures Skeleton(Segments(Encoded(s))) == Skeleton(Segments(s))
  {
    EncodedShows(s);
    ParseAfterRender(EncodedSegments(Segments(s)));
    MapNamesMaps(EncodeVarName, Segments(s));
  }

  /**
   A message that is one variable survives exactly when its name can be read back; with a leading `=` it is
   hidden whole, and then the escape is all that matters.
   */
  lemma OneVariable(name: string)
    requires BraceFree(name)
    ensures Decoded(Encoded("{" + name + "}")) == Ok("{" + name + "}") <==>
            if HasEqual(name) then Escapable(B64Text(name)) else NameOk(name)
  {
    var s := "{" + name + "}" + "";
    ParseVar(name, "");
    assert s == "{" + name + "}";
    assert Parse("", "", false) == [];
    assert Segments(s) == [Var(name)];
    assert Names([Var(name)]) == [name];
    WholeShape(s);
    assert s[1..|s| - 1] == name;
    RoundTripExact(s);
  }

  lemma {:induction false} StripKeeps(s: string)
    requires forall c :: c in s ==> IsWordChar(c)
    ensures StripOthers(s) == s
  {
    if s != "" {
      StripKeeps(s[1..]);
      assert s[0] in s;
    }
  }

  lemma {:induction false} UpperKeeps(s: string)
    requires forall c :: c in s ==> IsWordChar(c) && !('a' <= c <= 'z')
    ensures ToUpper(s) == s
  {
    if s != "" {
      UpperKeeps(s[1..]);
      assert s[0] in s;
    }
  }

  /** A variable whose readable form ends where the delimiter begins does not survive. */
  lemma EndsLikeDelimiter(name: string)
    requires BraceFree(name) && !HasEqual(name) && EndsWith(Sanitized(name), "_B64")
    ensures Decoded(Encoded("{" + name + "}")) != Ok("{" + name + "}")
  {
    OneVariable(name);
  }

  /** Such as a variable called `_B64`, which is its own readable form. */
  lemma BrokenName(name: string)
    requires name == "_B64"
    ensures Decoded(Encoded("{" + name + "}")) != Ok("{" + name + "}")
  {
    Base64.ReplaceAbsent(name, ' ', "_");
    StripKeeps(name);
    UpperKeeps(name);
    assert Sanitized(name) == name && name[0..] == name;
    EndsLikeDelimiter(name);
  }

  /** A variable that the escape loses, although its readable form is in order. */
  lemma LostName(name: string)
    requires name == "a\U{010B}\U{0001}!\U{00E9}"
    ensures Decoded(Encoded("{" + name + "}")) != Ok("{" + name + "}")
  {
    assert Utf8.EncodeChar(name[0]) == [0x61] && Utf8.EncodeChar(name[1]) == [0xC4, 0x8B];
    assert Utf8.EncodeChar(name[2]) == [0x01] && Utf8.EncodeChar(name[3]) == [0x21];
    assert Utf8.EncodeChar(name[4]) == [0xC3, 0xA9];
    EncodedFive(name);
    assert Utf8.Encode(name) == [0x61, 0xC4, 0x8B, 0x01, 0x21, 0xC3, 0xA9];
    assert Collides(Utf8.Encode(name), 0);
    EscapableExactly(name);
    OneVariable(name);
  }

  lemma EncodedFive(s: string)
    requires |s| == 5
    ensures Utf8.Encode(s) == Utf8.EncodeChar(s[0]) + (Utf8.EncodeChar(s[1]) + (Utf8.EncodeChar(s[2])
                              + (Utf8.EncodeChar(s[3]) + Utf8.EncodeChar(s[4]))))
  {
    assert s == [s[0]] + ([s[1]] + ([s[2]] + ([s[3]] + [s[4]])));
    Utf8.EncodeConcat([s[0]], [s[1]] + ([s[2]] + ([s[3]] + [s[4]])));
    Utf8.EncodeConcat([s[1]], [s[2]] + ([s[3]] + [s[4]]));
    Utf8.EncodeConcat([s[2]], [s[3]] + [s[4]]);
    Utf8.EncodeConcat([s[3]], [s[4]]);
    forall c: char
      ensures Utf8.Encode([c]) == Utf8.EncodeChar(c)
    {
      assert Utf8.Encode([c][1..]) == [];
    }
  }
}
