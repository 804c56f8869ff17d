/**
 The parser undoes the printer, so a printed text determines its value; and no proper prefix of a
 printed object parses, so a torn write of one can be told from a whole one.
 */
module JsonRoundTrip {
  import opened Json

  /** What may follow a value so that a number does not run on. */
  predicate Delimited(rest: string) {
    rest == "" || !IsNumberChar(rest[0])
  }

  lemma HexDigitReads(d: nat)
    requires d < 16
    ensures HexValue(HexDigit(d)) == d
  {}

  lemma Nibbles(n: nat)
    requires n < 0x10000
    ensures n / 0x1000 < 16
    ensures n == n / 0x1000 * 0x1000 + n / 0x100 % 0x10 * 0x100 + n / 0x10 % 0x10 * 0x10 + n % 0x10
  {}

  lemma UnicodeEscapeReads(c: char, rest: string)
    requires (c as int) < 0x10000
    ensures ParseChar(UnicodeEscape(c) + rest) == Some((c, rest))
  {
    var n := c as int;
    var a, b, d, f := n / 0x1000, n / 0x100 % 0x10, n / 0x10 % 0x10, n % 0x10;
    Nibbles(n);
    HexDigitReads(a);
    HexDigitReads(b);
    HexDigitReads(d);
    HexDigitReads(f);
    var h := [HexDigit(a), HexDigit(b), HexDigit(d), HexDigit(f)];
    assert HexUnit(h) == Some(n);
    var text := UnicodeEscape(c) + rest;
    assert text == ['\\', 'u'] + h + rest;
    assert text[2..6] == h;
    assert text[6..] == rest;
  }

  lemma EscapeCharReads(c: char, e: Escapes, rest: string)
    ensures EscapeChar(c, e)[0] != '"'
    ensures ParseChar(EscapeChar(c, e) + rest) == Some((c, rest))
  {
    var x := EscapeChar(c, e);
    if x == [c] {
      assert (x + rest)[1..] == rest;
    } else if |x| == 2 {
      assert (x + rest)[2..] == rest;
    } else {
      UnicodeEscapeReads(c, rest);
    }
  }

  lemma {:induction false} EscapeCharsRead(s: string, e: Escapes, rest: string)
    ensures ParseChars(EscapeChars(s, e) + "\"" + rest) == Some((s, rest))
  {
    var text := EscapeChars(s, e) + "\"" + rest;
    if s == "" {
      assert text == "\"" + rest;
      assert text[1..] == rest;
    } else {
      var tail := EscapeChars(s[1..], e) + "\"" + rest;
      assert text == EscapeChar(s[0], e) + tail;
      EscapeCharReads(s[0], e, tail);
      EscapeCharsRead(s[1..], e, rest);
      assert [s[0]] + s[1..] == s;
    }
  }

  lemma {:induction false} NumberSpanOf(lexeme: string, rest: string)
    requires forall i :: 0 <= i < |lexeme| ==> IsNumberChar(lexeme[i])
    requires Delimited(rest)
    ensures NumberSpan(lexeme + rest) == |lexeme|
  {
    if lexeme == "" {
      assert lexeme + rest == rest;
    } else {
      assert (lexeme + rest)[1..] == lexeme[1..] + rest;
      NumberSpanOf(lexeme[1..], rest);
    }
  }

  lemma SkipNothing(s: string)
    requires s == "" || !IsSpace(s[0])
    ensures SkipSpace(s) == s
  {}

  /** A value's text starts with a character that no separator or white space can be. */
  lemma PrintStart(v: Json, e: Escapes)
    requires WellFormed(v)
    ensures Print(v, e) != ""
    ensures !IsSpace(Print(v, e)[0])
    ensures Print(v, e)[0] != ']' && Print(v, e)[0] != '}'
  {}

  lemma FieldsStart(fields: seq<Field>, e: Escapes)
    requires fields != []
    ensures PrintFields(fields, e) != "" && PrintFields(fields, e)[0] == '"'
  {
    assert PrintField(fields[0], e)[0] == '"';
  }

  lemma StringReads(s: string, e: Escapes, rest: string)
    ensures (PrintString(s, e) + rest)[0] == '"'
    ensures ParseChars((PrintString(s, e) + rest)[1..]) == Some((s, rest))
  {
    var text := PrintString(s, e) + rest;
    assert text[1..] == EscapeChars(s, e) + "\"" + rest;
    EscapeCharsRead(s, e, rest);
  }

  lemma NumberReads(lexeme: string, rest: string)
    requires IsNumberText(lexeme) && Delimited(rest)
    ensures ParseValue(lexeme + rest) == Some((Num(lexeme), rest))
  {
    var text := lexeme + rest;
    NumberSpanOf(lexeme, rest);
    assert text[..|lexeme|] == lexeme && text[|lexeme|..] == rest;
    assert IsNumberChar(text[0]);
    SkipNothing(text);
  }

  lemma WordReads(word: string, v: Json, rest: string)
    requires word != ""
    ensures ParseWord(word + rest, word, v) == Some((v, rest))
  {
    assert (word + rest)[..|word|] == word;
    assert (word + rest)[|word|..] == rest;
  }

  lemma Joined(a: string, b: string, c: string, d: string)
    ensures a + b + c + d == a + b + (c + d)
    ensures a + b + c + d == a + (b + (c + d))
  {}

  /** A bracketed text is read by the rule for its body. */
  lemma BracketOpens(body: string)
    requires body == "" || !IsSpace(body[0])
    ensures body != "" && body[0] == ']' ==> ParseValue("[" + body) == Some((Arr([]), body[1..]))
    ensures (body == "" || body[0] != ']') && ParseItems(body).Some?
            ==> ParseValue("[" + body) == Some((Arr(ParseItems(body).value.0), ParseItems(body).value.1))
  {
    SkipNothing("[" + body);
    assert ("[" + body)[1..] == body;
    SkipNothing(body);
  }

  lemma BraceOpens(body: string)
    requires body == "" || !IsSpace(body[0])
    ensures body != "" && body[0] == '}' ==> ParseValue("{" + body) == Some((Obj([]), body[1..]))
    ensures (body == "" || body[0] != '}') && ParseFields(body).Some?
            ==> ParseValue("{" + body) == Some((Obj(ParseFields(body).value.0), ParseFields(body).value.1))
  {
    SkipNothing("{" + body);
    assert ("{" + body)[1..] == body;
    SkipNothing(body);
  }

  lemma {:induction false} ValueReads(v: Json, e: Escapes, rest: string)
    requires WellFormed(v) && Delimited(rest)
    ensures ParseValue(Print(v, e) + rest) == Some((v, rest))
    decreases v, 1
  {
    match v
    case Null => WordReads("null", Null, rest);
    case Bool(b) => WordReads(if b then "true" else "false", v, rest);
    case Num(lexeme) => NumberReads(lexeme, rest);
    case Str(s) => QuotedReads(s, e, rest);
    case Arr(items) => ArrayReads(items, e, rest);
    case Obj(fields) => ObjectReads(fields, e, rest);
  }

  lemma QuotedReads(s: string, e: Escapes, rest: string)
    ensures ParseValue(PrintString(s, e) + rest) == Some((Str(s), rest))
  {
    StringReads(s, e, rest);
    SkipNothing(PrintString(s, e) + rest);
  }

  lemma {:induction false} ArrayReads(items: seq<Json>, e: Escapes, rest: string)
    requires forall i :: 0 <= i < |items| ==> WellFormed(items[i])
    ensures ParseValue("[" + PrintItems(items, e) + "]" + rest) == Some((Arr(items), rest))
    decreases items, 1
  {
    var body := PrintItems(items, e) + "]" + rest;
    assert "[" + PrintItems(items, e) + "]" + rest == "[" + body;
    if items == [] {
      assert body == "]" + rest && body[1..] == rest;
    } else {
      PrintStart(items[0], e);
      ItemsRead(items, e, rest);
    }
    BracketOpens(body);
  }

  lemma {:induction false} ObjectReads(fields: seq<Field>, e: Escapes, rest: string)
    requires WellFormed(Obj(fields))
    ensures ParseValue("{" + PrintFields(fields, e) + "}" + rest) == Some((Obj(fields), rest))
    decreases fields, 1
  {
    var body := PrintFields(fields, e) + "}" + rest;
    assert "{" + PrintFields(fields, e) + "}" + rest == "{" + body;
    if fields == [] {
      assert body == "}" + rest && body[1..] == rest;
    } else {
      FieldsStart(fields, e);
      FieldsRead(fields, e, rest);
    }
    BraceOpens(body);
  }

  lemma LastItem(text: string, v: Json, rest: string)
    requires ParseValue(text) == Some((v, "]" + rest))
    ensures ParseItems(text) == Some(([v], rest))
  {
    SkipNothing("]" + rest);
    assert ("]" + rest)[1..] == rest;
  }

  lemma MoreItems(text: string, v: Json, tail: string)
    requires ParseValue(text) == Some((v, "," + tail))
    requires ParseItems(tail).Some?
    ensures ParseItems(text) == Some(([v] + ParseItems(tail).value.0, ParseItems(tail).value.1))
  {
    SkipNothing("," + tail);
    assert ("," + tail)[1..] == tail;
  }

  lemma Reassociate(text: string, a: string, comma: string, b: string, close: string, rest: string)
    requires text == a + comma + b
    ensures text + close + rest == a + (comma + (b + close + rest))
  {}

  lemma {:induction false} ItemsRead(items: seq<Json>, e: Escapes, rest: string)
    requires items != [] && forall i :: 0 <= i < |items| ==> WellFormed(items[i])
    ensures ParseItems(PrintItems(items, e) + "]" + rest) == Some((items, rest))
    decreases items, 0
  {
    hide ParseItems, ParseValue, Print, WellFormed;
    var first := Print(items[0], e);
    if |items| == 1 {
      ValueReads(items[0], e, "]" + rest);
      LastItem(first + ("]" + rest), items[0], rest);
      assert first + "]" + rest == first + ("]" + rest);
      assert [items[0]] == items;
    } else {
      var others := PrintItems(items[1..], e);
      var tail := others + "]" + rest;
      ValueReads(items[0], e, "," + tail);
      ItemsRead(items[1..], e, rest);
      MoreItems(first + ("," + tail), items[0], tail);
      Reassociate(PrintItems(items, e), first, ",", others, "]", rest);
      assert [items[0]] + items[1..] == items;
    }
  }

  lemma KeyReads(key: string, e: Escapes, rest: string)
    ensures ParseKey(PrintString(key, e) + ":" + rest) == Some((key, rest))
  {
    var after := ":" + rest;
    var text := PrintString(key, e) + ":" + rest;
    assert text == PrintString(key, e) + after;
    StringReads(key, e, after);
    SkipNothing(text);
    SkipNothing(after);
    assert after[1..] == rest;
  }

  lemma {:induction false} MemberReads(f: Field, e: Escapes, after: string)
    requires WellFormed(f.value) && Delimited(after)
    ensures ParseKey(PrintField(f, e) + after) == Some((f.key, Print(f.value, e) + after))
    ensures ParseValue(Print(f.value, e) + after) == Some((f.value, after))
    decreases f, 2
  {
    var value := Print(f.value, e) + after;
    Joined(PrintString(f.key, e), ":", Print(f.value, e), after);
    KeyReads(f.key, e, value);
    ValueReads(f.value, e, after);
  }

  lemma LastMember(text: string, key: string, colon: string, v: Json, rest: string)
    requires ParseKey(text) == Some((key, colon))
    requires ParseValue(colon) == Some((v, "}" + rest))
    ensures ParseFields(text) == Some(([Field(key, v)], rest))
  {
    SkipNothing("}" + rest);
    assert ("}" + rest)[1..] == rest;
  }

  lemma MoreMembers(text: string, key: string, colon: string, v: Json, tail: string)
    requires ParseKey(text) == Some((key, colon))
    requires ParseValue(colon) == Some((v, "," + tail))
    requires ParseFields(tail).Some?
    ensures ParseFields(text) == Some((PutFirst(key, v, ParseFields(tail).value.0), ParseFields(tail).value.1))
  {
    SkipNothing("," + tail);
    assert ("," + tail)[1..] == tail;
  }

  lemma FirstFieldOf(fields: seq<Field>, e: Escapes, rest: string)
    requires |fields| > 1
    ensures PrintFields(fields, e) + "}" + rest
            == PrintField(fields[0], e) + ("," + (PrintFields(fields[1..], e) + "}" + rest))
  {
    Reassociate(PrintFields(fields, e), PrintField(fields[0], e), ",", PrintFields(fields[1..], e), "}", rest);
  }

  lemma TailWellFormed(fields: seq<Field>)
    requires fields != [] && WellFormed(Obj(fields))
    ensures WellFormed(Obj(fields[1..]))
  {}

  lemma {:induction false} FieldsRead(fields: seq<Field>, e: Escapes, rest: string)
    requires fields != [] && WellFormed(Obj(fields))
    ensures ParseFields(PrintFields(fields, e) + "}" + rest) == Some((fields, rest))
    decreases fields, 0
  {
    var f := fields[0];
    if |fields| == 1 {
      var after := "}" + rest;
      MemberReads(f, e, after);
      LastMember(PrintField(f, e) + after, f.key, Print(f.value, e) + after, f.value, rest);
      assert PrintFields(fields, e) + "}" + rest == PrintField(f, e) + after;
      assert [Field(f.key, f.value)] == fields;
    } else {
      var tail := PrintFields(fields[1..], e) + "}" + rest;
      var after := "," + tail;
      MemberReads(f, e, after);
      TailWellFormed(fields);
      FieldsRead(fields[1..], e, rest);
      MoreMembers(PrintField(f, e) + after, f.key, Print(f.value, e) + after, f.value, tail);
      FirstFieldOf(fields, e, rest);
      PutFirstOfNew(fields);
    }
  }

  lemma PutFirstOfNew(fields: seq<Field>)
    requires fields != [] && DistinctKeys(fields)
    ensures PutFirst(fields[0].key, fields[0].value, fields[1..]) == fields
  {
    assert forall i :: 0 <= i < |fields| - 1 ==> fields[1..][i] == fields[i + 1];
  }

  /** `JSON.parse` recovers every value from its text, with or without the line end the files carry. */
  lemma ParsePrint(v: Json, e: Escapes)
    requires WellFormed(v)
    ensures Parse(Print(v, e)) == Some(v)
    ensures Parse(Print(v, e) + "\n") == Some(v)
  {
    assert Print(v, e) + "" == Print(v, e);
    ValueReads(v, e, "");
    ValueReads(v, e, "\n");
    assert SkipSpace("\n") == "";
  }

  lemma PrintInjective(v: Json, w: Json, e: Escapes)
    requires WellFormed(v) && WellFormed(w) && Print(v, e) == Print(w, e)
    ensures v == w
  {
    ParsePrint(v, e);
    ParsePrint(w, e);
  }

  // ---------------------------------------------------------------- torn texts

  lemma {:induction false} SkipExtends(s: string, t: string)
    requires SkipSpace(s) != ""
    ensures SkipSpace(s + t) == SkipSpace(s) + t
  {
    if IsSpace(s[0]) {
      TailExtends(s, t);
      SkipExtends(s[1..], t);
    }
  }

  lemma ParseCharExtends(s: string, t: string)
    requires s != "" && ParseChar(s).Some?
    ensures ParseChar(s + t) == Some((ParseChar(s).value.0, ParseChar(s).value.1 + t))
  {
    if s[0] != '\\' {
      TailExtends(s, t);
    } else if s[1] == 'u' {
      assert (s + t)[2..6] == s[2..6];
      assert (s + t)[6..] == s[6..] + t;
      if |s| >= 12 {
        assert (s + t)[8..12] == s[8..12];
        assert (s + t)[12..] == s[12..] + t;
      }
    } else {
      assert (s + t)[2..] == s[2..] + t;
    }
  }

  lemma {:induction false} ParseCharsExtends(s: string, t: string)
    requires ParseChars(s).Some?
    ensures ParseChars(s + t) == Some((ParseChars(s).value.0, ParseChars(s).value.1 + t))
    decreases |s|
  {
    if s[0] == '"' {
      TailExtends(s, t);
    } else {
      ParseCharExtends(s, t);
      ParseCharsExtends(ParseChar(s).value.1, t);
    }
  }

  lemma ParseWordExtends(s: string, t: string, word: string, v: Json)
    requires word != "" && ParseWord(s, word, v).Some?
    ensures ParseWord(s + t, word, v) == Some((v, ParseWord(s, word, v).value.1 + t))
  {
    assert (s + t)[..|word|] == s[..|word|];
    assert (s + t)[|word|..] == s[|word|..] + t;
  }

  lemma {:induction false} NumberSpanExtends(s: string, t: string)
    requires NumberSpan(s) < |s|
    ensures NumberSpan(s + t) == NumberSpan(s)
  {
    if IsNumberChar(s[0]) {
      TailExtends(s, t);
      NumberSpanExtends(s[1..], t);
    }
  }

  lemma ParseNumberExtends(s: string, t: string)
    requires ParseNumber(s).Some? && ParseNumber(s).value.1 != ""
    ensures ParseNumber(s + t) == Some((ParseNumber(s).value.0, ParseNumber(s).value.1 + t))
  {
    var n := NumberSpan(s);
    NumberSpanExtends(s, t);
    assert (s + t)[..n] == s[..n];
    assert (s + t)[n..] == s[n..] + t;
  }

  lemma TailExtends(s: string, t: string)
    requires s != ""
    ensures (s + t)[1..] == s[1..] + t && (s + t)[0] == s[0]
  {}

  /** More text after an accepted value changes nothing, unless a number could run on into it. */
  lemma {:induction false} ParseValueExtends(s0: string, t: string)
    requires ParseValue(s0).Some?
    requires ParseValue(s0).value.0.Num? ==> ParseValue(s0).value.1 != ""
    ensures ParseValue(s0 + t) == Some((ParseValue(s0).value.0, ParseValue(s0).value.1 + t))
    decreases |s0|, 1
  {
    var s := SkipSpace(s0);
    SkipExtends(s0, t);
    TailExtends(s, t);
    if s[0] == '"' {
      ParseCharsExtends(s[1..], t);
    } else if s[0] == '[' {
      var u := SkipSpace(s[1..]);
      SkipExtends(s[1..], t);
      if u[0] == ']' {
        TailExtends(u, t);
      } else {
        ParseItemsExtends(u, t);
      }
    } else if s[0] == '{' {
      var u := SkipSpace(s[1..]);
      SkipExtends(s[1..], t);
      if u[0] == '}' {
        TailExtends(u, t);
      } else {
        ParseFieldsExtends(u, t);
      }
    } else if s[0] == 't' {
      ParseWordExtends(s, t, "true", Bool(true));
    } else if s[0] == 'f' {
      ParseWordExtends(s, t, "false", Bool(false));
    } else if s[0] == 'n' {
      ParseWordExtends(s, t, "null", Null);
    } else {
      ParseNumberExtends(s, t);
    }
  }

  lemma {:induction false} ParseItemsExtends(s: string, t: string)
    requires ParseItems(s).Some?
    ensures ParseItems(s + t) == Some((ParseItems(s).value.0, ParseItems(s).value.1 + t))
    decreases |s|, 2
  {
    var rest := ParseValue(s).value.1;
    var u := SkipSpace(rest);
    ParseValueExtends(s, t);
    SkipExtends(rest, t);
    TailExtends(u, t);
    if u[0] != ']' {
      ParseItemsExtends(u[1..], t);
    }
  }

  lemma ParseKeyExtends(s0: string, t: string)
    requires ParseKey(s0).Some?
    ensures ParseKey(s0 + t) == Some((ParseKey(s0).value.0, ParseKey(s0).value.1 + t))
  {
    var s := SkipSpace(s0);
    SkipExtends(s0, t);
    TailExtends(s, t);
    ParseCharsExtends(s[1..], t);
    var rest := ParseChars(s[1..]).value.1;
    var u := SkipSpace(rest);
    SkipExtends(rest, t);
    TailExtends(u, t);
  }

  lemma {:induction false} ParseFieldsExtends(s: string, t: string)
    requires ParseFields(s).Some?
    ensures ParseFields(s + t) == Some((ParseFields(s).value.0, ParseFields(s).value.1 + t))
    decreases |s|, 2
  {
    ParseKeyExtends(s, t);
    var afterColon := ParseKey(s).value.1;
    ParseValueExtends(afterColon, t);
    var rest := ParseValue(afterColon).value.1;
    var u := SkipSpace(rest);
    SkipExtends(rest, t);
    TailExtends(u, t);
    if u[0] != '}' {
      ParseFieldsExtends(u[1..], t);
    }
  }

  /** A torn object text never parses: every proper prefix of it is refused. */
  lemma TornObjectRefused(v: Json, e: Escapes, n: nat)
    requires v.Obj? && WellFormed(v) && n < |Print(v, e)|
    ensures Parse(Print(v, e)[..n]) == None
  {
    var whole := Print(v, e);
    var torn, lost := whole[..n], whole[n..];
    assert torn + lost == whole;
    if Parse(torn).Some? {
      assert torn[0] == '{';
      ParseValueExtends(torn, lost);
      assert whole + "" == whole;
      ValueReads(v, e, "");
      assert false;
    }
  }
}
