/**
 The installer's quoting of process arguments, against the rules by which the Microsoft C runtime
 splits a command line into arguments.
 */
module CommandLine {

  function Slashes(n: nat): (r: string)
    ensures |r| == n && forall i :: 0 <= i < n ==> r[i] == '\\'
  {
    seq(n, _ => '\\')
  }

  // ---------------------------------------------------------------- quoting

  /** What follows the opening quote for a value whose first `pending` backslashes were held back. */
  function Body(value: string, pending: nat): string {
    if value == "" then Slashes(2 * pending) + "\""
    else if value[0] == '\\' then Body(value[1..], pending + 1)
    else if value[0] == '"' then Slashes(2 * pending + 1) + "\"" + Body(value[1..], 0)
    else Slashes(pending) + [value[0]] + Body(value[1..], 0)
  }

  function Quote(value: string): string {
    "\"" + Body(value, 0)
  }

  method QuoteProcessArgument(value: string) returns (quoted: string)
    ensures quoted == Quote(value)
  {
    if value == "" {
      return "\"\"";
    }
    quoted := "\"";
    var backslashes := 0;
    for i := 0 to |value|
      invariant quoted + Body(value[i..], backslashes) == Quote(value)
    {
      var c := value[i];
      assert value[i..][0] == c && value[i..][1..] == value[i + 1..];
      ghost var before, rest := quoted, Body(value[i + 1..], 0);
      if c == '\\' {
        backslashes := backslashes + 1;
      } else if c == '"' {
        quoted := quoted + Slashes(2 * backslashes + 1) + "\"";
        assert quoted + rest == before + (Slashes(2 * backslashes + 1) + "\"" + rest);
        backslashes := 0;
      } else {
        if backslashes > 0 {
          quoted := quoted + Slashes(backslashes);
        }
        quoted := quoted + [c];
        assert quoted + rest == before + (Slashes(backslashes) + [c] + rest);
        backslashes := 0;
      }
    }
    quoted := quoted + Slashes(2 * backslashes) + "\"";
  }

  // ---------------------------------------------------------------- parsing

  predicate Blank(c: char) { c == ' ' || c == '\t' }

  /**
   The arguments of a command line after the program name. `current` is the argument read so far,
   `open` says that one has begun, `quoted` that the reader is between quotes, and `slashes` counts
   the backslashes just read. Backslashes are special before a quote only: pairs stand for one, and
   an odd one makes the quote literal. Inside quotes a doubled quote is literal too.
   */
  function Scan(s: string, current: string, open: bool, quoted: bool, slashes: nat): seq<string> {
    if s == "" then
      if open then [current + Slashes(slashes)] else []
    else if s[0] == '\\' then
      Scan(s[1..], current, true, quoted, slashes + 1)
    else if s[0] == '"' then
      var kept := current + Slashes(slashes / 2);
      if slashes % 2 == 1 then Scan(s[1..], kept + "\"", true, quoted, 0)
      else if quoted && |s| > 1 && s[1] == '"' then Scan(s[2..], kept + "\"", true, quoted, 0)
      else Scan(s[1..], kept, true, !quoted, 0)
    else if Blank(s[0]) && !quoted then
      (if open then [current + Slashes(slashes)] else []) + Scan(s[1..], "", false, false, 0)
    else
      Scan(s[1..], current + Slashes(slashes) + [s[0]], true, quoted, 0)
  }

  function ParseArguments(commandLine: string): seq<string> {
    Scan(commandLine, "", false, false, 0)
  }

  // ---------------------------------------------------------------- round trip

  lemma {:induction false} ScanSlashes(n: nat, s: string, current: string, quoted: bool, slashes: nat)
    ensures Scan(Slashes(n) + s, current, true, quoted, slashes) == Scan(s, current, true, quoted, slashes + n)
    decreases n
  {
    if n == 0 {
      assert Slashes(0) + s == s;
    } else {
      assert (Slashes(n) + s)[1..] == Slashes(n - 1) + s;
      ScanSlashes(n - 1, s, current, quoted, slashes + 1);
    }
  }

  lemma ScanQuote(s: string, current: string, slashes: nat)
    requires s != "" && s[0] == '"' && (|s| == 1 || s[1] != '"') && slashes % 2 == 0
    ensures Scan(s, current, true, true, slashes) == Scan(s[1..], current + Slashes(slashes / 2), true, false, 0)
  {}

  lemma ScanLiteralQuote(s: string, current: string, slashes: nat)
    requires s != "" && s[0] == '"' && slashes % 2 == 1
    ensures Scan(s, current, true, true, slashes) == Scan(s[1..], current + Slashes(slashes / 2) + "\"", true, true, 0)
  {}

  lemma ScanBodyEnd(pending: nat, rest: string, current: string)
    requires rest == "" || Blank(rest[0])
    ensures Scan(Body("", pending) + rest, current, true, true, 0)
         == Scan(rest, current + Slashes(pending), true, false, 0)
  {
    var close := "\"" + rest;
    assert Body("", pending) + rest == Slashes(2 * pending) + close;
    hide Scan, Body;
    ScanSlashes(2 * pending, close, current, true, 0);
    ScanQuote(close, current, 2 * pending);
    assert close[1..] == rest;
  }

  lemma ScanBodyQuote(tail: string, pending: nat, rest: string, current: string)
    ensures Scan(Body("\"" + tail, pending) + rest, current, true, true, 0)
         == Scan(Body(tail, 0) + rest, current + Slashes(pending) + "\"", true, true, 0)
  {
    var more := "\"" + Body(tail, 0) + rest;
    var n := 2 * pending + 1;
    assert ("\"" + tail)[1..] == tail;
    assert Body("\"" + tail, pending) + rest == Slashes(n) + more;
    hide Scan, Body;
    ScanSlashes(n, more, current, true, 0);
    ScanLiteralQuote(more, current, n);
    assert more[1..] == Body(tail, 0) + rest && n / 2 == pending;
  }

  lemma ScanBodyOther(c: char, tail: string, pending: nat, rest: string, current: string)
    requires c != '"' && c != '\\'
    ensures Scan(Body([c] + tail, pending) + rest, current, true, true, 0)
         == Scan(Body(tail, 0) + rest, current + Slashes(pending) + [c], true, true, 0)
  {
    var more := [c] + Body(tail, 0) + rest;
    assert ([c] + tail)[1..] == tail;
    assert Body([c] + tail, pending) + rest == Slashes(pending) + more;
    hide Body;
    ScanSlashes(pending, more, current, true, 0);
    assert more[1..] == Body(tail, 0) + rest;
  }

  /** The reader recovers a value from its quoted body and leaves the quotes. */
  lemma {:induction false} ScanBody(value: string, pending: nat, rest: string, current: string)
    requires rest == "" || Blank(rest[0])
    ensures Scan(Body(value, pending) + rest, current, true, true, 0)
         == Scan(rest, current + Slashes(pending) + value, true, false, 0)
    decreases |value|
  {
    if value == "" {
      ScanBodyEnd(pending, rest, current);
      assert current + Slashes(pending) + value == current + Slashes(pending);
    } else {
      hide Scan;
      var c, tail := value[0], value[1..];
      assert value == [c] + tail;
      if c == '\\' {
        ScanBody(tail, pending + 1, rest, current);
        assert current + Slashes(pending + 1) + tail == current + Slashes(pending) + value;
      } else if c == '"' {
        ScanBodyQuote(tail, pending, rest, current);
        ScanBody(tail, 0, rest, current + Slashes(pending) + "\"");
        assert current + Slashes(pending) + "\"" + Slashes(0) + tail == current + Slashes(pending) + value;
      } else {
        ScanBodyOther(c, tail, pending, rest, current);
        ScanBody(tail, 0, rest, current + Slashes(pending) + [c]);
        assert current + Slashes(pending) + [c] + Slashes(0) + tail == current + Slashes(pending) + value;
      }
    }
  }

  /** An argument as the installer writes it: a plain option text, possibly empty, then a quoted value. */
  datatype Argument = Argument(option: string, value: string)

  predicate Plain(option: string) {
    forall i :: 0 <= i < |option| ==> option[i] != '"' && option[i] != '\\' && !Blank(option[i])
  }

  function Written(a: Argument): string {
    a.option + Quote(a.value)
  }

  /** The arguments separated by single spaces. */
  function Joined(args: seq<Argument>): string {
    if args == [] then ""
    else if |args| == 1 then Written(args[0])
    else Written(args[0]) + " " + Joined(args[1..])
  }

  function Values(args: seq<Argument>): (r: seq<string>)
    ensures |r| == |args|
    ensures forall i :: 0 <= i < |args| ==> r[i] == args[i].option + args[i].value
  {
    if args == [] then [] else [args[0].option + args[0].value] + Values(args[1..])
  }

  lemma {:induction false} ScanPlain(option: string, s: string, current: string, open: bool)
    requires Plain(option)
    ensures Scan(option + s, current, open, false, 0) == Scan(s, current + option, open || option != "", false, 0)
    decreases |option|
  {
    if option == "" {
      assert option + s == s && current + option == current;
    } else {
      assert (option + s)[1..] == option[1..] + s;
      assert current + Slashes(0) + [option[0]] == current + [option[0]];
      ScanPlain(option[1..], s, current + [option[0]], true);
      assert current + [option[0]] + option[1..] == current + option;
    }
  }

  lemma ScanOpening(body: string, current: string, open: bool)
    ensures Scan("\"" + body, current, open, false, 0) == Scan(body, current, true, true, 0)
  {
    assert ("\"" + body)[1..] == body && current + Slashes(0) == current;
  }

  lemma ScanWritten(a: Argument, rest: string)
    requires Plain(a.option) && (rest == "" || Blank(rest[0]))
    ensures Scan(Written(a) + rest, "", false, false, 0) == Scan(rest, a.option + a.value, true, false, 0)
  {
    var body := Body(a.value, 0) + rest;
    calc {
      Scan(Written(a) + rest, "", false, false, 0);
      { assert Written(a) + rest == a.option + ("\"" + body); }
      Scan(a.option + ("\"" + body), "", false, false, 0);
      { ScanPlain(a.option, "\"" + body, "", false); assert "" + a.option == a.option; }
      Scan("\"" + body, a.option, a.option != "", false, 0);
      { ScanOpening(body, a.option, a.option != ""); }
      Scan(body, a.option, true, true, 0);
      { ScanBody(a.value, 0, rest, a.option); assert a.option + Slashes(0) + a.value == a.option + a.value; }
      Scan(rest, a.option + a.value, true, false, 0);
    }
  }

  /** Parsing a space-joined list of quoted arguments gives back exactly the list. */
  lemma {:induction false} QuotingRoundTrip(args: seq<Argument>)
    requires forall i :: 0 <= i < |args| ==> Plain(args[i].option)
    ensures ParseArguments(Joined(args)) == Values(args)
  {
    if |args| == 1 {
      assert Written(args[0]) + "" == Written(args[0]);
      ScanWritten(args[0], "");
      assert args[0].option + args[0].value + Slashes(0) == args[0].option + args[0].value;
    } else if |args| > 1 {
      var rest := " " + Joined(args[1..]);
      assert Joined(args) == Written(args[0]) + rest && rest[1..] == Joined(args[1..]);
      ScanWritten(args[0], rest);
      assert args[0].option + args[0].value + Slashes(0) == args[0].option + args[0].value;
      QuotingRoundTrip(args[1..]);
    }
  }

  /** Quoting never merges values: equal texts come from equal values. */
  lemma QuoteInjective(a: string, b: string)
    requires Quote(a) == Quote(b)
    ensures a == b
  {
    var x, y := Argument("", a), Argument("", b);
    QuotingRoundTrip([x]);
    QuotingRoundTrip([y]);
    assert Joined([x]) == Joined([y]);
    assert Values([x])[0] == "" + a == a && Values([y])[0] == "" + b == b;
  }
}
