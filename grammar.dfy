/** The command-line grammar of commands.py and the visitor that turns a parse
    tree into a command record, as one hand-written PEG parser:

      command = number? ("," number)? (sep? action arglist)? (sep* "#" comment)?
      arglist = (sep argument)*        argument = quoted / word

    Each parsing function takes the unparsed text and returns what it read
    together with the text that is left. Every part of `command` is optional,
    so the only failure is text left over after the whole rule: the
    incomplete-parse error. */
module Grammar {
  import opened Base
  import opened Chars
  import opened Numeric

  /** The visitor's dictionary: a field is `None` exactly when its key is absent. */
  datatype Command = Command(
    inAddr: Option<int>,
    outAddr: Option<int>,
    action: Option<string>,
    arguments: Option<seq<string>>)

  predicate IsActionName(a: string) {
    |a| > 0 && IsActionHead(a[0]) && forall i :: 0 <= i < |a| ==> InClass(a[i], ActionChar)
  }

  predicate NoHash(a: string) {
    forall i :: 0 <= i < |a| ==> a[i] != '#'
  }

  // ---------------------------------------------------------------------
  // Tokens.

  /** `number = ~r"-?[\d]+"`, read with `int()`. */
  function ParseNumber(s: string): (r: Option<(int, string)>)
    ensures r.Some? ==> |r.value.1| < |s|
  {
    if |s| > 0 && s[0] == '-' then
      var n := RunLength(s[1..], Digit);
      if n == 0 then None
      else
        assert s[1 + n - 1] == s[1..][n - 1];
        Some((-(DigitsValue(s[1..1 + n]) as int), s[1 + n..]))
    else
      var n := RunLength(s, Digit);
      if n == 0 then None else Some((DigitsValue(s[..n]), s[n..]))
  }

  /** `action = ~r"[A-z]+[A-z0-9\-]*"`. */
  function ParseAction(s: string): (r: Option<(string, string)>)
    ensures r.Some? ==> IsActionName(r.value.0) && |r.value.1| < |s|
    ensures r.Some? ==> s == r.value.0 + r.value.1
  {
    if |s| > 0 && IsActionHead(s[0]) then
      var n := 1 + RunLength(s[1..], ActionChar);
      assert forall i :: 1 <= i < n ==> s[i] == s[1..][i - 1];
      Some((s[..n], s[n..]))
    else None
  }

  /** `quoted = quote literal quote` with `literal = ~r"[^\"#]*"`; the value
      is the literal without its quotes. */
  function ParseQuoted(s: string): (r: Option<(string, string)>)
    ensures r.Some? ==> NoHash(r.value.0) && |r.value.1| < |s|
  {
    if |s| > 0 && s[0] == '"' then
      var n := RunLength(s[1..], LiteralChar);
      if 1 + n < |s| && s[1 + n] == '"' then
        assert forall i :: 0 <= i < n ==> s[1..1 + n][i] == s[1..][i];
        Some((s[1..1 + n], s[2 + n..]))
      else None
    else None
  }

  /** `word = ~r"[^\s#]+"`. */
  function ParseWord(s: string): (r: Option<(string, string)>)
    ensures r.Some? ==> NoHash(r.value.0) && |r.value.1| < |s|
  {
    var n := RunLength(s, WordChar);
    if n == 0 then None else Some((s[..n], s[n..]))
  }

  /** `argument = (quoted / word)`: ordered choice, the quoted form first. */
  function ParseArgument(s: string): (r: Option<(string, string)>)
    ensures r.Some? ==> NoHash(r.value.0) && |r.value.1| < |s|
  {
    var q := ParseQuoted(s);
    if q.Some? then q else ParseWord(s)
  }

  /** `arglist = (sep argument)*`: greedy repetition; an iteration whose
      argument fails gives back its separator. */
  function ParseArgList(s: string): (r: (seq<string>, string))
    ensures forall i :: 0 <= i < |r.0| ==> NoHash(r.0[i])
    decreases |s|
  {
    var n := RunLength(s, Space);
    if n == 0 then ([], s)
    else
      match ParseArgument(s[n..])
      case None => ([], s)
      case Some((arg, rest)) =>
        var (more, tail) := ParseArgList(rest);
        ([arg] + more, tail)
  }

  // ---------------------------------------------------------------------
  // The parts of `command`.

  /** `number?` */
  function ParseStart(s: string): (r: (Option<int>, string))
  {
    match ParseNumber(s)
    case Some((v, rest)) => (Some(v), rest)
    case None => (None, s)
  }

  /** `("," number)?` */
  function ParseEnd(s: string): (r: (Option<int>, string))
  {
    if |s| > 0 && s[0] == ',' then
      match ParseNumber(s[1..])
      case Some((v, rest)) => (Some(v), rest)
      case None => (None, s)
    else (None, s)
  }

  /** `(sep? action arglist)?` */
  function ParseImperative(s: string): (r: (Option<string>, Option<seq<string>>, string))
    ensures r.0.Some? <==> r.1.Some?
    ensures r.0.Some? ==> IsActionName(r.0.value)
    ensures r.1.Some? ==> forall i :: 0 <= i < |r.1.value| ==> NoHash(r.1.value[i])
  {
    var n := RunLength(s, Space);
    match ParseAction(s[n..])
    case None => (None, None, s)
    case Some((name, rest)) =>
      var (args, tail) := ParseArgList(rest);
      (Some(name), Some(args), tail)
  }

  /** `(sep* "#" comment)?` with `comment = ~r".*"`, which stops at a newline. */
  function SkipComment(s: string): string {
    var n := RunLength(s, Space);
    if n < |s| && s[n] == '#' then
      var c := s[n + 1..];
      c[RunLength(c, CommentChar)..]
    else s
  }

  /** `CommandParser().visit(command_grammar.parse(line))`; `None` is the
      incomplete-parse error. A parsed record has an action exactly when it has
      an argument list, the action is a well-formed action name, and no
      argument holds a '#'. */
  function Parse(line: string): (r: Option<Command>)
    ensures r.Some? ==> (r.value.action.Some? <==> r.value.arguments.Some?)
    ensures r.Some? && r.value.action.Some? ==> IsActionName(r.value.action.value)
    ensures r.Some? && r.value.arguments.Some? ==>
      forall i :: 0 <= i < |r.value.arguments.value| ==> NoHash(r.value.arguments.value[i])
  {
    var (inAddr, r1) := ParseStart(line);
    var (outAddr, r2) := ParseEnd(r1);
    var (action, args, r3) := ParseImperative(r2);
    if SkipComment(r3) == [] then Some(Command(inAddr, outAddr, action, args)) else None
  }

  // ---------------------------------------------------------------------
  // Trailing whitespace.

  /** Text that ends in whitespace and holds no comment. */
  predicate Pending(s: string) {
    |s| > 0 && IsSpace(s[|s| - 1]) && '#' !in s
  }

  /** Dropping a prefix that ends in a non-space character leaves the
      trailing whitespace in place. */
  lemma PendingAfter(s: string, n: nat)
    requires Pending(s) && 0 < n <= |s| && !IsSpace(s[n - 1])
    ensures Pending(s[n..])
  {
    assert n < |s|;
    assert s[n..][|s| - n - 1] == s[|s| - 1];
  }

  lemma NumberPending(s: string)
    requires Pending(s) && ParseNumber(s).Some?
    ensures Pending(ParseNumber(s).value.1)
  {
    if s[0] == '-' {
      var n := RunLength(s[1..], Digit);
      assert s[1..][n - 1] == s[n];
      PendingAfter(s, 1 + n);
    } else {
      PendingAfter(s, RunLength(s, Digit));
    }
  }

  lemma ArgumentPending(s: string)
    requires Pending(s) && ParseArgument(s).Some?
    ensures Pending(ParseArgument(s).value.1)
  {
    if ParseQuoted(s).Some? {
      var n := RunLength(s[1..], LiteralChar);
      PendingAfter(s, 2 + n);
    } else {
      PendingAfter(s, RunLength(s, WordChar));
    }
  }

  lemma {:induction false} ArgListPending(s: string)
    requires Pending(s)
    ensures Pending(ParseArgList(s).1)
    decreases |s|
  {
    var n := RunLength(s, Space);
    if n > 0 && ParseArgument(s[n..]).Some? {
      assert s[n..][|s| - n - 1] == s[|s| - 1];
      ArgumentPending(s[n..]);
      ArgListPending(ParseArgument(s[n..]).value.1);
    }
  }

  lemma ImperativePending(s: string)
    requires Pending(s)
    ensures Pending(ParseImperative(s).2)
  {
    var n := RunLength(s, Space);
    var a := ParseAction(s[n..]);
    if a.Some? {
      ActionPending(s, n, a.value.0, a.value.1);
      ArgListPending(a.value.1);
    }
  }

  /** What follows an action name keeps the line's trailing whitespace. */
  lemma ActionPending(s: string, n: nat, name: string, rest: string)
    requires Pending(s) && n <= |s| && s[n..] == name + rest && IsActionName(name)
    ensures Pending(rest)
  {
    var m := |name|;
    assert InClass(name[m - 1], ActionChar);
    assert s[n + m - 1] == name[m - 1];
    PendingAfter(s, n + m);
    assert s[n + m..] == rest;
  }

  lemma EndPending(s: string)
    requires Pending(s)
    ensures Pending(ParseEnd(s).1)
  {
    if |s| > 0 && s[0] == ',' && ParseNumber(s[1..]).Some? {
      assert s[1..][|s| - 2] == s[|s| - 1];
      NumberPending(s[1..]);
    }
  }

  /** Without a comment, a line that ends in whitespace is rejected: every part
      of the grammar ends in a non-space character, so nothing consumes the
      final whitespace and the parse is incomplete. */
  lemma TrailingSpaceRejected(s: string, c: char)
    requires IsSpace(c) && '#' !in s
    ensures Parse(s + [c]) == None
  {
    var t := s + [c];
    assert t[|t| - 1] == c;
    assert '#' !in t;
    if ParseNumber(t).Some? {
      NumberPending(t);
    }
    var r1 := ParseStart(t).1;
    EndPending(r1);
    var r2 := ParseEnd(r1).1;
    ImperativePending(r2);
  }

  // ---------------------------------------------------------------------
  // Writing a command back as text, and reading it again.

  /** An argument the grammar can carry: quoted text holds neither '"' nor '#'. */
  predicate Quotable(a: string) {
    forall i :: 0 <= i < |a| ==> InClass(a[i], LiteralChar)
  }

  /** A word written as it is: it must not start with '"', or the quoted
      alternative, tried first, could take it. */
  predicate IsBareWord(a: string) {
    |a| > 0 && a[0] != '"' && forall i :: 0 <= i < |a| ==> InClass(a[i], WordChar)
  }

  /** An argument that can be written so that it reads back: as a bare word,
      or else in quotes. */
  predicate Writable(a: string) {
    IsBareWord(a) || Quotable(a)
  }

  function ArgText(a: string): string {
    if IsBareWord(a) then a else "\"" + a + "\""
  }

  function ArgsText(args: seq<string>): string {
    if args == [] then "" else " " + ArgText(args[0]) + ArgsText(args[1..])
  }

  predicate AllSpace(s: string) {
    forall i :: 0 <= i < |s| ==> IsSpace(s[i])
  }

  /** A record the grammar can produce from some line. */
  predicate WellFormed(c: Command) {
    && (c.action.Some? <==> c.arguments.Some?)
    && (c.action.Some? ==> IsActionName(c.action.value))
    && (c.arguments.Some? ==> forall i :: 0 <= i < |c.arguments.value| ==> Writable(c.arguments.value[i]))
  }

  function InPart(c: Command): string {
    if c.inAddr.Some? then IntText(c.inAddr.value) else ""
  }

  function OutPart(c: Command): string {
    if c.outAddr.Some? then "," + IntText(c.outAddr.value) else ""
  }

  function ActionPart(c: Command, sep: string): string {
    if c.action.Some? && c.arguments.Some? then sep + c.action.value + ArgsText(c.arguments.value) else ""
  }

  /** The command as a user could type it; `sep` is the optional whitespace
      before the action. Arguments that are bare words are written bare, the
      others in quotes. */
  function Format(c: Command, sep: string): string {
    InPart(c) + OutPart(c) + ActionPart(c, sep)
  }

  /** Nothing, or optional whitespace, a '#', and a one-line comment. */
  predicate CommentTail(t: string) {
    t == [] || (var n := RunLength(t, Space);
                n < |t| && t[n] == '#' && forall j :: n < j < |t| ==> t[j] != '\n')
  }

  lemma ParseArgListStep(s: string, n: nat, arg: string, rest: string)
    requires n == RunLength(s, Space) && n > 0
    requires ParseArgument(s[n..]) == Some((arg, rest))
    ensures ParseArgList(s) == ([arg] + ParseArgList(rest).0, ParseArgList(rest).1)
  {
  }

  lemma ConcatAssoc(a: string, b: string, c: string, d: string)
    ensures (a + b + c) + d == a + (b + (c + d))
  {
  }

  /** A digit run followed by a non-digit is read up to the non-digit. */
  lemma DigitRunText(d: string, rest: string)
    requires IsDigitString(d) && (rest == [] || !IsDigit(rest[0]))
    ensures RunLength(d + rest, Digit) == |d|
    ensures (d + rest)[..|d|] == d && (d + rest)[|d|..] == rest
  {
    RunLengthOf(d, rest, Digit);
  }

  lemma ParseNaturalText(d: string, rest: string)
    requires IsDigitString(d) && (rest == [] || !IsDigit(rest[0]))
    ensures ParseNumber(d + rest) == Some((DigitsValue(d) as int, rest))
  {
    assert (d + rest)[0] == d[0];
    DigitRunText(d, rest);
  }

  lemma ParseNegativeText(d: string, rest: string)
    requires IsDigitString(d) && (rest == [] || !IsDigit(rest[0]))
    ensures ParseNumber("-" + (d + rest)) == Some((-(DigitsValue(d) as int), rest))
  {
    DigitRunText(d, rest);
    NegativeStep(d + rest, |d|);
  }

  /** After a '-', the number is read from the text that follows it. */
  lemma NegativeStep(t: string, n: nat)
    requires n > 0 && RunLength(t, Digit) == n
    ensures ParseNumber("-" + t) == Some((-(DigitsValue(t[..n]) as int), t[n..]))
  {
    var s := "-" + t;
    assert s[1..] == t;
    assert s[1..1 + n] == t[..n];
    assert s[1 + n..] == t[n..];
  }

  lemma ParseNumberText(n: int, rest: string)
    requires rest == [] || !IsDigit(rest[0])
    ensures ParseNumber(IntText(n) + rest) == Some((n, rest))
  {
    if n < 0 {
      var d := DigitsText(-n);
      assert IntText(n) + rest == "-" + (d + rest);
      ParseNegativeText(d, rest);
      DigitsRoundTrip(-n);
    } else {
      ParseNaturalText(DigitsText(n), rest);
      DigitsRoundTrip(n);
    }
  }

  lemma ParseBareText(a: string, rest: string)
    requires IsBareWord(a)
    requires rest == [] || !InClass(rest[0], WordChar)
    ensures ParseArgument(a + rest) == Some((a, rest))
  {
    var s := a + rest;
    assert s[0] == a[0];
    assert ParseQuoted(s) == None;
    RunLengthOf(a, rest, WordChar);
    assert s[..|a|] == a;
    assert s[|a|..] == rest;
  }

  lemma ParseQuotedText(a: string, rest: string)
    requires Quotable(a)
    ensures ParseQuoted("\"" + (a + ("\"" + rest))) == Some((a, rest))
  {
    var s := "\"" + (a + ("\"" + rest));
    assert s[1..] == a + ("\"" + rest);
    RunLengthOf(a, "\"" + rest, LiteralChar);
    assert s[1 + |a|] == '"';
    assert s[1..1 + |a|] == a;
    assert s[2 + |a|..] == rest;
  }

  lemma ParseArgumentText(a: string, rest: string)
    requires Writable(a)
    requires rest == [] || !InClass(rest[0], WordChar)
    ensures ParseArgument(ArgText(a) + rest) == Some((a, rest))
  {
    if IsBareWord(a) {
      ParseBareText(a, rest);
    } else {
      var s := ArgText(a) + rest;
      assert s == "\"" + (a + ("\"" + rest));
      ParseQuotedText(a, rest);
    }
  }

  /** One written argument, then the text after it. */
  lemma ArgListHead(a: string, r: string)
    requires Writable(a)
    requires r == [] || !InClass(r[0], WordChar)
    ensures ParseArgList(" " + (ArgText(a) + r)) == ([a] + ParseArgList(r).0, ParseArgList(r).1)
  {
    var w := ArgText(a);
    var s := " " + (w + r);
    assert w != [] && !IsSpace(w[0]) by {
      if IsBareWord(a) { assert w[0] == a[0]; } else { assert w[0] == '"'; }
    }
    RunLengthOf(" ", w + r, Space);
    assert s[1..] == w + r;
    ParseArgumentText(a, r);
    ParseArgListStep(s, 1, a, r);
  }

  lemma {:induction false} ParseArgListText(args: seq<string>, rest: string)
    requires forall i :: 0 <= i < |args| ==> Writable(args[i])
    requires rest == [] || !InClass(rest[0], WordChar)
    requires ParseArgList(rest) == ([], rest)
    ensures ParseArgList(ArgsText(args) + rest) == (args, rest)
  {
    if args == [] {
      assert ArgsText(args) + rest == rest;
    } else {
      assert ParseArgList(ArgsText(args[1..]) + rest) == (args[1..], rest) by {
        ParseArgListText(args[1..], rest);
      }
      ArgListCons(args, rest);
    }
  }

  lemma ArgListCons(args: seq<string>, rest: string)
    requires args != [] && Writable(args[0])
    requires rest == [] || !InClass(rest[0], WordChar)
    requires ParseArgList(ArgsText(args[1..]) + rest) == (args[1..], rest)
    ensures ParseArgList(ArgsText(args) + rest) == (args, rest)
  {
    var r := ArgsText(args[1..]) + rest;
    assert ArgsText(args) + rest == " " + (ArgText(args[0]) + r) by {
      ConcatAssoc(" ", ArgText(args[0]), ArgsText(args[1..]), rest);
    }
    ArgsTextStart(args[1..], rest);
    ArgListHead(args[0], r);
    assert [args[0]] + args[1..] == args;
  }

  /** A comment tail is not an argument, not an address and not an action, and
      the comment rule consumes all of it. */
  lemma CommentTailInert(t: string)
    requires CommentTail(t)
    ensures t == [] || (!InClass(t[0], WordChar) && !InClass(t[0], ActionChar) && t[0] != ',' && t[0] != '"')
    ensures ParseArgList(t) == ([], t)
    ensures ParseImperative(t) == (None, None, t)
    ensures SkipComment(t) == []
  {
    if t != [] {
      var n := RunLength(t, Space);
      var c := t[n + 1..];
      RunLengthOf(c, [], CommentChar);
      assert c + [] == c;
    }
  }

  lemma ParseActionText(name: string, after: string)
    requires IsActionName(name)
    requires after == [] || !InClass(after[0], ActionChar)
    ensures ParseAction(name + after) == Some((name, after))
  {
    var s := name + after;
    assert s[0] == name[0];
    assert s[1..] == name[1..] + after;
    RunLengthOf(name[1..], after, ActionChar);
    assert s[..|name|] == name;
    assert s[|name|..] == after;
  }

  lemma ParseImperativeStep(s: string, n: nat, name: string, rest: string, args: seq<string>, tail: string)
    requires n == RunLength(s, Space)
    requires ParseAction(s[n..]) == Some((name, rest))
    requires ParseArgList(rest) == (args, tail)
    ensures ParseImperative(s) == (Some(name), Some(args), tail)
  {
  }

  /** Leading whitespace is skipped up to the first non-space character. */
  lemma SkipSpaceText(sep: string, t: string)
    requires AllSpace(sep) && t != [] && !IsSpace(t[0])
    ensures RunLength(sep + t, Space) == |sep| && (sep + t)[|sep|..] == t
  {
    RunLengthOf(sep, t, Space);
  }

  /** Written arguments start with a blank, which no token continues into. */
  lemma ArgsTextStart(args: seq<string>, tail: string)
    requires tail == [] || !InClass(tail[0], WordChar)
    ensures var after := ArgsText(args) + tail;
      after == [] || (!InClass(after[0], ActionChar) && !InClass(after[0], WordChar))
  {
    if args != [] {
      assert (ArgsText(args) + tail)[0] == ' ';
    }
  }

  lemma ImperativeAfterSpace(sep: string, name: string, after: string, args: seq<string>, tail: string)
    requires AllSpace(sep) && name != [] && !IsSpace(name[0])
    requires ParseAction(name + after) == Some((name, after))
    requires ParseArgList(after) == (args, tail)
    ensures ParseImperative(sep + (name + after)) == (Some(name), Some(args), tail)
  {
    var t := name + after;
    assert t[0] == name[0];
    SkipSpaceText(sep, t);
    ParseImperativeStep(sep + t, |sep|, name, after, args, tail);
  }

  /** The action and the argument list of a written line parse back on their own. */
  lemma ActionTextPieces(name: string, args: seq<string>, tail: string)
    requires IsActionName(name) && CommentTail(tail)
    requires forall i :: 0 <= i < |args| ==> Writable(args[i])
    ensures ParseAction(name + (ArgsText(args) + tail)) == Some((name, ArgsText(args) + tail))
    ensures ParseArgList(ArgsText(args) + tail) == (args, tail)
  {
    CommentTailInert(tail);
    ArgsTextStart(args, tail);
    ParseActionText(name, ArgsText(args) + tail);
    ParseArgListText(args, tail);
  }

  lemma ImperativeText(c: Command, sep: string, tail: string)
    requires WellFormed(c) && AllSpace(sep) && CommentTail(tail)
    ensures ParseImperative(ActionPart(c, sep) + tail) == (c.action, c.arguments, tail)
    ensures var r := ActionPart(c, sep) + tail;
      r == [] || (r[0] != ',' && r[0] != '-' && !IsDigit(r[0]))
  {
    CommentTailInert(tail);
    if c.action.Some? {
      var name := c.action.value;
      var s := ActionPart(c, sep) + tail;
      ActionTextPieces(name, c.arguments.value, tail);
      ImperativeAfterSpace(sep, name, ArgsText(c.arguments.value) + tail, c.arguments.value, tail);
      ConcatAssoc(sep, name, ArgsText(c.arguments.value), tail);
      assert s[0] == if sep == [] then name[0] else sep[0];
    } else {
      assert ActionPart(c, sep) + tail == tail;
    }
  }

  lemma EndText(c: Command, rest: string)
    requires rest == [] || (rest[0] != ',' && !IsDigit(rest[0]))
    ensures ParseEnd(OutPart(c) + rest) == (c.outAddr, rest)
  {
    if c.outAddr.Some? {
      var s := OutPart(c) + rest;
      assert s[1..] == IntText(c.outAddr.value) + rest;
      ParseNumberText(c.outAddr.value, rest);
    } else {
      assert OutPart(c) + rest == rest;
    }
  }

  lemma StartText(c: Command, rest: string)
    requires rest == [] || (rest[0] != '-' && !IsDigit(rest[0]))
    ensures ParseStart(InPart(c) + rest) == (c.inAddr, rest)
  {
    if c.inAddr.Some? {
      ParseNumberText(c.inAddr.value, rest);
    } else {
      assert InPart(c) + rest == rest;
    }
  }

  lemma ParseStep(line: string, inAddr: Option<int>, r1: string, outAddr: Option<int>, r2: string,
                  action: Option<string>, args: Option<seq<string>>, r3: string)
    requires ParseStart(line) == (inAddr, r1) && ParseEnd(r1) == (outAddr, r2)
    requires ParseImperative(r2) == (action, args, r3) && SkipComment(r3) == []
    ensures Parse(line) == Some(Command(inAddr, outAddr, action, args))
  {
  }

  /** Reading a formatted record gives the record back: for every well-formed
      record, any whitespace before the action (none at all included) and any
      trailing comment. Addresses, action and arguments survive with their
      order, bare words verbatim and quoted text without its quotes. */
  lemma ParseFormat(c: Command, sep: string, tail: string)
    requires WellFormed(c) && AllSpace(sep) && CommentTail(tail)
    ensures Parse(Format(c, sep) + tail) == Some(c)
  {
    var a := ActionPart(c, sep) + tail;
    var o := OutPart(c) + a;
    ImperativeText(c, sep, tail);
    EndText(c, a);
    assert o == [] || (o[0] != '-' && !IsDigit(o[0])) by {
      if c.outAddr.Some? { assert o[0] == ','; } else { assert o == a; }
    }
    StartText(c, o);
    CommentTailInert(tail);
    ConcatAssoc(InPart(c), OutPart(c), ActionPart(c, sep), tail);
    ParseStep(InPart(c) + o, c.inAddr, o, c.outAddr, a, c.action, c.arguments, tail);
  }

  // ---------------------------------------------------------------------
  // The parser's unit cases, as consequences of the round trip. Each case
  // first evaluates the written form of its record in a small lemma of its own.

  lemma ArgsText1(a: string)
    ensures ArgsText([a]) == " " + ArgText(a)
  {
    assert [a][1..] == [];
  }

  lemma ArgsText2(a: string, b: string)
    ensures ArgsText([a, b]) == " " + ArgText(a) + (" " + ArgText(b))
  {
    assert [a, b][1..] == [b];
    ArgsText1(b);
  }

  lemma ArgsText3(a: string, b: string, c: string)
    ensures ArgsText([a, b, c]) == " " + ArgText(a) + (" " + ArgText(b) + (" " + ArgText(c)))
  {
    assert [a, b, c][1..] == [b, c];
    ArgsText2(b, c);
  }

  lemma ArgsText4(a: string, b: string, c: string, d: string)
    ensures ArgsText([a, b, c, d]) == " " + ArgText(a) + (" " + ArgText(b) + (" " + ArgText(c) + (" " + ArgText(d))))
  {
    assert [a, b, c, d][1..] == [b, c, d];
    ArgsText3(b, c, d);
  }

  lemma ArgsText5(a: string, b: string, c: string, d: string, e: string)
    ensures ArgsText([a, b, c, d, e])
      == " " + ArgText(a) + (" " + ArgText(b) + (" " + ArgText(c) + (" " + ArgText(d) + (" " + ArgText(e)))))
  {
    assert [a, b, c, d, e][1..] == [b, c, d, e];
    ArgsText4(b, c, d, e);
  }

  lemma FormatOf(c: Command, sep: string, inText: string, outText: string, actionText: string, line: string)
    requires InPart(c) == inText && OutPart(c) == outText && ActionPart(c, sep) == actionText
    requires inText + outText + actionText == line
    ensures Format(c, sep) + "" == line
  {
  }

  /** Address-only lines give just those keys, and the empty line the empty record. */
  lemma AddressExamples()
    ensures Parse("101") == Some(Command(Some(101), None, None, None))
    ensures Parse(",201") == Some(Command(None, Some(201), None, None))
    ensures Parse("990,1090") == Some(Command(Some(990), Some(1090), None, None))
    ensures Parse("") == Some(Command(None, None, None, None))
  {
    AddressTexts();
    ParseFormat(Command(Some(101), None, None, None), "", "");
    ParseFormat(Command(None, Some(201), None, None), "", "");
    ParseFormat(Command(Some(990), Some(1090), None, None), "", "");
    ParseFormat(Command(None, None, None, None), "", "");
  }

  lemma AddressTexts()
    ensures Format(Command(Some(101), None, None, None), "") + "" == "101"
    ensures Format(Command(None, Some(201), None, None), "") + "" == ",201"
    ensures Format(Command(Some(990), Some(1090), None, None), "") + "" == "990,1090"
    ensures Format(Command(None, None, None, None), "") + "" == ""
  {
    InAddressText();
    OutAddressText();
    BothAddressText();
    FormatOf(Command(None, None, None, None), "", "", "", "", "");
  }

  lemma InAddressText()
    ensures Format(Command(Some(101), None, None, None), "") + "" == "101"
  {
    assert IntText(101) == "101";
    FormatOf(Command(Some(101), None, None, None), "", "101", "", "", "101");
  }

  lemma OutAddressText()
    ensures Format(Command(None, Some(201), None, None), "") + "" == ",201"
  {
    assert IntText(201) == "201";
    FormatOf(Command(None, Some(201), None, None), "", "", ",201", "", ",201");
  }

  lemma BothAddressText()
    ensures Format(Command(Some(990), Some(1090), None, None), "") + "" == "990,1090"
  {
    BothNumbersText();
    FormatOf(Command(Some(990), Some(1090), None, None), "", "990", ",1090", "", "990,1090");
  }

  lemma BothNumbersText()
    ensures IntText(990) == "990" && IntText(1090) == "1090"
  {
    assert DigitsText(109) == "109";
  }

  /** A bare action carries an empty argument list; '-' may continue an action name. */
  lemma ActionExamples()
    ensures Parse("xyz") == Some(Command(None, None, Some("xyz"), Some([])))
    ensures Parse("change-things") == Some(Command(None, None, Some("change-things"), Some([])))
  {
    ActionTexts();
    ParseFormat(Command(None, None, Some("xyz"), Some([])), "", "");
    ParseFormat(Command(None, None, Some("change-things"), Some([])), "", "");
  }

  lemma ActionTexts()
    ensures Format(Command(None, None, Some("xyz"), Some([])), "") + "" == "xyz"
    ensures Format(Command(None, None, Some("change-things"), Some([])), "") + "" == "change-things"
    ensures WellFormed(Command(None, None, Some("xyz"), Some([])))
    ensures WellFormed(Command(None, None, Some("change-things"), Some([])))
  {
    assert IsActionName("xyz") && IsActionName("change-things");
    FormatOf(Command(None, None, Some("xyz"), Some([])), "", "", "", "xyz", "xyz");
    FormatOf(Command(None, None, Some("change-things"), Some([])), "", "", "", "change-things", "change-things");
  }

  /** Bare words are kept verbatim and in order, leading signs and dots included. */
  lemma ArgumentExample()
    ensures Parse("action1 w x100 yz .001 -unimp")
      == Some(Command(None, None, Some("action1"), Some(["w", "x100", "yz", ".001", "-unimp"])))
  {
    ArgumentText();
    ParseFormat(Command(None, None, Some("action1"), Some(["w", "x100", "yz", ".001", "-unimp"])), "", "");
  }

  lemma ArgumentText()
    ensures WellFormed(Command(None, None, Some("action1"), Some(["w", "x100", "yz", ".001", "-unimp"])))
    ensures Format(Command(None, None, Some("action1"), Some(["w", "x100", "yz", ".001", "-unimp"])), "") + ""
      == "action1 w x100 yz .001 -unimp"
  {
    ArgumentWords();
    FormatOf(Command(None, None, Some("action1"), Some(["w", "x100", "yz", ".001", "-unimp"])), "",
             "", "", "action1 w x100 yz .001 -unimp", "action1 w x100 yz .001 -unimp");
  }

  lemma ArgumentWords()
    ensures IsActionName("action1")
    ensures "" + "action1" + ArgsText(["w", "x100", "yz", ".001", "-unimp"]) == "action1 w x100 yz .001 -unimp"
  {
    ArgsText5("w", "x100", "yz", ".001", "-unimp");
    ArgumentWordsBare();
    ArgumentLine();
  }

  lemma ArgumentLine()
    ensures "" + "action1" + (" " + "w" + (" " + "x100" + (" " + "yz" + (" " + ".001" + (" " + "-unimp")))))
      == "action1 w x100 yz .001 -unimp"
  {
  }

  lemma ArgumentWordsBare()
    ensures IsBareWord("w") && IsBareWord("x100") && IsBareWord("yz") && IsBareWord(".001") && IsBareWord("-unimp")
    ensures Quotable("w") && Quotable("x100") && Quotable("yz") && Quotable(".001") && Quotable("-unimp")
  {
  }

  /** Quoted arguments lose their quotes and keep their inner spaces. */
  lemma QuotedExample()
    ensures Parse("ping \"an argument\" x \"John's fu\U{00DF}\" y")
      == Some(Command(None, None, Some("ping"), Some(["an argument", "x", "John's fu\U{00DF}", "y"])))
  {
    QuotedText();
    ParseFormat(Command(None, None, Some("ping"), Some(["an argument", "x", "John's fu\U{00DF}", "y"])), "", "");
  }

  lemma QuotedText()
    ensures WellFormed(Command(None, None, Some("ping"), Some(["an argument", "x", "John's fu\U{00DF}", "y"])))
    ensures Format(Command(None, None, Some("ping"), Some(["an argument", "x", "John's fu\U{00DF}", "y"])), "") + ""
      == "ping \"an argument\" x \"John's fu\U{00DF}\" y"
  {
    QuotedWellFormed();
    QuotedWords();
    FormatOf(Command(None, None, Some("ping"), Some(["an argument", "x", "John's fu\U{00DF}", "y"])), "",
             "", "", "ping \"an argument\" x \"John's fu\U{00DF}\" y", "ping \"an argument\" x \"John's fu\U{00DF}\" y");
  }

  lemma QuotedWellFormed()
    ensures WellFormed(Command(None, None, Some("ping"), Some(["an argument", "x", "John's fu\U{00DF}", "y"])))
  {
    QuotedWordsSplit();
  }

  lemma QuotedWords()
    ensures "" + "ping" + ArgsText(["an argument", "x", "John's fu\U{00DF}", "y"]) == "ping \"an argument\" x \"John's fu\U{00DF}\" y"
  {
    ArgsText4("an argument", "x", "John's fu\U{00DF}", "y");
    QuotedWordsSplit();
    QuotedLine();
  }

  lemma QuotedLine()
    ensures "" + "ping" + (" " + ("\"" + "an argument" + "\"") + (" " + "x" + (" " + ("\"" + "John's fu\U{00DF}" + "\"") + (" " + "y"))))
      == "ping \"an argument\" x \"John's fu\U{00DF}\" y"
  {
  }

  lemma QuotedWordsSplit()
    ensures IsActionName("ping")
    ensures IsBareWord("x") && IsBareWord("y")
    ensures !IsBareWord("an argument") && Quotable("an argument")
    ensures !IsBareWord("John's fu\U{00DF}") && Quotable("John's fu\U{00DF}")
  {
    QuotedFirst();
    QuotedThird();
  }

  lemma QuotedFirst()
    ensures !IsBareWord("an argument") && Quotable("an argument")
  {
    assert "an argument"[2] == ' ';
  }

  lemma QuotedThird()
    ensures !IsBareWord("John's fu\U{00DF}") && Quotable("John's fu\U{00DF}")
  {
    assert "John's fu\U{00DF}"[6] == ' ';
  }

  /** Addresses, action and arguments together. */
  lemma CombinedExample()
    ensures Parse("100,101 a9 -x +10 \"new file.wav\"")
      == Some(Command(Some(100), Some(101), Some("a9"), Some(["-x", "+10", "new file.wav"])))
  {
    CombinedText();
    ParseFormat(Command(Some(100), Some(101), Some("a9"), Some(["-x", "+10", "new file.wav"])), " ", "");
  }

  lemma CombinedText()
    ensures WellFormed(Command(Some(100), Some(101), Some("a9"), Some(["-x", "+10", "new file.wav"])))
    ensures Format(Command(Some(100), Some(101), Some("a9"), Some(["-x", "+10", "new file.wav"])), " ") + ""
      == "100,101 a9 -x +10 \"new file.wav\""
  {
    CombinedWellFormed();
    CombinedWords();
    CombinedConcat();
    FormatOf(Command(Some(100), Some(101), Some("a9"), Some(["-x", "+10", "new file.wav"])), " ",
             "100", ",101", " a9 -x +10 \"new file.wav\"", "100,101 a9 -x +10 \"new file.wav\"");
  }

  lemma CombinedWellFormed()
    ensures WellFormed(Command(Some(100), Some(101), Some("a9"), Some(["-x", "+10", "new file.wav"])))
    ensures IntText(100) == "100" && IntText(101) == "101"
  {
    CombinedWordsSplit();
    assert DigitsText(10) == "10";
  }

  lemma CombinedWords()
    ensures " " + "a9" + ArgsText(["-x", "+10", "new file.wav"]) == " a9 -x +10 \"new file.wav\""
  {
    ArgsText3("-x", "+10", "new file.wav");
    CombinedWordsSplit();
    CombinedLine();
  }

  lemma CombinedLine()
    ensures " " + "a9" + (" " + "-x" + (" " + "+10" + (" " + ("\"" + "new file.wav" + "\""))))
      == " a9 -x +10 \"new file.wav\""
  {
  }

  lemma CombinedConcat()
    ensures "100" + ",101" + " a9 -x +10 \"new file.wav\"" == "100,101 a9 -x +10 \"new file.wav\""
  {
  }

  lemma CombinedWordsSplit()
    ensures IsActionName("a9")
    ensures IsBareWord("-x") && IsBareWord("+10") && Quotable("-x") && Quotable("+10")
    ensures !IsBareWord("new file.wav") && Quotable("new file.wav")
  {
    CombinedThird();
  }

  lemma CombinedThird()
    ensures !IsBareWord("new file.wav") && Quotable("new file.wav")
  {
    assert "new file.wav"[3] == ' ';
  }

  /** An in address with a blank before the action. */
  lemma CutExample()
    ensures Parse("950 cut /a") == Some(Command(Some(950), None, Some("cut"), Some(["/a"])))
  {
    CutText();
    ParseFormat(Command(Some(950), None, Some("cut"), Some(["/a"])), " ", "");
  }

  lemma CutText()
    ensures WellFormed(Command(Some(950), None, Some("cut"), Some(["/a"])))
    ensures Format(Command(Some(950), None, Some("cut"), Some(["/a"])), " ") + "" == "950 cut /a"
  {
    assert IsActionName("cut") && IsBareWord("/a");
    assert " " + "cut" + ArgsText(["/a"]) == " cut /a";
    FormatOf(Command(Some(950), None, Some("cut"), Some(["/a"])), " ", "950", "", " cut /a", "950 cut /a");
  }

  /** No blank is needed between the out address and the action. */
  lemma SplatExample()
    ensures Parse(",2004splat \"\U{041F}\U{0430}\U{043F}\U{0430} \U{0421}\U{043D}\U{0435}\U{0433}\" ...")
      == Some(Command(None, Some(2004), Some("splat"),
                      Some(["\U{041F}\U{0430}\U{043F}\U{0430} \U{0421}\U{043D}\U{0435}\U{0433}", "..."])))
  {
    SplatText();
    ParseFormat(Command(None, Some(2004), Some("splat"),
                        Some(["\U{041F}\U{0430}\U{043F}\U{0430} \U{0421}\U{043D}\U{0435}\U{0433}", "..."])), "", "");
  }

  lemma SplatText()
    ensures WellFormed(Command(None, Some(2004), Some("splat"),
                               Some(["\U{041F}\U{0430}\U{043F}\U{0430} \U{0421}\U{043D}\U{0435}\U{0433}", "..."])))
    ensures Format(Command(None, Some(2004), Some("splat"),
                           Some(["\U{041F}\U{0430}\U{043F}\U{0430} \U{0421}\U{043D}\U{0435}\U{0433}", "..."])), "") + ""
      == ",2004splat \"\U{041F}\U{0430}\U{043F}\U{0430} \U{0421}\U{043D}\U{0435}\U{0433}\" ..."
  {
    SplatWords();
    SplatConcat();
    FormatOf(Command(None, Some(2004), Some("splat"),
                     Some(["\U{041F}\U{0430}\U{043F}\U{0430} \U{0421}\U{043D}\U{0435}\U{0433}", "..."])), "",
             "", ",2004", "splat \"\U{041F}\U{0430}\U{043F}\U{0430} \U{0421}\U{043D}\U{0435}\U{0433}\" ...", ",2004splat \"\U{041F}\U{0430}\U{043F}\U{0430} \U{0421}\U{043D}\U{0435}\U{0433}\" ...");
  }

  lemma SplatWords()
    ensures WellFormed(Command(None, Some(2004), Some("splat"),
                               Some(["\U{041F}\U{0430}\U{043F}\U{0430} \U{0421}\U{043D}\U{0435}\U{0433}", "..."])))
    ensures IntText(2004) == "2004"
    ensures "" + "splat" + ArgsText(["\U{041F}\U{0430}\U{043F}\U{0430} \U{0421}\U{043D}\U{0435}\U{0433}", "..."])
      == "splat \"\U{041F}\U{0430}\U{043F}\U{0430} \U{0421}\U{043D}\U{0435}\U{0433}\" ..."
  {
    ArgsText2("\U{041F}\U{0430}\U{043F}\U{0430} \U{0421}\U{043D}\U{0435}\U{0433}", "...");
    SplatWordsSplit();
    SplatLine();
    assert DigitsText(200) == "200";
  }

  lemma SplatLine()
    ensures "" + "splat" + (" " + ("\"" + "\U{041F}\U{0430}\U{043F}\U{0430} \U{0421}\U{043D}\U{0435}\U{0433}" + "\"") + (" " + "..."))
      == "splat \"\U{041F}\U{0430}\U{043F}\U{0430} \U{0421}\U{043D}\U{0435}\U{0433}\" ..."
  {
  }

  lemma SplatConcat()
    ensures "" + ",2004" + "splat \"\U{041F}\U{0430}\U{043F}\U{0430} \U{0421}\U{043D}\U{0435}\U{0433}\" ..." == ",2004splat \"\U{041F}\U{0430}\U{043F}\U{0430} \U{0421}\U{043D}\U{0435}\U{0433}\" ..."
  {
  }

  lemma SplatWordsSplit()
    ensures IsActionName("splat")
    ensures IsBareWord("...") && Quotable("...")
    ensures !IsBareWord("\U{041F}\U{0430}\U{043F}\U{0430} \U{0421}\U{043D}\U{0435}\U{0433}")
    ensures Quotable("\U{041F}\U{0430}\U{043F}\U{0430} \U{0421}\U{043D}\U{0435}\U{0433}")
  {
    assert "\U{041F}\U{0430}\U{043F}\U{0430} \U{0421}\U{043D}\U{0435}\U{0433}"[4] == ' ';
  }

  /** A trailing blank after an action is left unconsumed, so the line is rejected. */
  lemma TrailingSpaceExample()
    ensures Parse("xyz ") == None
  {
    TrailingSpaceRejected("xyz", ' ');
    assert "xyz" + [' '] == "xyz ";
  }
}
