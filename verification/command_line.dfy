/** The command-line printer of the loader and the tokenizer of the guest program that reads the
    line back. Characters stand for the bytes of UTF-8 text. */
module CommandLine {

  const MAX_TOKENS := 24
  const TOK_LEN := 96
  const NUL := '\0'

  predicate Space(c: char) { c == ' ' || c == '\t' }

  // ---- printing ------------------------------------------------------------------------

  predicate NeedsQuotes(arg: string) {
    arg == "" || exists i :: 0 <= i < |arg| && (Space(arg[i]) || arg[i] == '"')
  }

  /** Every `"` escaped. */
  function Escape(arg: string): string {
    if arg == "" then ""
    else (if arg[0] == '"' then "\\\"" else [arg[0]]) + Escape(arg[1..])
  }

  function Quote(arg: string): string {
    if NeedsQuotes(arg) then "\"" + Escape(arg) + "\"" else arg
  }

  /** The arguments quoted and separated by spaces. */
  function Line(argv: seq<string>): string {
    if argv == [] then ""
    else if |argv| == 1 then Quote(argv[0])
    else Quote(argv[0]) + " " + Line(argv[1..])
  }

  lemma {:induction false} EscapeAppend(arg: string, c: char)
    ensures Escape(arg + [c]) == Escape(arg) + (if c == '"' then "\\\"" else [c])
  {
    if arg == "" {
      assert [] + [c] == [c];
    } else {
      EscapeAppend(arg[1..], c);
      assert (arg + [c])[1..] == arg[1..] + [c];
    }
  }

  /** `quote_windows_arg`. */
  method QuoteWindowsArg(arg: string) returns (quoted: string)
    ensures quoted == Quote(arg)
  {
    if !NeedsQuotes(arg) { return arg; }
    quoted := "\"";
    for i := 0 to |arg|
      invariant quoted == "\"" + Escape(arg[..i])
    {
      EscapeAppend(arg[..i], arg[i]);
      assert arg[..i + 1] == arg[..i] + [arg[i]];
      if arg[i] == '"' { quoted := quoted + "\\"; }
      quoted := quoted + [arg[i]];
    }
    assert arg[..|arg|] == arg;
    quoted := quoted + "\"";
  }

  lemma LineCons(a: string, rest: seq<string>)
    requires rest != []
    ensures Line([a] + rest) == Quote(a) + " " + Line(rest)
  {
    assert ([a] + rest)[1..] == rest;
  }

  lemma {:induction false} LineAppend(argv: seq<string>, a: string)
    requires argv != []
    ensures Line(argv + [a]) == Line(argv) + " " + Quote(a)
    decreases |argv|
  {
    var first, rest := argv[0], argv[1..];
    assert argv + [a] == [first] + (rest + [a]);
    LineCons(first, rest + [a]);
    if rest == [] {
      assert rest + [a] == [a];
    } else {
      LineAppend(rest, a);
      LineCons(first, rest);
      assert argv == [first] + rest;
      assert Quote(first) + " " + (Line(rest) + " " + Quote(a)) == Quote(first) + " " + Line(rest) + " " + Quote(a);
    }
  }

  /** `build_windows_command_line`. */
  method BuildWindowsCommandLine(argv0: string, extra: seq<string>) returns (out: string)
    ensures out == Line([argv0] + extra)
  {
    out := QuoteWindowsArg(argv0);
    for i := 0 to |extra|
      invariant out == Line([argv0] + extra[..i])
    {
      LineAppend([argv0] + extra[..i], extra[i]);
      assert [argv0] + extra[..i + 1] == [argv0] + extra[..i] + [extra[i]];
      var quoted := QuoteWindowsArg(extra[i]);
      out := out + " " + quoted;
    }
    assert extra[..|extra|] == extra;
  }

  // ---- tokenizing ----------------------------------------------------------------------

  /** The terminating NUL, real or the one after the last character. */
  predicate AtEnd(text: string) { text == "" || text[0] == NUL }

  function SkipSpaces(text: string): string {
    if text != "" && Space(text[0]) then SkipSpaces(text[1..]) else text
  }

  /** A token's characters, however many, and the text after it. */
  function Scan(text: string, quoted: bool): (r: (string, string))
    ensures |r.1| <= |text|
  {
    if AtEnd(text) then ("", text)
    else if text[0] == '"' then Scan(text[1..], !quoted)
    else if quoted && text[0] == '\\' && |text| > 1 && text[1] == '"' then
      var (more, rest) := Scan(text[2..], quoted);
      ("\"" + more, rest)
    else if !quoted && Space(text[0]) then ("", text)
    else
      var (more, rest) := Scan(text[1..], quoted);
      ([text[0]] + more, rest)
  }

  /** What fits in an output row beside its NUL. */
  function Clip(token: string): string {
    if |token| < TOK_LEN then token else token[..TOK_LEN - 1]
  }

  function Tokens(text: string, max: nat): (toks: seq<string>)
    ensures |toks| <= max
    ensures forall i :: 0 <= i < |toks| ==> |toks[i]| < TOK_LEN && NUL !in toks[i]
    decreases max, |text|
  {
    var t := SkipSpaces(text);
    if max == 0 || AtEnd(t) then []
    else
      ScanNoNul(t, false);
      var (token, rest) := Scan(t, false);
      [Clip(token)] + Tokens(rest, max - 1)
  }

  lemma {:induction false} ScanNoNul(text: string, quoted: bool)
    ensures NUL !in Scan(text, quoted).0
    decreases |text|
  {
    if !AtEnd(text) {
      ScanNoNul(text[1..], quoted);
      ScanNoNul(text[1..], !quoted);
      if |text| > 1 { ScanNoNul(text[2..], quoted); }
    }
  }

  function CharAt(line: string, p: nat): char {
    if p < |line| then line[p] else NUL
  }

  method SkipWs(line: string, start: nat) returns (p: nat)
    requires start <= |line|
    ensures start <= p <= |line| && line[p..] == SkipSpaces(line[start..])
  {
    p := start;
    while Space(CharAt(line, p))
      invariant start <= p <= |line| && SkipSpaces(line[p..]) == SkipSpaces(line[start..])
      decreases |line| - p
    {
      assert line[p..][1..] == line[p + 1..];
      p := p + 1;
    }
  }

  /** One step of the scan at `p`. */
  lemma ScanStep(line: string, p: nat, quoted: bool)
    requires p < |line| && line[p] != NUL
    ensures var here, next := Scan(line[p..], quoted), Scan(line[p + 1..], quoted);
            && (line[p] == '"' ==> here == Scan(line[p + 1..], !quoted))
            && (line[p] != '"' && quoted && line[p] == '\\' && CharAt(line, p + 1) == '"' ==>
                var after := Scan(line[p + 2..], quoted);
                here == ("\"" + after.0, after.1))
            && (line[p] != '"' && !(quoted && line[p] == '\\' && CharAt(line, p + 1) == '"') ==>
                here == if !quoted && Space(line[p]) then ("", line[p..]) else ([line[p]] + next.0, next.1))
  {
    assert line[p..][1..] == line[p + 1..];
    if p + 2 <= |line| { assert line[p..][2..] == line[p + 2..]; }
  }

  /** What is in the output row after `token` and then one more character. */
  lemma ClipStep(token: string, c: char)
    ensures Clip(token + [c]) == if |Clip(token)| + 1 < TOK_LEN then Clip(token) + [c] else Clip(token)
  {
  }

  /** The token so far and what is still to come make up the whole. */
  ghost predicate Reading(whole: (string, string), token: string, more: (string, string)) {
    whole.0 == token + more.0 && whole.1 == more.1
  }

  /** One more character in the row, if it still fits. */
  method Emit(out: array<char>, len: nat, c: char, ghost token: string) returns (next: nat)
    requires len < out.Length == TOK_LEN && out[..len] == Clip(token)
    modifies out
    ensures next < TOK_LEN && out[..next] == Clip(token + [c])
  {
    ClipStep(token, c);
    if len + 1 < TOK_LEN {
      out[len] := c;
      next := len + 1;
    } else {
      next := len;
    }
  }

  predicate EscapeAt(line: string, p: nat) { CharAt(line, p) == '\\' && CharAt(line, p + 1) == '"' }

  /** One step of the reading at `p`. */
  lemma ReadStep(line: string, p: nat, quoted: bool, whole: (string, string), token: string)
    requires p < |line| && line[p] != NUL && Reading(whole, token, Scan(line[p..], quoted))
    ensures line[p] == '"' ==> Reading(whole, token, Scan(line[p + 1..], !quoted))
    ensures quoted && EscapeAt(line, p) ==> Reading(whole, token + "\"", Scan(line[p + 2..], quoted))
    ensures line[p] != '"' && !(quoted && EscapeAt(line, p)) && !quoted && Space(line[p]) ==> Reading(whole, token, ("", line[p..]))
    ensures line[p] != '"' && !(quoted && EscapeAt(line, p)) && (quoted || !Space(line[p])) ==>
              Reading(whole, token + [line[p]], Scan(line[p + 1..], quoted))
  {
    ScanStep(line, p, quoted);
  }

  /** One turn of the loop of `next_token`; a space outside quotes ends the token. */
  method ReadOne(line: string, p: nat, inQuote: bool, out: array<char>, len: nat,
                 ghost whole: (string, string), ghost token: string)
      returns (done: bool, p': nat, inQuote': bool, len': nat, ghost token': string)
    requires CharAt(line, p) != NUL && Reading(whole, token, Scan(line[p..], inQuote))
    requires len < out.Length == TOK_LEN && out[..len] == Clip(token)
    modifies out
    ensures len' < TOK_LEN && out[..len'] == Clip(token')
    ensures if done then p' == p && Reading(whole, token', ("", line[p..]))
            else p < p' <= |line| && Reading(whole, token', Scan(line[p'..], inQuote'))
  {
    var c := line[p];
    ReadStep(line, p, inQuote, whole, token);
    done, p', inQuote', len', token' := false, p + 1, inQuote, len, token;
    if c == '"' {
      inQuote' := !inQuote;
    } else if inQuote && c == '\\' && CharAt(line, p + 1) == '"' {
      len' := Emit(out, len, '"', token);
      token', p' := token + "\"", p + 2;
    } else if !inQuote && Space(c) {
      done, p' := true, p;
    } else {
      len' := Emit(out, len, c, token);
      token' := token + [c];
    }
  }

  /** The loop of `next_token`: one token from `start` on. */
  method ReadToken(line: string, start: nat, out: array<char>) returns (len: nat, p: nat)
    requires start <= |line| && out.Length == TOK_LEN
    modifies out
    ensures p <= |line| && len < TOK_LEN && Scan(line[start..], false).1 == line[p..]
    ensures out[..len] == Clip(Scan(line[start..], false).0)
  {
    len, p := 0, start;
    ghost var whole, token := Scan(line[start..], false), "";
    assert "" + whole.0 == whole.0;
    var inQuote, done := false, false;
    while !done && CharAt(line, p) != NUL
      invariant p <= |line| && len < TOK_LEN && out[..len] == Clip(token)
      invariant Reading(whole, token, if done then ("", line[p..]) else Scan(line[p..], inQuote))
      decreases |line| - p, !done
    {
      done, p, inQuote, len, token := ReadOne(line, p, inQuote, out, len, whole, token);
    }
    assert token + "" == token;
  }

  /** `next_token`: the row holds the token, cut to its length, and a NUL. */
  method NextToken(line: string, start: nat, out: array<char>) returns (found: bool, len: nat, p: nat)
    requires start <= |line| && out.Length == TOK_LEN
    modifies out
    ensures p <= |line| && found == !AtEnd(SkipSpaces(line[start..]))
    ensures found ==>
              var (token, rest) := Scan(SkipSpaces(line[start..]), false);
              len < TOK_LEN && out[..len] == Clip(token) && out[len] == NUL && line[p..] == rest
  {
    len := 0;
    p := SkipWs(line, start);
    if CharAt(line, p) == NUL { return false, 0, p; }
    found := true;
    len, p := ReadToken(line, p, out);
    out[len] := NUL;
  }

  lemma TokensJoin(toks: seq<string>, text: string, max: nat)
    requires max > 0 && !AtEnd(SkipSpaces(text))
    ensures var (token, rest) := Scan(SkipSpaces(text), false);
            toks + Tokens(text, max) == toks + [Clip(token)] + Tokens(rest, max - 1)
  {
  }

  /** `tokenize_all`. */
  method TokenizeAll(line: string) returns (toks: seq<string>)
    ensures toks == Tokens(line, MAX_TOKENS)
  {
    toks := [];
    var p: nat := 0;
    var row := new char[TOK_LEN];
    assert line[0..] == line;
    while |toks| < MAX_TOKENS
      invariant p <= |line| && |toks| <= MAX_TOKENS && fresh(row) && row.Length == TOK_LEN
      invariant toks + Tokens(line[p..], MAX_TOKENS - |toks|) == Tokens(line, MAX_TOKENS)
      decreases MAX_TOKENS - |toks|
    {
      var found, len, next := NextToken(line, p, row);
      if !found {
        assert toks + [] == toks;
        return;
      }
      TokensJoin(toks, line[p..], MAX_TOKENS - |toks|);
      toks, p := toks + [row[..len]], next;
    }
    assert toks + [] == toks;
  }

  // ---- reading back what was printed ---------------------------------------------------

  /** The printer quotes this argument and the closing quote then reads as an escaped one. */
  predicate Ambiguous(arg: string) {
    NeedsQuotes(arg) && arg != "" && arg[|arg| - 1] == '\\'
  }

  /** What the tokenizer can give back. */
  predicate Readable(arg: string) {
    NUL !in arg && !Ambiguous(arg)
  }

  predicate Fits(arg: string) { Readable(arg) && |arg| < TOK_LEN }

  lemma ScanQuote(more: string, quoted: bool)
    ensures Scan("\"" + more, quoted) == Scan(more, !quoted)
  {
    assert ("\"" + more)[1..] == more;
  }

  lemma ScanEscapedQuote(more: string)
    ensures var after := Scan(more, true);
            Scan("\\\"" + more, true) == ("\"" + after.0, after.1)
  {
    assert ("\\\"" + more)[2..] == more;
  }

  lemma ScanOther(c: char, more: string)
    requires c != NUL && c != '"' && !(c == '\\' && more != "" && more[0] == '"')
    ensures var after := Scan(more, true);
            Scan([c] + more, true) == ([c] + after.0, after.1)
  {
    assert ([c] + more)[1..] == more;
  }

  /** An escaped argument, its closing quote, and what follows. */
  function Closed(arg: string, tail: string): string {
    if arg == "" then "\"" + tail
    else (if arg[0] == '"' then "\\\"" else [arg[0]]) + Closed(arg[1..], tail)
  }

  lemma {:induction false} ClosedIs(arg: string, tail: string)
    ensures Closed(arg, tail) == Escape(arg) + "\"" + tail
    decreases |arg|
  {
    if arg == "" {
      assert "" + "\"" + tail == "\"" + tail;
    } else {
      var c, rest := if arg[0] == '"' then "\\\"" else [arg[0]], Escape(arg[1..]);
      ClosedIs(arg[1..], tail);
      assert c + (rest + "\"" + tail) == c + rest + "\"" + tail;
    }
  }

  /** What follows a character of the argument starts with a quote only at the end. */
  lemma ClosedStart(arg: string, tail: string)
    requires arg != ""
    ensures Closed(arg, tail) != "" && Closed(arg, tail)[0] != '"'
  {
  }

  /** A quoted argument that does not end in a backslash is read up to its closing quote. */
  lemma {:induction false} ScanEscaped(arg: string, tail: string)
    requires NUL !in arg && (arg != "" ==> arg[|arg| - 1] != '\\')
    ensures var after := Scan(tail, false);
            Scan(Closed(arg, tail), true) == (arg + after.0, after.1)
    decreases |arg|
  {
    var after := Scan(tail, false);
    if arg == "" {
      ScanQuote(tail, true);
      assert "" + after.0 == after.0;
    } else {
      var more := Closed(arg[1..], tail);
      ScanEscaped(arg[1..], tail);
      if arg[1..] != "" { ClosedStart(arg[1..], tail); }
      if arg[0] == '"' { ScanEscapedQuote(more); } else { ScanOther(arg[0], more); }
      assert [arg[0]] + (arg[1..] + after.0) == arg + after.0;
    }
  }

  lemma ScanBackslash(tail: string)
    ensures Scan(Closed("\\", tail), true) == ("\"" + Scan(tail, true).0, Scan(tail, true).1)
  {
    assert "\\"[1..] == "";
    assert Closed("\\", tail) == "\\\"" + tail;
    ScanEscapedQuote(tail);
  }

  /** A character of an escaped argument that is not its last. */
  lemma ScanNext(arg: string, tail: string)
    requires |arg| > 1 && NUL !in arg
    ensures Scan(Closed(arg, tail), true).0 == [arg[0]] + Scan(Closed(arg[1..], tail), true).0
  {
    var more := Closed(arg[1..], tail);
    ClosedStart(arg[1..], tail);
    if arg[0] == '"' { ScanEscapedQuote(more); } else { ScanOther(arg[0], more); }
  }

  /** One that does end in a backslash is read with a quote in its place. */
  lemma {:induction false} ScanAmbiguous(arg: string, tail: string)
    requires NUL !in arg && arg != "" && arg[|arg| - 1] == '\\'
    ensures var token := Scan(Closed(arg, tail), true).0;
            |token| >= |arg| && token[|arg| - 1] == '"'
    decreases |arg|
  {
    if |arg| == 1 {
      assert arg == "\\";
      ScanBackslash(tail);
    } else {
      ScanNext(arg, tail);
      ScanAmbiguous(arg[1..], tail);
    }
  }

  lemma QuoteThenClosed(arg: string, tail: string)
    requires NeedsQuotes(arg)
    ensures Quote(arg) + tail == "\"" + Closed(arg, tail)
  {
    ClosedIs(arg, tail);
    assert "\"" + Escape(arg) + "\"" + tail == "\"" + (Escape(arg) + "\"" + tail);
  }

  /** An argument that needs no quotes is read up to the space. */
  lemma {:induction false} ScanPlain(arg: string, tail: string)
    requires NUL !in arg && '"' !in arg && ' ' !in arg && '\t' !in arg
    ensures var after := Scan(tail, false);
            Scan(arg + tail, false) == (arg + after.0, after.1)
  {
    var after := Scan(tail, false);
    if arg == "" {
      assert arg + tail == tail && "" + after.0 == after.0;
    } else {
      ScanPlain(arg[1..], tail);
      assert (arg + tail)[1..] == arg[1..] + tail;
      assert [arg[0]] + (arg[1..] + after.0) == arg + after.0;
    }
  }

  lemma PlainHas(arg: string)
    requires !NeedsQuotes(arg)
    ensures arg != "" && '"' !in arg && ' ' !in arg && '\t' !in arg
  {
  }

  lemma ScanStops(tail: string)
    requires tail == "" || Space(tail[0])
    ensures Scan(tail, false) == ("", tail)
  {
  }

  /** A printed argument followed by nothing or by a space reads back whole. */
  lemma ScanQuoted(arg: string, tail: string)
    requires Readable(arg) && (tail == "" || Space(tail[0]))
    ensures Scan(Quote(arg) + tail, false) == (arg, tail)
    ensures SkipSpaces(Quote(arg) + tail) == Quote(arg) + tail && !AtEnd(Quote(arg) + tail)
  {
    ScanStops(tail);
    assert arg + "" == arg;
    if NeedsQuotes(arg) {
      QuoteThenClosed(arg, tail);
      ScanEscaped(arg, tail);
      ScanQuote(Closed(arg, tail), false);
    } else {
      PlainHas(arg);
      ScanPlain(arg, tail);
    }
  }

  function Clipped(argv: seq<string>): seq<string> {
    if argv == [] then [] else [Clip(argv[0])] + Clipped(argv[1..])
  }

  function Front(argv: seq<string>, max: nat): seq<string> {
    if |argv| <= max then argv else argv[..max]
  }

  /** The line after its first argument. */
  function Tail(argv: seq<string>): string
    requires argv != []
  {
    if |argv| == 1 then "" else " " + Line(argv[1..])
  }

  lemma LineSplit(argv: seq<string>)
    requires argv != []
    ensures Line(argv) == Quote(argv[0]) + Tail(argv)
  {
    assert Quote(argv[0]) + "" == Quote(argv[0]);
  }

  /** The space before the next argument is skipped. */
  lemma TailTokens(argv: seq<string>, max: nat)
    requires argv != []
    ensures Tokens(Tail(argv), max) == Tokens(Line(argv[1..]), max)
  {
    if |argv| > 1 { assert Tail(argv)[1..] == Line(argv[1..]); }
  }

  lemma FirstToken(argv: seq<string>, max: nat)
    requires argv != [] && max > 0 && Readable(argv[0])
    ensures Tokens(Line(argv), max) == [Clip(argv[0])] + Tokens(Line(argv[1..]), max - 1)
  {
    LineSplit(argv);
    ScanQuoted(argv[0], Tail(argv));
    TailTokens(argv, max - 1);
  }

  /** Readable arguments come back in order, cut to the number and length of the rows. */
  lemma {:induction false} TokensOfLine(argv: seq<string>, max: nat)
    requires forall a :: a in argv ==> Readable(a)
    ensures Tokens(Line(argv), max) == Clipped(Front(argv, max))
    decreases |argv|
  {
    if argv != [] && max > 0 {
      FirstToken(argv, max);
      TokensOfLine(argv[1..], max - 1);
      assert Front(argv, max)[1..] == Front(argv[1..], max - 1);
    }
  }

  lemma AmbiguousToken(arg: string, tail: string)
    requires Ambiguous(arg) && NUL !in arg
    ensures var line := Quote(arg) + tail;
            var token := Scan(line, false).0;
            && SkipSpaces(line) == line && !AtEnd(line)
            && |token| >= |arg| && token[|arg| - 1] == '"'
  {
    QuoteThenClosed(arg, tail);
    ScanAmbiguous(arg, tail);
    ScanQuote(Closed(arg, tail), false);
  }

  /** A token read from an ambiguous argument is not that argument. */
  lemma AmbiguousIsLost(argv: seq<string>, max: nat)
    requires argv != [] && Ambiguous(argv[0]) && NUL !in argv[0] && |argv[0]| < TOK_LEN
    ensures var toks := Tokens(Line(argv), max); toks == [] || toks[0] != argv[0]
  {
    LineSplit(argv);
    AmbiguousToken(argv[0], Tail(argv));
    var token := Scan(Line(argv), false).0;
    assert Clip(token)[|argv[0]| - 1] == '"';
  }

  lemma {:induction false} Necessary(argv: seq<string>, max: nat)
    requires Tokens(Line(argv), max) == argv
    ensures |argv| <= max && forall a :: a in argv ==> Fits(a)
    decreases |argv|
  {
    if argv != [] {
      assert argv[0] == Tokens(Line(argv), max)[0];
      if Ambiguous(argv[0]) { AmbiguousIsLost(argv, max); }
      FirstToken(argv, max);
      assert argv[1..] == Tokens(Line(argv[1..]), max - 1);
      Necessary(argv[1..], max - 1);
      assert forall a :: a in argv ==> a == argv[0] || a in argv[1..];
    }
  }

  lemma {:induction false} ClippedIsIdentity(argv: seq<string>)
    requires forall a :: a in argv ==> |a| < TOK_LEN
    ensures Clipped(argv) == argv
  {
    if argv != [] { ClippedIsIdentity(argv[1..]); }
  }

  lemma FitsExactly(argv: seq<string>)
    ensures forall a :: a in argv ==>
              (Fits(a) <==>
               && |a| <= 95 && '\0' !in a
               && !(a != "" && a[|a| - 1] == '\\' && (' ' in a || '\t' in a || '"' in a)))
  {
    forall a | a in argv ensures NeedsQuotes(a) <==> a == "" || ' ' in a || '\t' in a || '"' in a { QuotedExactly(a); }
  }

  /** An argument is quoted exactly when it is empty or holds a space, a tab or a quote. */
  lemma QuotedExactly(arg: string)
    ensures NeedsQuotes(arg) <==> arg == "" || ' ' in arg || '\t' in arg || '"' in arg
    ensures if arg == "" || ' ' in arg || '\t' in arg || '"' in arg
            then |Quote(arg)| >= 2 && Quote(arg)[0] == '"' == Quote(arg)[|Quote(arg)| - 1]
            else Quote(arg) == arg
  {
  }

  /** The tokenizer gives back what was printed exactly when there are at most 24 arguments, each
      of at most 95 bytes and free of NUL, and none that needs quotes ends in a backslash. */
  lemma RoundTripExactly(argv: seq<string>)
    ensures Tokens(Line(argv), MAX_TOKENS) == argv <==>
              && |argv| <= 24
              && forall a :: a in argv ==>
                   && |a| <= 95 && '\0' !in a
                   && !(a != "" && a[|a| - 1] == '\\' && (' ' in a || '\t' in a || '"' in a))
  {
    FitsExactly(argv);
    if |argv| <= MAX_TOKENS && forall a :: a in argv ==> Fits(a) {
      TokensOfLine(argv, MAX_TOKENS);
      ClippedIsIdentity(argv);
    } else if Tokens(Line(argv), MAX_TOKENS) == argv {
      Necessary(argv, MAX_TOKENS);
    }
  }
}
