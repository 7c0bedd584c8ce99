/** Quoting for a POSIX shell (`shell_quote`, `shell_join` of src/config.rs). */
module ShellQuote {
  import opened Wrappers

  /** Each single quote leaves the quoted run, appears in double quotes, and reopens it. */
  function Escape(value: string): string {
    if value == "" then ""
    else (if value[0] == '\'' then "'\"'\"'" else [value[0]]) + Escape(value[1..])
  }

  function Quote(value: string): string {
    "'" + Escape(value) + "'"
  }

  function Join(arguments: seq<string>): string {
    if arguments == [] then ""
    else if |arguments| == 1 then Quote(arguments[0])
    else Quote(arguments[0]) + " " + Join(arguments[1..])
  }

  // ---------------------------------------------------------------- the shell's side

  /** Quoting state while recognising tokens: sections 2.2.2, 2.2.3 and 2.3 of
      the Shell Command Language, POSIX.1-2017. */
  datatype Mode = Bare | Single | Double

  /** Characters that start an operator, an expansion, a comment or a pattern
      when unquoted: a shell would do more than split words there. */
  predicate Special(c: char) {
    c in "|&;<>()$`\n*?[#~=%!{}"
  }

  /** The words of a command line, or None when it is unterminated or asks the
      shell for anything beyond quote removal. `word` is the word being built. */
  function Words(line: string, mode: Mode, word: Option<string>, done: seq<string>): Option<seq<string>>
    decreases |line|
  {
    if line == "" then
      if mode.Bare? then Some(if word.Some? then done + [word.value] else done) else None
    else
      var c, rest, sofar := line[0], line[1..], word.GetOr("");
      match mode
      case Single =>
        if c == '\'' then Words(rest, Bare, Some(sofar), done) else Words(rest, Single, Some(sofar + [c]), done)
      case Double =>
        if c == '"' then Words(rest, Bare, Some(sofar), done)
        else if c == '$' || c == '`' then None
        else if c == '\\' && rest != "" && rest[0] == '\n' then Words(rest[1..], Double, Some(sofar), done)
        else if c == '\\' && rest != ""
            && rest[0] in "$`\"\\" then Words(rest[1..], Double, Some(sofar + [rest[0]]), done)
        else Words(rest, Double, Some(sofar + [c]), done)
      case Bare =>
        if c == '\'' then Words(rest, Single, Some(sofar), done)
        else if c == '"' then Words(rest, Double, Some(sofar), done)
        else if c == ' ' || c == '\t' then Words(rest, Bare, None, if word.Some? then done + [word.value] else done)
        else if c == '\\' then
          if rest == "" then None
          else if rest[0] == '\n' then Words(rest[1..], Bare, word, done)
          else Words(rest[1..], Bare, Some(sofar + [rest[0]]), done)
        else if Special(c) then None
        else Words(rest, Bare, Some(sofar + [c]), done)
  }

  function ShellWords(line: string): Option<seq<string>> {
    Words(line, Bare, None, [])
  }

  /** Closing quote, quoted quote, opening quote: one literal quote. */
  lemma ReadsReopened(tail: string, word: string, done: seq<string>)
    ensures Words("'\"'\"'" + tail, Single, Some(word), done) == Words(tail, Single, Some(word + ['\'']), done)
  {
    var l5 := "'\"'\"'" + tail;
    var l4 := "\"'\"'" + tail;
    var l3 := "'\"'" + tail;
    var l2 := "\"'" + tail;
    var l1 := "'" + tail;
    assert l5[1..] == l4 && l4[1..] == l3 && l3[1..] == l2 && l2[1..] == l1 && l1[1..] == tail;
    assert Words(l5, Single, Some(word), done) == Words(l4, Bare, Some(word), done);
    assert Words(l4, Bare, Some(word), done) == Words(l3, Double, Some(word), done);
    assert Words(l3, Double, Some(word), done) == Words(l2, Double, Some(word + ['\'']), done);
    assert Words(l2, Double, Some(word + ['\'']), done) == Words(l1, Bare, Some(word + ['\'']), done);
    assert Words(l1, Bare, Some(word + ['\'']), done) == Words(tail, Single, Some(word + ['\'']), done);
  }

  lemma ReadsPlain(c: char, tail: string, word: string, done: seq<string>)
    requires c != '\''
    ensures Words([c] + tail, Single, Some(word), done) == Words(tail, Single, Some(word + [c]), done)
  {
    assert ([c] + tail)[1..] == tail;
  }

  lemma ReadsClosing(rest: string, word: string, done: seq<string>)
    ensures Words("'" + rest, Single, Some(word), done) == Words(rest, Bare, Some(word), done)
  {
    assert ("'" + rest)[1..] == rest;
  }

  /** Inside single quotes the shell reads an escaped value back as it was. */
  lemma {:induction false} ReadsEscaped(value: string, rest: string, word: string, done: seq<string>)
    ensures Words(Escape(value) + "'" + rest, Single, Some(word), done) == Words(rest, Bare, Some(word + value), done)
    decreases |value|
  {
    if value == "" {
      assert Escape(value) + "'" + rest == "'" + rest && word + value == word;
      ReadsClosing(rest, word, done);
    } else {
      var c := value[0];
      var tail := Escape(value[1..]) + "'" + rest;
      ReadsEscaped(value[1..], rest, word + [c], done);
      assert word + [c] + value[1..] == word + value;
      if c == '\'' {
        assert Escape(value) + "'" + rest == "'\"'\"'" + tail;
        ReadsReopened(tail, word, done);
      } else {
        assert Escape(value) + "'" + rest == [c] + tail;
        ReadsPlain(c, tail, word, done);
      }
    }
  }

  lemma ReadsQuoted(value: string, rest: string, done: seq<string>)
    ensures Words(Quote(value) + rest, Bare, None, done) == Words(rest, Bare, Some(value), done)
  {
    var line := Quote(value) + rest;
    assert line[1..] == Escape(value) + "'" + rest;
    ReadsEscaped(value, rest, "", done);
    assert "" + value == value;
  }

  lemma ReadsBlank(rest: string, word: string, done: seq<string>)
    ensures Words(" " + rest, Bare, Some(word), done) == Words(rest, Bare, None, done + [word])
  {
    assert (" " + rest)[1..] == rest;
  }

  lemma ReadsLast(value: string, done: seq<string>)
    ensures Words(Quote(value), Bare, None, done) == Some(done + [value])
  {
    assert Quote(value) + "" == Quote(value);
    ReadsQuoted(value, "", done);
  }

  lemma ReadsNext(value: string, rest: string, done: seq<string>)
    ensures Words(Quote(value) + " " + rest, Bare, None, done) == Words(rest, Bare, None, done + [value])
  {
    assert Quote(value) + " " + rest == Quote(value) + (" " + rest);
    ReadsQuoted(value, " " + rest, done);
    ReadsBlank(rest, value, done);
  }

  lemma {:induction false} ReadsJoined(arguments: seq<string>, done: seq<string>)
    ensures Words(Join(arguments), Bare, None, done) == Some(done + arguments)
    decreases |arguments|
  {
    if arguments == [] {
      assert done + arguments == done;
    } else if |arguments| == 1 {
      ReadsLast(arguments[0], done);
      assert arguments == [arguments[0]];
    } else {
      ReadsNext(arguments[0], Join(arguments[1..]), done);
      ReadsJoined(arguments[1..], done + [arguments[0]]);
      assert done + [arguments[0]] + arguments[1..] == done + arguments;
    }
  }

  /** A shell splits the joined command line into exactly the arguments. */
  lemma JoinRoundTrip(arguments: seq<string>)
    ensures ShellWords(Join(arguments)) == Some(arguments)
  {
    ReadsJoined(arguments, []);
    assert [] + arguments == arguments;
  }

  /** Hence different argument lists never render to the same command line. */
  lemma JoinIsInjective(a: seq<string>, b: seq<string>)
    requires Join(a) == Join(b)
    ensures a == b
  {
    JoinRoundTrip(a);
    JoinRoundTrip(b);
  }
}
