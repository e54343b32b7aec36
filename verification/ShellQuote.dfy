/** The command line printed for re-running the executable, and the shell words it stands for. */
module ShellQuote {
  import opened Util

  // ----- Printing -----

  /** The characters that may be typed as they are on a POSIX shell. */
  predicate Plain(c: char) {
    || 'A' <= c <= 'Z' || 'a' <= c <= 'z' || '0' <= c <= '9'
    || c == '_' || c == '-' || c == '.' || c == ':' || c == '=' || c == '/' || c == '+'
  }

  predicate NeedsNoQuoting(w: string) { w != "" && forall i :: 0 <= i < |w| ==> Plain(w[i]) }

  /** w.replace(/'/g, `'\''`) */
  function EscapeQuotes(w: string): string {
    if w == [] then []
    else EscapeQuotes(w[..|w| - 1]) + (if w[|w| - 1] == '\'' then "'\\''" else [w[|w| - 1]])
  }

  function Quoted(w: string): string {
    if NeedsNoQuoting(w) then w else "'" + EscapeQuotes(w) + "'"
  }

  function JoinWords(words: seq<string>): string {
    if words == [] then ""
    else if |words| == 1 then Quoted(words[0])
    else JoinWords(words[..|words| - 1]) + " " + Quoted(words[|words| - 1])
  }

  /** The words of the command: the executable, the entry script unless it is a bundled
      executable, and the arguments. */
  function Words(execPath: string, scriptPath: Option<string>, sea: bool, args: seq<string>): seq<string> {
    [execPath] + (if !sea && scriptPath.Some? && scriptPath.value != "" then [scriptPath.value] else []) + args
  }

  // ----- A POSIX word splitter -----

  /** Where the splitter is: between words, in a word, behind a backslash, inside single or
      double quotes, or behind a backslash inside double quotes. */
  datatype Mode = Blank | InWord | Escaped | Single | Double | DoubleEscaped

  /** words: those complete; word: the current one. */
  datatype Shell = Shell(mode: Mode, words: seq<string>, word: string) | Special

  /** Characters that mean something else than themselves outside quotes; the splitter does not
      interpret them. */
  predicate Operator(c: char) {
    || c == '|' || c == '&' || c == ';' || c == '<' || c == '>' || c == '(' || c == ')' || c == '$'
    || c == '`' || c == '*' || c == '?' || c == '[' || c == '#' || c == '~' || c == '\n'
  }

  function Step(s: Shell, c: char): Shell {
    match s
    case Special => Special
    case Shell(mode, words, word) =>
      match mode
      case Blank =>
        if c == ' ' || c == '\t' then s
        else if c == '\'' then Shell(Single, words, "")
        else if c == '\"' then Shell(Double, words, "")
        else if c == '\\' then Shell(Escaped, words, "")
        else if Operator(c) then Special
        else Shell(InWord, words, [c])
      case InWord =>
        if c == ' ' || c == '\t' then Shell(Blank, words + [word], "")
        else if c == '\'' then Shell(Single, words, word)
        else if c == '\"' then Shell(Double, words, word)
        else if c == '\\' then Shell(Escaped, words, word)
        else if Operator(c) then Special
        else Shell(InWord, words, word + [c])
      case Escaped => if c == '\n' then Special else Shell(InWord, words, word + [c])
      case Single => if c == '\'' then Shell(InWord, words, word) else Shell(Single, words, word + [c])
      case Double =>
        if c == '\"' then Shell(InWord, words, word)
        else if c == '\\' then Shell(DoubleEscaped, words, word)
        else if c == '$' || c == '`' then Special
        else Shell(Double, words, word + [c])
      case DoubleEscaped =>
        if c == '\n' then Special
        else if c == '$' || c == '`' || c == '\"' || c == '\\' then Shell(Double, words, word + [c])
        else Shell(Double, words, word + ['\\', c])
  }

  function Run(s: Shell, line: string): Shell {
    if line == [] then s else Step(Run(s, line[..|line| - 1]), line[|line| - 1])
  }

  /** The words at the end of the line; None when it is not a list of complete, uninterpreted
      words. */
  function Finish(s: Shell): Option<seq<string>> {
    match s
    case Special => None
    case Shell(mode, words, word) =>
      if mode.Blank? then Some(words) else if mode.InWord? then Some(words + [word]) else None
  }

  function SplitWords(line: string): Option<seq<string>> {
    Finish(Run(Shell(Blank, [], ""), line))
  }

  // ----- Round trip -----

  lemma {:induction false} RunConcat(s: Shell, a: string, b: string)
    ensures Run(s, a + b) == Run(Run(s, a), b)
  {
    if b == [] {
      assert a + b == a;
    } else {
      RunConcat(s, a, b[..|b| - 1]);
      assert (a + b)[..|a + b| - 1] == a + b[..|b| - 1];
    }
  }

  lemma RunOne(s: Shell, c: char)
    ensures Run(s, [c]) == Step(s, c)
  {
    assert [c][..0] == [];
  }

  lemma PlainIsOrdinary(c: char)
    requires Plain(c)
    ensures !Operator(c) && c != ' ' && c != '\t' && c != '\'' && c != '\"' && c != '\\'
  {
  }

  /** A plain word typed as it is. */
  lemma {:induction false} RunPlain(words: seq<string>, w: string)
    requires NeedsNoQuoting(w)
    ensures Run(Shell(Blank, words, ""), w) == Shell(InWord, words, w)
    decreases |w|
  {
    var n := |w| - 1;
    PlainIsOrdinary(w[n]);
    assert w == w[..n] + [w[n]];
    if n > 0 {
      RunPlain(words, w[..n]);
    } else {
      assert w[..0] == [];
    }
  }

  /** The quote of an inner quote: close, an escaped quote, open. */
  lemma RunEscapedQuote(words: seq<string>, word: string)
    ensures Run(Shell(Single, words, word), "'\\''") == Shell(Single, words, word + ['\''])
  {
    var s := Shell(Single, words, word);
    RunConcat(s, "'", "\\''");
    RunConcat(Run(s, "'"), "\\", "''");
    RunConcat(Run(Run(s, "'"), "\\"), "'", "'");
    RunOne(s, '\'');
    RunOne(Shell(InWord, words, word), '\\');
    RunOne(Shell(Escaped, words, word), '\'');
    RunOne(Shell(InWord, words, word + ['\'']), '\'');
    assert "'" + "\\''" == "'\\''" && "\\" + "''" == "\\''" && "'" + "'" == "''";
  }

  lemma {:induction false} RunEscaped(words: seq<string>, w: string)
    ensures Run(Shell(Single, words, ""), EscapeQuotes(w)) == Shell(Single, words, w)
  {
    if w != [] {
      var front, c := w[..|w| - 1], w[|w| - 1];
      RunEscaped(words, front);
      assert front + [c] == w;
      var start := Shell(Single, words, "");
      if c == '\'' {
        RunConcat(start, EscapeQuotes(front), "'\\''");
        RunEscapedQuote(words, front);
      } else {
        RunConcat(start, EscapeQuotes(front), [c]);
        RunOne(Shell(Single, words, front), c);
      }
    }
  }

  /** A printed word, read from a blank, is that word. */
  lemma RunQuoted(words: seq<string>, w: string)
    ensures Run(Shell(Blank, words, ""), Quoted(w)) == Shell(InWord, words, w)
  {
    if NeedsNoQuoting(w) {
      RunPlain(words, w);
    } else {
      var start := Shell(Blank, words, "");
      RunConcat(start, "'" + EscapeQuotes(w), "'");
      RunConcat(start, "'", EscapeQuotes(w));
      RunOne(start, '\'');
      RunEscaped(words, w);
      RunOne(Shell(Single, words, w), '\'');
      assert ("'" + EscapeQuotes(w)) + "'" == Quoted(w);
    }
  }

  lemma RunNextWord(start: Shell, line: string, front: seq<string>, w: string)
    requires front != [] && Run(start, line) == Shell(InWord, front[..|front| - 1], front[|front| - 1])
    ensures Run(start, line + " " + Quoted(w)) == Shell(InWord, front, w)
  {
    var init, last := front[..|front| - 1], front[|front| - 1];
    RunConcat(start, line + " ", Quoted(w));
    RunConcat(start, line, " ");
    RunOne(Shell(InWord, init, last), ' ');
    assert init + [last] == front;
    RunQuoted(front, w);
  }

  lemma {:induction false} RunWords(words: seq<string>)
    requires words != []
    ensures Run(Shell(Blank, [], ""), JoinWords(words)) == Shell(InWord, words[..|words| - 1], words[|words| - 1])
  {
    var n := |words| - 1;
    if n == 0 {
      RunQuoted([], words[0]);
    } else {
      RunWords(words[..n]);
      RunNextWord(Shell(Blank, [], ""), JoinWords(words[..n]), words[..n], words[n]);
    }
  }

  /** A POSIX shell reads the printed line back as exactly the words, whatever they contain,
      empty words and words full of quotes included. */
  lemma QuotingRoundTrip(words: seq<string>)
    ensures SplitWords(JoinWords(words)) == Some(words)
  {
    if words != [] {
      RunWords(words);
      EndsInWord(JoinWords(words), words);
    }
  }

  lemma EndsInWord(line: string, words: seq<string>)
    requires words != []
    requires Run(Shell(Blank, [], ""), line) == Shell(InWord, words[..|words| - 1], words[|words| - 1])
    ensures SplitWords(line) == Some(words)
  {
    var front, last := words[..|words| - 1], words[|words| - 1];
    assert front + [last] == words;
    assert Finish(Shell(InWord, front, last)) == Some(front + [last]);
  }

  lemma WordsAre(execPath: string, scriptPath: Option<string>, sea: bool, args: seq<string>)
    ensures Words(execPath, scriptPath, sea, args)
            == if sea || scriptPath == None || scriptPath == Some("") then [execPath] + args
               else [execPath, scriptPath.value] + args
  {
    assert [execPath] + [] == [execPath];
  }

  /** selfInvocationLines on a POSIX platform: one line. */
  method SelfInvocationLine(execPath: string, scriptPath: Option<string>, sea: bool, args: seq<string>)
    returns (line: string)
    ensures SplitWords(line) == Some(Words(execPath, scriptPath, sea, args))
    ensures sea || scriptPath == None || scriptPath == Some("") ==> SplitWords(line) == Some([execPath] + args)
    ensures !sea && scriptPath != None && scriptPath != Some("") ==>
              SplitWords(line) == Some([execPath, scriptPath.value] + args)
  {
    var words := Words(execPath, scriptPath, sea, args);
    line := JoinWords(words);
    WordsAre(execPath, scriptPath, sea, args);
    QuotingRoundTrip(words);
  }

  /** A word is printed as it is exactly if it is not empty and made of letters, digits and the
      characters _ - . : = / + only. */
  lemma BareIff(w: string)
    ensures Quoted(w) == w
            <==> w != ""
                 && forall i :: 0 <= i < |w| ==>
                      || 'a' <= w[i] <= 'z' || 'A' <= w[i] <= 'Z' || '0' <= w[i] <= '9'
                      || w[i] in {'_', '-', '.', ':', '=', '/', '+'}
  {
    if !NeedsNoQuoting(w) {
      EscapedLonger(w);
    }
  }

  lemma {:induction false} EscapedLonger(w: string)
    ensures |EscapeQuotes(w)| >= |w|
  {
    if w != [] {
      EscapedLonger(w[..|w| - 1]);
    }
  }

  /** So no two word lists print alike. */
  lemma PrintedApart(a: seq<string>, b: seq<string>)
    requires JoinWords(a) == JoinWords(b)
    ensures a == b
  {
    QuotingRoundTrip(a);
    QuotingRoundTrip(b);
  }
}
