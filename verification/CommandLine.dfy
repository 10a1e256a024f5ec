/** The command-line parser of the task form: single and double quotes,
    backslash escapes, no expansion. The form for distributed training parses
    its extra arguments with the same machine. */
module CommandLine {
  import opened Sequences

  datatype Mode = Plain | Single | Double

  datatype State = State(args: seq<string>, current: string, mode: Mode, started: bool)

  const START := State([], "", Plain, false)

  predicate IsBlank(c: char) {
    c == ' ' || c == '\t' || c == '\n'
  }

  function Add(st: State, c: char): State {
    st.(current := st.current + [c], started := true)
  }

  function EndWord(st: State): State {
    if st.started then State(st.args + [st.current], "", st.mode, false) else st
  }

  /** One character that is not an escape. */
  function Step(st: State, c: char): State {
    match st.mode
    case Single => if c == '\'' then st.(mode := Plain) else Add(st, c)
    case Double => if c == '"' then st.(mode := Plain) else Add(st, c)
    case Plain =>
      if c == '\'' then st.(mode := Single, started := true)
      else if c == '"' then st.(mode := Double, started := true)
      else if IsBlank(c) then EndWord(st)
      else Add(st, c)
  }

  /** An escape starts here, if anything follows. */
  predicate Escapes(mode: Mode, c: char) {
    mode != Single && c == '\\'
  }

  function Run(st: State, s: string): State
    decreases |s|
  {
    if s == [] then st
    else if Escapes(st.mode, s[0]) && |s| > 1 then Run(Add(st, s[1]), s[2..])
    else Run(Step(st, s[0]), s[1..])
  }

  function Parse(s: string): seq<string> {
    EndWord(Run(START, s)).args
  }

  method ParseCommand(input: string) returns (args: seq<string>)
    ensures args == Parse(input)
  {
    args := [];
    var current: string := "";
    var inSingle, inDouble, started := false, false, false;
    var i := 0;
    while i < |input|
      invariant i <= |input| && !(inSingle && inDouble)
      invariant Run(START, input)
             == Run(State(args, current, if inSingle then Single else if inDouble then Double else Plain, started), input[i..])
    {
      var c := input[i];
      if inSingle {
        if c == '\'' {
          inSingle := false;
        } else {
          current := current + [c];
          started := true;
        }
      } else if inDouble {
        if c == '"' {
          inDouble := false;
        } else if c == '\\' && i + 1 < |input| {
          i := i + 1;
          current := current + [input[i]];
          started := true;
        } else {
          current := current + [c];
          started := true;
        }
      } else if c == '\'' {
        inSingle := true;
        started := true;
      } else if c == '"' {
        inDouble := true;
        started := true;
      } else if c == '\\' && i + 1 < |input| {
        i := i + 1;
        current := current + [input[i]];
        started := true;
      } else if c == ' ' || c == '\t' || c == '\n' {
        if started {
          args := args + [current];
          current := "";
          started := false;
        }
      } else {
        current := current + [c];
        started := true;
      }
      i := i + 1;
    }
    if started {
      args := args + [current];
    }
  }

  // ---------------------------------------------------------------------
  // Pieces of input
  // ---------------------------------------------------------------------

  /** From this mode, s is read to its end outside quotes and without a last
      backslash that still waits for a character. */
  predicate Complete(mode: Mode, s: string)
    decreases |s|
  {
    if s == [] then mode == Plain
    else if Escapes(mode, s[0]) then |s| > 1 && Complete(mode, s[2..])
    else Complete(Step(State([], "", mode, false), s[0]).mode, s[1..])
  }

  lemma {:induction false} RunInPieces(st: State, s: string, t: string)
    requires Complete(st.mode, s)
    ensures Run(st, s).mode == Plain
    ensures Run(st, s + t) == Run(Run(st, s), t)
    decreases |s|
  {
    if s == [] {
      assert s + t == t;
    } else if Escapes(st.mode, s[0]) {
      assert (s + t)[2..] == s[2..] + t;
      RunInPieces(Add(st, s[1]), s[2..], t);
    } else {
      assert (s + t)[1..] == s[1..] + t;
      RunInPieces(Step(st, s[0]), s[1..], t);
    }
  }

  /** Arguments already found do not influence the rest. */
  lemma {:induction false} RunKeepsArgs(args: seq<string>, st: State, s: string)
    ensures Run(st.(args := args + st.args), s) == Run(st, s).(args := args + Run(st, s).args)
    decreases |s|
  {
    if s == [] {
    } else if Escapes(st.mode, s[0]) && |s| > 1 {
      RunKeepsArgs(args, Add(st, s[1]), s[2..]);
    } else {
      StepKeepsArgs(args, st, s[0]);
      RunKeepsArgs(args, Step(st, s[0]), s[1..]);
    }
  }

  lemma StepKeepsArgs(args: seq<string>, st: State, c: char)
    ensures Step(st.(args := args + st.args), c) == Step(st, c).(args := args + Step(st, c).args)
    ensures EndWord(st.(args := args + st.args)) == EndWord(st).(args := args + EndWord(st).args)
  {
    assert args + (st.args + [st.current]) == (args + st.args) + [st.current];
  }

  /** Inside quotes a word has started, and no text is kept before one has. */
  predicate Sound(st: State) {
    (st.mode != Plain ==> st.started) && (st.started || st.current == "")
  }

  lemma {:induction false} RunKeepsSound(st: State, s: string)
    requires Sound(st)
    ensures Sound(Run(st, s))
    decreases |s|
  {
    if s == [] {
    } else if Escapes(st.mode, s[0]) && |s| > 1 {
      RunKeepsSound(Add(st, s[1]), s[2..]);
    } else {
      RunKeepsSound(Step(st, s[0]), s[1..]);
    }
  }

  lemma {:induction false} ParseAfterBlank(x: string, y: string)
    requires Complete(Plain, x)
    ensures Parse(x + " " + y) == Parse(x) + Parse(y)
  {
    hide Complete;
    var st := Run(START, x);
    var words := Parse(x);
    RunInPieces(START, x, " " + y);
    RunKeepsSound(START, x);
    assert x + " " + y == x + (" " + y);
    assert (" " + y)[1..] == y && (" " + y)[0] == ' ';
    assert Run(st, " " + y) == Run(Step(st, ' '), y);
    AfterBlank(st, y);
  }

  lemma {:induction false} AfterBlank(st: State, y: string)
    requires st.mode == Plain && Sound(st)
    ensures EndWord(Run(Step(st, ' '), y)).args == EndWord(st).args + Parse(y)
  {
    var words := EndWord(st).args;
    assert words + [] == words;
    RunKeepsArgs(words, START, y);
    StepKeepsArgs(words, Run(START, y), ' ');
  }

  /** What is left behind when the input is not complete: a word is under way,
      and one more blank changes it. */
  lemma {:induction false} BlankIsSwallowed(st: State, s: string)
    requires !Complete(st.mode, s) && Sound(st)
    ensures EndWord(Run(st, s + " ")).args != EndWord(Run(st, s)).args
    decreases |s|
  {
    if s == [] {
      assert s + " " == " " && " "[1..] == [];
      assert Last(EndWord(Run(st, " ")).args) == st.current + " ";
      assert Last(EndWord(st).args) == st.current;
    } else if Escapes(st.mode, s[0]) {
      if |s| == 1 {
        assert (s + " ")[2..] == [] && s[1..] == [];
        RunOnce(st, s + " ");
        RunOnce(st, s);
        assert Run(st, s + " ") == Add(st, ' ');
        assert Step(st, s[0]) == Add(st, '\\');
        assert Run(st, s) == Add(st, '\\');
        assert Last(EndWord(Add(st, ' ')).args) == st.current + [' '];
        assert Last(EndWord(Add(st, '\\')).args) == st.current + ['\\'];
        assert (st.current + [' '])[|st.current|] != (st.current + ['\\'])[|st.current|];
      } else {
        assert (s + " ")[2..] == s[2..] + " ";
        BlankIsSwallowed(Add(st, s[1]), s[2..]);
      }
    } else {
      assert (s + " ")[1..] == s[1..] + " ";
      BlankIsSwallowed(Step(st, s[0]), s[1..]);
    }
  }

  /** Parsing distributes over a blank, for every continuation, exactly when the
      first part is complete. */
  lemma ParseSplitsExactly(x: string)
    ensures (forall y: string :: Parse(x + " " + y) == Parse(x) + Parse(y)) <==> Complete(Plain, x)
  {
    if Complete(Plain, x) {
      forall y: string
        ensures Parse(x + " " + y) == Parse(x) + Parse(y)
      {
        ParseAfterBlank(x, y);
      }
    } else {
      BlankIsSwallowed(START, x);
      assert x + " " + "" == x + " ";
      assert Parse("") == [];
      assert Parse(x + " " + "") != Parse(x) + Parse("");
    }
  }

  // ---------------------------------------------------------------------
  // Writing arguments so that they parse back
  // ---------------------------------------------------------------------

  /** A character between double quotes. */
  datatype Quoted = Bare(c: char) | Escaped(c: char)

  /** The ways to write a part of an argument. */
  datatype Piece =
    | Literal(c: char)
    | Escape(c: char)
    | SingleQuoted(text: string)
    | DoubleQuoted(chars: seq<Quoted>)

  predicate Legal(p: Piece) {
    match p
    case Literal(c) => c != '\'' && c != '"' && c != '\\' && c != ' ' && c != '\t' && c != '\n'
    case Escape(_) => true
    case SingleQuoted(text) => '\'' !in text
    case DoubleQuoted(chars) => forall i :: 0 <= i < |chars| ==> chars[i].Bare? ==> chars[i].c != '"' && chars[i].c != '\\'
  }

  function WriteOne(q: Quoted): string {
    if q.Bare? then [q.c] else ['\\', q.c]
  }

  function WriteQuoted(chars: seq<Quoted>): string {
    if chars == [] then ""
    else WriteOne(chars[0]) + WriteQuoted(chars[1..])
  }

  function MeaningQuoted(chars: seq<Quoted>): string {
    if chars == [] then "" else [chars[0].c] + MeaningQuoted(chars[1..])
  }

  function Write(p: Piece): string {
    match p
    case Literal(c) => [c]
    case Escape(c) => ['\\', c]
    case SingleQuoted(text) => "'" + text + "'"
    case DoubleQuoted(chars) => "\"" + WriteQuoted(chars) + "\""
  }

  function Meaning(p: Piece): string {
    match p
    case Literal(c) => [c]
    case Escape(c) => [c]
    case SingleQuoted(text) => text
    case DoubleQuoted(chars) => MeaningQuoted(chars)
  }

  function WriteWord(word: seq<Piece>): string {
    if word == [] then "" else Write(word[0]) + WriteWord(word[1..])
  }

  function MeaningWord(word: seq<Piece>): string {
    if word == [] then "" else Meaning(word[0]) + MeaningWord(word[1..])
  }

  predicate LegalWord(word: seq<Piece>) {
    word != [] && forall i :: 0 <= i < |word| ==> Legal(word[i])
  }

  function WriteLine(words: seq<seq<Piece>>): string {
    if words == [] then ""
    else if |words| == 1 then WriteWord(words[0])
    else WriteWord(words[0]) + " " + WriteLine(words[1..])
  }

  function MeaningLine(words: seq<seq<Piece>>): seq<string> {
    if words == [] then [] else [MeaningWord(words[0])] + MeaningLine(words[1..])
  }

  /** The state after reading more of the current word. */
  function More(st: State, text: string): State {
    st.(current := st.current + text, started := true)
  }

  lemma {:induction false} RunSingle(st: State, text: string, rest: string)
    requires st.mode == Single && st.started && '\'' !in text
    ensures Run(st, text + "'" + rest) == Run(More(st, text).(mode := Plain), rest)
    decreases |text|
  {
    var s := text + "'" + rest;
    if text == [] {
      assert s[1..] == rest && st.current + "" == st.current;
    } else {
      assert s[1..] == text[1..] + "'" + rest;
      RunSingle(Add(st, text[0]), text[1..], rest);
      assert st.current + [text[0]] + text[1..] == st.current + text;
    }
  }

  lemma {:induction false} RunOneQuoted(st: State, q: Quoted, tail: string)
    requires st.mode == Double && st.started && Legal(DoubleQuoted([q]))
    ensures Run(st, WriteOne(q) + tail) == Run(Add(st, q.c), tail)
  {
    var s := WriteOne(q) + tail;
    assert [q][0] == q;
    assert q.Bare? ==> s[1..] == tail;
    assert q.Escaped? ==> s[2..] == tail;
  }

  lemma {:induction false} RunClosingQuote(st: State, rest: string)
    requires st.mode == Double && st.started
    ensures Run(st, "\"" + rest) == Run(st.(mode := Plain), rest)
  {
    assert ("\"" + rest)[1..] == rest;
  }

  lemma {:induction false} FirstQuoted(st: State, chars: seq<Quoted>, rest: string)
    requires chars != [] && Legal(DoubleQuoted(chars))
    ensures Legal(DoubleQuoted([chars[0]])) && Legal(DoubleQuoted(chars[1..]))
    ensures WriteQuoted(chars) + "\"" + rest == WriteOne(chars[0]) + (WriteQuoted(chars[1..]) + "\"" + rest)
    ensures More(Add(st, chars[0].c), MeaningQuoted(chars[1..])) == More(st, MeaningQuoted(chars))
  {
    hide WriteOne;
    assert st.current + [chars[0].c] + MeaningQuoted(chars[1..]) == st.current + MeaningQuoted(chars);
  }

  lemma {:induction false} RunDouble(st: State, chars: seq<Quoted>, rest: string)
    requires st.mode == Double && st.started && Legal(DoubleQuoted(chars))
    ensures Run(st, WriteQuoted(chars) + "\"" + rest) == Run(More(st, MeaningQuoted(chars)).(mode := Plain), rest)
    decreases |chars|
  {
    if chars == [] {
      hide Run;
      RunClosingQuote(st, rest);
      assert WriteQuoted(chars) + "\"" + rest == "\"" + rest && st.current + "" == st.current;
    } else {
      hide Run, WriteQuoted, MeaningQuoted, WriteOne, Legal;
      FirstQuoted(st, chars, rest);
      RunOneQuoted(st, chars[0], WriteQuoted(chars[1..]) + "\"" + rest);
      RunDouble(Add(st, chars[0].c), chars[1..], rest);
    }
  }

  lemma {:induction false} RunLiteral(st: State, c: char, rest: string)
    requires st.mode == Plain && Legal(Literal(c))
    ensures Run(st, [c] + rest) == Run(More(st, [c]), rest)
  {
    assert ([c] + rest)[1..] == rest;
    RunOnce(st, [c] + rest);
  }

  lemma {:induction false} RunEscape(st: State, c: char, rest: string)
    requires st.mode == Plain
    ensures Run(st, ['\\', c] + rest) == Run(More(st, [c]), rest)
  {
    assert (['\\', c] + rest)[2..] == rest;
    RunOnce(st, ['\\', c] + rest);
  }

  /** One turn of the scan. */
  lemma RunOnce(st: State, s: string)
    requires s != []
    ensures Run(st, s) == if Escapes(st.mode, s[0]) && |s| > 1 then Run(Add(st, s[1]), s[2..]) else Run(Step(st, s[0]), s[1..])
  {
  }

  lemma {:induction false} RunSingleQuoted(st: State, text: string, rest: string)
    requires st.mode == Plain && Legal(SingleQuoted(text))
    ensures Run(st, "'" + text + "'" + rest) == Run(More(st, text), rest)
  {
    hide Run;
    var s := "'" + text + "'" + rest;
    assert s[1..] == text + "'" + rest;
    RunOnce(st, s);
    RunSingle(st.(mode := Single, started := true), text, rest);
  }

  lemma {:induction false} RunDoubleQuoted(st: State, chars: seq<Quoted>, rest: string)
    requires st.mode == Plain && Legal(DoubleQuoted(chars))
    ensures Run(st, "\"" + WriteQuoted(chars) + "\"" + rest) == Run(More(st, MeaningQuoted(chars)), rest)
  {
    hide Run, WriteQuoted, MeaningQuoted, Legal;
    var s := "\"" + WriteQuoted(chars) + "\"" + rest;
    assert s[1..] == WriteQuoted(chars) + "\"" + rest;
    RunOnce(st, s);
    RunDouble(st.(mode := Double, started := true), chars, rest);
  }

  lemma {:induction false} RunPiece(st: State, p: Piece, rest: string)
    requires st.mode == Plain && Legal(p)
    ensures Run(st, Write(p) + rest) == Run(More(st, Meaning(p)), rest)
  {
    hide Run, Legal, WriteQuoted, MeaningQuoted, More;
    match p {
      case Literal(c) => RunLiteral(st, c, rest);
      case Escape(c) => RunEscape(st, c, rest);
      case SingleQuoted(text) => RunSingleQuoted(st, text, rest);
      case DoubleQuoted(chars) => RunDoubleQuoted(st, chars, rest);
    }
  }

  lemma {:induction false} FirstPiece(st: State, word: seq<Piece>, rest: string)
    requires LegalWord(word)
    ensures word != [] && Legal(word[0]) && (|word| > 1 ==> LegalWord(word[1..]))
    ensures WriteWord(word) + rest == Write(word[0]) + (WriteWord(word[1..]) + rest)
    ensures More(More(st, Meaning(word[0])), MeaningWord(word[1..])) == More(st, MeaningWord(word))
  {
    hide Legal, Write, Meaning;
    assert st.current + Meaning(word[0]) + MeaningWord(word[1..]) == st.current + MeaningWord(word);
  }

  lemma NothingMore(st: State, rest: string)
    ensures WriteWord([]) + rest == rest && (st.started ==> More(st, MeaningWord([])) == st)
  {
    assert st.current + "" == st.current;
  }

  lemma {:induction false} RunWord(st: State, word: seq<Piece>, rest: string)
    requires st.mode == Plain && LegalWord(word)
    ensures Run(st, WriteWord(word) + rest) == Run(More(st, MeaningWord(word)), rest)
    decreases |word|
  {
    hide Run, Legal, LegalWord, Write, WriteWord, Meaning, MeaningWord;
    FirstPiece(st, word, rest);
    RunPiece(st, word[0], WriteWord(word[1..]) + rest);
    var st' := More(st, Meaning(word[0]));
    if |word| == 1 {
      assert word[1..] == [];
      NothingMore(st', rest);
    } else {
      RunWord(st', word[1..], rest);
    }
  }

  lemma {:induction false} ParseWord(word: seq<Piece>)
    requires LegalWord(word)
    ensures Parse(WriteWord(word)) == [MeaningWord(word)]
  {
    hide LegalWord, WriteWord, MeaningWord;
    var w, m := WriteWord(word), MeaningWord(word);
    RunWord(START, word, "");
    assert w + "" == w && "" + m == m;
  }

  lemma {:induction false} ParseWordThen(word: seq<Piece>, y: string)
    requires LegalWord(word)
    ensures Parse(WriteWord(word) + " " + y) == [MeaningWord(word)] + Parse(y)
  {
    hide LegalWord, WriteWord, MeaningWord;
    var w, m := WriteWord(word), MeaningWord(word);
    RunWord(START, word, " " + y);
    assert w + " " + y == w + (" " + y);
    assert (" " + y)[1..] == y && (" " + y)[0] == ' ';
    assert Run(More(START, m), " " + y) == Run(Step(More(START, m), ' '), y);
    assert "" + m == m && EndWord(More(START, m)).args == [m];
    AfterBlank(More(START, m), y);
  }

  /** However each argument is written, with quotes, escapes or plainly, the line
      parses to the arguments meant. */
  lemma {:induction false} LineParsesToItsMeaning(words: seq<seq<Piece>>)
    requires forall i :: 0 <= i < |words| ==> LegalWord(words[i])
    ensures Parse(WriteLine(words)) == MeaningLine(words)
    decreases |words|
  {
    assert Parse("") == [];
    hide Parse, LegalWord;
    if words != [] {
      if |words| == 1 {
        ParseWord(words[0]);
      } else {
        ParseWordThen(words[0], WriteLine(words[1..]));
        LineParsesToItsMeaning(words[1..]);
      }
    }
  }

  // ---------------------------------------------------------------------
  // Any blanks between the words
  // ---------------------------------------------------------------------

  predicate Gap(s: string) {
    forall i :: 0 <= i < |s| ==> s[i] == ' ' || s[i] == '\t' || s[i] == '\n'
  }

  /** A word and the blanks that follow it. */
  datatype Spaced = Spaced(word: seq<Piece>, gap: string)

  function WriteSpaced(words: seq<Spaced>): string {
    if words == [] then "" else WriteWord(words[0].word) + (words[0].gap + WriteSpaced(words[1..]))
  }

  function MeaningSpaced(words: seq<Spaced>): seq<string> {
    if words == [] then [] else [MeaningWord(words[0].word)] + MeaningSpaced(words[1..])
  }

  lemma {:induction false} RunGap(st: State, gap: string, rest: string)
    requires st.mode == Plain && Gap(gap) && gap != ""
    ensures Run(st, gap + rest) == Run(EndWord(st), rest)
    decreases |gap|
  {
    assert (gap + rest)[0] == gap[0] && (gap + rest)[1..] == gap[1..] + rest;
    assert Run(st, gap + rest) == Run(EndWord(st), gap[1..] + rest);
    if |gap| == 1 {
      assert gap[1..] + rest == rest;
    } else {
      RunGap(EndWord(st), gap[1..], rest);
    }
  }

  lemma {:induction false} SpacedWordThen(word: seq<Piece>, gap: string, y: string)
    requires LegalWord(word) && Gap(gap) && gap != ""
    ensures Parse(WriteWord(word) + (gap + y)) == [MeaningWord(word)] + Parse(y)
  {
    var m := MeaningWord(word);
    RunWord(START, word, gap + y);
    hide LegalWord, WriteWord, MeaningWord;
    assert "" + m == m && EndWord(More(START, m)) == State([m], "", Plain, false);
    RunGap(More(START, m), gap, y);
    RunKeepsArgs([m], START, y);
    StepKeepsArgs([m], Run(START, y), ' ');
    assert [m] + [] == [m];
  }

  /** Words may be set apart, preceded and followed by any spaces, tabs and newlines. */
  lemma {:induction false} SpacedLineParses(lead: string, words: seq<Spaced>)
    requires Gap(lead)
    requires forall i :: 0 <= i < |words| ==> LegalWord(words[i].word) && Gap(words[i].gap)
    requires forall i :: 0 <= i < |words| - 1 ==> words[i].gap != ""
    ensures Parse(lead + WriteSpaced(words)) == MeaningSpaced(words)
  {
    SpacedWordsParse(words);
    if lead == "" {
      assert lead + WriteSpaced(words) == WriteSpaced(words);
    } else {
      RunGap(START, lead, WriteSpaced(words));
    }
  }

  lemma {:induction false} SpacedWordsParse(words: seq<Spaced>)
    requires forall i :: 0 <= i < |words| ==> LegalWord(words[i].word) && Gap(words[i].gap)
    requires forall i :: 0 <= i < |words| - 1 ==> words[i].gap != ""
    ensures Parse(WriteSpaced(words)) == MeaningSpaced(words)
    decreases |words|
  {
    assert Parse("") == [];
    hide Parse, LegalWord, WriteWord, MeaningWord;
    if words != [] {
      SpacedWordsParse(words[1..]);
      var w := words[0];
      if w.gap == "" {
        assert words[1..] == [];
        assert WriteSpaced(words) == WriteWord(w.word) + ("" + "") == WriteWord(w.word);
        ParseWord(w.word);
      } else {
        SpacedWordThen(w.word, w.gap, WriteSpaced(words[1..]));
      }
    }
  }

  // ---------------------------------------------------------------------
  // Double quoting
  // ---------------------------------------------------------------------

  function EscapeAll(arg: string): string {
    if arg == [] then ""
    else (if arg[0] == '"' || arg[0] == '\\' then ['\\', arg[0]] else [arg[0]]) + EscapeAll(arg[1..])
  }

  /** An argument between double quotes, its quotes and backslashes escaped. */
  function Quote(arg: string): string {
    "\"" + EscapeAll(arg) + "\""
  }

  function QuoteLine(args: seq<string>): string {
    if args == [] then ""
    else if |args| == 1 then Quote(args[0])
    else Quote(args[0]) + " " + QuoteLine(args[1..])
  }

  function AsQuoted(arg: string): seq<Quoted> {
    seq(|arg|, i requires 0 <= i < |arg| => if arg[i] == '"' || arg[i] == '\\' then Escaped(arg[i]) else Bare(arg[i]))
  }

  lemma {:induction false} AsQuotedMeans(arg: string)
    ensures WriteQuoted(AsQuoted(arg)) == EscapeAll(arg) && MeaningQuoted(AsQuoted(arg)) == arg
    decreases |arg|
  {
    if arg != [] {
      AsQuotedMeans(arg[1..]);
      assert AsQuoted(arg)[1..] == AsQuoted(arg[1..]);
    }
  }

  function AsWords(args: seq<string>): (words: seq<seq<Piece>>)
    ensures |words| == |args|
    ensures forall i :: 0 <= i < |args| ==> words[i] == [DoubleQuoted(AsQuoted(args[i]))]
  {
    seq(|args|, i requires 0 <= i < |args| => [DoubleQuoted(AsQuoted(args[i]))])
  }

  lemma AsWordMeans(arg: string)
    ensures var word := [DoubleQuoted(AsQuoted(arg))]; WriteWord(word) == Quote(arg) && MeaningWord(word) == arg
  {
    var word := [DoubleQuoted(AsQuoted(arg))];
    AsQuotedMeans(arg);
    assert word[1..] == [];
    assert WriteWord(word) == Quote(arg) + WriteWord([]);
    assert Meaning(word[0]) == arg;
    assert MeaningWord(word) == arg + MeaningWord([]);
  }

  lemma {:induction false} QuoteLineIsLine(args: seq<string>)
    ensures WriteLine(AsWords(args)) == QuoteLine(args) && MeaningLine(AsWords(args)) == args
    decreases |args|
  {
    hide Quote, WriteWord, MeaningWord;
    if args != [] {
      AsWordMeans(args[0]);
      assert AsWords(args)[1..] == AsWords(args[1..]);
      QuoteLineIsLine(args[1..]);
      assert args == [args[0]] + args[1..];
    }
  }

  /** Any list of arguments, empty ones and ones with blanks, quotes and
      backslashes included, survives quoting and parsing. */
  lemma {:induction false} QuotingRoundTrip(args: seq<string>)
    ensures Parse(QuoteLine(args)) == args
  {
    hide Parse;
    QuoteLineIsLine(args);
    LineParsesToItsMeaning(AsWords(args));
  }
}
