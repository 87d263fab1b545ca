/**
  The session loop of Program.cs: each input line is either the end of the
  session, a `:mode` command, or a submission that is lexed, parsed and handed to
  the active back end. The interpreter's environment and the compiler's buffer of
  generated lines both last for the whole session and are never reconciled. The
  collaborator that compiles and runs the wrapped buffer is a parameter `run`
  that maps program text to the lines the program (or the compiler) writes.
*/
module Session {
  import opened Errors
  import opened Chars
  import opened CSharpInt
  import opened TokenTypes
  import opened Ast
  import opened TextLines
  import Lexing
  import ParserSpec
  import Parsing
  import Evaluation
  import CodeGen

  /** A line the session writes to the console. */
  datatype Line =
    | Value(v: Int)              // a printed value, written as its decimal text
    | ErrorLine(e: Error)        // `ERROR: <message>`
    | ModeLine(interpret: bool)  // `Mode switched to Interpreter/Compiler mode.`
    | ProgramLine(text: string)  // a line written while compiling and running the buffer

  /** The mode, the evaluator's environment, the buffer of generated lines and everything written so far. */
  datatype State = State(interpret: bool, env: Evaluation.Env, code: seq<string>, output: seq<Line>)

  /** Program.cs:5-8: interpret mode, a fresh evaluator and an empty buffer. */
  const Init: State := State(true, map[], [], [])

  // ---- the exit check ----

  /** The number of whitespace characters `s` ends with. */
  function TrailingSpace(s: string): (n: nat)
    ensures n <= |s|
    ensures forall i :: |s| - n <= i < |s| ==> IsWhiteSpace(s[i])
    ensures n < |s| ==> !IsWhiteSpace(s[|s| - n - 1])
  {
    if s == [] || !IsWhiteSpace(s[|s| - 1]) then 0 else 1 + TrailingSpace(s[..|s| - 1])
  }

  /** `string.Trim()`: the text without its leading and trailing whitespace. */
  function Trim(s: string): (r: string)
    ensures r == [] || (!IsWhiteSpace(r[0]) && !IsWhiteSpace(r[|r| - 1]))
  {
    Lexing.SpanMaximal(s, Lexing.Space);
    var t := s[Lexing.Span(s, Lexing.Space)..];
    t[..|t| - TrailingSpace(t)]
  }

  predicate AllWhiteSpace(s: string)
  {
    forall i :: 0 <= i < |s| ==> IsWhiteSpace(s[i])
  }

  /** A whitespace run at the end of `a + b` is exactly `b` when `a` does not end in whitespace. */
  lemma {:induction false} TrailingSpaceOf(a: string, b: string)
    requires AllWhiteSpace(b) && (a == [] || !IsWhiteSpace(a[|a| - 1]))
    ensures TrailingSpace(a + b) == |b|
  {
    if b == [] {
      assert a + b == a;
    } else {
      var s := a + b;
      assert s[..|s| - 1] == a + b[..|b| - 1];
      TrailingSpaceOf(a, b[..|b| - 1]);
    }
  }

  /** Trimming removes exactly the whitespace padding around a word. */
  lemma TrimPadded(a: string, w: string, b: string)
    requires AllWhiteSpace(a) && AllWhiteSpace(b)
    requires w == [] || (!IsWhiteSpace(w[0]) && !IsWhiteSpace(w[|w| - 1]))
    ensures Trim(a + w + b) == w
  {
    var s := a + w + b;
    if w == [] {
      assert s == (a + b) + [];
      Lexing.SpanPrefix(a + b, [], Lexing.Space);
      assert s[|s|..] == [];
    } else {
      assert s == a + (w + b);
      Lexing.SpanPrefix(a, w + b, Lexing.Space);
      assert s[|a|..] == w + b;
      TrailingSpaceOf(w, b);
      assert (w + b)[..|w|] == w;
    }
  }

  /** Program.cs:14: the end of the input, or a line that trims to `exit` in any case. */
  predicate IsExit(input: Option<string>)
  {
    input.None? || EqualsIgnoreCase(Trim(input.value), "exit")
  }

  /** `exit` in any case and with any whitespace around it ends the session. */
  lemma ExitPadded(a: string, w: string, b: string)
    requires AllWhiteSpace(a) && AllWhiteSpace(b) && EqualsIgnoreCase(w, "exit")
    ensures IsExit(Some(a + w + b))
  {
    assert !IsWhiteSpace(w[0]) && !IsWhiteSpace(w[3]) by {
      assert ToLower(w[0]) == 'e' && ToLower(w[3]) == 't';
    }
    TrimPadded(a, w, b);
  }

  // ---- the `:mode` command ----

  /** `StartsWith(":mode", StringComparison.OrdinalIgnoreCase)`. */
  predicate IsModeCommand(line: string)
  {
    |line| >= 5 && EqualsIgnoreCase(line[..5], ":mode")
  }

  /**
    `Split(' ', StringSplitOptions.RemoveEmptyEntries)` read one character at a
    time: `cur` is the word being read; a space ends it, and an empty word is dropped.
  */
  function WordsFrom(s: string, cur: string): (ws: seq<string>)
    requires ' ' !in cur
    ensures forall i :: 0 <= i < |ws| ==> ws[i] != [] && ' ' !in ws[i]
    decreases |s|
  {
    var done := if cur == [] then [] else [cur];
    if s == [] then done
    else if s[0] == ' ' then done + WordsFrom(s[1..], [])
    else WordsFrom(s[1..], cur + [s[0]])
  }

  /** The space-separated words of a line, empty ones removed. */
  function Words(s: string): seq<string>
  {
    WordsFrom(s, [])
  }

  /** A space separates words: the words of `a + " " + b` are those of `a` and then those of `b`. */
  lemma {:induction false} WordsFromSeparated(a: string, b: string, cur: string)
    requires ' ' !in cur
    ensures WordsFrom(a + " " + b, cur) == WordsFrom(a, cur) + Words(b)
    decreases |a|
  {
    var s := a + " " + b;
    if a == [] {
      assert s[0] == ' ' && s[1..] == b;
    } else {
      assert s[0] == a[0] && s[1..] == a[1..] + " " + b;
      if a[0] == ' ' {
        WordsFromSeparated(a[1..], b, []);
        var done := if cur == [] then [] else [cur];
        assert done + (WordsFrom(a[1..], []) + Words(b)) == (done + WordsFrom(a[1..], [])) + Words(b);
      } else {
        WordsFromSeparated(a[1..], b, cur + [a[0]]);
      }
    }
  }

  lemma WordsSeparated(a: string, b: string)
    ensures Words(a + " " + b) == Words(a) + Words(b)
  {
    WordsFromSeparated(a, b, []);
  }

  /** Text without a space is one word (the one being read, extended). */
  lemma {:induction false} WordsFromWord(w: string, cur: string)
    requires ' ' !in cur && ' ' !in w && cur + w != []
    ensures WordsFrom(w, cur) == [cur + w]
    decreases |w|
  {
    if w == [] {
      assert cur + w == cur;
    } else {
      assert w[0] in w;
      assert ' ' !in w[1..] by {
        forall i | 0 <= i < |w[1..]|
          ensures w[1..][i] != ' '
        {
          assert w[1..][i] == w[i + 1];
        }
      }
      assert ' ' !in cur + [w[0]];
      WordsFromWord(w[1..], cur + [w[0]]);
      assert cur + [w[0]] + w[1..] == cur + w;
    }
  }

  lemma WordsOfWord(w: string)
    requires w != [] && ' ' !in w
    ensures Words(w) == [w]
  {
    WordsFromWord(w, []);
    assert [] + w == w;
  }

  /**
    Program.cs:19-28: with a second word the mode becomes interpret exactly when
    that word is `interpret` in any case, and the switch is announced; with one
    word nothing happens.
  */
  function ModeStep(st: State, line: string): State
  {
    var words := Words(line);
    if |words| > 1 then
      var interpret := EqualsIgnoreCase(words[1], "interpret");
      st.(interpret := interpret, output := st.output + [ModeLine(interpret)])
    else st
  }

  // ---- a submission ----

  /**
    Program.cs:32-42: the tokens up to and including EOF, then `Parse`; the
    block holds only parser-produced statements.
  */
  function FrontEnd(line: string): (r: Result<Stmt>)
    ensures r.Success? ==> r.value.BlockStmt?
    ensures r.Success? ==> forall i :: 0 <= i < |r.value.statements| ==> WellFormedStmt(r.value.statements[i])
  {
    var toks :- Lexing.Tokens(line);
    Lexing.TokensShape(line);
    ParserSpec.Parse(toks)
  }

  /** One output line per printed value, in order. */
  function Values(printed: seq<Int>): (ls: seq<Line>)
    ensures |ls| == |printed| && forall i :: 0 <= i < |ls| ==> ls[i] == Value(printed[i])
  {
    if printed == [] then [] else [Value(printed[0])] + Values(printed[1..])
  }

  /** The lines of two runs' values are the lines of the first run, then of the second. */
  lemma ValuesAppend(a: seq<Int>, b: seq<Int>)
    ensures Values(a + b) == Values(a) + Values(b)
  {
    assert forall i :: 0 <= i < |a| + |b| ==> (a + b)[i] == (if i < |a| then a[i] else b[i - |a|]);
  }

  /** One output line per line the collaborator writes, in order. */
  function ProgramLines(written: seq<string>): (ls: seq<Line>)
    ensures |ls| == |written| && forall i :: 0 <= i < |ls| ==> ls[i] == ProgramLine(written[i])
  {
    if written == [] then [] else [ProgramLine(written[0])] + ProgramLines(written[1..])
  }

  /** What two runs of the collaborator write is written in that order. */
  lemma ProgramLinesAppend(a: seq<string>, b: seq<string>)
    ensures ProgramLines(a + b) == ProgramLines(a) + ProgramLines(b)
  {
    assert forall i :: 0 <= i < |a| + |b| ==> (a + b)[i] == (if i < |a| then a[i] else b[i - |a|]);
  }

  function FailureLines(failure: Option<Error>): seq<Line>
  {
    if failure.Some? then [ErrorLine(failure.value)] else []
  }

  /**
    Program.cs:47 in interpret mode: the evaluator runs the block against its
    environment; each print writes a line, and a failure writes `ERROR:` after
    whatever was printed before it.
  */
  function Interpret(st: State, block: Stmt): State
    requires block.BlockStmt?
  {
    var t := Evaluation.Run(st.env, block.statements);
    st.(env := t.env, output := st.output + Values(t.printed) + FailureLines(t.failure))
  }

  /** LINQ `Skip(n)`: all but the first `n` elements, none when there are fewer. */
  function Skip<T>(s: seq<T>, n: nat): (r: seq<T>)
    ensures |r| == if n <= |s| then |s| - n else 0
    ensures forall i :: 0 <= i < |r| ==> r[i] == s[n + i]
  {
    if n <= |s| then s[n..] else []
  }

  /** LINQ `SkipLast(n)`: all but the last `n` elements, none when there are fewer. */
  function SkipLast<T>(s: seq<T>, n: nat): (r: seq<T>)
    ensures |r| == if n <= |s| then |s| - n else 0
    ensures forall i :: 0 <= i < |r| ==> r[i] == s[i]
  {
    if n <= |s| then s[..|s| - n] else []
  }

  /** Program.cs:52: the pieces of the generated text between newlines, less three at each end. */
  function NewLines(text: string): (ls: seq<string>)
    ensures AllNoNewline(ls)
  {
    SkipLast(Skip(Split(text), 3), 3)
  }

  /** Dropping three pieces at each end of at least six leaves the middle. */
  lemma SkipBothEnds<T>(p: seq<T>)
    requires |p| >= 6
    ensures SkipLast(Skip(p, 3), 3) == p[3..|p| - 3]
  {
  }

  const WrapperHead: seq<string> := ["using System;", "public static class ScriptProgram{", "  public static void Run(){"]
  const WrapperTail: seq<string> := ["  }", "}"]

  /**
    Program.cs:54-59: the whole buffer joined by newlines between the three
    wrapper lines and `"\n  }\n}"`.
  */
  function FullCode(code: seq<string>): string
  {
    WrapperHead[0] + "\n" + (WrapperHead[1] + "\n" + (WrapperHead[2] + "\n" +
      (Join(code) + "\n" + (WrapperTail[0] + "\n" + WrapperTail[1]))))
  }

  /**
    Program.cs:51-61 in compile mode: the block's statement lines are appended to
    the buffer, and then the entire buffer, wrapped, goes to the collaborator. A
    block that cannot be translated writes `ERROR:` and appends nothing.
  */
  function Compile(st: State, block: Stmt, run: string -> seq<string>): State
    requires block.BlockStmt?
  {
    match CodeGen.GenerateText(block)
    case Failure(e) => st.(output := st.output + [ErrorLine(e)])
    case Success(text) =>
      var code := st.code + NewLines(text);
      st.(code := code, output := st.output + ProgramLines(run(FullCode(code))))
  }

  /**
    One line that is not an exit. The buffer is only ever extended, keeps its
    lines free of newlines, and the output is only ever extended.
  */
  function Submit(st: State, line: string, run: string -> seq<string>): (r: State)
    ensures st.code <= r.code && st.output <= r.output
    ensures AllNoNewline(st.code) ==> AllNoNewline(r.code)
  {
    if IsModeCommand(line) then ModeStep(st, line)
    else
      match FrontEnd(line)
      case Failure(e) => st.(output := st.output + [ErrorLine(e)])
      case Success(block) => if st.interpret then Interpret(st, block) else Compile(st, block, run)
  }

  /**
    The loop of Program.cs:10-68 over the lines the console delivers: each line
    is submitted in turn until an exit line or the end of the input. Buffer and
    output only grow across the whole session.
  */
  function Steps(st: State, inputs: seq<Option<string>>, run: string -> seq<string>): (r: State)
    ensures st.code <= r.code && st.output <= r.output
    ensures AllNoNewline(st.code) ==> AllNoNewline(r.code)
    decreases |inputs|
  {
    if inputs == [] || IsExit(inputs[0]) then st
    else Steps(Submit(st, inputs[0].value, run), inputs[1..], run)
  }

  // ---- what a step does ----

  /**
    A `:mode` line is never lexed (a `:` is no token, yet no error is written):
    environment and buffer stay, and the mode follows the second word, if any.
  */
  lemma ModeCommandNotLexed(st: State, line: string, run: string -> seq<string>)
    requires IsModeCommand(line)
    ensures var r := Submit(st, line, run);
      && r.env == st.env && r.code == st.code
      && (|Words(line)| > 1 ==>
           && r.interpret == EqualsIgnoreCase(Words(line)[1], "interpret")
           && r.output == st.output + [ModeLine(r.interpret)])
      && (|Words(line)| <= 1 ==> r == st)
  {
  }

  /** `:mode w` selects interpret mode exactly when `w` is `interpret` in any case; any other word selects compile mode. */
  lemma ModeSwitch(st: State, w: string, run: string -> seq<string>)
    requires w != [] && ' ' !in w
    ensures Submit(st, ":mode " + w, run) ==
      st.(interpret := EqualsIgnoreCase(w, "interpret"), output := st.output + [ModeLine(EqualsIgnoreCase(w, "interpret"))])
  {
    var line := ":mode " + w;
    assert line[..5] == ":mode";
    WordsSeparated(":mode", w);
    assert line == ":mode" + " " + w;
    WordsOfWord(":mode");
    WordsOfWord(w);
  }

  /** `:mode` alone changes nothing. */
  lemma ModeAlone(st: State, run: string -> seq<string>)
    ensures Submit(st, ":mode", run) == st
  {
    WordsOfWord(":mode");
  }

  /** A lexing or parsing error writes one `ERROR:` line and changes neither mode, environment nor buffer. */
  lemma FrontEndError(st: State, line: string, run: string -> seq<string>)
    requires !IsModeCommand(line) && FrontEnd(line).Failure?
    ensures Submit(st, line, run) == st.(output := st.output + [ErrorLine(FrontEnd(line).error)])
  {
  }

  /**
    Interpret mode never touches the buffer: the environment is the one the
    block's run leaves, with the effects of statements before a failure kept.
  */
  lemma InterpretStep(st: State, line: string, run: string -> seq<string>)
    requires st.interpret && !IsModeCommand(line) && FrontEnd(line).Success?
    ensures var r := Submit(st, line, run);
      var t := Evaluation.Run(st.env, FrontEnd(line).value.statements);
      && r.interpret && r.code == st.code && r.env == t.env
      && r.output == st.output + Values(t.printed) + FailureLines(t.failure)
  {
  }

  /**
    Compile mode never touches the environment: the buffer becomes the old
    buffer followed by exactly the new block's statement lines, and the program
    the collaborator gets is the whole new buffer, wrapped.
  */
  lemma CompileStep(st: State, line: string, run: string -> seq<string>)
    requires !st.interpret && !IsModeCommand(line) && FrontEnd(line).Success?
    ensures var r := Submit(st, line, run);
      var block := FrontEnd(line).value;
      && CodeGen.StatementLines(block.statements).Success?
      && !r.interpret && r.env == st.env
      && r.code == st.code + CodeGen.StatementLines(block.statements).value
      && r.output == st.output + ProgramLines(run(FullCode(r.code)))
  {
    var block := FrontEnd(line).value;
    CodeGen.GenerateSplits(block);
    var pieces := Split(CodeGen.GenerateText(block).value);
    SkipBothEnds(pieces);
  }

  /**
    The lines are in the buffer before the collaborator runs, so what the
    buffer becomes does not depend on what running it does.
  */
  lemma BufferIndependentOfRun(st: State, line: string, run1: string -> seq<string>, run2: string -> seq<string>)
    ensures Submit(st, line, run1).code == Submit(st, line, run2).code
  {
  }

  /**
    Cumulative replay: the program handed to the collaborator has, line by line,
    the wrapper head, every line the buffer holds (from every earlier submission)
    and the wrapper tail. An empty buffer joins to the empty string, so the
    program then has one blank line between head and tail.
  */
  lemma FullCodeLines(code: seq<string>)
    requires AllNoNewline(code)
    ensures Split(FullCode(code)) == WrapperHead + (if code == [] then [""] else code) + WrapperTail
  {
    var tail := WrapperTail[0] + "\n" + WrapperTail[1];
    WrapperNoNewline();
    SplitAt(WrapperTail[0], WrapperTail[1]);
    SplitSingle(WrapperTail[1]);
    if code == [] {
      assert Join(code) == "";
      SplitAt("", tail);
    } else {
      SplitJoinThen(code, tail);
    }
    SplitThreeLines(WrapperHead[0], WrapperHead[1], WrapperHead[2], Join(code) + "\n" + tail);
    AppendAssoc(WrapperHead, if code == [] then [""] else code, WrapperTail);
  }

  lemma WrapperNoNewline()
    ensures NoNewline(WrapperHead[0]) && NoNewline(WrapperHead[1]) && NoNewline(WrapperHead[2])
    ensures NoNewline(WrapperTail[0]) && NoNewline(WrapperTail[1])
    ensures WrapperHead == [WrapperHead[0], WrapperHead[1], WrapperHead[2]]
    ensures WrapperTail == [WrapperTail[0], WrapperTail[1]]
  {
  }

  lemma SplitThreeLines(a: string, b: string, c: string, rest: string)
    requires NoNewline(a) && NoNewline(b) && NoNewline(c)
    ensures Split(a + "\n" + (b + "\n" + (c + "\n" + rest))) == [a, b, c] + Split(rest)
  {
    SplitAt(c, rest);
    SplitAt(b, c + "\n" + rest);
    SplitAt(a, b + "\n" + (c + "\n" + rest));
  }

  lemma AppendAssoc<T>(a: seq<T>, b: seq<T>, c: seq<T>)
    ensures a + (b + c) == a + b + c
  {
  }

  /** An empty line in compile mode appends nothing and runs the whole buffer again. */
  lemma EmptySubmissionReplays(st: State, run: string -> seq<string>)
    requires !st.interpret
    ensures Submit(st, "", run) == st.(output := st.output + ProgramLines(run(FullCode(st.code))))
  {
    assert Lexing.Tokens("") == Success([Token(EOF, "")]);
    assert FrontEnd("") == Success(BlockStmt([]));
    CompileStep(st, "", run);
  }

  /** The session ends at an exit line: nothing after it is read. */
  lemma {:induction false} ExitEndsSession(st: State, before: seq<Option<string>>, exit: Option<string>, after: seq<Option<string>>, run: string -> seq<string>)
    requires IsExit(exit)
    ensures Steps(st, before + [exit] + after, run) == Steps(st, before, run)
    decreases |before|
  {
    var all := before + [exit] + after;
    if before == [] {
      assert all[0] == exit;
    } else {
      assert all[0] == before[0] && all[1..] == before[1..] + [exit] + after;
      if !IsExit(before[0]) {
        ExitEndsSession(Submit(st, before[0].value, run), before[1..], exit, after, run);
      }
    }
  }

  // ---- the loop of Program.cs ----

  /** The state Program.cs keeps in local variables across iterations of its loop. */
  class Session {
    var interpret: bool
    const evaluator: Evaluation.Evaluator
    var code: seq<string>
    var output: seq<Line>

    function Snapshot(): State
      reads this, evaluator
    {
      State(interpret, evaluator.env, code, output)
    }

    constructor()
      ensures Snapshot() == Init && fresh(evaluator)
    {
      interpret := true;
      evaluator := new Evaluation.Evaluator();
      code := [];
      output := [];
    }

    /** One iteration of the loop: `quit` is the `break` of Program.cs:16. */
    method Step(input: Option<string>, run: string -> seq<string>) returns (quit: bool)
      modifies this, evaluator
      ensures quit == IsExit(input)
      ensures quit ==> Snapshot() == old(Snapshot())
      ensures !quit ==> Snapshot() == Submit(old(Snapshot()), input.value, run)
    {
      if IsExit(input) {
        return true;
      }
      quit := false;
      var line := input.value;
      if IsModeCommand(line) {
        var parts := Words(line);
        if |parts| > 1 {
          interpret := EqualsIgnoreCase(parts[1], "interpret");
          output := output + [ModeLine(interpret)];
        }
        return;
      }
      var tokens := Lexing.Tokenize(line);
      if tokens.Failure? {
        output := output + [ErrorLine(tokens.error)];
        return;
      }
      var parser := new Parsing.Parser(tokens.value);
      var block := parser.Parse();
      if block.Failure? {
        output := output + [ErrorLine(block.error)];
        return;
      }
      if interpret {
        var printed, failure := evaluator.Execute(block.value);
        output := output + Values(printed) + FailureLines(failure);
      } else {
        var text := CodeGen.Generate(block.value);
        if text.Failure? {
          output := output + [ErrorLine(text.error)];
          return;
        }
        code := code + NewLines(text.value);
        var fullCode := FullCode(code);
        output := output + ProgramLines(run(fullCode));
      }
    }

    /** Program.cs:10-68: lines are read and submitted until an exit line or the end of the input. */
    method Loop(inputs: seq<Option<string>>, run: string -> seq<string>)
      modifies this, evaluator
      ensures Snapshot() == Steps(old(Snapshot()), inputs, run)
    {
      var i := 0;
      while i < |inputs|
        invariant 0 <= i <= |inputs|
        invariant Steps(old(Snapshot()), inputs, run) == Steps(Snapshot(), inputs[i..], run)
      {
        assert inputs[i..][0] == inputs[i] && inputs[i..][1..] == inputs[i + 1..];
        var quit := Step(inputs[i], run);
        if quit {
          return;
        }
        i := i + 1;
      }
    }
  }
}
