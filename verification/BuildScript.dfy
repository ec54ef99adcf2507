/**
  The build script (pysdk/agent_envs/binary_builder.py): the quoted names are put into an
  indented text, and the whole text is dedented afterwards, the inside of the quotes included.
*/
module BuildScript {
  import opened Prelude
  import opened ShellQuote
  import opened Dedent

  // ---- The compile command ----

  /** The words before the file names, and the one after them. */
  const OPTIONS: seq<string> := ["g++", "-O2", "-o", "solution"]
  const STANDARD: string := "-std=c++17"

  function Leading(words: seq<string>): string {
    if words == [] then "" else words[0] + (" " + Leading(words[1..]))
  }

  /** The compile command up to its redirection: `g++ -O2 -o solution <files> -std=c++17`. */
  function CompileCommand(wide: char -> bool, sources: seq<string>): string {
    Leading(OPTIONS) + (JoinQuoted(wide, sources) + (" " + STANDARD))
  }

  predicate OrdinaryWord(w: string) {
    w != "" && forall c | c in w :: Ordinary(c)
  }

  lemma OptionsAreOrdinary()
    ensures forall w | w in OPTIONS :: OrdinaryWord(w)
    ensures OrdinaryWord(STANDARD)
  {}

  lemma WordEnds(w: string, rest: string, done: seq<string>)
    requires OrdinaryWord(w)
    ensures Lex(w + (" " + rest), Plain, None, done) == Lex(rest, Plain, None, done + [w])
    ensures Lex(w, Plain, None, done) == Some(done + [w])
  {
    hide Lex, Ordinary, Grown;
    OrdinaryRun(w, " " + rest, None, done);
    OrdinaryRun(w, "", None, done);
    GrownTwice(None, w, "");
    SpaceEnds(rest, w, done);
    AtEnd(w, done);
    assert w + "" == w;
  }

  lemma {:induction false} LeadingWords(words: seq<string>, rest: string, done: seq<string>)
    requires forall w | w in words :: OrdinaryWord(w)
    ensures Lex(Leading(words) + rest, Plain, None, done) == Lex(rest, Plain, None, done + words)
  {
    hide Lex, OrdinaryWord;
    if words == [] {
      assert Leading(words) + rest == rest && done + words == done;
    } else {
      var more := Leading(words[1..]);
      assert Leading(words) + rest == words[0] + (" " + (more + rest));
      WordEnds(words[0], more + rest, done);
      LeadingWords(words[1..], rest, done + [words[0]]);
      assert done + [words[0]] + words[1..] == done + words;
    }
  }

  lemma FilesThenLast(wide: char -> bool, sources: seq<string>, last: string, done: seq<string>)
    requires OrdinaryWord(last)
    ensures Lex(JoinQuoted(wide, sources) + (" " + last), Plain, None, done)
            == if AllNulFree(sources) then Some(done + sources + [last]) else None
  {
    hide Lex, OrdinaryWord, AllNulFree, Quote;
    if sources == [] {
      NoNames();
      assert JoinQuoted(wide, sources) + (" " + last) == " " + last;
      SpaceEnds(last, "", done);
      WordEnds(last, "", done);
      assert done + sources == done;
    } else {
      hide JoinQuoted;
      var n := |sources| - 1;
      JoinedLex(wide, sources, " " + last, done);
      SpaceEnds(last, sources[n], done + sources[..n]);
      WordEnds(last, "", done + sources[..n] + [sources[n]]);
      assert done + sources[..n] + [sources[n]] == done + sources;
    }
  }

  /** The words of the command are its options with the names between them, or it has no words for a NUL. */
  lemma CommandWords(wide: char -> bool, sources: seq<string>)
    ensures Words(CompileCommand(wide, sources))
            == if AllNulFree(sources) then Some(OPTIONS + sources + [STANDARD]) else None
    ensures AllNulFree(sources) ==>
              Words(CompileCommand(wide, sources)) == Some(["g++", "-O2", "-o", "solution"] + sources + ["-std=c++17"])
  {
    hide Lex, AllNulFree, JoinQuoted, OrdinaryWord, Leading;
    OptionsAreOrdinary();
    LeadingWords(OPTIONS, JoinQuoted(wide, sources) + (" " + STANDARD), []);
    assert [] + OPTIONS == OPTIONS;
    FilesThenLast(wide, sources, STANDARD, OPTIONS);
  }

  // ---- The script ----

  const INDENT: string := "        "
  const BEFORE: seq<string> := ["#!/bin/bash", "set -ex"]
  const CONDITION: string := "if ! "
  const REDIRECTION: string := " 2> compile_errors.txt; then"
  const INNER: string := "    "
  const FAILED: seq<string> := ["echo", "\"Compilation", "failed.", "See", "compile_errors.txt", "for"]
  const SUCCEEDED: seq<string> := ["echo", "\"Compilation", "succeeded.", "Removing"]

  const AFTER: seq<string> :=
    [INNER + (Leading(FAILED) + "details.\""), INNER + "exit 1", "else",
     INNER + (Leading(SUCCEEDED) + "compile_errors.txt\""), INNER + "rm -f compile_errors.txt", "fi"]

  /** What is left of the indentation without the margin. */
  function Cut(m: string): string {
    if |m| <= |INDENT| then INDENT[|m|..] else ""
  }

  /** Lines one below the other, each with the same indentation. */
  function Block(indent: string, lines: seq<string>): string {
    if lines == [] then "" else indent + lines[0] + ("\n" + Block(indent, lines[1..]))
  }

  /** The script with every line of its own indented alike. */
  function Script(indent: string, command: string, end: string): string {
    Block(indent, BEFORE) + (indent + CONDITION + (command + (REDIRECTION + ("\n" + (Block(indent, AFTER) + end)))))
  }

  /** `_cpp_build_sh` */
  function BuildScript(wide: char -> bool, sources: seq<string>): string {
    Dedented(Script(INDENT, CompileCommand(wide, sources), INDENT))
  }

  // ---- What dedenting does to a name ----

  /** A name from the start of one of its lines on. The last line is never blank: the closing quote follows. */
  function NameFromStart(m: string, s: string): string
    decreases |s|
  {
    var l := FirstLine(s);
    if OneLine(s) then (if m <= l then l[|m|..] else l) else Fix(m, l) + ("\n" + NameFromStart(m, NextLines(s)))
  }

  function Redented(m: string, s: string): string {
    if OneLine(s) then s else FirstLine(s) + ("\n" + NameFromStart(m, NextLines(s)))
  }

  function AllRedented(m: string, names: seq<string>): seq<string> {
    if names == [] then [] else [Redented(m, names[0])] + AllRedented(m, names[1..])
  }

  /** The margin after the lines of a name from the start of one of them on. */
  function NameMargin(m: string, s: string): string
    decreases |s|
  {
    var l := FirstLine(s);
    if OneLine(s) then Common(m, Indent(l))
    else NameMargin(if Blank(l) then m else Common(m, Indent(l)), NextLines(s))
  }

  function NamesMargin(m: string, names: seq<string>): string
    decreases |names|
  {
    if names == [] then m
    else NamesMargin(if OneLine(names[0]) then m else NameMargin(m, NextLines(names[0])), names[1..])
  }

  /** The names as they come out of the script. */
  function Arriving(sources: seq<string>): seq<string> {
    AllRedented(NamesMargin(INDENT, sources), sources)
  }

  // ---- Quoted names in the text ----

  lemma {:induction false} EscapeLine(l: string)
    ensures OneLine(Escape(l)) <==> OneLine(l)
    ensures Blank(Escape(l)) <==> Blank(l)
    ensures NUL in Escape(l) <==> NUL in l
    ensures Blank(l) ==> Escape(l) == l
  {
    if l != "" {
      var head := if l[0] == '\'' then ESCAPED_QUOTE else [l[0]];
      EscapeLine(l[1..]);
      assert l == [l[0]] + l[1..] && Escape(l) == head + Escape(l[1..]);
      EscapedChar(l[0]);
    }
  }

  lemma EscapedChar(c: char)
    ensures var head := if c == '\'' then ESCAPED_QUOTE else [c];
            && (OneLine(head) <==> c != '\n') && (Blank(head) <==> IsSpace(c)) && (NUL in head <==> c == NUL)
  {
    if c == '\'' { assert ESCAPED_QUOTE[0] == '\'' && ESCAPED_QUOTE[0] in ESCAPED_QUOTE; }
  }

  lemma {:induction false} BeginsIff(m: string, l: string)
    requires Indentation(m)
    ensures m <= l <==> m <= Indent(l)
  {
    if m != "" && m <= l {
      assert m[0] in m && m[0] == l[0] && forall c | c in m[1..] :: c in m;
      BeginsIff(m[1..], l[1..]);
      assert m == [m[0]] + m[1..];
    }
  }

  lemma BlankIsIndented(i: string)
    requires Indentation(i)
    ensures Blank(i) && Escape(i) == i
  {
    EscapeLine(i);
  }

  lemma QuoteEnds(e: string)
    requires OneLine(e)
    ensures OneLine(e + QUOTE) && !Blank(e + QUOTE)
  {
    var a := e + QUOTE;
    assert a[|e|] == '\'' && a[|e|] in a;
  }

  lemma {:induction false} IndentQuoted(l: string)
    ensures Indent(Escape(l) + QUOTE) == Indent(l)
  {
    var a := Escape(l) + QUOTE;
    if l != "" && (l[0] == ' ' || l[0] == '\t') {
      IndentQuoted(l[1..]);
      assert a[1..] == Escape(l[1..]) + QUOTE;
    } else {
      assert a[0] == if l == "" then '\'' else l[0];
    }
  }

  /** The last line of a name, with the quote that follows it. */
  lemma LastLineQuoted(m: string, l: string)
    requires Indentation(m) && OneLine(l)
    ensures var a := Escape(l) + QUOTE;
            && OneLine(a) && !Blank(a) && Indent(a) == Indent(l)
            && Fix(m, a) == Escape(if m <= l then l[|m|..] else l) + QUOTE
  {
    hide Indent;
    EscapeLine(l);
    QuoteEnds(Escape(l));
    IndentQuoted(l);
    BeginsIff(m, l);
    BeginsIff(m, Escape(l) + QUOTE);
    BlankIsIndented(m);
    hide Escape, OneLine, Blank, Indentation;
    if m <= l {
      var more := l[|m|..];
      EscapeAppend(m, more);
      assert l == m + more;
      Regroup(m, Escape(more), QUOTE);
      assert (m + (Escape(more) + QUOTE))[|m|..] == Escape(more) + QUOTE;
    }
  }

  /** Another line of a name: there is nothing before or after it. */
  lemma InnerLineQuoted(m: string, acc: Option<string>, l: string)
    requires Indentation(m) && OneLine(l)
    ensures OneLine(Escape(l)) && Fix(m, Escape(l)) == Escape(Fix(m, l)) && Narrow(acc, Escape(l)) == Narrow(acc, l)
  {
    EscapeLine(l);
    if !Blank(l) {
      LastLineQuoted(m, l);
      var e := Escape(l);
      IndentOf(e, QUOTE);
      FixOf(m, e, QUOTE);
      assert Fix(m, e) + QUOTE == Escape(Fix(m, l)) + QUOTE;
      assert (Fix(m, e) + QUOTE)[..|Fix(m, e)|] == Fix(m, e);
    }
  }

  lemma Lines(s: string)
    requires !OneLine(s)
    ensures s == FirstLine(s) + ("\n" + NextLines(s))
    ensures Escape(s) == Escape(FirstLine(s)) + ("\n" + Escape(NextLines(s)))
  {
    assert s == FirstLine(s) + ("\n" + NextLines(s));
    EscapeAppend(FirstLine(s), "\n" + NextLines(s));
    EscapeAppend("\n", NextLines(s));
    assert Escape("\n") == "\n" by { EscapeLine("\n"); }
  }

  /** From the start of a line within quotes on: what dedenting the text does is dedenting the name. */
  lemma {:induction false} WithinQuotes(m: string, acc: string, s: string, rest: string)
    requires Indentation(m)
    ensures FromStart(m, Escape(s) + (QUOTE + rest)) == Escape(NameFromStart(m, s)) + (QUOTE + MidLine(m, rest))
    ensures Margin(Some(acc), Escape(s) + (QUOTE + rest)) == MidMargin(Some(NameMargin(acc, s)), rest)
    decreases |s|
  {
    hide FromStart, MidLine, Margin, MidMargin, Escape, Fix, Blank;
    var l := FirstLine(s);
    if OneLine(s) {
      LastLineQuoted(m, s);
      StartOf(m, Some(acc), Escape(s) + QUOTE, rest);
      Regroup(Escape(s), QUOTE, rest);
      Regroup(Escape(NameFromStart(m, s)), QUOTE, MidLine(m, rest));
    } else {
      var t := NextLines(s);
      Lines(s);
      InnerLineQuoted(m, Some(acc), l);
      var more := Escape(t) + (QUOTE + rest);
      LineJoin(Escape(l), Escape(t), QUOTE + rest);
      WholeLine(m, Some(acc), Escape(l), more);
      WithinQuotes(m, if Blank(l) then acc else Common(acc, Indent(l)), t, rest);
      EscapedLines(Fix(m, l), NameFromStart(m, t));
      LineJoin(Escape(Fix(m, l)), Escape(NameFromStart(m, t)), QUOTE + MidLine(m, rest));
    }
  }

  lemma LineJoin(a: string, b: string, c: string)
    ensures a + ("\n" + b) + c == a + ("\n" + (b + c))
  {}

  lemma QuotedLines(a: string, b: string, rest: string)
    ensures QUOTE + (a + ("\n" + b)) + QUOTE + rest == QUOTE + a + ("\n" + (b + (QUOTE + rest)))
  {}

  lemma EscapedLines(a: string, b: string)
    ensures Escape(a + ("\n" + b)) == Escape(a) + ("\n" + Escape(b))
  {
    EscapeAppend(a, "\n" + b);
    EscapeAppend("\n", b);
    assert Escape("\n") == "\n" by { EscapeLine("\n"); }
  }

  lemma QuoteOfLines(wide: char -> bool, s: string)
    ensures !OneLine(s) ==> Quote(wide, s) == QUOTE + Escape(s) + QUOTE
    ensures OneLine(s) ==> OneLine(Quote(wide, s))
  {
    if !OneLine(s) {
      if forall c | c in s :: Safe(wide, c) { SafeIsOrdinary(wide, '\n'); }
    } else {
      EscapeLine(s);
    }
  }

  lemma QuotedText(wide: char -> bool, m: string, acc: string, s: string, rest: string)
    requires Indentation(m)
    ensures MidLine(m, Quote(wide, s) + rest) == Quote(wide, Redented(m, s)) + MidLine(m, rest)
    ensures MidMargin(Some(acc), Quote(wide, s) + rest)
            == MidMargin(Some(if OneLine(s) then acc else NameMargin(acc, NextLines(s))), rest)
  {
    hide FromStart, MidLine, Margin, MidMargin, Escape, Quote, NameFromStart, NameMargin;
    QuoteOfLines(wide, s);
    QuoteOfLines(wide, Redented(m, s));
    if OneLine(s) {
      MidLineOf(m, Some(acc), Quote(wide, s), rest);
    } else {
      var l, t := FirstLine(s), NextLines(s);
      Lines(s);
      EscapeLine(l);
      var more := Escape(t) + (QUOTE + rest);
      QuotedLines(Escape(l), Escape(t), rest);
      assert OneLine(QUOTE + Escape(l));
      MidLineOf(m, Some(acc), QUOTE + Escape(l), "\n" + more);
      MidLineEnds(m, Some(acc), more);
      WithinQuotes(m, acc, t, rest);
      EscapedLines(l, NameFromStart(m, t));
      var r := Redented(m, s);
      assert r[|l|] == '\n' && r[|l|] in r;
      QuotedLines(Escape(l), Escape(NameFromStart(m, t)), MidLine(m, rest));
    }
  }

  lemma {:induction false} JoinedText(wide: char -> bool, m: string, acc: string, names: seq<string>, rest: string)
    requires Indentation(m)
    ensures MidLine(m, JoinQuoted(wide, names) + rest) == JoinQuoted(wide, AllRedented(m, names)) + MidLine(m, rest)
    ensures MidMargin(Some(acc), JoinQuoted(wide, names) + rest) == MidMargin(Some(NamesMargin(acc, names)), rest)
    decreases |names|
  {
    hide FromStart, MidLine, Margin, MidMargin, Quote, NameMargin, Redented;
    if names == [] {
      assert JoinQuoted(wide, names) + rest == rest;
      assert JoinQuoted(wide, AllRedented(m, names)) + MidLine(m, rest) == MidLine(m, rest);
    } else if |names| == 1 {
      QuotedText(wide, m, acc, names[0], rest);
    } else {
      var more := JoinQuoted(wide, names[1..]) + rest;
      assert JoinQuoted(wide, names) + rest == Quote(wide, names[0]) + (" " + more);
      QuotedText(wide, m, acc, names[0], " " + more);
      var now := if OneLine(names[0]) then acc else NameMargin(acc, NextLines(names[0]));
      MidLineOf(m, Some(now), " ", more);
      JoinedText(wide, m, now, names[1..], rest);
      var out := AllRedented(m, names);
      assert out[1..] == AllRedented(m, names[1..]) && |out| > 1 by { RedentedLength(m, names); RedentedLength(m, names[1..]); }
      assert JoinQuoted(wide, out) + MidLine(m, rest)
             == Quote(wide, out[0]) + (" " + (JoinQuoted(wide, out[1..]) + MidLine(m, rest)));
    }
  }

  lemma {:induction false} RedentedLength(m: string, names: seq<string>)
    ensures |AllRedented(m, names)| == |names|
    ensures forall k :: 0 <= k < |names| ==> AllRedented(m, names)[k] == Redented(m, names[k])
  {
    if names != [] { RedentedLength(m, names[1..]); }
  }

  // ---- The script's own lines ----

  predicate TextLine(l: string) {
    OneLine(l) && !Blank(l)
  }

  lemma {:induction false} IndentedLine(m: string, indent: string, l: string)
    requires Indentation(indent) && m <= indent && TextLine(l)
    ensures OneLine(indent + l) && !Blank(indent + l) && Fix(m, indent + l) == indent[|m|..] + l
    ensures indent <= Indent(indent + l)
  {
    var i :| 0 <= i < |l| && !IsSpace(l[i]);
    assert (indent + l)[|indent| + i] == l[i];
    BeginsIff(indent, indent + l);
    assert m <= indent + l;
  }

  lemma CommonWithin(m: string, i: string)
    requires m <= i
    ensures Common(m, i) == m
  {
    CommonIsLongest(m, i, m);
  }

  lemma {:induction false} BlockText(m: string, acc: string, indent: string, lines: seq<string>, rest: string)
    requires Indentation(indent) && m <= indent && acc <= indent && forall l | l in lines :: TextLine(l)
    ensures FromStart(m, Block(indent, lines) + rest) == Block(indent[|m|..], lines) + FromStart(m, rest)
    ensures Margin(Some(acc), Block(indent, lines) + rest) == Margin(Some(acc), rest)
    decreases |lines|
  {
    hide FromStart, Margin, Indent, Common, Blank, OneLine, Fix;
    if lines == [] {
      assert Block(indent, lines) + rest == rest;
      assert Block(indent[|m|..], lines) + FromStart(m, rest) == FromStart(m, rest);
    } else {
      var l := indent + lines[0];
      var more := Block(indent, lines[1..]) + rest;
      assert Block(indent, lines) + rest == l + ("\n" + more);
      IndentedLine(m, indent, lines[0]);
      WholeLine(m, Some(acc), l, more);
      CommonWithin(acc, Indent(l));
      BlockText(m, acc, indent, lines[1..], rest);
      var cut := indent[|m|..];
      assert Block(cut, lines) + FromStart(m, rest)
             == cut + lines[0] + ("\n" + (Block(cut, lines[1..]) + FromStart(m, rest)));
    }
  }

  lemma TextLineOf(l: string)
    requires l != "" && !IsSpace(l[0]) && OneLine(l)
    ensures TextLine(l) && TextLine(INNER + l)
  {
    assert l[0] in l;
    assert (INNER + l)[|INNER|] == l[0] && l[0] in INNER + l;
    assert OneLine(INNER);
  }

  lemma TemplateLines()
    ensures forall l | l in BEFORE :: TextLine(l)
    ensures TextLine(CONDITION) && OneLine(REDIRECTION)
    ensures Indentation(INDENT) && Indent(INDENT + BEFORE[0]) == INDENT
  {
    hide TextLine, Indent;
    TextLineOf(BEFORE[0]);
    TextLineOf(BEFORE[1]);
    TextLineOf(CONDITION);
    FlushLine(BEFORE[0]);
  }

  lemma FlushLine(l: string)
    requires TextLine(l) && l[0] != ' ' && l[0] != '\t'
    ensures Indent(INDENT + l) == INDENT
  {
    IndentIs(INDENT, l);
  }

  lemma {:induction false} IndentIs(i: string, z: string)
    requires Indentation(i) && z != "" && z[0] != ' ' && z[0] != '\t'
    ensures Indent(i + z) == i
  {
    if i == "" {
      assert i + z == z;
    } else {
      assert (i + z)[1..] == i[1..] + z && i == [i[0]] + i[1..] && i[0] in i;
      assert forall c | c in i[1..] :: c in i;
      IndentIs(i[1..], z);
    }
  }

  lemma EchoLine(words: seq<string>, last: string)
    requires words != [] && words[0] == "echo" && forall w | w in words :: OneLine(w)
    requires OneLine(last)
    ensures TextLine(Leading(words) + last) && TextLine(INNER + (Leading(words) + last))
  {
    LeadingOneLine(words);
    var l := Leading(words) + last;
    assert l[0] == 'e';
    hide TextLine;
    TextLineOf(l);
  }

  lemma FailedWords()
    ensures forall w | w in FAILED :: OneLine(w)
  {
    assert OneLine("echo") && OneLine("\"Compilation") && OneLine("failed.") && OneLine("See");
    assert OneLine("compile_errors.txt") && OneLine("for");
    hide OneLine;
  }

  lemma SucceededWords()
    ensures forall w | w in SUCCEEDED :: OneLine(w)
  {
    assert OneLine("echo") && OneLine("\"Compilation") && OneLine("succeeded.") && OneLine("Removing");
    hide OneLine;
  }

  lemma OtherLines()
    ensures TextLine(INNER + "exit 1") && TextLine("else") && TextLine(INNER + "rm -f compile_errors.txt") && TextLine("fi")
    ensures OneLine("details.\"") && OneLine("compile_errors.txt\"")
  {
    hide TextLine;
    TextLineOf("exit 1");
    TextLineOf("else");
    TextLineOf("rm -f compile_errors.txt");
    TextLineOf("fi");
  }

  lemma TemplateTail()
    ensures forall l | l in AFTER :: TextLine(l)
  {
    hide TextLine, Leading, OneLine;
    FailedWords();
    SucceededWords();
    OtherLines();
    EchoLine(FAILED, "details.\"");
    EchoLine(SUCCEEDED, "compile_errors.txt\"");
  }

  lemma {:induction false} NamesMarginShrinks(m: string, names: seq<string>)
    ensures NamesMargin(m, names) <= m
    decreases |names|
  {
    if names != [] {
      if !OneLine(names[0]) { NameMarginShrinks(m, NextLines(names[0])); }
      NamesMarginShrinks(if OneLine(names[0]) then m else NameMargin(m, NextLines(names[0])), names[1..]);
    }
  }

  lemma {:induction false} NameMarginShrinks(m: string, s: string)
    ensures NameMargin(m, s) <= m
    decreases |s|
  {
    if !OneLine(s) {
      NameMarginShrinks(if Blank(FirstLine(s)) then m else Common(m, Indent(FirstLine(s))), NextLines(s));
    }
  }

  lemma {:induction false} LeadingOneLine(words: seq<string>)
    requires forall w | w in words :: OneLine(w)
    ensures OneLine(Leading(words))
  {
    if words != [] {
      LeadingOneLine(words[1..]);
      assert OneLine(words[0]) && OneLine(" ");
    }
  }

  lemma OptionsOneLine()
    ensures OneLine(Leading(OPTIONS)) && OneLine(" " + STANDARD)
  {
    OptionsAreOrdinary();
    forall w | w in OPTIONS ensures OneLine(w) { assert OrdinaryWord(w) && !Ordinary('\n'); }
    LeadingOneLine(OPTIONS);
    assert OrdinaryWord(STANDARD) && !Ordinary('\n');
  }

  // ---- The script, dedented ----

  lemma CommandText(wide: char -> bool, m: string, acc: string, sources: seq<string>, rest: string)
    requires Indentation(m)
    ensures MidLine(m, CompileCommand(wide, sources) + rest)
            == CompileCommand(wide, AllRedented(m, sources)) + MidLine(m, rest)
    ensures MidMargin(Some(acc), CompileCommand(wide, sources) + rest) == MidMargin(Some(NamesMargin(acc, sources)), rest)
  {
    OptionsOneLine();
    hide MidLine, MidMargin, JoinQuoted, AllRedented, NamesMargin, Leading, OneLine;
    var last := " " + STANDARD;
    var more := JoinQuoted(wide, sources) + (last + rest);
    assert CompileCommand(wide, sources) + rest == Leading(OPTIONS) + more;
    MidLineOf(m, Some(acc), Leading(OPTIONS), more);
    JoinedText(wide, m, acc, sources, last + rest);
    MidLineOf(m, Some(NamesMargin(acc, sources)), last, rest);
    assert Leading(OPTIONS) + (JoinQuoted(wide, AllRedented(m, sources)) + (last + MidLine(m, rest)))
           == CompileCommand(wide, AllRedented(m, sources)) + MidLine(m, rest);
  }

  /** The end of the script: its margin is never smaller than what the names have left. */
  lemma TailText(m: string, acc: string)
    requires m <= INDENT && acc <= INDENT
    ensures var tail := REDIRECTION + ("\n" + (Block(INDENT, AFTER) + INDENT));
            && MidLine(m, tail) == REDIRECTION + ("\n" + (Block(Cut(m), AFTER) + ""))
            && MidMargin(Some(acc), tail) == Some(acc)
  {
    TemplateLines();
    TemplateTail();
    WithinIndent(m);
    assert OneLine(INDENT) && Blank(INDENT);
    hide MidLine, MidMargin, Block, OneLine, TextLine;
    var after := Block(INDENT, AFTER) + INDENT;
    MidLineOf(m, Some(acc), REDIRECTION, "\n" + after);
    MidLineEnds(m, Some(acc), after);
    BlockText(m, acc, INDENT, AFTER, INDENT);
    LastLine(m, Some(acc), INDENT);
  }

  /** The first block sets the margin to its indentation. */
  lemma FirstBlock(indent: string, lines: seq<string>, rest: string)
    requires Indentation(indent) && lines != [] && forall l | l in lines :: TextLine(l)
    requires Indent(indent + lines[0]) == indent
    ensures Margin(None, Block(indent, lines) + rest) == Margin(Some(indent), rest)
  {
    hide Margin, OneLine, TextLine, Indent, Fix, FromStart, Indentation;
    var first, more := indent + lines[0], Block(indent, lines[1..]) + rest;
    assert Block(indent, lines) + rest == first + ("\n" + more);
    IndentedLine("", indent, lines[0]);
    WholeLine("", None, first, more);
    assert forall l | l in lines[1..] :: l in lines;
    BlockText("", indent, indent, lines[1..], rest);
  }

  lemma HeadText(m: string, rest: string)
    requires m <= INDENT
    ensures FromStart(m, Block(INDENT, BEFORE) + (INDENT + CONDITION + rest))
            == Block(Cut(m), BEFORE) + (Cut(m) + CONDITION + MidLine(m, rest))
    ensures Margin(None, Block(INDENT, BEFORE) + (INDENT + CONDITION + rest)) == MidMargin(Some(INDENT), rest)
  {
    TemplateLines();
    WithinIndent(m);
    hide FromStart, Margin, MidLine, MidMargin, OneLine, TextLine, Indent, Fix, Block, Blank, Common, Indentation;
    BlockText(m, m, INDENT, BEFORE, INDENT + CONDITION + rest);
    FirstBlock(INDENT, BEFORE, INDENT + CONDITION + rest);
    IndentedLine(m, INDENT, CONDITION);
    StartOf(m, Some(INDENT), INDENT + CONDITION, rest);
    CommonWithin(INDENT, Indent(INDENT + CONDITION));
  }

  lemma WithinIndent(m: string)
    requires m <= INDENT
    ensures Indentation(m) && Cut(m) == INDENT[|m|..]
  {
    TemplateLines();
    forall c | c in m ensures c in INDENT {}
  }

  lemma MarginFits(sources: seq<string>)
    ensures NamesMargin(INDENT, sources) <= INDENT && Indentation(NamesMargin(INDENT, sources))
  {
    NamesMarginShrinks(INDENT, sources);
    WithinIndent(NamesMargin(INDENT, sources));
  }

  /** The whole script comes out with its own lines and the command for the arriving names. */
  lemma ScriptText(wide: char -> bool, sources: seq<string>)
    ensures BuildScript(wide, sources)
            == Script(Cut(NamesMargin(INDENT, sources)), CompileCommand(wide, Arriving(sources)), "")
  {
    MarginFits(sources);
    hide FromStart, Margin, MidLine, MidMargin, NamesMargin, CompileCommand, Block, OneLine, Blank, Indentation;
    var m := NamesMargin(INDENT, sources);
    var tail := REDIRECTION + ("\n" + (Block(INDENT, AFTER) + INDENT));
    var command := CompileCommand(wide, sources);
    HeadText(m, command + tail);
    CommandText(wide, m, INDENT, sources, tail);
    TailText(m, m);
  }

  // ---- Which names arrive as they are ----

  /** Some line of the name after its first begins with something else than a blank, and is not only white space. */
  predicate FlushFrom(s: string)
    decreases |s|
  {
    var l := FirstLine(s);
    if OneLine(s) then l == "" || l[0] != ' ' else (!Blank(l) && l[0] != ' ') || FlushFrom(NextLines(s))
  }

  predicate Flush(s: string) {
    !OneLine(s) && FlushFrom(NextLines(s))
  }

  /** Some line of the name, between its first and its last, is white space but not empty. */
  predicate WhiteFrom(s: string)
    decreases |s|
  {
    !OneLine(s) && ((FirstLine(s) != "" && Blank(FirstLine(s))) || WhiteFrom(NextLines(s)))
  }

  predicate White(s: string) {
    !OneLine(s) && WhiteFrom(NextLines(s))
  }

  /**
    No name has a second line; or one has a further line without a leading blank, which leaves
    no margin to take off, and none has an inner line of white space.
  */
  predicate KeepsLines(sources: seq<string>) {
    || (forall s | s in sources :: OneLine(s))
    || ((exists s | s in sources :: Flush(s)) && forall s | s in sources :: !White(s))
  }

  lemma SameTail(l: string, a: string, b: string)
    ensures l + ("\n" + a) == l + ("\n" + b) <==> a == b
  {
    if l + ("\n" + a) == l + ("\n" + b) {
      assert a == (l + ("\n" + a))[|l| + 1..] && b == (l + ("\n" + b))[|l| + 1..];
    }
  }

  lemma SameLines(l: string, fixed: string, a: string, b: string)
    requires fixed == l || fixed == ""
    requires |a| <= |b|
    ensures fixed + ("\n" + a) == l + ("\n" + b) <==> fixed == l && a == b
    ensures |fixed + ("\n" + a)| <= |l + ("\n" + b)|
  {
    SameTail(l, a, b);
  }

  lemma Unmargined(s: string)
    ensures OneLine(s) ==> NameFromStart("", s) == s
    ensures !OneLine(s) ==>
              var l := FirstLine(s);
              NameFromStart("", s) == (if Blank(l) then "" else l) + ("\n" + NameFromStart("", NextLines(s)))
  {
    hide Blank, FirstLine, NextLines, OneLine;
    var l := FirstLine(s);
    assert l[0..] == l && s[0..] == s;
    if OneLine(s) { LineIsWhole(s); }
  }

  lemma LineIsWhole(s: string)
    requires OneLine(s)
    ensures FirstLine(s) == s
  {}

  lemma {:induction false} WithoutMargin(s: string)
    ensures NameFromStart("", s) == s <==> !WhiteFrom(s)
    ensures |NameFromStart("", s)| <= |s|
    decreases |s|
  {
    Unmargined(s);
    hide NameFromStart;
    if !OneLine(s) {
      var l, t := FirstLine(s), NextLines(s);
      WithoutMargin(t);
      assert s == l + ("\n" + t);
      assert Blank("");
      hide FirstLine, NextLines, OneLine, Blank;
      SameLines(l, if Blank(l) then "" else l, NameFromStart("", t), t);
    }
  }

  lemma FixShorter(m: string, l: string)
    ensures |Fix(m, l)| <= |l|
  {}

  /** With a margin that the lines of the name have left, its last line at least gets shorter. */
  lemma {:induction false} WithMargin(m: string, acc: string, s: string)
    requires m <= NameMargin(acc, s) && Indentation(m)
    ensures |NameFromStart(m, s)| + |m| <= |s|
    decreases |s|
  {
    hide Fix, Blank, Indentation;
    var l := FirstLine(s);
    if OneLine(s) {
      assert m <= Indent(l) <= l && l == s;
    } else {
      assert |s| == |l| + 1 + |NextLines(s)|;
      WithMargin(m, if Blank(l) then acc else Common(acc, Indent(l)), NextLines(s));
      FixShorter(m, l);
    }
  }

  /** The margin is gone exactly when some line begins flush. */
  lemma {:induction false} MarginLeft(acc: string, s: string)
    requires acc == "" || acc[0] == ' '
    ensures NameMargin(acc, s) == "" <==> acc == "" || FlushFrom(s)
    ensures NameMargin(acc, s) == "" || NameMargin(acc, s)[0] == ' '
    decreases |s|
  {
    var l := FirstLine(s);
    FirstOfCommon(acc, l);
    if !OneLine(s) {
      MarginLeft(if Blank(l) then acc else Common(acc, Indent(l)), NextLines(s));
    }
  }

  lemma FirstOfCommon(acc: string, l: string)
    requires acc == "" || acc[0] == ' '
    ensures Common(acc, Indent(l)) == "" <==> acc == "" || l == "" || l[0] != ' '
    ensures Common(acc, Indent(l)) == "" || Common(acc, Indent(l))[0] == ' '
  {}

  lemma {:induction false} NamesMarginLeft(acc: string, names: seq<string>)
    requires acc == "" || acc[0] == ' '
    ensures NamesMargin(acc, names) == "" <==> acc == "" || exists s | s in names :: Flush(s)
    ensures NamesMargin(acc, names) == "" || NamesMargin(acc, names)[0] == ' '
    decreases |names|
  {
    hide FlushFrom, NameMargin, OneLine;
    if names != [] {
      if !OneLine(names[0]) { MarginLeft(acc, NextLines(names[0])); }
      NamesMarginLeft(if OneLine(names[0]) then acc else NameMargin(acc, NextLines(names[0])), names[1..]);
      assert names[0] in names && forall s :: s in names <==> s == names[0] || s in names[1..];
    }
  }

  /** Every name with a second line loses the margin somewhere. */
  lemma {:induction false} NamesLose(acc: string, names: seq<string>, m: string, k: nat)
    requires m <= NamesMargin(acc, names) && Indentation(m) && k < |names| && !OneLine(names[k])
    ensures |Redented(m, names[k])| + |m| <= |names[k]|
    decreases |names|
  {
    hide NameFromStart, NameMargin, OneLine;
    var now := if OneLine(names[0]) then acc else NameMargin(acc, NextLines(names[0]));
    if k == 0 {
      NamesMarginShrinks(now, names[1..]);
      WithMargin(m, acc, NextLines(names[0]));
      assert names[0] == FirstLine(names[0]) + ("\n" + NextLines(names[0]));
    } else {
      NamesLose(now, names[1..], m, k - 1);
    }
  }

  lemma RedentedWithoutMargin(s: string)
    ensures Redented("", s) == s <==> !White(s)
  {
    hide NameFromStart, WhiteFrom;
    if !OneLine(s) {
      var l, t := FirstLine(s), NextLines(s);
      WithoutMargin(t);
      assert s == l + ("\n" + t);
      hide FirstLine, NextLines, OneLine;
      SameTail(l, NameFromStart("", t), t);
    }
  }

  /** The names arrive as they are iff their lines are kept. */
  lemma ArrivingIff(sources: seq<string>)
    ensures Arriving(sources) == sources <==> KeepsLines(sources)
  {
    hide Redented, NamesMargin, Flush, White, OneLine, Indentation;
    var m := NamesMargin(INDENT, sources);
    MarginFits(sources);
    NamesMarginLeft(INDENT, sources);
    RedentedLength(m, sources);
    if m == "" {
      forall k | 0 <= k < |sources| ensures Arriving(sources)[k] == sources[k] <==> !White(sources[k]) {
        RedentedWithoutMargin(sources[k]);
      }
      if Arriving(sources) == sources {
        forall s | s in sources ensures !White(s) {
          var k :| 0 <= k < |sources| && sources[k] == s;
          assert Arriving(sources)[k] == sources[k];
        }
      }
      if KeepsLines(sources) {
        forall k | 0 <= k < |sources| ensures Arriving(sources)[k] == sources[k] {
          OneLineIsNotWhite(sources[k]);
          assert sources[k] in sources;
        }
      }
    } else {
      forall k | 0 <= k < |sources| ensures Arriving(sources)[k] == sources[k] <==> OneLine(sources[k]) {
        if OneLine(sources[k]) { OneLineIsKept(m, sources[k]); } else { NamesLose(INDENT, sources, m, k); }
      }
      if Arriving(sources) == sources {
        forall s | s in sources ensures OneLine(s) {
          var k :| 0 <= k < |sources| && sources[k] == s;
          assert Arriving(sources)[k] == sources[k];
        }
      }
      if KeepsLines(sources) {
        forall k | 0 <= k < |sources| ensures Arriving(sources)[k] == sources[k] { assert sources[k] in sources; }
      }
    }
  }

  lemma OneLineIsNotWhite(s: string)
    ensures OneLine(s) ==> !White(s)
  {}

  lemma OneLineIsKept(m: string, s: string)
    ensures OneLine(s) ==> Redented(m, s) == s
  {}

  // ---- What the compiler gets ----

  lemma {:induction false} NulStays(m: string, s: string)
    requires Indentation(m)
    ensures NUL in NameFromStart(m, s) <==> NUL in s
    decreases |s|
  {
    NulInFix(m, FirstLine(s));
    if !OneLine(s) {
      assert s == FirstLine(s) + ("\n" + NextLines(s));
      NulStays(m, NextLines(s));
    }
  }

  lemma NulInFix(m: string, l: string)
    requires Indentation(m)
    ensures NUL in Fix(m, l) <==> NUL in l
    ensures m <= l ==> (NUL in l[|m|..] <==> NUL in l)
  {
    if m <= l { assert l == m + l[|m|..]; }
  }

  lemma ArrivingNulFree(sources: seq<string>)
    ensures AllNulFree(Arriving(sources)) <==> AllNulFree(sources)
  {
    var m := NamesMargin(INDENT, sources);
    MarginFits(sources);
    RedentedLength(m, sources);
    forall k | 0 <= k < |sources| ensures NulFree(Arriving(sources)[k]) <==> NulFree(sources[k]) {
      NulInRedented(m, sources[k]);
    }
    hide NulFree, Arriving;
    forall s | s in Arriving(sources) ensures exists k :: 0 <= k < |sources| && Arriving(sources)[k] == s {}
    forall s | s in sources ensures exists k :: 0 <= k < |sources| && sources[k] == s {}
  }

  lemma NulInRedented(m: string, s: string)
    requires Indentation(m)
    ensures NulFree(Redented(m, s)) <==> NulFree(s)
  {
    if !OneLine(s) {
      assert s == FirstLine(s) + ("\n" + NextLines(s));
      NulStays(m, NextLines(s));
    }
  }

  /**
    The compiler is called with its options and the arriving names between them. Those are the
    names that were asked for iff no name has a NUL and all of them keep their lines.
  */
  lemma CompilerGetsTheFiles(wide: char -> bool, sources: seq<string>)
    ensures BuildScript(wide, sources)
            == Script(Cut(NamesMargin(INDENT, sources)), CompileCommand(wide, Arriving(sources)), "")
    ensures AllNulFree(sources) ==>
              Words(CompileCommand(wide, Arriving(sources))) == Some(OPTIONS + Arriving(sources) + [STANDARD])
    ensures Words(CompileCommand(wide, Arriving(sources))) == Some(OPTIONS + sources + [STANDARD])
            <==> AllNulFree(sources) && KeepsLines(sources)
  {
    hide AllNulFree, Words, CompileCommand, Arriving, KeepsLines, Script, NamesMargin, BuildScript;
    ScriptText(wide, sources);
    ArrivingIff(sources);
    ArrivingNulFree(sources);
    CommandWords(wide, Arriving(sources));
    SameBetween(OPTIONS, Arriving(sources), sources, [STANDARD]);
  }

  lemma SameBetween(a: seq<string>, x: seq<string>, y: seq<string>, b: seq<string>)
    ensures a + x + b == a + y + b <==> x == y
  {
    if a + x + b == a + y + b {
      assert |x| == |y|;
      assert x == (a + x + b)[|a|..|a| + |x|] && y == (a + y + b)[|a|..|a| + |y|];
    }
  }

  lemma TwoLines(first: string, second: string)
    requires OneLine(first)
    ensures var name := first + ("\n" + second); !OneLine(name) && FirstLine(name) == first && NextLines(name) == second
  {
    LineOf(first, "\n" + second);
    LineEnds(second);
    assert first + "" == first;
  }

  /** A name whose second line is indented as the script is comes out without that indentation. */
  lemma IndentedLineIsLost(first: string, second: string)
    requires OneLine(first) && OneLine(second)
    ensures Arriving([first + ("\n" + (INDENT + second))]) == [first + ("\n" + second)]
  {
    var t := INDENT + second;
    var name := first + ("\n" + t);
    TwoLines(first, t);
    WithinIndent(INDENT);
    assert OneLine(t) && t[|INDENT|..] == second && INDENT <= t;
    BeginsIff(INDENT, t);
    CommonWithin(INDENT, Indent(t));
    hide FirstLine, NextLines, OneLine, Indent, Common, Indentation;
    assert NameMargin(INDENT, t) == INDENT && NameFromStart(INDENT, t) == second;
    hide NameMargin, NameFromStart;
    assert NamesMargin(INDENT, [name]) == INDENT;
    assert Redented(INDENT, name) == first + ("\n" + second);
    RedentedLength(INDENT, [name]);
  }

  /** The compiler is asked for another file than the one there is. */
  lemma NameThatDoesNotArrive()
    ensures Arriving(["a" + ("\n" + ("        " + "b.cpp"))]) == ["a" + ("\n" + "b.cpp")]
    ensures !KeepsLines(["a" + ("\n" + ("        " + "b.cpp"))])
  {
    assert OneLine("a") && OneLine("b.cpp");
    hide Arriving, KeepsLines, OneLine;
    IndentedLineIsLost("a", "b.cpp");
    ArrivingIff(["a" + ("\n" + (INDENT + "b.cpp"))]);
    assert |"a" + ("\n" + (INDENT + "b.cpp"))| > |"a" + ("\n" + "b.cpp")|;
  }
}
