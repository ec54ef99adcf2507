/**
  `textwrap.dedent` of the Python the client needs (3.14): the white space that all lines
  have in common is taken from each, and a line of nothing but white space becomes empty.
*/
module Dedent {
  import opened Prelude
  import Text

  /** `str.isspace` of one character. */
  predicate IsSpace(c: char) {
    Text.IsSpace(c) || '\U{1C}' <= c <= '\U{1F}'
  }

  /** The characters, by code point. */
  lemma SpaceCodes(c: char)
    ensures IsSpace(c) <==>
            || c as int in {0x85, 0xA0, 0x1680, 0x2028, 0x2029, 0x202F, 0x205F, 0x3000}
            || 9 <= c as int <= 13 || 0x1C <= c as int <= 0x20 || 0x2000 <= c as int <= 0x200A
  {}

  predicate Blank(l: string) {
    forall c | c in l :: IsSpace(c)
  }

  predicate OneLine(s: string) { '\n' !in s }

  function FirstLine(s: string): (l: string)
    ensures l <= s && OneLine(l) && (|l| < |s| ==> s[|l|] == '\n')
    ensures l == s <==> OneLine(s)
  {
    if s == "" || s[0] == '\n' then "" else [s[0]] + FirstLine(s[1..])
  }

  /** What follows the first newline. */
  function NextLines(s: string): string
    requires !OneLine(s)
  {
    s[|FirstLine(s)| + 1..]
  }

  /** The blanks and tabs a line begins with. */
  function Indent(l: string): (i: string)
    ensures i <= l && Indentation(i) && (|i| < |l| ==> l[|i|] != ' ' && l[|i|] != '\t')
  {
    if l != "" && (l[0] == ' ' || l[0] == '\t') then [l[0]] + Indent(l[1..]) else ""
  }

  predicate Indentation(s: string) {
    forall c | c in s :: c == ' ' || c == '\t'
  }

  function Common(a: string, b: string): (p: string)
    ensures p <= a && p <= b
  {
    if a != "" && b != "" && a[0] == b[0] then [a[0]] + Common(a[1..], b[1..]) else ""
  }

  lemma {:induction false} CommonIsLongest(a: string, b: string, q: string)
    requires q <= a && q <= b
    ensures q <= Common(a, b)
  {
    if q != "" { CommonIsLongest(a[1..], b[1..], q[1..]); }
  }

  /** The margin after one more line: lines of white space do not count. */
  function Narrow(m: Option<string>, l: string): Option<string> {
    if Blank(l) then m else Some(if m.None? then Indent(l) else Common(m.value, Indent(l)))
  }

  function Margin(m: Option<string>, text: string): Option<string>
    decreases |text|
  {
    var now := Narrow(m, FirstLine(text));
    if OneLine(text) then now else Margin(now, NextLines(text))
  }

  function Fix(m: string, l: string): string {
    if Blank(l) then "" else if m <= l then l[|m|..] else l
  }

  /** The text from the start of a line on. */
  function FromStart(m: string, s: string): string
    decreases |s|
  {
    Fix(m, FirstLine(s)) + (if OneLine(s) then "" else "\n" + FromStart(m, NextLines(s)))
  }

  /** The text from within a line on. */
  function MidLine(m: string, s: string): string {
    FirstLine(s) + (if OneLine(s) then "" else "\n" + FromStart(m, NextLines(s)))
  }

  /** The margin, once the line at hand has been looked at. */
  function MidMargin(m: Option<string>, s: string): Option<string> {
    if OneLine(s) then m else Margin(m, NextLines(s))
  }

  function Dedented(text: string): string {
    var m := Margin(None, text);
    FromStart(if m.Some? then m.value else "", text)
  }

  // ---- The margin is common to all lines ----

  /** Every line that is not blank begins with `m`: taking the margin off never takes anything else. */
  predicate AllBegin(m: string, s: string)
    decreases |s|
  {
    (Blank(FirstLine(s)) || m <= FirstLine(s)) && (OneLine(s) || AllBegin(m, NextLines(s)))
  }

  lemma {:induction false} AllBeginShorter(m: string, n: string, s: string)
    requires AllBegin(m, s) && n <= m
    ensures AllBegin(n, s)
    decreases |s|
  {
    if !OneLine(s) { AllBeginShorter(m, n, NextLines(s)); }
  }

  lemma {:induction false} MarginIsCommon(m: Option<string>, text: string)
    ensures m.Some? ==> Margin(m, text).Some? && Margin(m, text).value <= m.value
    ensures Margin(m, text).Some? ==> AllBegin(Margin(m, text).value, text)
    ensures Margin(m, text).None? ==> AllBegin("", text)
    decreases |text|
  {
    var now := Narrow(m, FirstLine(text));
    if !OneLine(text) { MarginIsCommon(now, NextLines(text)); }
  }

  // ---- A line in pieces ----

  lemma {:induction false} LineOf(a: string, rest: string)
    requires OneLine(a)
    ensures FirstLine(a + rest) == a + FirstLine(rest)
    ensures OneLine(a + rest) <==> OneLine(rest)
    ensures !OneLine(rest) ==> NextLines(a + rest) == NextLines(rest)
  {
    if a == "" {
      assert a + rest == rest;
    } else {
      assert (a + rest)[1..] == a[1..] + rest;
      LineOf(a[1..], rest);
      assert a == [a[0]] + a[1..];
    }
  }

  lemma LineEnds(rest: string)
    ensures FirstLine("\n" + rest) == "" && !OneLine("\n" + rest) && NextLines("\n" + rest) == rest
  {
    assert ("\n" + rest)[0] == '\n';
  }

  lemma {:induction false} IndentOf(a: string, rest: string)
    requires !Blank(a)
    ensures Indent(a + rest) == Indent(a) && !Blank(a + rest)
  {
    if a[0] == ' ' || a[0] == '\t' {
      assert (a + rest)[1..] == a[1..] + rest;
      IndentOf(a[1..], rest);
    }
    var c :| c in a && !IsSpace(c);
    assert c in a + rest;
  }

  lemma MidLineOf(m: string, acc: Option<string>, a: string, rest: string)
    requires OneLine(a)
    ensures MidLine(m, a + rest) == a + MidLine(m, rest)
    ensures MidMargin(acc, a + rest) == MidMargin(acc, rest)
  {
    LineOf(a, rest);
    hide FirstLine, NextLines, OneLine, FromStart, Margin;
    Regroup(a, FirstLine(rest), if OneLine(rest) then "" else "\n" + FromStart(m, NextLines(rest)));
  }

  lemma MidLineEnds(m: string, acc: Option<string>, rest: string)
    ensures MidLine(m, "\n" + rest) == "\n" + FromStart(m, rest)
    ensures MidMargin(acc, "\n" + rest) == Margin(acc, rest)
  {
    LineEnds(rest);
  }

  /** A line that begins with `a`, which is more than white space. */
  lemma StartOf(m: string, acc: Option<string>, a: string, rest: string)
    requires OneLine(a) && !Blank(a) && Indentation(m)
    ensures FromStart(m, a + rest) == Fix(m, a) + MidLine(m, rest)
    ensures Margin(acc, a + rest) == MidMargin(Narrow(acc, a), rest)
  {
    LineOf(a, rest);
    IndentOf(a, FirstLine(rest));
    FixOf(m, a, FirstLine(rest));
    hide FirstLine, NextLines, OneLine, Fix, Blank, Indent, Common, Indentation;
    Regroup(Fix(m, a), FirstLine(rest), if OneLine(rest) then "" else "\n" + FromStart(m, NextLines(rest)));
  }

  lemma FixOf(m: string, a: string, more: string)
    requires Indentation(m) && !Blank(a)
    ensures Fix(m, a + more) == Fix(m, a) + more
  {
    IndentOf(a, more);
    BeginsWithin(m, a, more);
    if m <= a { assert (a + more)[|m|..] == a[|m|..] + more; }
  }

  lemma BeginsWithin(m: string, a: string, more: string)
    requires Indentation(m) && !Blank(a)
    ensures m <= a + more <==> m <= a
  {
    if m <= a + more && |a| < |m| { WithinIndentation(m, a, more); }
  }

  lemma WithinIndentation(m: string, a: string, more: string)
    requires Indentation(m) && m <= a + more && |a| <= |m|
    ensures Blank(a)
  {
    assert a <= m;
    forall c | c in a ensures c in m {}
  }

  /** A line that ends here. */
  lemma WholeLine(m: string, acc: Option<string>, l: string, rest: string)
    requires OneLine(l)
    ensures FromStart(m, l + ("\n" + rest)) == Fix(m, l) + ("\n" + FromStart(m, rest))
    ensures Margin(acc, l + ("\n" + rest)) == Margin(Narrow(acc, l), rest)
  {
    LineOf(l, "\n" + rest);
    LineEnds(rest);
    assert l + "" == l;
  }

  lemma LastLine(m: string, acc: Option<string>, l: string)
    requires OneLine(l)
    ensures FromStart(m, l) == Fix(m, l) && Margin(acc, l) == Narrow(acc, l)
  {}
}
