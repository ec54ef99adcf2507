/**
  Quoting for the shell (pysdk/agent_envs/binary_builder.py), against the word rules of
  IEEE Std 1003.1-2017, Shell Command Language, sections 2.2 and 2.3.
*/
module ShellQuote {
  import opened Prelude

  // ---- The shell's word rules ----

  datatype Mode = Plain | Single | Double

  const NUL: char := '\0'

  /** Stands for itself, outside quotes. */
  predicate Ordinary(c: char) {
    && c != '|' && c != '&' && c != ';' && c != '<' && c != '>' && c != '(' && c != ')' && c != '$' && c != '`'
    && c != '\\' && c != '"' && c != '\'' && c != ' ' && c != '\t' && c != '\n'
    && c != '*' && c != '?' && c != '[' && c != '#' && c != '~' && c != NUL
  }

  function Ended(word: Option<string>, done: seq<string>): seq<string> {
    if word.Some? then done + [word.value] else done
  }

  function Grown(word: Option<string>, more: string): Option<string> {
    Some((if word.Some? then word.value else "") + more)
  }

  /**
    The words of a line: None if it is not a plain list of words, by an open quote, an operator,
    an expansion, a pattern, a comment or a NUL.
  */
  function Lex(s: string, mode: Mode, word: Option<string>, done: seq<string>): Option<seq<string>>
    decreases |s|, 1
  {
    if s == [] then
      if mode == Plain then Some(Ended(word, done)) else None
    else if s[0] == NUL then None
    else
      match mode
      case Plain => LexPlain(s, word, done)
      case Single =>
        if s[0] == '\'' then Lex(s[1..], Plain, word, done)
        else Lex(s[1..], Single, Grown(word, s[..1]), done)
      case Double =>
        if s[0] == '"' then Lex(s[1..], Plain, word, done)
        else if s[0] == '$' || s[0] == '`' then None
        else if s[0] == '\\' && |s| > 1 && s[1] == '\n' then Lex(s[2..], Double, word, done)
        else if s[0] == '\\' && |s| > 1 && s[1] in "$`\"\\" then Lex(s[2..], Double, Grown(word, s[1..2]), done)
        else Lex(s[1..], Double, Grown(word, s[..1]), done)
  }

  function LexPlain(s: string, word: Option<string>, done: seq<string>): Option<seq<string>>
    requires s != [] && s[0] != NUL
    decreases |s|, 0
  {
    if s[0] == ' ' || s[0] == '\t' then Lex(s[1..], Plain, None, Ended(word, done))
    else if s[0] == '\'' then Lex(s[1..], Single, Grown(word, ""), done)
    else if s[0] == '"' then Lex(s[1..], Double, Grown(word, ""), done)
    else if s[0] == '\\' then
      if |s| == 1 || s[1] == NUL then None
      else if s[1] == '\n' then Lex(s[2..], Plain, word, done)
      else Lex(s[2..], Plain, Grown(word, s[1..2]), done)
    else if Ordinary(s[0]) then Lex(s[1..], Plain, Grown(word, s[..1]), done)
    else None
  }

  function Words(s: string): Option<seq<string>> { Lex(s, Plain, None, []) }

  // ---- Quoting ----

  predicate AsciiAlnum(c: char) {
    'a' <= c <= 'z' || 'A' <= c <= 'Z' || '0' <= c <= '9'
  }

  /** `c.isalnum() or c in "._-/"`; which characters beyond ASCII are letters or digits is `wide`. */
  predicate Safe(wide: char -> bool, c: char) {
    AsciiAlnum(c) || (c >= '\U{80}' && wide(c)) || c == '.' || c == '_' || c == '-' || c == '/'
  }

  const QUOTE: string := "'"
  const ESCAPED_QUOTE: string := "'\"'\"'"

  /** `s.replace("'", "'\"'\"'")` */
  function Escape(s: string): string {
    if s == [] then [] else (if s[0] == '\'' then ESCAPED_QUOTE else [s[0]]) + Escape(s[1..])
  }

  function Quote(wide: char -> bool, s: string): string {
    if s == "" then "''"
    else if forall c | c in s :: Safe(wide, c) then s
    else QUOTE + Escape(s) + QUOTE
  }

  lemma {:induction false} EscapeAppend(a: string, b: string)
    ensures Escape(a + b) == Escape(a) + Escape(b)
  {
    if a == [] {
      assert a + b == b;
    } else {
      assert (a + b)[1..] == a[1..] + b;
      EscapeAppend(a[1..], b);
    }
  }

  lemma {:induction false} EscapeKeeps(s: string)
    requires '\'' !in s
    ensures Escape(s) == s
  {
    if s != [] {
      assert s == [s[0]] + s[1..];
      EscapeKeeps(s[1..]);
    }
  }

  /** Only safe characters, and at least one: the string stays. Otherwise it is put in quotes. */
  lemma QuoteText(wide: char -> bool, s: string)
    ensures Quote(wide, s) == s <==>
      s != "" && forall c | c in s ::
        'a' <= c <= 'z' || 'A' <= c <= 'Z' || '0' <= c <= '9' || c in "._-/" || (c >= '\U{80}' && wide(c))
    ensures Quote(wide, s) != s ==> Quote(wide, s) == "'" + Escape(s) + "'"
  {
    hide Escape;
    EscapeGrows(s);
    if s == "" {
      EscapeKeeps(s);
      assert "'" + "" + "'" == "''";
    }
  }

  /** Inside the quotes a string is itself, but for its quotes; each is spelt as a close, a quoted quote and an open. */
  lemma EscapeText(s: string, rest: string)
    requires '\'' !in s
    ensures Escape(s) == s && Escape(s + "'" + rest) == s + "'\"'\"'" + Escape(rest)
  {
    EscapeKeeps(s);
    EscapeAppend(s + "'", rest);
    EscapeAppend(s, "'");
    assert Escape("'") == ESCAPED_QUOTE + [];
  }

  lemma {:induction false} EscapeGrows(s: string)
    ensures |Escape(s)| >= |s|
  {
    if s != [] { EscapeGrows(s[1..]); }
  }

  predicate NulFree(s: string) { NUL !in s }

  // ---- Lexing what was quoted ----

  /** One character of input. */
  lemma OneChar(c: char, rest: string, word: Option<string>, done: seq<string>)
    ensures Ordinary(c) ==> Lex([c] + rest, Plain, word, done) == Lex(rest, Plain, Grown(word, [c]), done)
    ensures c == ' ' ==> Lex([c] + rest, Plain, word, done) == Lex(rest, Plain, None, Ended(word, done))
    ensures c == '\'' ==> Lex([c] + rest, Plain, word, done) == Lex(rest, Single, Grown(word, ""), done)
    ensures c == '\'' ==> Lex([c] + rest, Single, word, done) == Lex(rest, Plain, word, done)
    ensures c == NUL ==> Lex([c] + rest, Single, word, done) == None
    ensures c != '\'' && c != NUL ==> Lex([c] + rest, Single, word, done) == Lex(rest, Single, Grown(word, [c]), done)
    ensures c == '"' ==> Lex([c] + rest, Plain, word, done) == Lex(rest, Double, Grown(word, ""), done)
    ensures c == '"' ==> Lex([c] + rest, Double, word, done) == Lex(rest, Plain, word, done)
    ensures c == '\'' ==> Lex([c] + rest, Double, word, done) == Lex(rest, Double, Grown(word, [c]), done)
  {
    var s := [c] + rest;
    assert s[1..] == rest && s[..1] == [c];
  }

  lemma AtEnd(word: string, done: seq<string>)
    ensures Lex("", Plain, Some(word), done) == Some(done + [word])
    ensures Lex("", Plain, None, done) == Some(done)
  {}

  lemma GrownTwice(word: Option<string>, a: string, b: string)
    ensures Grown(Grown(word, a), b) == Grown(word, a + b)
    ensures word.Some? ==> Grown(word, "") == word
    ensures Grown(word, a).Some?
    ensures Grown(None, a) == Some(a)
  {
    if word.Some? {
      assert word.value + "" == word.value && word.value + a + b == word.value + (a + b);
    } else {
      assert "" + a == a && "" + a + b == "" + (a + b);
    }
  }

  lemma {:induction false} OrdinaryRun(w: string, rest: string, word: Option<string>, done: seq<string>)
    requires forall c | c in w :: Ordinary(c)
    requires w != "" || word.Some?
    ensures Lex(w + rest, Plain, word, done) == Lex(rest, Plain, Grown(word, w), done)
    decreases |w|
  {
    hide Lex, Ordinary, Grown;
    if w == "" {
      assert w + rest == rest;
      GrownTwice(word, "", "");
    } else {
      assert w + rest == [w[0]] + (w[1..] + rest) && w == [w[0]] + w[1..];
      OneChar(w[0], w[1..] + rest, word, done);
      GrownTwice(word, [w[0]], w[1..]);
      OrdinaryRun(w[1..], rest, Grown(word, [w[0]]), done);
    }
  }

  lemma QuoteInQuotes(rest: string, word: Option<string>, done: seq<string>)
    requires word.Some?
    ensures Lex(ESCAPED_QUOTE + rest, Single, word, done) == Lex(rest, Single, Grown(word, QUOTE), done)
  {
    hide Lex, Ordinary, Grown;
    var w := Grown(word, QUOTE);
    assert ESCAPED_QUOTE + rest == ['\''] + (['"'] + (['\''] + (['"'] + (['\''] + rest))));
    OneChar('\'', ['"'] + (['\''] + (['"'] + (['\''] + rest))), word, done);
    OneChar('"', ['\''] + (['"'] + (['\''] + rest)), word, done);
    GrownTwice(word, "", QUOTE);
    OneChar('\'', ['"'] + (['\''] + rest), word, done);
    assert ['\''] == QUOTE;
    OneChar('"', ['\''] + rest, w, done);
    OneChar('\'', rest, w, done);
    GrownTwice(word, QUOTE, "");
    assert QUOTE + "" == QUOTE;
  }

  /** Inside single quotes the escaped text reads back as the text. */
  lemma {:induction false} EscapedRun(t: string, rest: string, word: Option<string>, done: seq<string>)
    requires word.Some?
    ensures NulFree(t) ==> Lex(Escape(t) + (QUOTE + rest), Single, word, done) == Lex(rest, Plain, Grown(word, t), done)
    ensures !NulFree(t) ==> Lex(Escape(t) + (QUOTE + rest), Single, word, done) == None
    decreases |t|
  {
    hide Lex, Ordinary, Grown;
    GrownTwice(word, "", "");
    if t == "" {
      assert Escape(t) + (QUOTE + rest) == ['\''] + rest;
      OneChar('\'', rest, word, done);
    } else {
      var tail := t[1..];
      var more := Escape(tail) + (QUOTE + rest);
      assert t == [t[0]] + tail;
      GrownTwice(word, [t[0]], tail);
      EscapedRun(tail, rest, Grown(word, [t[0]]), done);
      if t[0] == '\'' {
        assert [t[0]] == QUOTE;
        Regroup(ESCAPED_QUOTE, Escape(tail), QUOTE + rest);
        QuoteInQuotes(more, word, done);
      } else {
        Regroup([t[0]], Escape(tail), QUOTE + rest);
        OneChar(t[0], more, word, done);
      }
    }
  }

  lemma SafeIsOrdinary(wide: char -> bool, c: char)
    requires Safe(wide, c)
    ensures Ordinary(c)
  {}

  lemma SafeIsOneWord(wide: char -> bool, s: string, rest: string, done: seq<string>)
    requires s != "" && forall c | c in s :: Safe(wide, c)
    ensures NulFree(s) && Lex(s + rest, Plain, None, done) == Lex(rest, Plain, Some(s), done)
  {
    forall c | c in s ensures Ordinary(c) && c != NUL { SafeIsOrdinary(wide, c); }
    hide Lex, Ordinary, Grown, Safe;
    OrdinaryRun(s, rest, None, done);
    GrownTwice(None, s, "");
  }

  lemma EscapedIsOneWord(s: string, rest: string, done: seq<string>)
    ensures NulFree(s) ==> Lex(QUOTE + (Escape(s) + (QUOTE + rest)), Plain, None, done) == Lex(rest, Plain, Some(s), done)
    ensures !NulFree(s) ==> Lex(QUOTE + (Escape(s) + (QUOTE + rest)), Plain, None, done) == None
  {
    hide Lex, Grown, NulFree, Escape;
    assert QUOTE == ['\''];
    OneChar('\'', Escape(s) + (QUOTE + rest), None, done);
    GrownTwice(None, "", s);
    EscapedRun(s, rest, Some(""), done);
    GrownTwice(None, s, "");
    assert "" + s == s;
  }

  /** A quoted string is read as one word, the string itself, whatever follows; with a NUL it is not read at all. */
  lemma QuotedIsOneWord(wide: char -> bool, s: string, rest: string, done: seq<string>)
    ensures NulFree(s) ==> Lex(Quote(wide, s) + rest, Plain, None, done) == Lex(rest, Plain, Some(s), done)
    ensures !NulFree(s) ==> Lex(Quote(wide, s) + rest, Plain, None, done) == None
  {
    hide Lex, Grown, Safe;
    EscapedIsOneWord(s, rest, done);
    if s == "" {
      assert Quote(wide, s) + rest == QUOTE + (Escape(s) + (QUOTE + rest));
    } else if forall c | c in s :: Safe(wide, c) {
      SafeIsOneWord(wide, s, rest, done);
    } else {
      Regroup(QUOTE + Escape(s), QUOTE, rest);
      Regroup(QUOTE, Escape(s), QUOTE + rest);
    }
  }

  /** Quoting round-trips exactly on the strings without NUL. */
  lemma QuoteRoundTrip(wide: char -> bool, s: string)
    ensures Words(Quote(wide, s)) == Some([s]) <==> NulFree(s)
  {
    hide Lex, Quote;
    QuotedIsOneWord(wide, s, "", []);
    assert Quote(wide, s) + "" == Quote(wide, s);
    AtEnd(s, []);
    assert [] + [s] == [s];
  }

  // ---- Lists ----

  /** `' '.join(...)` of the quoted names. */
  function JoinQuoted(wide: char -> bool, names: seq<string>): string {
    if names == [] then ""
    else if |names| == 1 then Quote(wide, names[0])
    else Quote(wide, names[0]) + " " + JoinQuoted(wide, names[1..])
  }

  predicate AllNulFree(names: seq<string>) {
    forall s | s in names :: NulFree(s)
  }

  lemma AllNulFreeIff(names: seq<string>)
    requires names != []
    ensures AllNulFree(names) <==> NulFree(names[0]) && AllNulFree(names[1..])
  {
    hide NulFree;
    assert names[0] in names && forall s | s in names :: s == names[0] || s in names[1..];
  }

  lemma JoinNext(wide: char -> bool, names: seq<string>, rest: string)
    requires |names| > 1
    ensures JoinQuoted(wide, names) + rest
            == Quote(wide, names[0]) + (" " + (JoinQuoted(wide, names[1..]) + rest))
  {
    hide Quote;
    var more := JoinQuoted(wide, names[1..]);
    Regroup(Quote(wide, names[0]) + " ", more, rest);
    Regroup(Quote(wide, names[0]), " ", more + rest);
  }

  lemma WordsNext(names: seq<string>, done: seq<string>)
    requires |names| > 1
    ensures var tail := names[1..];
            && tail[|tail| - 1] == names[|names| - 1]
            && done + [names[0]] + tail[..|tail| - 1] == done + names[..|names| - 1]
  {}

  lemma {:induction false} JoinedLex(wide: char -> bool, names: seq<string>, rest: string, done: seq<string>)
    requires names != []
    ensures Lex(JoinQuoted(wide, names) + rest, Plain, None, done)
            == if AllNulFree(names) then Lex(rest, Plain, Some(names[|names| - 1]), done + names[..|names| - 1]) else None
    decreases |names|
  {
    hide *;
    AllNulFreeIff(names);
    if |names| == 1 {
      JoinOne(wide, names, rest);
      QuotedIsOneWord(wide, names[0], rest, done);
      NoNames();
      OneWord(names, done);
    } else {
      var more := JoinQuoted(wide, names[1..]) + rest;
      JoinNext(wide, names, rest);
      QuotedIsOneWord(wide, names[0], " " + more, done);
      SpaceEnds(more, names[0], done);
      JoinedLex(wide, names[1..], rest, done + [names[0]]);
      WordsNext(names, done);
    }
  }

  lemma JoinOne(wide: char -> bool, names: seq<string>, rest: string)
    requires |names| == 1
    ensures JoinQuoted(wide, names) + rest == Quote(wide, names[0]) + rest
  {}

  lemma OneWord(names: seq<string>, done: seq<string>)
    requires |names| == 1
    ensures names[1..] == [] && done + names[..0] == done
  {}

  lemma NoNames()
    ensures AllNulFree([])
  {}

  lemma SpaceEnds(rest: string, word: string, done: seq<string>)
    ensures Lex(" " + rest, Plain, Some(word), done) == Lex(rest, Plain, None, done + [word])
    ensures Lex(" " + rest, Plain, None, done) == Lex(rest, Plain, None, done)
  {
    assert " " + rest == [' '] + rest;
    OneChar(' ', rest, Some(word), done);
    OneChar(' ', rest, None, done);
  }

  /** The joined quotes of a list read back as the list, exactly when no name has a NUL. */
  lemma JoinRoundTrip(wide: char -> bool, names: seq<string>)
    ensures Words(JoinQuoted(wide, names)) == Some(names) <==> AllNulFree(names)
  {
    hide Lex, Quote, AllNulFree;
    if names == [] {
      AtEnd("", []);
      NoNames();
    } else {
      JoinedLex(wide, names, "", []);
      assert JoinQuoted(wide, names) + "" == JoinQuoted(wide, names);
      hide JoinQuoted;
      var n := |names| - 1;
      AtEnd(names[n], [] + names[..n]);
      assert [] + names[..n] + [names[n]] == names;
    }
  }
}
