/** lumen/bot/telegram_text.py: MarkdownV2 escaping and block quotes, against the reading of the Telegram
    Bot API ("Formatting options", "MarkdownV2 style"). */
module MarkdownV2 {
  import opened Prelude

  const SPECIAL := "_*[]()~`>#+-=|{}.!"

  /** The class of `_MDV2_ESCAPE_RE`: the special characters and the backslash. */
  predicate NeedsEscape(c: char) {
    c == '\\' || c in SPECIAL
  }

  /** `escape_markdown_v2`. */
  function Escape(s: string): string {
    if s == "" then ""
    else if NeedsEscape(s[0]) then ['\\', s[0]] + Escape(s[1..])
    else [s[0]] + Escape(s[1..])
  }

  // ------------------------------------------------------------------ how Telegram reads it

  datatype Token = Literal(c: char) | Markup(c: char)

  /** Any character with a code between 1 and 126 may be escaped with a backslash. */
  predicate Escapable(c: char) {
    1 <= c as int <= 126
  }

  /** The characters the Bot API reserves for markup, and the backslash that escapes them. */
  predicate Reserved(c: char) {
    c in {'_', '*', '[', ']', '(', ')', '~', '`', '>', '#', '+', '-', '=', '|', '{', '}', '.', '!', '\\'}
  }

  function Read(s: string): seq<Token> {
    if s == "" then []
    else if s[0] == '\\' && |s| > 1 && Escapable(s[1]) then [Literal(s[1])] + Read(s[2..])
    else if Reserved(s[0]) then [Markup(s[0])] + Read(s[1..])
    else [Literal(s[0])] + Read(s[1..])
  }

  function Literals(s: string): seq<Token> {
    seq(|s|, i requires 0 <= i < |s| => Literal(s[i]))
  }

  /** The text of a token sequence without markup. */
  function Text(ts: seq<Token>): Option<string> {
    if ts == [] then Some("")
    else if ts[0].Markup? then None
    else
      match Text(ts[1..])
      case None => None
      case Some(t) => Some([ts[0].c] + t)
  }

  lemma {:induction false} TextOfLiterals(s: string)
    ensures Text(Literals(s)) == Some(s)
  {
    if s != "" {
      TextOfLiterals(s[1..]);
      assert Literals(s)[1..] == Literals(s[1..]);
      assert s == [s[0]] + s[1..];
    }
  }

  /** What is escaped is exactly what is reserved, and it may be escaped. */
  lemma SpecialsAreReserved(c: char)
    ensures NeedsEscape(c) <==> Reserved(c)
    ensures NeedsEscape(c) ==> Escapable(c)
    ensures NeedsEscape('\\')
  {
    assert forall i | 0 <= i < |SPECIAL| :: Reserved(SPECIAL[i]);
    assert SPECIAL[0] == '_' && SPECIAL[1] == '*' && SPECIAL[2] == '[' && SPECIAL[3] == ']' && SPECIAL[4] == '(';
    assert SPECIAL[5] == ')' && SPECIAL[6] == '~' && SPECIAL[7] == '`' && SPECIAL[8] == '>' && SPECIAL[9] == '#';
    assert SPECIAL[10] == '+' && SPECIAL[11] == '-' && SPECIAL[12] == '=' && SPECIAL[13] == '|' && SPECIAL[14] == '{';
    assert SPECIAL[15] == '}' && SPECIAL[16] == '.' && SPECIAL[17] == '!';
  }

  /** Reading escaped text gives back the text, all of it as literal characters. */
  lemma {:induction false} ReadUndoesEscape(s: string)
    ensures Read(Escape(s)) == Literals(s)
  {
    if s != "" {
      SpecialsAreReserved(s[0]);
      hide NeedsEscape, Escapable, Reserved;
      ReadUndoesEscape(s[1..]);
      assert Literals(s) == [Literal(s[0])] + Literals(s[1..]);
      if NeedsEscape(s[0]) {
        assert Escape(s)[2..] == Escape(s[1..]);
      } else {
        assert Escape(s)[1..] == Escape(s[1..]);
      }
    }
  }

  function Specials(s: string): nat {
    if s == "" then 0 else (if NeedsEscape(s[0]) then 1 else 0) + Specials(s[1..])
  }

  /** Escaping adds one character for each special one, and so at most doubles the text. */
  lemma {:induction false} EscapeLength(s: string)
    ensures |Escape(s)| == |s| + Specials(s)
    ensures |s| <= |Escape(s)| <= 2 * |s|
  {
    if s != "" {
      EscapeLength(s[1..]);
    }
  }

  predicate IsPlain(s: string) {
    forall c | c in s :: !NeedsEscape(c)
  }

  /** Text reads as itself without escaping exactly when it has no special character, and then escaping
      leaves it alone; so escaping twice shows backslashes exactly where once was needed. */
  lemma EscapeNeededIff(s: string)
    ensures IsPlain(s) <==> Read(s) == Literals(s)
    ensures IsPlain(s) <==> Escape(s) == s
    ensures IsPlain(s) <==> Read(Escape(Escape(s))) == Literals(s)
  {
    PlainReads(s);
    EscapeLength(s);
    SpecialsIff(s);
    ReadUndoesEscape(Escape(s));
    assert |Literals(Escape(s))| == |Escape(s)|;
  }

  lemma {:induction false} SpecialsIff(s: string)
    ensures IsPlain(s) <==> Specials(s) == 0
    ensures IsPlain(s) ==> Escape(s) == s
  {
    if s != "" {
      SpecialsIff(s[1..]);
      assert s == [s[0]] + s[1..];
    }
  }

  lemma PlainCons(s: string)
    requires s != ""
    ensures IsPlain(s) <==> !NeedsEscape(s[0]) && IsPlain(s[1..])
  {
    assert s == [s[0]] + s[1..];
  }

  lemma {:induction false} PlainReads(s: string)
    ensures IsPlain(s) <==> Read(s) == Literals(s)
  {
    if s != "" {
      PlainCons(s);
      PlainReads(s[1..]);
      if s[0] == '\\' && |s| > 1 && Escapable(s[1]) {
        ReadNoLonger(s[2..]);
        assert |Read(s)| < |Literals(s)|;
      } else {
        var head := if NeedsEscape(s[0]) then Markup(s[0]) else Literal(s[0]);
        assert Read(s) == [head] + Read(s[1..]);
        assert Literals(s) == [Literal(s[0])] + Literals(s[1..]);
        assert Read(s) == Literals(s) ==> Read(s)[1..] == Read(s[1..]) == Literals(s[1..]);
      }
    }
  }

  lemma {:induction false} ReadNoLonger(s: string)
    ensures |Read(s)| <= |s|
    decreases |s|
  {
    if s == "" {
    } else if s[0] == '\\' && |s| > 1 && Escapable(s[1]) {
      ReadNoLonger(s[2..]);
    } else {
      ReadNoLonger(s[1..]);
    }
  }

  // ------------------------------------------------------------------ lines

  function SplitLines(s: string): (lines: seq<string>)
    ensures lines != []
  {
    if s == "" then [""]
    else
      var rest := SplitLines(s[1..]);
      if s[0] == '\n' then [""] + rest else [[s[0]] + rest[0]] + rest[1..]
  }

  function JoinLines(lines: seq<string>): string {
    if lines == [] then "" else if |lines| == 1 then lines[0] else lines[0] + "\n" + JoinLines(lines[1..])
  }

  predicate OneLine(s: string) {
    '\n' !in s
  }

  lemma {:induction false} LinesAreOneLine(s: string)
    ensures forall line | line in SplitLines(s) :: OneLine(line)
  {
    if s != "" {
      LinesAreOneLine(s[1..]);
      var rest := SplitLines(s[1..]);
      assert rest[0] in rest;
    }
  }

  lemma JoinFront(c: char, first: string, more: seq<string>)
    ensures JoinLines([[c] + first] + more) == [c] + JoinLines([first] + more)
  {
    assert ([[c] + first] + more)[1..] == more && ([first] + more)[1..] == more;
    if more != [] {
      assert [c] + first + "\n" + JoinLines(more) == [c] + (first + "\n" + JoinLines(more));
    }
  }

  /** Joining undoes splitting. */
  lemma {:induction false} JoinSplit(s: string)
    ensures JoinLines(SplitLines(s)) == s
  {
    if s != "" {
      JoinSplit(s[1..]);
      var rest := SplitLines(s[1..]);
      assert s == [s[0]] + s[1..];
      if s[0] == '\n' {
        assert ([""] + rest)[1..] == rest;
      } else {
        JoinFront(s[0], rest[0], rest[1..]);
        assert [rest[0]] + rest[1..] == rest;
      }
    }
  }

  lemma {:induction false} SplitOneLine(line: string, more: string)
    requires OneLine(line)
    ensures SplitLines(line + "\n" + more) == [line] + SplitLines(more)
    ensures SplitLines(line) == [line]
  {
    var s := line + "\n" + more;
    if line == "" {
      assert s[1..] == more;
    } else {
      SplitOneLine(line[1..], more);
      assert s[1..] == line[1..] + "\n" + more;
      assert line == [line[0]] + line[1..];
    }
  }

  /** Splitting undoes joining. */
  lemma {:induction false} SplitJoin(lines: seq<string>)
    requires lines != [] && forall line | line in lines :: OneLine(line)
    ensures SplitLines(JoinLines(lines)) == lines
  {
    assert lines[0] in lines;
    if |lines| == 1 {
      SplitOneLine(lines[0], "");
    } else {
      SplitJoin(lines[1..]);
      SplitOneLine(lines[0], JoinLines(lines[1..]));
    }
  }

  function CountLineEnds(s: string): nat {
    if s == "" then 0 else (if s[0] == '\n' then 1 else 0) + CountLineEnds(s[1..])
  }

  lemma {:induction false} LineCount(s: string)
    ensures |SplitLines(s)| == CountLineEnds(s) + 1
  {
    if s != "" {
      LineCount(s[1..]);
    }
  }

  lemma {:induction false} CountConcat(a: string, b: string)
    ensures CountLineEnds(a + b) == CountLineEnds(a) + CountLineEnds(b)
  {
    if a == "" {
      assert a + b == b;
    } else {
      CountConcat(a[1..], b);
      assert (a + b)[1..] == a[1..] + b;
    }
  }

  // ------------------------------------------------------------------ block quotes

  /** `strip("\n")`. */
  function StripNewlines(s: string): string {
    if s != "" && s[0] == '\n' then StripNewlines(s[1..])
    else if s != "" && s[|s| - 1] == '\n' then StripNewlines(s[..|s| - 1])
    else s
  }

  predicate LineEnds(s: string) {
    forall c | c in s :: c == '\n'
  }

  /** What is quoted is the text without the line ends around it. */
  lemma {:induction false} StripNewlinesIsMiddle(s: string) returns (left: string, right: string)
    ensures s == left + StripNewlines(s) + right && LineEnds(left) && LineEnds(right)
    ensures var t := StripNewlines(s); t != "" ==> t[0] != '\n' && t[|t| - 1] != '\n'
  {
    left, right := "", "";
    if s != "" && s[0] == '\n' {
      left, right := StripNewlinesIsMiddle(s[1..]);
      left := "\n" + left;
    } else if s != "" && s[|s| - 1] == '\n' {
      left, right := StripNewlinesIsMiddle(s[..|s| - 1]);
      assert s == s[..|s| - 1] + "\n";
      right := right + "\n";
    }
  }

  const PADDING := "\n\U{200c}\n\U{200c}"

  /** The text that is quoted: an expandable quote is padded to three lines so that it gets its arrow. */
  function Body(raw: string, expandable: bool): string {
    if expandable && CountLineEnds(raw) < 2 then raw + PADDING else raw
  }

  function Prefix(expandable: bool, first: bool): string {
    if expandable && first then "**>" else ">"
  }

  function Quoted(lines: seq<string>, expandable: bool, first: bool): seq<string> {
    if lines == [] then [] else [Prefix(expandable, first) + Escape(lines[0])] + Quoted(lines[1..], expandable, false)
  }

  function Blockquote(body: string, expandable: bool): string {
    var raw := StripNewlines(body);
    if raw == "" then "" else JoinLines(Quoted(SplitLines(Body(raw, expandable)), expandable, true))
  }

  lemma {:induction false} QuotedSnoc(lines: seq<string>, n: nat, expandable: bool, first: bool)
    requires n < |lines|
    ensures Quoted(lines[..n + 1], expandable, first) ==
            Quoted(lines[..n], expandable, first) + [Prefix(expandable, first && n == 0) + Escape(lines[n])]
  {
    if n == 0 {
      assert lines[..1] == [lines[0]];
    } else {
      QuotedSnoc(lines[1..], n - 1, expandable, false);
      assert lines[..n + 1][1..] == lines[1..][..n] && lines[..n][1..] == lines[1..][..n - 1];
    }
  }

  /** `mdv2_blockquote`. */
  method MdvBlockquote(body: Option<string>, expandable: bool) returns (text: string)
    ensures text == if body.None? then "" else Blockquote(body.value, expandable)
  {
    var raw := if body.None? then "" else StripNewlines(body.value);
    if raw == "" {
      return "";
    }
    if expandable && CountLineEnds(raw) < 2 {
      raw := raw + "\n\U{200c}\n\U{200c}";
    }
    var lines := SplitLines(raw);
    var out: seq<string> := [];
    for i := 0 to |lines|
      invariant out == Quoted(lines[..i], expandable, true)
    {
      QuotedSnoc(lines, i, expandable, true);
      var esc := Escape(lines[i]);
      if expandable && i == 0 {
        out := out + ["**>" + esc];
      } else {
        out := out + [">" + esc];
      }
    }
    assert lines[..|lines|] == lines;
    text := JoinLines(out);
  }

  /** Reading a quote: split into lines, take off what marks each as quoted (and the first as the start of
      an expandable quote), read what is left. */
  function ReadQuote(text: string, expandable: bool): Option<seq<string>> {
    ReadLines(SplitLines(text), expandable, true)
  }

  function ReadLines(lines: seq<string>, expandable: bool, first: bool): Option<seq<string>> {
    if lines == [] then Some([])
    else
      var mark := if first && expandable then "**>" else ">";
      if !(mark <= lines[0]) then None
      else
        var line := Text(Read(lines[0][|mark|..]));
        var more := ReadLines(lines[1..], expandable, false);
        if line.None? || more.None? then None else Some([line.value] + more.value)
  }

  lemma {:induction false} ReadLinesUndoesQuoted(lines: seq<string>, expandable: bool, first: bool)
    ensures ReadLines(Quoted(lines, expandable, first), expandable, first) == Some(lines)
  {
    if lines != [] {
      ReadLinesUndoesQuoted(lines[1..], expandable, false);
      ReadUndoesEscape(lines[0]);
      TextOfLiterals(lines[0]);
      var prefix, quoted := Prefix(expandable, first), Quoted(lines, expandable, first);
      assert quoted[0][|prefix|..] == Escape(lines[0]);
      assert quoted[1..] == Quoted(lines[1..], expandable, false);
      assert lines == [lines[0]] + lines[1..];
    }
  }

  lemma {:induction false} EscapeKeepsOneLine(s: string)
    requires OneLine(s)
    ensures OneLine(Escape(s))
  {
    if s != "" {
      assert s[0] in s;
      EscapeKeepsOneLine(s[1..]);
    }
  }

  lemma {:induction false} QuotedIsOneLineEach(lines: seq<string>, expandable: bool, first: bool)
    requires forall line | line in lines :: OneLine(line)
    ensures |Quoted(lines, expandable, first)| == |lines|
    ensures forall line | line in Quoted(lines, expandable, first) :: OneLine(line)
  {
    if lines != [] {
      assert lines[0] in lines;
      EscapeKeepsOneLine(lines[0]);
      QuotedIsOneLineEach(lines[1..], expandable, false);
    }
  }

  lemma SplitFirst(s: string)
    requires s != ""
    ensures var rest := SplitLines(s[1..]);
            SplitLines(s) == if s[0] == '\n' then [""] + rest else [[s[0]] + rest[0]] + rest[1..]
  {
  }

  lemma {:induction false} SplitAppend(a: string, b: string)
    ensures SplitLines(a + "\n" + b) == SplitLines(a) + SplitLines(b)
  {
    hide SplitLines;
    var s := a + "\n" + b;
    SplitFirst(s);
    if a == "" {
      assert s[1..] == b;
      SplitOneLine("", b);
    } else {
      assert s[1..] == a[1..] + "\n" + b;
      SplitAppend(a[1..], b);
      SplitFirst(a);
      var rest, more := SplitLines(a[1..]), SplitLines(b);
      assert (rest + more)[0] == rest[0] && (rest + more)[1..] == rest[1..] + more;
    }
  }

  lemma PaddingAddsTwoLines(raw: string)
    ensures SplitLines(raw + PADDING) == SplitLines(raw) + ["\U{200c}", "\U{200c}"]
  {
    SplitAppend(raw, "\U{200c}\n\U{200c}");
    SplitAppend("\U{200c}", "\U{200c}");
    SplitOneLine("\U{200c}", "");
    assert raw + PADDING == raw + "\n" + "\U{200c}\n\U{200c}";
    assert "\U{200c}" + "\n" + "\U{200c}" == "\U{200c}\n\U{200c}";
  }

  /** Taking the quote marks off and reading what is left gives back the lines of the body, and after them
      two lines of one invisible character if the quote is expandable and the body has fewer than three:
      nothing in a body can end the quote, or read as markup inside it. */
  lemma ReadQuoteUndoesBlockquote(body: string, expandable: bool)
    ensures var raw := StripNewlines(body);
            if raw == "" then Blockquote(body, expandable) == ""
            else
              var lines := SplitLines(raw);
              ReadQuote(Blockquote(body, expandable), expandable) ==
              Some(lines + if expandable && |lines| < 3 then ["\U{200c}", "\U{200c}"] else [])
  {
    var raw := StripNewlines(body);
    if raw != "" {
      var lines := SplitLines(Body(raw, expandable));
      PaddingAddsTwoLines(raw);
      LineCount(raw);
      LinesAreOneLine(Body(raw, expandable));
      QuotedIsOneLineEach(lines, expandable, true);
      SplitJoin(Quoted(lines, expandable, true));
      ReadLinesUndoesQuoted(lines, expandable, true);
      assert SplitLines(raw) + [] == SplitLines(raw);
      hide ReadLines, SplitLines, JoinLines, Quoted;
    }
  }

  /** The quote has one line for each line of the body; an expandable one always has at least three, and
      is padded exactly when the body has fewer. */
  lemma QuoteLines(body: string, expandable: bool)
    requires StripNewlines(body) != ""
    ensures var n := |SplitLines(StripNewlines(body))|;
            |SplitLines(Blockquote(body, expandable))| == if expandable && n < 3 then n + 2 else n
    ensures expandable ==> |SplitLines(Blockquote(body, expandable))| >= 3
  {
    var raw := StripNewlines(body);
    var lines := SplitLines(Body(raw, expandable));
    LinesAreOneLine(Body(raw, expandable));
    QuotedIsOneLineEach(lines, expandable, true);
    SplitJoin(Quoted(lines, expandable, true));
    LineCount(raw);
    LineCount(Body(raw, expandable));
    CountConcat(raw, PADDING);
    PaddingLineEnds();
  }

  lemma PaddingLineEnds()
    ensures CountLineEnds(PADDING) == 2
  {
    assert PADDING[1..] == "\U{200c}\n\U{200c}" && PADDING[2..] == "\n\U{200c}" && PADDING[3..] == "\U{200c}"
      && PADDING[4..] == "";
    assert PADDING[1..][1..] == PADDING[2..] && PADDING[2..][1..] == PADDING[3..] && PADDING[3..][1..] == PADDING[4..];
  }
}
