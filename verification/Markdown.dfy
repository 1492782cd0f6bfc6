/** `flatten` of `policies.ts`: light Markdown rendered as Telegram HTML, line by line. */
module Markdown {
  import opened Text
  import opened Escape

  /** `/^\s*(\*{3,}|-{3,}|_{3,})\s*$/`: a horizontal rule, which is dropped. */
  predicate IsRule(line: string) {
    var t := Trim(line);
    |t| >= 3 && (t[0] == '*' || t[0] == '-' || t[0] == '_') && forall i | 0 <= i < |t| :: t[i] == t[0]
  }

  function LeadingHashes(t: string): (n: nat)
    ensures n <= |t|
  {
    if t != "" && t[0] == '#' then 1 + LeadingHashes(t[1..]) else 0
  }

  /** `\s+(.*)$` at the start of `t`: what group 1 holds, or None when the pattern fails. */
  function AfterBlank(t: string): Option<string> {
    if t != "" && IsSpace(t[0]) && IsOneLine(TrimStart(t)) then Some(TrimStart(t)) else None
  }

  /** `/^#{1,6}\s+(.*)$/` on a trimmed line. */
  function Heading(t: string): Option<string> {
    var n := LeadingHashes(t);
    if 1 <= n <= 6 then AfterBlank(t[n..]) else None
  }

  /** `/^[-*]\s+(.*)$/` on a trimmed line. */
  function Bullet(t: string): Option<string> {
    if t != "" && (t[0] == '-' || t[0] == '*') then AfterBlank(t[1..]) else None
  }

  /** Where the lazy `(.+?)\*\*` of a bold run that starts at 0 ends: the first `**` from `j` on
      that no line terminator precedes; -1 when there is none. */
  function BoldEnd(s: string, j: nat): (e: int)
    requires 3 <= j
    ensures e == -1 || (j <= e && e + 2 <= |s| && s[e] == '*' && s[e + 1] == '*')
    decreases |s| - j
  {
    if |s| < j + 2 || IsLineTerminator(s[j - 1]) then -1
    else if s[j] == '*' && s[j + 1] == '*' then j
    else BoldEnd(s, j + 1)
  }

  /** `s.replace(/\*\*(.+?)\*\*` + `/g, open + '$1' + close)`. */
  function ReplaceBold(s: string, open: string, close: string): string
    decreases |s|
  {
    if s == "" then ""
    else if |s| >= 2 && s[0] == '*' && s[1] == '*' && BoldEnd(s, 3) != -1 then
      var e := BoldEnd(s, 3);
      open + s[2..e] + close + ReplaceBold(s[e + 2..], open, close)
    else [s[0]] + ReplaceBold(s[1..], open, close)
  }

  /** `[*\w]`, the characters an emphasis asterisk may not touch on its outer side. */
  predicate TouchesEmphasis(c: char) {
    c == '*' || IsWordChar(c)
  }

  /** Where the lazy `(.+?)(?<!\s)\*(?![*\w])` of an italic run that starts at 0 ends; -1 when nowhere. */
  function ItalicEnd(s: string, j: nat): (e: int)
    requires 2 <= j
    ensures e == -1 || (j <= e < |s| && s[e] == '*')
    decreases |s| - j
  {
    if |s| <= j || IsLineTerminator(s[j - 1]) then -1
    else if s[j] == '*' && !IsSpace(s[j - 1]) && (j + 1 == |s| || !TouchesEmphasis(s[j + 1])) then j
    else ItalicEnd(s, j + 1)
  }

  /** Whether an italic run starts at 0; `touched` says that the character before `s` is one the
      lookbehind refuses. */
  predicate ItalicRunAt(touched: bool, s: string)
    ensures ItalicRunAt(touched, s) ==> 2 <= ItalicEnd(s, 2) < |s| && s[0] == '*' && s[ItalicEnd(s, 2)] == '*'
  {
    && s != ""
    && s[0] == '*'
    && !touched
    && (|s| == 1 || !IsSpace(s[1]))
    && ItalicEnd(s, 2) != -1
  }

  /** `s.replace(/(?<![*\w])\*(?!\s)(.+?)(?<!\s)\*(?![*\w])/g, '<i>$1</i>')`. */
  function ReplaceItalic(touched: bool, s: string): string
    decreases |s|
  {
    if s == "" then ""
    else if ItalicRunAt(touched, s) then
      var e := ItalicEnd(s, 2);
      "<i>" + s[1..e] + "</i>" + ReplaceItalic(true, s[e + 1..])
    else [s[0]] + ReplaceItalic(TouchesEmphasis(s[0]), s[1..])
  }

  /** A line that is neither heading nor bullet marker: escaped first, then emphasised. */
  function RenderBody(body: string): string {
    ReplaceItalic(false, ReplaceBold(EscapeHtml(body), "<b>", "</b>"))
  }

  function RenderLine(line: string): string {
    var t := Trim(line);
    match Heading(t)
    case Some(rest) => "<b>" + EscapeHtml(ReplaceBold(rest, "", "")) + "</b>"
    case None =>
      match Bullet(t)
      case Some(rest) => RenderBody("\U{2022} " + rest)
      case None => RenderBody(line)
  }

  function NewlineRun(s: string): (n: nat)
    ensures n <= |s|
    ensures forall i | 0 <= i < n :: s[i] == '\n'
  {
    if s != "" && s[0] == '\n' then 1 + NewlineRun(s[1..]) else 0
  }

  /** `s.replace(/\n{3,}/g, '\n\n')`. */
  function CollapseBlankLines(s: string): string
    decreases |s|
  {
    if s == "" then ""
    else if s[0] != '\n' then [s[0]] + CollapseBlankLines(s[1..])
    else
      var n := NewlineRun(s);
      (if n >= 3 then "\n\n" else s[..n]) + CollapseBlankLines(s[n..])
  }

  function RenderLines(lines: seq<string>): seq<string> {
    if lines == [] then []
    else (if IsRule(lines[0]) then [] else [RenderLine(lines[0])]) + RenderLines(lines[1..])
  }

  function Flatten(markdown: string): string {
    Trim(CollapseBlankLines(Join(RenderLines(Split(markdown, '\n')), "\n")))
  }

  // ---------------------------------------------------------------------------------------
  // A blank at either edge of a line never changes how the line renders.

  lemma {:induction false} BoldEndTrail(s: string, c: char, j: nat)
    requires 3 <= j && c != '*'
    ensures BoldEnd(s + [c], j) == BoldEnd(s, j)
    decreases |s| - j
  {
    if |s| >= j + 1 && !IsLineTerminator(s[j - 1]) {
      BoldEndTrail(s, c, j + 1);
    }
  }

  lemma {:induction false} ReplaceBoldTrail(s: string, c: char, o: string, k: string)
    requires c != '*'
    ensures ReplaceBold(s + [c], o, k) == ReplaceBold(s, o, k) + [c]
    decreases |s|
  {
    hide BoldEnd, IsLineTerminator;
    if s == "" {
      assert s + [c] == [c];
      assert [c][1..] == "";
      assert ReplaceBold([c], o, k) == [c] + "";
    } else {
      BoldEndTrail(s, c, 3);
      if |s| >= 2 && s[0] == '*' && s[1] == '*' && BoldEnd(s, 3) != -1 {
        var e := BoldEnd(s, 3);
        assert (s + [c])[2..e] == s[2..e];
        assert (s + [c])[e + 2..] == s[e + 2..] + [c];
        ReplaceBoldTrail(s[e + 2..], c, o, k);
        var head, rest := o + s[2..e] + k, ReplaceBold(s[e + 2..], o, k);
        assert ReplaceBold(s, o, k) == head + rest;
        assert ReplaceBold(s + [c], o, k) == head + (rest + [c]);
      } else {
        assert (s + [c])[1..] == s[1..] + [c];
        ReplaceBoldTrail(s[1..], c, o, k);
      }
    }
  }

  lemma {:induction false} ItalicEndTrail(s: string, c: char, j: nat)
    requires 2 <= j && !TouchesEmphasis(c)
    ensures ItalicEnd(s + [c], j) == ItalicEnd(s, j)
    decreases |s| - j
  {
    if j < |s| && !IsLineTerminator(s[j - 1]) {
      ItalicEndTrail(s, c, j + 1);
    }
  }

  lemma SpaceIsNoMark(c: char)
    requires IsSpace(c)
    ensures c != '*' && !TouchesEmphasis(c)
  {
  }

  lemma ItalicRunAtTrail(touched: bool, s: string, c: char)
    requires IsSpace(c) && s != ""
    ensures ItalicRunAt(touched, s + [c]) == ItalicRunAt(touched, s)
    ensures ItalicEnd(s + [c], 2) == ItalicEnd(s, 2)
  {
    SpaceIsNoMark(c);
    ItalicEndTrail(s, c, 2);
  }

  /** One step of the italic pass. */
  lemma ItalicUnfolds(touched: bool, s: string)
    requires s != ""
    ensures ReplaceItalic(touched, s) ==
            if ItalicRunAt(touched, s) then
              ItalicElement(s, ItalicEnd(s, 2)) + ReplaceItalic(true, s[ItalicEnd(s, 2) + 1..])
            else [s[0]] + ReplaceItalic(TouchesEmphasis(s[0]), s[1..])
  {
    hide ItalicEnd, ItalicRunAt, TouchesEmphasis;
  }

  /** What an italic run that ends at `e` becomes. */
  function ItalicElement(s: string, e: nat): string
    requires 2 <= e < |s|
  {
    "<i>" + s[1..e] + "</i>"
  }

  lemma ElementTrails(s: string, e: nat, c: char)
    requires 2 <= e < |s|
    ensures ItalicElement(s + [c], e) == ItalicElement(s, e)
  {
    assert (s + [c])[1..e] == s[1..e];
  }

  lemma RestTrails(s: string, k: nat, c: char)
    requires k <= |s|
    ensures (s + [c])[k..] == s[k..] + [c]
  {
  }

  lemma ReplaceItalicOne(touched: bool, c: char)
    ensures ReplaceItalic(touched, [c]) == [c]
  {
    hide ItalicEnd, ItalicRunAt, TouchesEmphasis;
    assert [c][1..] == "";
    assert ReplaceItalic(TouchesEmphasis(c), [c][1..]) == "";
    assert [c] + "" == [c];
  }

  lemma {:induction false} ReplaceItalicTrail(touched: bool, s: string, c: char)
    requires IsSpace(c)
    ensures ReplaceItalic(touched, s + [c]) == ReplaceItalic(touched, s) + [c]
    decreases |s|
  {
    hide ItalicEnd, ItalicRunAt, IsSpace, TouchesEmphasis;
    if s == "" {
      assert s + [c] == [c];
      ReplaceItalicOne(touched, c);
    } else {
      hide ReplaceItalic, ItalicElement;
      ItalicRunAtTrail(touched, s, c);
      ItalicUnfolds(touched, s);
      ItalicUnfolds(touched, s + [c]);
      if ItalicRunAt(touched, s) {
        var e := ItalicEnd(s, 2);
        RestTrails(s, e + 1, c);
        ElementTrails(s, e, c);
        ReplaceItalicTrail(true, s[e + 1..], c);
        Regroup(ItalicElement(s, e), ReplaceItalic(true, s[e + 1..]), [c]);
      } else {
        RestTrails(s, 1, c);
        ReplaceItalicTrail(TouchesEmphasis(s[0]), s[1..], c);
        Regroup([s[0]], ReplaceItalic(TouchesEmphasis(s[0]), s[1..]), [c]);
      }
    }
  }

  lemma EscapeHtmlSpace(c: char)
    requires IsSpace(c)
    ensures EscapeHtml([c]) == [c]
  {
    EscapeHtmlOne(c);
  }

  lemma RenderBodyTrail(s: string, c: char)
    requires IsSpace(c)
    ensures RenderBody(s + [c]) == RenderBody(s) + [c]
  {
    EscapeHtmlConcat(s, [c]);
    EscapeHtmlSpace(c);
    ReplaceBoldTrail(EscapeHtml(s), c, "<b>", "</b>");
    ReplaceItalicTrail(false, ReplaceBold(EscapeHtml(s), "<b>", "</b>"), c);
  }

  lemma RenderBodyLead(c: char, s: string)
    requires IsSpace(c)
    ensures RenderBody([c] + s) == [c] + RenderBody(s)
  {
    EscapeHtmlConcat([c], s);
    EscapeHtmlSpace(c);
    var e := EscapeHtml(s);
    assert ([c] + e)[1..] == e;
    var b := ReplaceBold(e, "<b>", "</b>");
    assert ReplaceBold([c] + e, "<b>", "</b>") == [c] + b;
    assert ([c] + b)[1..] == b;
  }

  /** A blank in front of a line is not seen by its heading, bullet or rule, and otherwise stays a blank. */
  lemma RenderLineLead(c: char, line: string)
    requires IsSpace(c)
    ensures IsRule([c] + line) == IsRule(line)
    ensures RenderLine([c] + line) == RenderLine(line) || RenderLine([c] + line) == [c] + RenderLine(line)
  {
    TrimLead(c, line);
    RenderBodyLead(c, line);
  }

  lemma RenderLineTrail(line: string, c: char)
    requires IsSpace(c)
    ensures IsRule(line + [c]) == IsRule(line)
    ensures RenderLine(line + [c]) == RenderLine(line) || RenderLine(line + [c]) == RenderLine(line) + [c]
  {
    TrimTrail(line, c);
    RenderBodyTrail(line, c);
  }

  // ---------------------------------------------------------------------------------------
  // The ink of a flattened text is the ink of its rendered lines, in order.

  /** The ink of some lines once rendered, horizontal rules dropped. */
  function InkOfLines(lines: seq<string>): string {
    Ink(Concat(RenderLines(lines)))
  }

  lemma {:induction false} RenderLinesConcat(a: seq<string>, b: seq<string>)
    ensures RenderLines(a + b) == RenderLines(a) + RenderLines(b)
  {
    hide RenderLine, IsRule;
    if a == [] {
      assert a + b == b;
    } else {
      assert (a + b)[1..] == a[1..] + b;
      RenderLinesConcat(a[1..], b);
    }
  }

  lemma InkOfLinesConcat(a: seq<string>, b: seq<string>)
    ensures InkOfLines(a + b) == InkOfLines(a) + InkOfLines(b)
  {
    RenderLinesConcat(a, b);
    ConcatAppend(RenderLines(a), RenderLines(b));
    InkConcat(Concat(RenderLines(a)), Concat(RenderLines(b)));
  }

  lemma InkOfLine(line: string)
    ensures InkOfLines([line]) == if IsRule(line) then "" else Ink(RenderLine(line))
  {
    assert [line][1..] == [];
    assert RenderLines([line][1..]) == [];
    if !IsRule(line) {
      var r := RenderLine(line);
      assert RenderLines([line]) == [r];
      assert Concat([r][1..]) == "";
      assert Concat([r]) == r + "" == r;
    }
  }

  lemma {:induction false} InkOfNewlines(s: string)
    requires forall i | 0 <= i < |s| :: s[i] == '\n'
    ensures Ink(s) == ""
  {
    if s != "" {
      InkOfNewlines(s[1..]);
    }
  }

  lemma {:induction false} InkCollapse(s: string)
    ensures Ink(CollapseBlankLines(s)) == Ink(s)
    decreases |s|
  {
    if s != "" {
      if s[0] != '\n' {
        InkCollapse(s[1..]);
        InkConcat([s[0]], CollapseBlankLines(s[1..]));
        InkConcat([s[0]], s[1..]);
        assert s == [s[0]] + s[1..];
      } else {
        var n := NewlineRun(s);
        var kept := if n >= 3 then "\n\n" else s[..n];
        InkCollapse(s[n..]);
        InkOfNewlines(s[..n]);
        InkOfNewlines(kept);
        InkConcat(kept, CollapseBlankLines(s[n..]));
        InkConcat(s[..n], s[n..]);
        assert s == s[..n] + s[n..];
      }
    }
  }

  lemma InkFlatten(markdown: string)
    ensures Ink(Flatten(markdown)) == InkOfLines(Split(markdown, '\n'))
  {
    var rendered := RenderLines(Split(markdown, '\n'));
    InkTrim(CollapseBlankLines(Join(rendered, "\n")));
    InkCollapse(Join(rendered, "\n"));
    InkOfNewlines("\n");
    InkJoin(rendered, "\n");
  }

  lemma InkOfLineLead(c: char, line: string)
    requires IsSpace(c)
    ensures InkOfLines([[c] + line]) == InkOfLines([line])
  {
    RenderLineLead(c, line);
    InkOfLine(line);
    InkOfLine([c] + line);
    InkTrimmedOnce(c, RenderLine(line));
  }

  lemma InkTrimmedOnce(c: char, s: string)
    requires IsSpace(c)
    ensures Ink([c] + s) == Ink(s) && Ink(s + [c]) == Ink(s)
  {
    assert ([c] + s)[1..] == s;
    InkConcat(s, [c]);
    assert [c][1..] == "";
    assert Ink([c]) == "";
  }

  lemma InkOfLineTrail(line: string, c: char)
    requires IsSpace(c)
    ensures InkOfLines([line + [c]]) == InkOfLines([line])
  {
    RenderLineTrail(line, c);
    InkOfLine(line);
    InkOfLine(line + [c]);
    InkTrimmedOnce(c, RenderLine(line));
  }

  /** Trimming a text before it is cut into lines and rendered loses no ink. */
  lemma {:induction false} InkOfLinesTrimStart(s: string)
    ensures InkOfLines(Split(TrimStart(s), '\n')) == InkOfLines(Split(s, '\n'))
  {
    hide InkOfLines;
    if s != "" && IsSpace(s[0]) {
      InkOfLinesTrimStart(s[1..]);
      var rest := Split(s[1..], '\n');
      if s[0] == '\n' {
        InkOfLinesConcat([""], rest);
        InkOfBlankLine();
      } else {
        InkOfLineLead(s[0], rest[0]);
        InkOfLinesConcat([[s[0]] + rest[0]], rest[1..]);
        InkOfLinesConcat([rest[0]], rest[1..]);
        assert rest == [rest[0]] + rest[1..];
      }
    }
  }

  lemma InkOfBlankLine()
    ensures InkOfLines([""]) == ""
  {
    InkOfLine("");
  }

  lemma InkOfLinesTrailingBlank(t: string, c: char)
    requires IsSpace(c)
    ensures InkOfLines(Split(t + [c], '\n')) == InkOfLines(Split(t, '\n'))
  {
    hide InkOfLines;
    SplitTrail(t, c, '\n');
    var parts := Split(t, '\n');
    if c == '\n' {
      InkOfLinesLast(parts, "");
      InkOfBlankLine();
    } else {
      var init, last := parts[..|parts| - 1], parts[|parts| - 1];
      assert parts == init + [last];
      InkOfLineTrail(last, c);
      InkOfLinesLast(init, last + [c]);
      InkOfLinesLast(init, last);
    }
  }

  lemma InkOfLinesLast(init: seq<string>, last: string)
    ensures InkOfLines(init + [last]) == InkOfLines(init) + InkOfLines([last])
  {
    InkOfLinesConcat(init, [last]);
  }

  lemma {:induction false} InkOfLinesTrimEnd(s: string)
    ensures InkOfLines(Split(TrimEnd(s), '\n')) == InkOfLines(Split(s, '\n'))
  {
    hide InkOfLines;
    if s != "" && IsSpace(s[|s| - 1]) {
      var t := s[..|s| - 1];
      InkOfLinesTrimEnd(t);
      assert s == t + [s[|s| - 1]];
      InkOfLinesTrailingBlank(t, s[|s| - 1]);
    }
  }

  lemma InkOfLinesTrim(s: string)
    ensures InkOfLines(Split(Trim(s), '\n')) == InkOfLines(Split(s, '\n'))
  {
    hide InkOfLines;
    InkOfLinesTrimStart(s);
    InkOfLinesTrimEnd(TrimStart(s));
  }

  // ---------------------------------------------------------------------------------------
  // Flattening one line.

  lemma {:induction false} CollapseLead(c: char, s: string)
    requires c != '\n'
    ensures CollapseBlankLines([c] + s) == [c] + CollapseBlankLines(s)
  {
    assert ([c] + s)[1..] == s;
  }

  lemma {:induction false} NewlineRunTrail(s: string, c: char)
    requires c != '\n'
    ensures NewlineRun(s + [c]) == NewlineRun(s)
  {
    if s != "" && s[0] == '\n' {
      assert (s + [c])[1..] == s[1..] + [c];
      NewlineRunTrail(s[1..], c);
    }
  }

  lemma {:induction false} CollapseTrail(s: string, c: char)
    requires c != '\n'
    ensures CollapseBlankLines(s + [c]) == CollapseBlankLines(s) + [c]
    decreases |s|
  {
    if s == "" {
      assert s + [c] == [c];
      assert [c][1..] == "";
      assert CollapseBlankLines([c]) == [c] + "";
    } else if s[0] != '\n' {
      assert (s + [c])[1..] == s[1..] + [c];
      CollapseTrail(s[1..], c);
    } else {
      NewlineRunTrail(s, c);
      var n := NewlineRun(s);
      assert (s + [c])[..n] == s[..n];
      assert (s + [c])[n..] == s[n..] + [c];
      CollapseTrail(s[n..], c);
    }
  }

  lemma FlattenLine(line: string)
    requires '\n' !in line
    ensures Flatten(line) == if IsRule(line) then "" else Trim(CollapseBlankLines(RenderLine(line)))
  {
    SplitPlain(line, '\n');
    assert [line][1..] == [];
    assert RenderLines([line][1..]) == [];
    if !IsRule(line) {
      assert RenderLines([line]) == [RenderLine(line)];
    } else {
      assert RenderLines([line]) == [];
    }
  }

  lemma FlattenLineLead(c: char, line: string)
    requires IsSpace(c) && c != '\n' && '\n' !in line
    ensures Flatten([c] + line) == Flatten(line)
  {
    FlattenLine(line);
    FlattenLine([c] + line);
    RenderLineLead(c, line);
    CollapseLead(c, RenderLine(line));
    TrimLead(c, CollapseBlankLines(RenderLine(line)));
  }

  lemma FlattenLineTrail(line: string, c: char)
    requires IsSpace(c) && c != '\n' && '\n' !in line
    ensures Flatten(line + [c]) == Flatten(line)
  {
    FlattenLine(line);
    FlattenLine(line + [c]);
    RenderLineTrail(line, c);
    CollapseTrail(RenderLine(line), c);
    TrimTrail(CollapseBlankLines(RenderLine(line)), c);
  }

  // ---------------------------------------------------------------------------------------
  // The constructs a policy document uses.

  lemma {:induction false} BoldSkips(a: string, rest: string, o: string, k: string)
    requires '*' !in a
    ensures ReplaceBold(a + rest, o, k) == a + ReplaceBold(rest, o, k)
  {
    if a == "" {
      assert a + rest == rest;
    } else {
      assert (a + rest)[0] == a[0] && (a + rest)[1..] == a[1..] + rest;
      BoldSkips(a[1..], rest, o, k);
      assert [a[0]] + (a[1..] + ReplaceBold(rest, o, k)) == a + ReplaceBold(rest, o, k);
    }
  }

  /** From `i` on, `x` runs to its end without a line terminator or a `**` that would end it sooner. */
  predicate BoldGoesOn(x: string, i: nat) {
    && (forall k | i <= k + 1 && 0 <= k < |x| :: !IsLineTerminator(x[k]))
    && (forall k | i <= k < |x| && x[k] == '*' :: k + 1 < |x| && x[k + 1] != '*')
  }

  /** What the lazy group between two `**` can hold: at least one character, and nothing that ends it sooner. */
  predicate IsBoldText(x: string) {
    x != "" && BoldGoesOn(x, 1)
  }

  lemma {:induction false} BoldEndIff(x: string, rest: string, j: nat)
    requires x != "" && 3 <= j <= |x| + 2
    ensures BoldEnd("**" + x + "**" + rest, j) == |x| + 2 <==> BoldGoesOn(x, j - 2)
    decreases |x| + 2 - j
  {
    hide IsLineTerminator;
    var s := "**" + x + "**" + rest;
    assert s[j - 1] == x[j - 3];
    if j < |x| + 2 {
      assert s[j] == x[j - 2];
      assert s[j + 1] == if j - 1 < |x| then x[j - 1] else '*';
      BoldEndIff(x, rest, j + 1);
    } else {
      assert s[j] == '*' && s[j + 1] == '*';
    }
  }

  /** A bold run that starts at `**` holds `x` if and only if `x` can stand there; it becomes a bold element
      that holds `x`, and the text after it is treated on its own. */
  lemma BoldRunRenders(x: string, rest: string, o: string, k: string)
    requires x != ""
    ensures BoldEnd("**" + x + "**" + rest, 3) == |x| + 2 <==> IsBoldText(x)
    ensures IsBoldText(x) ==> ReplaceBold("**" + x + "**" + rest, o, k) == o + x + k + ReplaceBold(rest, o, k)
  {
    var s := "**" + x + "**" + rest;
    BoldEndIff(x, rest, 3);
    assert s[2..|x| + 2] == x && s[|x| + 4..] == rest;
  }

  /** From `i` on, `x` runs to its end without a line terminator or a `*` that would end it sooner. */
  predicate ItalicGoesOn(x: string, i: nat)
    requires i >= 1
  {
    && (forall k | i <= k + 1 && 0 <= k < |x| :: !IsLineTerminator(x[k]))
    && (forall k | i <= k < |x| && x[k] == '*' :: IsSpace(x[k - 1]) || k + 1 == |x| || TouchesEmphasis(x[k + 1]))
  }

  /** What the lazy group between two `*` can hold: ink at both edges, and nothing that ends it sooner. */
  predicate IsItalicText(x: string) {
    x != "" && !IsSpace(x[0]) && !IsSpace(x[|x| - 1]) && ItalicGoesOn(x, 1)
  }

  lemma ItalicGoesOnStep(x: string, i: nat)
    requires 1 <= i <= |x|
    ensures ItalicGoesOn(x, i) <==>
            && !IsLineTerminator(x[i - 1])
            && (i < |x| ==> (x[i] == '*' ==> IsSpace(x[i - 1]) || i + 1 == |x| || TouchesEmphasis(x[i + 1]))
                            && ItalicGoesOn(x, i + 1))
  {
    hide IsSpace, TouchesEmphasis, IsLineTerminator;
  }

  lemma {:induction false} ItalicEndIff(x: string, rest: string, j: nat)
    requires x != "" && 2 <= j <= |x| + 1
    ensures ItalicEnd("*" + x + "*" + rest, j) == |x| + 1 <==>
            ItalicGoesOn(x, j - 1) && !IsSpace(x[|x| - 1]) && (rest != "" ==> !TouchesEmphasis(rest[0]))
    decreases |x| + 1 - j
  {
    assert TouchesEmphasis('*');
    hide IsSpace, TouchesEmphasis, IsLineTerminator, ItalicGoesOn;
    var s := "*" + x + "*" + rest;
    ItalicGoesOnStep(x, j - 1);
    assert s[j - 1] == x[j - 2];
    if j < |x| + 1 {
      assert s[j] == x[j - 1];
      assert s[j + 1] == if j < |x| then x[j] else '*';
      ItalicEndIff(x, rest, j + 1);
    } else {
      assert s[j] == '*' && (rest != "" ==> s[j + 1] == rest[0]);
    }
  }

  /** An italic run that starts at `*` holds `x` if and only if `x` can stand there and the run is not glued
      to a word or to more asterisks; it becomes an italic element that holds `x`. */
  lemma ItalicRunRenders(x: string, rest: string)
    requires x != ""
    ensures ItalicRunAt(false, "*" + x + "*" + rest) && ItalicEnd("*" + x + "*" + rest, 2) == |x| + 1
            <==> IsItalicText(x) && (rest != "" ==> !TouchesEmphasis(rest[0]))
    ensures IsItalicText(x) && (rest != "" ==> !TouchesEmphasis(rest[0])) ==>
              ReplaceItalic(false, "*" + x + "*" + rest) == "<i>" + x + "</i>" + ReplaceItalic(true, rest)
  {
    hide IsSpace, TouchesEmphasis, IsLineTerminator, ItalicGoesOn;
    var s := "*" + x + "*" + rest;
    ItalicEndIff(x, rest, 2);
    assert s[1] == x[0] && s[1..|x| + 1] == x && s[|x| + 2..] == rest;
  }

  lemma TrimIsIdentity(s: string)
    requires s != "" && !IsSpace(s[0]) && !IsSpace(s[|s| - 1])
    ensures TrimStart(s) == s && Trim(s) == s
  {
    hide IsSpace;
  }

  /** A blank and a title. */
  lemma BlankThenTitle(title: string)
    requires title != "" && IsOneLine(title) && !IsSpace(title[0])
    ensures AfterBlank(" " + title) == Some(title)
  {
    var t := " " + title;
    assert t[0] == ' ' && t[1..] == title;
    assert TrimStart(title) == title;
    assert IsSpace(' ');
  }

  lemma {:induction false} HashesThen(n: nat, rest: string)
    requires rest != "" && rest[0] != '#'
    ensures LeadingHashes(seq(n, i => '#') + rest) == n
  {
    var s := seq(n, i => '#') + rest;
    if n > 0 {
      assert s[1..] == seq(n - 1, i => '#') + rest;
      HashesThen(n - 1, rest);
    } else {
      assert s == rest;
    }
  }

  lemma HeadingOfHashes(n: nat, title: string)
    requires 1 <= n <= 6
    requires title != "" && IsOneLine(title) && !IsSpace(title[0])
    ensures Heading(seq(n, i => '#') + " " + title) == Some(title)
  {
    hide IsSpace, AfterBlank, IsOneLine;
    var hashes, t := seq(n, i => '#'), " " + title;
    assert hashes + " " + title == hashes + t;
    HashesThen(n, t);
    assert (hashes + t)[n..] == t;
    BlankThenTitle(title);
  }

  /** A line of one to six `#`, a space and a title becomes the title in bold, its own `**` taken out. */
  lemma HeadingRenders(n: nat, title: string)
    requires 1 <= n <= 6
    requires title != "" && IsOneLine(title) && !IsSpace(title[0]) && !IsSpace(title[|title| - 1])
    ensures RenderLine(seq(n, i => '#') + " " + title) == "<b>" + EscapeHtml(ReplaceBold(title, "", "")) + "</b>"
  {
    hide RenderLine, EscapeHtml, ReplaceBold, Heading, Trim, TrimStart, IsSpace, IsOneLine;
    var hashes := seq(n, i => '#');
    HeadingOfHashes(n, title);
    InkAtBothEnds(hashes, title);
    RenderHeading(hashes + " " + title, title);
  }

  lemma InkAtBothEnds(hashes: string, title: string)
    requires hashes != "" && hashes[0] == '#' && title != "" && !IsSpace(title[|title| - 1])
    ensures Trim(hashes + " " + title) == hashes + " " + title
  {
    var line := hashes + " " + title;
    assert line[0] == '#' && line[|line| - 1] == title[|title| - 1];
    TrimIsIdentity(line);
  }

  lemma RenderHeading(line: string, title: string)
    requires Trim(line) == line && Heading(line) == Some(title)
    ensures RenderLine(line) == "<b>" + EscapeHtml(ReplaceBold(title, "", "")) + "</b>"
  {
    hide EscapeHtml, ReplaceBold, Heading, Trim;
  }

  /** A line that starts with `- ` or `* ` becomes a bullet point. */
  lemma BulletRenders(mark: char, text: string)
    requires mark == '-' || mark == '*'
    requires text != "" && IsOneLine(text) && !IsSpace(text[0]) && !IsSpace(text[|text| - 1])
    ensures RenderLine([mark] + " " + text) == RenderBody("\U{2022} " + text)
  {
    var line := [mark] + " " + text;
    assert line[|line| - 1] == text[|text| - 1] && line[1..] == " " + text;
    assert !IsSpace(mark);
    hide RenderBody, Trim, TrimStart, IsSpace, IsOneLine, AfterBlank, EscapeHtml, ReplaceBold;
    TrimIsIdentity(line);
    BlankThenTitle(text);
  }
}
