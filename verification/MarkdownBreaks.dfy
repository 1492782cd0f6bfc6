/** Where `flatten` breaks lines and paragraphs, and which lines it drops. */
module MarkdownBreaks {
  import opened Text
  import opened Escape
  import opened Markdown

  function Newlines(n: nat): string {
    if n == 0 then "" else "\n" + Newlines(n - 1)
  }

  /** One newline stays one newline; an empty line, or any number of them, is one paragraph break. */
  function Break(n: nat): string
    requires n >= 1
  {
    if n == 1 then "\n" else "\n\n"
  }

  function LastLine(s: string): string {
    var lines := Split(s, '\n');
    lines[|lines| - 1]
  }

  function FirstLine(s: string): string {
    Split(s, '\n')[0]
  }

  /** The text of the rendered lines, before it is collapsed and trimmed. */
  function Rendered(s: string): string {
    Join(RenderLines(Split(s, '\n')), "\n")
  }

  predicate EndsInInk(s: string) {
    s != "" && !IsSpace(s[|s| - 1])
  }

  predicate StartsWithInk(s: string) {
    s != "" && !IsSpace(s[0])
  }

  // ---------------------------------------------------------------------------------------
  // Lines.

  lemma {:induction false} SplitConcat(a: string, b: string, sep: char)
    ensures Split(a + [sep] + b, sep) == Split(a, sep) + Split(b, sep)
  {
    if a == "" {
      assert (a + [sep] + b)[1..] == b;
    } else {
      assert (a + [sep] + b)[1..] == a[1..] + [sep] + b;
      assert (a + [sep] + b)[0] == a[0];
      SplitConcat(a[1..], b, sep);
    }
  }

  lemma {:induction false} JoinConcat(a: seq<string>, b: seq<string>, sep: string)
    requires a != [] && b != []
    ensures Join(a + b, sep) == Join(a, sep) + sep + Join(b, sep)
  {
    assert (a + b)[1..] == a[1..] + b;
    if |a| > 1 {
      JoinConcat(a[1..], b, sep);
      Regroup(a[0] + sep, Join(a[1..], sep), sep + Join(b, sep));
      Regroup(a[0] + sep + Join(a[1..], sep), sep, Join(b, sep));
      Regroup(Join(a[1..], sep), sep, Join(b, sep));
    } else {
      assert a[1..] + b == b;
    }
  }

  /** Lines on either side of one newline are rendered apart. */
  lemma RenderedOnce(a: string, b: string)
    ensures RenderLines(Split(a + "\n" + b, '\n')) == RenderLines(Split(a, '\n')) + RenderLines(Split(b, '\n'))
  {
    hide RenderLines, Split;
    SplitConcat(a, b, '\n');
    RenderLinesConcat(Split(a, '\n'), Split(b, '\n'));
  }

  lemma EmptyLineRenders()
    ensures RenderLines(Split("", '\n')) == [""] && Rendered("") == ""
  {
    assert RenderLine("") == "" by { NothingRenders(); }
    assert Split("", '\n') == [""];
    assert !IsRule("");
    assert [""][1..] == [];
    assert RenderLines([""][1..]) == [];
  }

  lemma NothingRenders()
    ensures RenderLine("") == ""
  {
    assert Trim("") == "";
    assert Heading("") == None && Bullet("") == None;
    assert EscapeHtml("") == "";
  }

  lemma {:induction false} RenderedApart(a: string, n: nat, b: string)
    requires n >= 1 && RenderLines(Split(a, '\n')) != [] && RenderLines(Split(b, '\n')) != []
    ensures Rendered(a + Newlines(n) + b) == Rendered(a) + Newlines(n) + Rendered(b)
    ensures RenderLines(Split(a + Newlines(n) + b, '\n')) != []
    decreases n
  {
    hide RenderLines, Split, Join;
    if n == 1 {
      assert Newlines(1) == "\n" + Newlines(0) == "\n";
      RenderedOnce(a, b);
      JoinConcat(RenderLines(Split(a, '\n')), RenderLines(Split(b, '\n')), "\n");
    } else {
      var below := "" + Newlines(n - 1) + b;
      EmptyLineRenders();
      RenderedApart("", n - 1, b);
      RenderedOnce(a, below);
      JoinConcat(RenderLines(Split(a, '\n')), RenderLines(Split(below, '\n')), "\n");
      assert a + Newlines(n) + b == a + "\n" + below;
      assert Rendered(below) == Newlines(n - 1) + Rendered(b);
      assert Rendered(a) + Newlines(n) + Rendered(b) == Rendered(a) + "\n" + (Newlines(n - 1) + Rendered(b));
    }
  }

  // ---------------------------------------------------------------------------------------
  // Rendering keeps ink at the edges of a line.

  lemma EscapeEnds(s: string)
    requires s != ""
    ensures EndsInInk(s) ==> EndsInInk(EscapeHtml(s))
    ensures StartsWithInk(s) ==> StartsWithInk(EscapeHtml(s))
  {
    var n := |s| - 1;
    hide EscapeHtml;
    EscapeHtmlConcat(s[..n], [s[n]]);
    EscapeHtmlConcat([s[0]], s[1..]);
    EscapeHtmlOne(s[n]);
    EscapeHtmlOne(s[0]);
    assert s == s[..n] + [s[n]] && s == [s[0]] + s[1..];
    EntityHasInk(s[n]);
    EntityHasInk(s[0]);
    EndsConcat(EscapeHtml(s[..n]), EntityOf(s[n]));
    StartsConcat(EntityOf(s[0]), EscapeHtml(s[1..]));
  }

  lemma EntityHasInk(c: char)
    ensures !IsSpace(c) ==> StartsWithInk(EntityOf(c)) && EndsInInk(EntityOf(c))
  {
  }

  lemma EndsConcat(a: string, b: string)
    ensures EndsInInk(b) ==> EndsInInk(a + b)
  {
    hide IsSpace;
  }

  lemma StartsConcat(a: string, b: string)
    ensures StartsWithInk(a) ==> StartsWithInk(a + b)
  {
    hide IsSpace;
  }

  lemma {:induction false} BoldEnds(s: string)
    requires s != ""
    ensures EndsInInk(s) ==> EndsInInk(ReplaceBold(s, "<b>", "</b>"))
    ensures StartsWithInk(s) ==> StartsWithInk(ReplaceBold(s, "<b>", "</b>"))
    decreases |s|
  {
    hide BoldEnd, ReplaceBold, EndsInInk, StartsWithInk;
    var n := if BoldRunAt(s) then BoldEnd(s, 3) + 2 else 1;
    var head, rest := if BoldRunAt(s) then "<b>" + s[2..n - 2] + "</b>" else [s[0]], s[n..];
    if BoldRunAt(s) {
      BoldElementFirst(s, "<b>", "</b>");
      WrapEnds(s[2..n - 2]);
    } else {
      BoldTextFirst(s, "<b>", "</b>");
      FirstEnds(s);
    }
    StartsConcat(head, ReplaceBold(rest, "<b>", "</b>"));
    if rest != "" {
      BoldEnds(rest);
      RestEnds(s, n);
      EndsConcat(head, ReplaceBold(rest, "<b>", "</b>"));
    } else {
      NoBold();
      assert head + "" == head;
    }
  }

  lemma WrapEnds(x: string)
    ensures EndsInInk("<b>" + x + "</b>") && StartsWithInk("<b>" + x + "</b>")
  {
    var s := "<b>" + x + "</b>";
    assert s[0] == '<' && s[|s| - 1] == '>';
  }

  lemma FirstEnds(s: string)
    requires s != ""
    ensures StartsWithInk([s[0]]) <==> StartsWithInk(s)
    ensures |s| == 1 ==> (EndsInInk([s[0]]) <==> EndsInInk(s))
  {
  }

  lemma RestEnds(s: string, n: nat)
    requires n < |s|
    ensures EndsInInk(s[n..]) <==> EndsInInk(s)
  {
  }

  predicate BoldRunAt(s: string) {
    |s| >= 2 && s[0] == '*' && s[1] == '*' && BoldEnd(s, 3) != -1
  }

  lemma BoldElementFirst(s: string, o: string, k: string)
    requires BoldRunAt(s)
    ensures ReplaceBold(s, o, k) == (o + s[2..BoldEnd(s, 3)] + k) + ReplaceBold(s[BoldEnd(s, 3) + 2..], o, k)
  {
    hide BoldEnd;
  }

  lemma BoldTextFirst(s: string, o: string, k: string)
    requires s != "" && !BoldRunAt(s)
    ensures ReplaceBold(s, o, k) == [s[0]] + ReplaceBold(s[1..], o, k)
  {
    hide BoldEnd;
  }

  lemma NoBold()
    ensures ReplaceBold("", "<b>", "</b>") == ""
  {
  }

  lemma {:induction false} ItalicEnds(touched: bool, s: string)
    requires s != ""
    ensures EndsInInk(s) ==> EndsInInk(ReplaceItalic(touched, s))
    ensures StartsWithInk(s) ==> StartsWithInk(ReplaceItalic(touched, s))
    decreases |s|
  {
    assert !IsSpace('<') && !IsSpace('>');
    hide IsSpace, ItalicEnd, ItalicRunAt, ReplaceItalic, TouchesEmphasis;
    ItalicUnfolds(touched, s);
    if ItalicRunAt(touched, s) {
      var e := ItalicEnd(s, 2);
      var head, rest := ItalicElement(s, e), s[e + 1..];
      if rest != "" {
        ItalicEnds(true, rest);
        EndsConcat(head, ReplaceItalic(true, rest));
      } else {
        NoItalic(true);
        assert head + "" == head;
      }
    } else {
      var rest, next := s[1..], TouchesEmphasis(s[0]);
      if rest != "" {
        ItalicEnds(next, rest);
        EndsConcat([s[0]], ReplaceItalic(next, rest));
      } else {
        NoItalic(next);
      }
    }
  }

  lemma NoItalic(touched: bool)
    ensures ReplaceItalic(touched, "") == ""
  {
  }

  lemma BodyEnds(body: string)
    requires body != ""
    ensures EndsInInk(body) ==> EndsInInk(RenderBody(body))
    ensures StartsWithInk(body) ==> StartsWithInk(RenderBody(body))
  {
    hide EscapeHtml, ReplaceBold, ReplaceItalic, IsSpace;
    EscapeEnds(body);
    var escaped := EscapeHtml(body);
    if escaped != "" {
      BoldEnds(escaped);
      var bold := ReplaceBold(escaped, "<b>", "</b>");
      if bold != "" {
        ItalicEnds(false, bold);
      }
    }
  }

  lemma {:induction false} TrimStartKeepsEnd(s: string)
    requires EndsInInk(s)
    ensures EndsInInk(TrimStart(s)) && TrimStart(s)[|TrimStart(s)| - 1] == s[|s| - 1]
  {
    hide IsSpace;
    if IsSpace(s[0]) {
      assert |s| > 1;
      TrimStartKeepsEnd(s[1..]);
    }
  }

  lemma TrimOfEnded(s: string)
    requires EndsInInk(s)
    ensures Trim(s) == TrimStart(s) && EndsInInk(Trim(s))
  {
    hide IsSpace;
    TrimStartKeepsEnd(s);
  }

  lemma {:induction false} TrimEndKeepsStart(s: string)
    requires StartsWithInk(s)
    ensures StartsWithInk(TrimEnd(s))
  {
    hide IsSpace;
    if IsSpace(s[|s| - 1]) {
      assert |s| > 1;
      TrimEndKeepsStart(s[..|s| - 1]);
    }
  }

  lemma LineEnds(line: string)
    ensures EndsInInk(line) ==> EndsInInk(RenderLine(line))
    ensures StartsWithInk(line) ==> StartsWithInk(RenderLine(line))
  {
    assert !IsSpace('<') && !IsSpace('>') && !IsSpace('\U{2022}');
    hide IsSpace, Heading, Trim, RenderBody, Bullet, TrimStart;
    var t := Trim(line);
    if Heading(t).Some? {
      var inner := EscapeHtml(ReplaceBold(Heading(t).value, "", ""));
      EndsConcat("<b>" + inner, "</b>");
      StartsConcat("<b>", inner + "</b>");
      assert "<b>" + inner + "</b>" == "<b>" + (inner + "</b>");
    } else if Bullet(t).Some? {
      var text := Bullet(t).value;
      BodyEnds("\U{2022} " + text);
      if EndsInInk(line) {
        TrimOfEnded(line);
        BulletEnds(t);
        EndsConcat("\U{2022} ", text);
      }
    } else if line != "" {
      BodyEnds(line);
    }
  }

  lemma BulletEnds(t: string)
    requires EndsInInk(t) && Bullet(t).Some?
    ensures EndsInInk(Bullet(t).value)
  {
    assert |t| >= 2;
    assert EndsInInk(t[1..]) by { hide IsSpace; assert t[1..][|t| - 2] == t[|t| - 1]; }
    TrimStartKeepsEnd(t[1..]);
  }

  // ---------------------------------------------------------------------------------------
  // Collapsing and trimming around a break.

  lemma {:induction false} NewlinesAre(n: nat)
    ensures |Newlines(n)| == n && forall i | 0 <= i < n :: Newlines(n)[i] == '\n'
  {
    if n > 0 {
      NewlinesAre(n - 1);
    }
  }

  lemma {:induction false} RunOfNewlines(n: nat, y: string)
    requires y == "" || y[0] != '\n'
    ensures NewlineRun(Newlines(n) + y) == n
  {
    if n > 0 {
      assert (Newlines(n) + y)[1..] == Newlines(n - 1) + y;
      RunOfNewlines(n - 1, y);
    } else {
      assert Newlines(0) + y == y;
    }
  }

  lemma CollapseRun(n: nat, y: string)
    requires n >= 1 && y != "" && y[0] != '\n'
    ensures CollapseBlankLines(Newlines(n) + y) == Break(n) + CollapseBlankLines(y)
  {
    NewlinesAre(n);
    RunOfNewlines(n, y);
    var s := Newlines(n) + y;
    assert s[..n] == Newlines(n) && s[n..] == y;
    if n < 3 {
      assert Newlines(1) == "\n" + Newlines(0) && Newlines(2) == "\n" + Newlines(1);
    }
  }

  lemma {:induction false} RunStays(x: string, z: string)
    requires x != "" && x[|x| - 1] != '\n'
    ensures NewlineRun(x) < |x| && NewlineRun(x + z) == NewlineRun(x)
  {
    if x[0] == '\n' {
      assert |x| > 1;
      assert (x + z)[1..] == x[1..] + z;
      RunStays(x[1..], z);
    }
  }

  lemma CollapseUnfolds(s: string)
    requires s != ""
    ensures CollapseBlankLines(s) ==
            if s[0] != '\n' then [s[0]] + CollapseBlankLines(s[1..])
            else (if NewlineRun(s) >= 3 then "\n\n" else s[..NewlineRun(s)]) + CollapseBlankLines(s[NewlineRun(s)..])
  {
    hide NewlineRun;
  }

  lemma {:induction false} CollapseApart(x: string, n: nat, y: string)
    requires n >= 1 && y != "" && y[0] != '\n'
    requires x == "" || x[|x| - 1] != '\n'
    ensures CollapseBlankLines(x + Newlines(n) + y) == CollapseBlankLines(x) + Break(n) + CollapseBlankLines(y)
    decreases |x|
  {
    hide CollapseBlankLines, NewlineRun, Newlines;
    var z := Newlines(n) + y;
    assert x + Newlines(n) + y == x + z;
    if x == "" {
      assert x + z == z;
      CollapseRun(n, y);
      CollapseNothing();
      assert "" + Break(n) == Break(n);
    } else {
      CollapseUnfolds(x);
      CollapseUnfolds(x + z);
      var k := 1;
      if x[0] == '\n' {
        RunStays(x, z);
        RunIsPositive(x);
        k := NewlineRun(x);
      }
      var head := if x[0] != '\n' then [x[0]] else if k >= 3 then "\n\n" else x[..k];
      CutBefore(x, z, k);
      CollapseApart(x[k..], n, y);
      Regroup(x[k..], Newlines(n), y);
      FourParts(head, CollapseBlankLines(x[k..]), Break(n), CollapseBlankLines(y));
    }
  }

  lemma CutBefore(x: string, z: string, k: nat)
    requires 1 <= k <= |x|
    ensures (x + z)[k..] == x[k..] + z && (x + z)[..k] == x[..k] && (x + z)[0] == x[0]
    ensures x[k..] != "" ==> x[k..][|x[k..]| - 1] == x[|x| - 1]
  {
  }

  lemma FourParts(a: string, b: string, c: string, d: string)
    ensures a + (b + c + d) == a + b + c + d
  {
  }

  lemma CollapseNothing()
    ensures CollapseBlankLines("") == ""
  {
  }

  lemma RunIsPositive(x: string)
    requires x != "" && x[0] == '\n'
    ensures NewlineRun(x) >= 1
  {
  }

  lemma {:induction false} CollapseEnds(x: string)
    requires EndsInInk(x)
    ensures EndsInInk(CollapseBlankLines(x))
    decreases |x|
  {
    assert IsSpace('\n');
    hide IsSpace, CollapseBlankLines, NewlineRun;
    CollapseUnfolds(x);
    var k := 1;
    if x[0] == '\n' {
      RunStays(x, "");
      RunIsPositive(x);
      k := NewlineRun(x);
    }
    var head := if x[0] != '\n' then [x[0]] else if k >= 3 then "\n\n" else x[..k];
    if x[k..] != "" {
      assert x[k..][|x[k..]| - 1] == x[|x| - 1];
      CollapseEnds(x[k..]);
      EndsConcat(head, CollapseBlankLines(x[k..]));
    } else {
      CollapseNothing();
      assert head + "" == head;
    }
  }

  lemma CollapseStarts(y: string)
    requires StartsWithInk(y)
    ensures StartsWithInk(CollapseBlankLines(y))
  {
    assert IsSpace('\n');
    hide IsSpace;
  }

  lemma {:induction false} TrimStartOfFront(x: string, z: string)
    requires EndsInInk(x)
    ensures TrimStart(x + z) == TrimStart(x) + z
  {
    hide IsSpace;
    assert (x + z)[0] == x[0] && (x + z)[1..] == x[1..] + z;
    if IsSpace(x[0]) {
      assert |x| > 1;
      TrimStartOfFront(x[1..], z);
    }
  }

  lemma {:induction false} TrimEndOfBack(w: string, y: string)
    requires StartsWithInk(y)
    ensures TrimEnd(w + y) == w + TrimEnd(y)
  {
    hide IsSpace;
    var n := |y| - 1;
    assert (w + y)[|w + y| - 1] == y[n] && (w + y)[..|w + y| - 1] == w + y[..n];
    if IsSpace(y[n]) {
      assert n > 0;
      TrimEndOfBack(w, y[..n]);
    }
  }

  lemma TrimApart(x: string, gap: string, y: string)
    requires EndsInInk(x) && StartsWithInk(y)
    ensures Trim(x + gap + y) == Trim(x) + gap + Trim(y)
  {
    hide TrimStart, TrimEnd;
    assert x + gap + y == x + (gap + y);
    TrimStartOfFront(x, gap + y);
    TrimOfEnded(x);
    assert TrimStart(x) + (gap + y) == (TrimStart(x) + gap) + y;
    TrimEndOfBack(TrimStart(x) + gap, y);
    assert TrimStart(y) == y by { NoTrimStart(y); }
  }

  lemma NoTrimStart(y: string)
    requires StartsWithInk(y)
    ensures TrimStart(y) == y
  {
  }

  // ---------------------------------------------------------------------------------------
  // The breaks of a flattened text.

  lemma {:induction false} LastLineEnds(s: string)
    requires EndsInInk(s)
    ensures EndsInInk(LastLine(s))
  {
    assert IsSpace('\n');
    hide IsSpace;
    if |s| > 1 {
      assert EndsInInk(s[1..]);
      LastLineEnds(s[1..]);
    } else {
      assert '\n' !in s;
      SplitPlain(s, '\n');
    }
  }

  lemma FirstLineStarts(s: string)
    requires StartsWithInk(s)
    ensures StartsWithInk(FirstLine(s))
  {
    assert IsSpace('\n');
    hide IsSpace;
  }

  lemma {:induction false} RenderedEnds(lines: seq<string>)
    requires lines != [] && !IsRule(lines[|lines| - 1]) && EndsInInk(lines[|lines| - 1])
    ensures RenderLines(lines) != [] && EndsInInk(Join(RenderLines(lines), "\n"))
  {
    hide IsRule, RenderLine, EndsInInk, Join;
    var n := |lines| - 1;
    var front, last := RenderLines(lines[..n]), RenderLine(lines[n]);
    assert lines == lines[..n] + [lines[n]];
    RenderLinesConcat(lines[..n], [lines[n]]);
    OneRenders(lines[n]);
    LineEnds(lines[n]);
    JoinOfOne(last);
    if front == [] {
      assert [] + [last] == [last];
    } else {
      JoinConcat(front, [last], "\n");
      EndsConcat(Join(front, "\n") + "\n", last);
    }
  }

  lemma OneRenders(line: string)
    requires !IsRule(line)
    ensures RenderLines([line]) == [RenderLine(line)]
  {
    assert [line][1..] == [];
    assert RenderLines([line][1..]) == [];
  }

  lemma JoinOfOne(line: string)
    ensures Join([line], "\n") == line
  {
  }

  lemma RenderedStarts(lines: seq<string>)
    requires lines != [] && !IsRule(lines[0]) && StartsWithInk(lines[0])
    ensures RenderLines(lines) != [] && StartsWithInk(Join(RenderLines(lines), "\n"))
  {
    hide IsRule, RenderLine, StartsWithInk, Join;
    var first, back := RenderLine(lines[0]), RenderLines(lines[1..]);
    LineEnds(lines[0]);
    JoinOfOne(first);
    assert RenderLines(lines) == [first] + back;
    if back == [] {
      assert [first] + [] == [first];
    } else {
      JoinConcat([first], back, "\n");
      StartsConcat(first, "\n" + Join(back, "\n"));
      assert first + "\n" + Join(back, "\n") == first + ("\n" + Join(back, "\n"));
    }
  }

  /** Whatever stands above and below: `n` newlines between two stretches of text that meet in ink are one
      newline between their renderings, or, if there is an empty line among them, one empty line. */
  lemma BreaksAreKept(a: string, n: nat, b: string)
    requires n >= 1
    requires EndsInInk(a) && !IsRule(LastLine(a))
    requires StartsWithInk(b) && !IsRule(FirstLine(b))
    ensures Flatten(a + Newlines(n) + b) == Flatten(a) + (if n == 1 then "\n" else "\n\n") + Flatten(b)
  {
    hide IsRule, RenderLines, Split, Join, CollapseBlankLines, Trim, EndsInInk, StartsWithInk, Newlines;
    LastLineEnds(a);
    FirstLineStarts(b);
    RenderedEnds(Split(a, '\n'));
    RenderedStarts(Split(b, '\n'));
    RenderedApart(a, n, b);
    var x, y := Rendered(a), Rendered(b);
    EdgesAreNoNewlines(x, y);
    CollapseApart(x, n, y);
    CollapseEnds(x);
    CollapseStarts(y);
    TrimApart(CollapseBlankLines(x), Break(n), CollapseBlankLines(y));
  }

  lemma EdgesAreNoNewlines(x: string, y: string)
    requires EndsInInk(x) && StartsWithInk(y)
    ensures x != "" && x[|x| - 1] != '\n' && y != "" && y[0] != '\n'
  {
    assert IsSpace('\n');
    hide IsSpace;
  }

  // ---------------------------------------------------------------------------------------
  // Rules.

  function Marks(c: char, n: nat): string {
    seq(n, i => c)
  }

  /** A horizontal rule is three or more asterisks, dashes or underscores, and blanks around them. */
  lemma RuleIff(line: string)
    ensures IsRule(line) <==>
            exists c, n :: n >= 3 && (c == '*' || c == '-' || c == '_') && Trim(line) == Marks(c, n)
  {
    hide Trim;
    var t := Trim(line);
    if IsRule(line) {
      assert t == Marks(t[0], |t|);
    }
    if exists c, n :: n >= 3 && (c == '*' || c == '-' || c == '_') && t == Marks(c, n) {
      var c, n :| n >= 3 && (c == '*' || c == '-' || c == '_') && t == Marks(c, n);
      assert t[0] == c && |t| == n;
    }
  }

  /** A rule between two stretches leaves no trace, not even an empty line. */
  lemma RuleLeavesNoTrace(a: string, rule: string, b: string)
    requires '\n' !in rule && IsRule(rule)
    ensures Flatten(a + "\n" + rule + "\n" + b) == Flatten(a + "\n" + b)
  {
    hide IsRule, RenderLine, Join, CollapseBlankLines, Trim;
    SplitPlain(rule, '\n');
    assert RenderLines([rule][1..]) == [] by { assert [rule][1..] == []; }
    assert RenderLines(Split(rule, '\n')) == [];
    hide RenderLines, Split;
    RenderedOnce(a + "\n" + rule, b);
    RenderedOnce(a, rule);
    RenderedOnce(a, b);
    var above := RenderLines(Split(a, '\n'));
    assert above + [] == above;
  }

  // ---------------------------------------------------------------------------------------
  // What is neither heading, bullet nor emphasis.

  lemma HashesAre(t: string)
    ensures var n := LeadingHashes(t);
            && (forall i | 0 <= i < n :: t[i] == '#')
            && (n < |t| ==> t[n] != '#')
  {
  }

  /** A line is a heading only after one to six `#` and a blank; otherwise, unless it is a bullet, it is
      rendered as it stands: the line with seven `#`, and the one without a blank after them. */
  lemma HashesWithoutRoom(line: string, n: nat)
    requires Trim(line) != "" && 1 <= n <= |Trim(line)|
    requires forall i | 0 <= i < n :: Trim(line)[i] == '#'
    requires n < |Trim(line)| ==> Trim(line)[n] != '#'
    requires n > 6 || n == |Trim(line)| || !IsSpace(Trim(line)[n])
    ensures RenderLine(line) == RenderBody(line)
  {
    hide Trim, IsSpace, RenderBody, IsOneLine;
    var t := Trim(line);
    HashesAre(t);
    assert LeadingHashes(t) == n;
    assert t[n..] != "" ==> t[n..][0] == t[n];
  }

  /** A dash or an asterisk makes a bullet only before a blank. */
  lemma DashWithoutRoom(line: string)
    requires Trim(line) != "" && (Trim(line)[0] == '-' || Trim(line)[0] == '*')
    requires |Trim(line)| == 1 || !IsSpace(Trim(line)[1])
    ensures RenderLine(line) == RenderBody(line)
  {
    hide Trim, IsSpace, RenderBody, IsOneLine;
    var t := Trim(line);
    assert t[1..] != "" ==> t[1..][0] == t[1];
  }

  /** Any other line is rendered as it stands. */
  lemma PlainLineRenders(line: string)
    requires Trim(line) != "" ==> Trim(line)[0] != '#' && Trim(line)[0] != '-' && Trim(line)[0] != '*'
    ensures RenderLine(line) == RenderBody(line)
  {
    hide Trim, IsSpace, RenderBody, IsOneLine;
  }

  /** Behind a word character or another asterisk, an asterisk starts no italic run. */
  lemma GluedAsteriskIsText(c: char, touched: bool, rest: string)
    requires 'a' <= c <= 'z' || 'A' <= c <= 'Z' || '0' <= c <= '9' || c == '_'
    ensures ReplaceItalic(touched, [c, '*'] + rest) == [c, '*'] + ReplaceItalic(true, rest)
    ensures ReplaceItalic(true, "*" + rest) == "*" + ReplaceItalic(true, rest)
  {
    hide ItalicEnd;
    var s := [c, '*'] + rest;
    assert s[1..] == "*" + rest && ("*" + rest)[1..] == rest;
    assert [c] + ("*" + ReplaceItalic(true, rest)) == [c, '*'] + ReplaceItalic(true, rest);
  }

  /** Before a blank it starts none either. */
  lemma AsteriskBeforeBlankIsText(touched: bool, rest: string)
    requires rest != "" && IsSpace(rest[0])
    ensures ReplaceItalic(touched, "*" + rest) == "*" + ReplaceItalic(true, rest)
  {
    hide ItalicEnd, IsSpace;
    assert ("*" + rest)[1] == rest[0] && ("*" + rest)[1..] == rest;
  }

  /** Behind any other character it may. */
  lemma ItalicBehind(c: char, touched: bool, x: string, rest: string)
    requires c != '*' && !('a' <= c <= 'z' || 'A' <= c <= 'Z' || '0' <= c <= '9' || c == '_')
    requires IsItalicText(x) && (rest != "" ==> !TouchesEmphasis(rest[0]))
    ensures ReplaceItalic(touched, [c] + ("*" + x + "*" + rest)) ==
            [c] + ("<i>" + x + "</i>" + ReplaceItalic(true, rest))
  {
    hide ItalicEnd, IsSpace, ItalicGoesOn;
    var s := "*" + x + "*" + rest;
    assert ([c] + s)[1..] == s;
    ItalicRunRenders(x, rest);
  }
}
