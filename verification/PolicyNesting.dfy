/** Rendered policy text under the Telegram check of `telegram-message.ts`: all its tags are allowed,
    and it nests properly exactly when no italic run crosses a bold tag. */
module PolicyNesting {
  import opened Text
  import opened Escape
  import opened Markdown
  import opened Markup
  import opened MessageFormat
  import opened MessageNesting
  import Packing
  import Policies
  import PolicyPages

  /** The tags of a text of whole emphasis tags. */
  function TagEdges(s: string): seq<Edge>
    decreases |s|
  {
    if s == "" then []
    else FirstEdge(s) + TagEdges(s[Step(s)..])
  }

  lemma {:induction false} TagEdgesConcat(a: string, b: string)
    requires Whole(a)
    ensures TagEdges(a + b) == TagEdges(a) + TagEdges(b)
    decreases |a|
  {
    hide TagAt, TagEdges, Whole, FirstEdge;
    if a == "" {
      assert a + b == b;
      PlainHasNoEdges("");
    } else {
      WholeAfterStep(a);
      TagEdgesConcat(a[Step(a)..], b);
      StepOfConcat(a, b);
      EdgesUnfold(a);
      EdgesUnfold(a + b);
      Regroup(FirstEdge(a), TagEdges(a[Step(a)..]), TagEdges(b));
    }
  }

  lemma StepOfConcat(a: string, b: string)
    requires a != "" && Whole(a)
    ensures FirstEdge(a + b) == FirstEdge(a) && (a + b)[Step(a + b)..] == a[Step(a)..] + b
  {
    hide TagAt, Step, Whole;
    StepConcat(a, b);
    FirstTag(a, b);
  }

  function FirstEdge(s: string): seq<Edge> {
    if TagAt(s) > 0 then [Edge(TagAt(s) == 4, [s[TagAt(s) - 2]])] else []
  }

  lemma EdgesUnfold(s: string)
    requires s != ""
    ensures TagEdges(s) == FirstEdge(s) + TagEdges(s[Step(s)..])
  {
    hide TagAt, Step;
  }

  lemma FirstTag(a: string, b: string)
    requires a != "" && Whole(a)
    ensures TagAt(a + b) == TagAt(a) && FirstEdge(a + b) == FirstEdge(a)
  {
  }

  lemma {:induction false} PlainHasNoEdges(s: string)
    requires '<' !in s
    ensures TagEdges(s) == []
  {
    if s != "" {
      PlainHasNoEdges(s[1..]);
    }
  }

  lemma TagIsOneEdge(close: bool, kind: char)
    requires kind == 'b' || kind == 'i'
    ensures TagEdges(Tag(close, kind)) == [Edge(close, [kind])] && Whole(Tag(close, kind))
  {
    var t := Tag(close, kind);
    ReadOneTag(close, kind);
    assert t[|t|..] == "";
    assert TagEdges(t) == [Edge(close, [kind])] + TagEdges("");
  }

  /** The scanner of the check finds exactly these tags. */
  lemma {:induction false} TokensAreTags(s: string)
    requires Whole(s)
    ensures Edges(Tokens(s)) == TagEdges(s)
    decreases |s|
  {
    if s != "" {
      hide Whole;
      WholeAfterStep(s);
      TokensAreTags(s[Step(s)..]);
      if TagAt(s) > 0 {
        EmphasisIsMatched(s);
      } else {
        assert MatchTag(s) == NoTag;
      }
    }
  }

  lemma EmphasisIsMatched(s: string)
    requires TagAt(s) > 0
    ensures MatchTag(s) == TagMatch(Token(TagAt(s) == 4, [s[TagAt(s) - 2]], ""), TagAt(s))
  {
    var n := TagAt(s);
    var kind := s[n - 2];
    assert SkipSpaces(s, 1) == 1;
    assert n == 4 ==> SkipSpaces(s, 2) == 2;
    assert SkipName(s, n - 1) == n - 1;
    assert SkipName(s, n - 2) == n - 1;
    assert SkipTo(s, '>', n - 1) == n - 1;
    assert s[n - 2..n - 1] == [kind];
    LowerOne(kind);
  }

  lemma LowerOne(kind: char)
    requires kind == 'b' || kind == 'i'
    ensures Lower([kind]) == [kind]
  {
  }

  // ---------------------------------------------------------------------------------------
  // Bold tags open and close in turn.

  /** Bold tags in turn, the first one closing if a bold run is `inside`. */
  predicate Alternate(inside: bool, edges: seq<Edge>)
    decreases |edges|
  {
    edges == [] || (edges[0] == Edge(inside, "b") && Alternate(!inside, edges[1..]))
  }

  function InsideAfter(inside: bool, edges: seq<Edge>): bool {
    if |edges| % 2 == 0 then inside else !inside
  }

  lemma {:induction false} AlternateConcat(inside: bool, a: seq<Edge>, b: seq<Edge>)
    ensures Alternate(inside, a + b) <==> Alternate(inside, a) && Alternate(InsideAfter(inside, a), b)
    ensures InsideAfter(inside, a + b) == InsideAfter(InsideAfter(inside, a), b)
    decreases |a|
  {
    if a == [] {
      assert a + b == b;
    } else {
      assert (a + b)[1..] == a[1..] + b;
      AlternateConcat(!inside, a[1..], b);
    }
  }

  lemma {:induction false} BoldAlternates(s: string)
    requires '<' !in s && '>' !in s
    ensures var r := ReplaceBold(s, "<b>", "</b>");
            Whole(r) && Alternate(false, TagEdges(r)) && !InsideAfter(false, TagEdges(r))
    decreases |s|
  {
    hide Whole, TagEdges;
    if s != "" {
      if |s| >= 2 && s[0] == '*' && s[1] == '*' && BoldEnd(s, 3) != -1 {
        var e := BoldEnd(s, 3);
        BoldAlternates(s[e + 2..]);
        BoldPair(s[2..e], ReplaceBold(s[e + 2..], "<b>", "</b>"));
      } else {
        BoldAlternates(s[1..]);
        PlainFirst(s[0], ReplaceBold(s[1..], "<b>", "</b>"));
      }
    } else {
      PlainHasNoEdges("");
      ReadPlain("");
    }
  }

  lemma PlainFirst(c: char, rest: string)
    requires c != '<' && c != '>' && Whole(rest)
    ensures Whole([c] + rest) && TagEdges([c] + rest) == TagEdges(rest)
  {
    ReadOne(c);
    PlainHasNoEdges([c]);
    TagsConcat([c], rest);
    TagEdgesConcat([c], rest);
  }

  lemma BoldPair(inner: string, rest: string)
    requires '<' !in inner && '>' !in inner
    requires Whole(rest) && Alternate(false, TagEdges(rest)) && !InsideAfter(false, TagEdges(rest))
    ensures var r := "<b>" + inner + "</b>" + rest;
            Whole(r) && Alternate(false, TagEdges(r)) && !InsideAfter(false, TagEdges(r))
  {
    hide Whole, TagEdges, Alternate, InsideAfter;
    ReadPlain(inner);
    PlainHasNoEdges(inner);
    WrappedEdges('b', inner, rest);
    assert "<b>" == Tag(false, 'b') && "</b>" == Tag(true, 'b');
    var pair := [Edge(false, "b")] + [] + [Edge(true, "b")];
    PairAlternates(pair);
    AlternateConcat(false, pair, TagEdges(rest));
  }

  lemma PairAlternates(pair: seq<Edge>)
    requires pair == [Edge(false, "b")] + [] + [Edge(true, "b")]
    ensures Alternate(false, pair) && !InsideAfter(false, pair)
  {
    assert pair[1..] == [Edge(true, "b")] && pair[1..][1..] == [];
  }

  lemma WrappedEdges(kind: char, inner: string, rest: string)
    requires (kind == 'b' || kind == 'i') && Whole(inner) && Whole(rest)
    ensures var r := Tag(false, kind) + inner + Tag(true, kind) + rest;
            && Whole(r)
            && TagEdges(r) == [Edge(false, [kind])] + TagEdges(inner) + [Edge(true, [kind])] + TagEdges(rest)
  {
    hide Whole, TagEdges;
    var open, close := Tag(false, kind), Tag(true, kind);
    TagIsOneEdge(false, kind);
    TagIsOneEdge(true, kind);
    TagsConcat(open, inner);
    TagEdgesConcat(open, inner);
    TagsConcat(open + inner, close);
    TagEdgesConcat(open + inner, close);
    TagsConcat(open + inner + close, rest);
    TagEdgesConcat(open + inner + close, rest);
  }

  // ---------------------------------------------------------------------------------------
  // Italic runs.

  /** Every italic run holds no bold tag, or starts outside bold text and holds whole bold runs;
      `inside` says that `s` begins in bold text. */
  predicate RunsStayApart(touched: bool, s: string, inside: bool)
    decreases |s|
  {
    if s == "" then true
    else if ItalicRunAt(touched, s) then
      var e := ItalicEnd(s, 2);
      var inner := TagEdges(s[1..e]);
      (inner == [] || (!inside && |inner| % 2 == 0)) && RunsStayApart(true, s[e + 1..], InsideAfter(inside, inner))
    else
      RunsStayApart(TouchesEmphasis(s[Step(s) - 1]), s[Step(s)..], if TagAt(s) > 0 then !inside else inside)
  }

  function Bolds(inside: bool): seq<string> {
    if inside then ["b"] else []
  }

  lemma EmphasisIsAllowed()
    ensures IsAllowed("b") && IsAllowed("i")
  {
    assert ["b", "strong", "i"][2] == "i";
  }

  /** Whole bold runs, from outside, are nested. */
  lemma {:induction false} PairsRunClean(open: seq<string>, edges: seq<Edge>)
    requires Alternate(false, edges) && |edges| % 2 == 0
    ensures RunProblems(open, edges) == [] && RunOpen(open, edges) == open
    decreases |edges|
  {
    hide IsAllowed, RunProblems, RunOpen;
    EmphasisIsAllowed();
    if edges == [] {
      NothingRuns(open);
    } else {
      assert edges[1..][0] == edges[1] == Edge(true, "b");
      assert edges[1..][1..] == edges[2..];
      RunUnfolds(open, edges);
      RunUnfolds(open + ["b"], edges[1..]);
      assert (open + ["b"])[..|open|] == open;
      PairsRunClean(open, edges[2..]);
    }
  }

  /** An italic run that holds a bold tag otherwise is a problem where it ends at the latest. */
  lemma CrossingIsAProblem(open: seq<string>, inner: seq<Edge>, inside: bool)
    requires Alternate(inside, inner) && inner != [] && (inside || |inner| % 2 == 1)
    ensures RunProblems(open, [Edge(false, "i")] + inner + [Edge(true, "i")]) != []
  {
    hide IsAllowed, RunProblems, RunOpen;
    EmphasisIsAllowed();
    var later := inner + [Edge(true, "i")];
    Regroup([Edge(false, "i")], inner, [Edge(true, "i")]);
    RunConcat(open, [Edge(false, "i")], later);
    RunOne(open, Edge(false, "i"));
    if inside {
      RunUnfolds(open + ["i"], later);
    } else {
      LeftOpen(open + ["i"], inner);
      RunConcat(open + ["i"], inner, [Edge(true, "i")]);
      RunOne(open + ["i"] + ["b"], Edge(true, "i"));
    }
  }

  /** A bold run that is opened and not closed stays on the stack. */
  lemma LeftOpen(stack: seq<string>, inner: seq<Edge>)
    requires Alternate(false, inner) && |inner| % 2 == 1
    ensures RunOpen(stack, inner) == stack + ["b"]
  {
    hide IsAllowed, RunProblems, RunOpen;
    EmphasisIsAllowed();
    var n := |inner| - 1;
    assert inner == inner[..n] + [inner[n]];
    AlternateConcat(false, inner[..n], [inner[n]]);
    PairsRunClean(stack, inner[..n]);
    RunConcat(stack, inner[..n], [inner[n]]);
    RunOne(stack, inner[n]);
  }

  lemma RunIsClean(open: seq<string>, inner: seq<Edge>)
    requires Alternate(false, inner) && |inner| % 2 == 0
    ensures var edges := [Edge(false, "i")] + inner + [Edge(true, "i")];
            RunProblems(open, edges) == [] && RunOpen(open, edges) == open
  {
    hide IsAllowed, RunProblems, RunOpen;
    EmphasisIsAllowed();
    var first, last := [Edge(false, "i")], [Edge(true, "i")];
    var stack := open + ["i"];
    RunConcat(open, first + inner, last);
    RunConcat(open, first, inner);
    RunOne(open, first[0]);
    PairsRunClean(stack, inner);
    RunOne(stack, last[0]);
    assert stack[..|stack| - 1] == open;
  }

  /** What the stack machine makes of a rendered text, from inside or outside bold text. */
  ghost predicate Verdict(open: seq<string>, edges: seq<Edge>, clean: bool) {
    && (clean ==> RunProblems(open, edges) == [] && RunOpen(open, edges) == [])
    && (!clean ==> RunProblems(open, edges) != [])
  }

  /** One italic run in front. */
  lemma RunThenRest(inside: bool, inner: seq<Edge>, rest: seq<Edge>, clean: bool)
    requires Alternate(inside, inner)
    requires Verdict(Bolds(InsideAfter(inside, inner)), rest, clean)
    ensures Verdict(Bolds(inside), [Edge(false, "i")] + inner + [Edge(true, "i")] + rest,
                    (inner == [] || (!inside && |inner| % 2 == 0)) && clean)
  {
    hide IsAllowed, RunProblems, RunOpen;
    var run := [Edge(false, "i")] + inner + [Edge(true, "i")];
    RunConcat(Bolds(inside), run, rest);
    if inner == [] || (!inside && |inner| % 2 == 0) {
      assert inner == [] ==> Alternate(false, inner);
      RunIsClean(Bolds(inside), inner);
    } else {
      CrossingIsAProblem(Bolds(inside), inner, inside);
    }
  }

  /** One step without an italic run in front. */
  lemma StepThenRest(inside: bool, first: seq<Edge>, rest: seq<Edge>, clean: bool)
    requires first == [] || first == [Edge(inside, "b")]
    requires Verdict(Bolds(if first == [] then inside else !inside), rest, clean)
    ensures Verdict(Bolds(inside), first + rest, clean)
  {
    hide IsAllowed, RunProblems, RunOpen;
    if first == [] {
      assert first + rest == rest;
    } else {
      BoldEdgeMoves(inside);
      RunConcat(Bolds(inside), first, rest);
    }
  }

  lemma BoldEdgeMoves(inside: bool)
    ensures RunProblems(Bolds(inside), [Edge(inside, "b")]) == []
    ensures RunOpen(Bolds(inside), [Edge(inside, "b")]) == Bolds(!inside)
  {
    hide IsAllowed, RunProblems, RunOpen;
    EmphasisIsAllowed();
    RunOne(Bolds(inside), Edge(inside, "b"));
    assert ["b"][..0] == [];
    assert [] + ["b"] == ["b"];
  }

  lemma {:induction false} ItalicVerdict(touched: bool, s: string, inside: bool)
    requires Whole(s) && Alternate(inside, TagEdges(s)) && !InsideAfter(inside, TagEdges(s))
    ensures Whole(ReplaceItalic(touched, s))
    ensures Verdict(Bolds(inside), TagEdges(ReplaceItalic(touched, s)), RunsStayApart(touched, s, inside))
    decreases |s|
  {
    hide Verdict, Bolds, Alternate, Whole, InsideAfter;
    ItalicReadsTheSame(touched, s);
    if s == "" {
      NothingIsClean(inside);
    } else if ItalicRunAt(touched, s) {
      hide ItalicRunAt, ReplaceItalic, TagEdges;
      RunVerdict(touched, s, inside);
    } else {
      hide ItalicRunAt, ReplaceItalic, TagEdges;
      StepVerdict(touched, s, inside);
    }
  }

  lemma RunVerdict(touched: bool, s: string, inside: bool)
    requires ItalicRunAt(touched, s)
    requires Whole(s) && Alternate(inside, TagEdges(s)) && !InsideAfter(inside, TagEdges(s))
    ensures Verdict(Bolds(inside), TagEdges(ReplaceItalic(touched, s)), RunsStayApart(touched, s, inside))
    decreases |s|, 0
  {
    hide Verdict, Bolds, Alternate, Whole, InsideAfter, ItalicRunAt, ReplaceItalic, TagEdges, RunsStayApart;
    var e := ItalicEnd(s, 2);
    var inner, rest := s[1..e], s[e + 1..];
    ItalicUnfolds(touched, s);
    CutAtNeutral(s, e);
    ItalicRunIsWhole(s, e);
    RunEdges(s, e);
    AlternateConcat(inside, TagEdges(inner), TagEdges(rest));
    ItalicVerdict(true, rest, InsideAfter(inside, TagEdges(inner)));
    var out := ReplaceItalic(true, rest);
    WrappedEdges('i', inner, out);
    assert "<i>" == Tag(false, 'i') && "</i>" == Tag(true, 'i');
    var after := InsideAfter(inside, TagEdges(inner));
    RunThenRest(inside, TagEdges(inner), TagEdges(out), RunsStayApart(true, rest, after));
    UnfoldApart(touched, s, inside);
  }

  lemma NothingIsClean(inside: bool)
    requires !InsideAfter(inside, TagEdges(""))
    ensures Verdict(Bolds(inside), TagEdges(ReplaceItalic(true, "")), true)
    ensures ReplaceItalic(true, "") == "" == ReplaceItalic(false, "")
  {
  }

  lemma UnfoldApart(touched: bool, s: string, inside: bool)
    requires ItalicRunAt(touched, s)
    ensures RunsStayApart(touched, s, inside) <==>
            (var e := ItalicEnd(s, 2);
             var inner := TagEdges(s[1..e]);
             && (inner == [] || (!inside && |inner| % 2 == 0))
             && RunsStayApart(true, s[e + 1..], InsideAfter(inside, inner)))
  {
    hide TagEdges, InsideAfter;
  }

  lemma RunEdges(s: string, e: nat)
    requires Whole(s) && 2 <= e < |s| && s[0] == '*' && s[e] == '*' && Whole(s[1..e])
    ensures TagEdges(s) == TagEdges(s[1..e]) + TagEdges(s[e + 1..])
  {
    hide Whole, TagEdges;
    var inner, rest := s[1..e], s[e + 1..];
    assert s == ['*'] + (inner + (['*'] + rest));
    ReadOne('*');
    PlainHasNoEdges(['*']);
    TagEdgesConcat(['*'], inner + (['*'] + rest));
    TagEdgesConcat(inner, ['*'] + rest);
    TagEdgesConcat(['*'], rest);
  }

  lemma StepVerdict(touched: bool, s: string, inside: bool)
    requires s != "" && !ItalicRunAt(touched, s)
    requires Whole(s) && Alternate(inside, TagEdges(s)) && !InsideAfter(inside, TagEdges(s))
    ensures Verdict(Bolds(inside), TagEdges(ReplaceItalic(touched, s)), RunsStayApart(touched, s, inside))
    decreases |s|, 0
  {
    hide Verdict, Bolds, Whole, ReplaceItalic, ItalicRunAt;
    var k, next := Step(s), TouchesEmphasis(s[Step(s) - 1]);
    var front, rest := s[..k], s[k..];
    var first := if TagAt(s) > 0 then [Edge(TagAt(s) == 4, [s[TagAt(s) - 2]])] else [];
    assert TagEdges(s) == first + TagEdges(rest);
    hide TagEdges;
    AlternateConcat(inside, first, TagEdges(rest));
    WholeAfterStep(s);
    StepIsWhole(s);
    ItalicVerdict(next, rest, InsideAfter(inside, first));
    ItalicSkipsStep(touched, s);
    TagEdgesConcat(front, ReplaceItalic(next, rest));
    FrontEdges(s, first);
    var after := InsideAfter(inside, first);
    StepThenRest(inside, first, TagEdges(ReplaceItalic(next, rest)), RunsStayApart(next, rest, after));
  }

  lemma FrontEdges(s: string, first: seq<Edge>)
    requires s != "" && Whole(s)
    requires first == if TagAt(s) > 0 then [Edge(TagAt(s) == 4, [s[TagAt(s) - 2]])] else []
    ensures TagEdges(s[..Step(s)]) == first
  {
    hide Whole;
    if TagAt(s) > 0 {
      HeadIsTag(s);
      TagIsOneEdge(TagAt(s) == 4, s[TagAt(s) - 2]);
    } else {
      WholeAfterStep(s);
      assert s[..1] == [s[0]];
      PlainHasNoEdges([s[0]]);
    }
  }

  // ---------------------------------------------------------------------------------------
  // Rendered lines and texts.

  /** No italic run of a body crosses a bold tag. */
  predicate BodyStaysApart(body: string) {
    RunsStayApart(false, ReplaceBold(EscapeHtml(body), "<b>", "</b>"), false)
  }

  predicate LineStaysApart(line: string) {
    var t := Trim(line);
    if Heading(t).Some? then true
    else if Bullet(t).Some? then BodyStaysApart("\U{2022} " + Bullet(t).value)
    else BodyStaysApart(line)
  }

  lemma BodyVerdict(body: string)
    ensures Whole(RenderBody(body))
    ensures Verdict([], TagEdges(RenderBody(body)), BodyStaysApart(body))
  {
    hide Verdict, Whole, TagEdges, RunsStayApart;
    EscapeHtmlLeavesNoMarkup(body);
    BoldAlternates(EscapeHtml(body));
    ItalicVerdict(false, ReplaceBold(EscapeHtml(body), "<b>", "</b>"), false);
  }

  lemma LineVerdict(line: string)
    ensures Whole(RenderLine(line))
    ensures Verdict([], TagEdges(RenderLine(line)), LineStaysApart(line))
  {
    hide Verdict, Whole, TagEdges, BodyStaysApart, RenderBody;
    var t := Trim(line);
    if Heading(t).Some? {
      HeadingVerdict(ReplaceBold(Heading(t).value, "", ""));
    } else if Bullet(t).Some? {
      BodyVerdict("\U{2022} " + Bullet(t).value);
    } else {
      BodyVerdict(line);
    }
  }

  lemma HeadingVerdict(title: string)
    ensures var r := "<b>" + EscapeHtml(title) + "</b>"; Whole(r) && Verdict([], TagEdges(r), true)
  {
    hide Whole, TagEdges, Verdict;
    EscapeHtmlLeavesNoMarkup(title);
    var inner := EscapeHtml(title);
    ReadPlain(inner);
    ReadPlain("");
    PlainHasNoEdges(inner);
    PlainHasNoEdges("");
    WrappedEdges('b', inner, "");
    assert "<b>" + inner + "</b>" == Tag(false, 'b') + inner + Tag(true, 'b') + "";
    PairIsClean();
  }

  lemma PairIsClean()
    ensures Verdict([], [Edge(false, "b")] + [] + [Edge(true, "b")] + [], true)
  {
    hide RunProblems, RunOpen, IsAllowed;
    var edges := [Edge(false, "b"), Edge(true, "b")];
    assert [Edge(false, "b")] + [] + [Edge(true, "b")] + [] == edges;
    assert edges[1..] == [Edge(true, "b")] && edges[1..][1..] == [];
    PairsRunClean([], edges);
  }

  predicate LinesStayApart(lines: seq<string>) {
    forall i | 0 <= i < |lines| && !IsRule(lines[i]) :: LineStaysApart(lines[i])
  }

  lemma VerdictConcat(a: seq<Edge>, b: seq<Edge>, cleanA: bool, cleanB: bool)
    requires Verdict([], a, cleanA) && Verdict([], b, cleanB)
    ensures Verdict([], a + b, cleanA && cleanB)
  {
    hide RunProblems, RunOpen;
    RunConcat([], a, b);
  }

  lemma {:induction false} LinesVerdict(lines: seq<string>)
    ensures var r := Join(RenderLines(lines), "\n");
            Whole(r) && Verdict([], TagEdges(r), LinesStayApart(lines))
  {
    hide Verdict, Whole, TagEdges, RenderLine, IsRule, LineStaysApart;
    if lines == [] {
      ReadPlain("");
      PlainHasNoEdges("");
      NoEdgesClean();
    } else {
      var rest := RenderLines(lines[1..]);
      LinesVerdict(lines[1..]);
      assert forall i | 0 < i < |lines| :: lines[i] == lines[1..][i - 1];
      assert LinesStayApart(lines) <==> (IsRule(lines[0]) || LineStaysApart(lines[0])) && LinesStayApart(lines[1..]);
      if !IsRule(lines[0]) {
        var first := RenderLine(lines[0]);
        LineVerdict(lines[0]);
        assert RenderLines(lines) == [first] + rest;
        assert ([first] + rest)[1..] == rest;
        if rest == [] {
          assert Join([first] + rest, "\n") == first;
          OnlyRules(lines[1..]);
        } else {
          JoinVerdict(first, Join(rest, "\n"), LineStaysApart(lines[0]), LinesStayApart(lines[1..]));
        }
      } else {
        assert [] + rest == rest;
      }
    }
  }

  lemma {:induction false} OnlyRules(lines: seq<string>)
    requires RenderLines(lines) == []
    ensures LinesStayApart(lines)
  {
    hide RenderLine, IsRule, LineStaysApart;
    if lines != [] {
      OnlyRules(lines[1..]);
      assert forall i | 0 < i < |lines| :: lines[i] == lines[1..][i - 1];
    }
  }

  lemma NoEdgesClean()
    ensures Verdict([], [], true) && Join([], "\n") == ""
  {
  }

  lemma JoinVerdict(first: string, rest: string, cleanFirst: bool, cleanRest: bool)
    requires Whole(first) && Verdict([], TagEdges(first), cleanFirst)
    requires Whole(rest) && Verdict([], TagEdges(rest), cleanRest)
    ensures var r := first + "\n" + rest; Whole(r) && Verdict([], TagEdges(r), cleanFirst && cleanRest)
  {
    hide Verdict, Whole, TagEdges;
    assert first + "\n" + rest == first + (['\n'] + rest);
    PlainFirst('\n', rest);
    TagsConcat(first, ['\n'] + rest);
    TagEdgesConcat(first, ['\n'] + rest);
    VerdictConcat(TagEdges(first), TagEdges(rest), cleanFirst, cleanRest);
  }

  lemma SameEdges(front: string, rest: string, kept: string, out: string)
    requires Whole(front) && Whole(kept)
    requires TagEdges(front) == TagEdges(kept) && TagEdges(rest) == TagEdges(out)
    ensures TagEdges(front + rest) == TagEdges(kept + out)
  {
    hide Whole, TagEdges;
    TagEdgesConcat(front, rest);
    TagEdgesConcat(kept, out);
  }

  lemma {:induction false} CollapseKeepsEdges(s: string)
    requires Whole(s)
    ensures TagEdges(CollapseBlankLines(s)) == TagEdges(s)
    decreases |s|
  {
    hide Whole, TagEdges, Step;
    if s != "" {
      var n := if s[0] == '\n' then NewlineRun(s) else Step(s);
      var front, rest := s[..n], s[n..];
      var kept := if s[0] == '\n' && n >= 3 then "\n\n" else front;
      assert s == front + rest;
      if s[0] == '\n' {
        ReadPlain(front);
        ReadPlain(kept);
        PlainHasNoEdges(front);
        PlainHasNoEdges(kept);
        TagsConcat(front, rest);
      } else {
        WholeAfterStep(s);
        StepIsWhole(s);
        NoNewlineInStep(s);
        CollapseSkips(s, n);
      }
      CollapseKeepsEdges(rest);
      SameEdges(front, rest, kept, CollapseBlankLines(rest));
    }
  }

  lemma NoNewlineInStep(s: string)
    requires s != "" && s[0] != '\n'
    ensures forall i | 0 <= i < Step(s) :: s[i] != '\n'
  {
  }

  lemma {:induction false} TrimStartKeepsEdges(s: string)
    requires Whole(s)
    ensures Whole(TrimStart(s)) && TagEdges(TrimStart(s)) == TagEdges(s)
  {
    hide Whole, TagEdges;
    if s != "" && IsSpace(s[0]) {
      CutAtNeutral(s, 0);
      PlainFirst(s[0], s[1..]);
      assert s == [s[0]] + s[1..];
      TrimStartKeepsEdges(s[1..]);
    }
  }

  lemma {:induction false} TrimEndKeepsEdges(s: string)
    requires Whole(s)
    ensures TagEdges(TrimEnd(s)) == TagEdges(s)
  {
    hide Whole, TagEdges;
    if s != "" && IsSpace(s[|s| - 1]) {
      var n := |s| - 1;
      CutAtNeutral(s, n);
      assert s == s[..n] + [s[n]];
      PlainHasNoEdges([s[n]]);
      TagEdgesConcat(s[..n], [s[n]]);
      TrimEndKeepsEdges(s[..n]);
    }
  }

  lemma FlattenVerdict(markdown: string)
    ensures Whole(Flatten(markdown))
    ensures Verdict([], TagEdges(Flatten(markdown)), LinesStayApart(Split(markdown, '\n')))
  {
    hide Whole, TagEdges, RenderLines, LinesStayApart, CollapseBlankLines, TrimStart, TrimEnd, Verdict;
    var joined := Join(RenderLines(Split(markdown, '\n')), "\n");
    LinesVerdict(Split(markdown, '\n'));
    CollapseKeepsEdges(joined);
    Markup.CollapseKeepsTags(joined);
    TrimStartKeepsEdges(CollapseBlankLines(joined));
    TrimEndKeepsEdges(TrimStart(CollapseBlankLines(joined)));
    FlattenIsBalanced(markdown);
  }

  /** The Telegram check's verdict on the structure of a text of whole tags. */
  lemma CheckFollowsVerdict(text: string, clean: bool)
    requires Whole(text) && Verdict([], TagEdges(text), clean)
    ensures Structural(MarkupProblems(Tokens(text))) == [] <==> clean
  {
    hide Whole, TagEdges, RunProblems, RunOpen, Structural, Tokens, Edges;
    TokensAreTags(text);
    StructureOfMarkup(Tokens(text));
    UnclosedAreStructural(RunOpen([], TagEdges(text)));
  }

  /** A rendered text draws no tag, nesting or unclosed problem from the Telegram check if and only if no
      italic run of any of its lines crosses a bold tag. */
  lemma FlattenNestsIff(markdown: string)
    ensures Structural(MarkupProblems(Tokens(Flatten(markdown)))) == []
            <==> LinesStayApart(Split(markdown, '\n'))
  {
    hide Whole, TagEdges, Flatten, LinesStayApart, Verdict, Structural, Tokens;
    FlattenVerdict(markdown);
    CheckFollowsVerdict(Flatten(markdown), LinesStayApart(Split(markdown, '\n')));
  }

  /** The two kinds of emphasis can cross: this line renders as mis-nested HTML. */
  lemma CrossedEmphasis()
    ensures RenderBody("*a **b* c**") == "<i>a <b>b</i> c</b>"
    ensures !BodyStaysApart("*a **b* c**")
  {
    NothingToEscape("*a **b* c**");
    CrossedBold();
    CrossedItalic();
    CrossingIsSeen();
  }

  lemma NothingToEscape(s: string)
    requires '&' !in s && '<' !in s && '>' !in s
    ensures EscapeHtml(s) == s
  {
    ReplaceAllAbsent(s, '&', "&amp;");
    ReplaceAllAbsent(s, '<', "&lt;");
    ReplaceAllAbsent(s, '>', "&gt;");
  }

  lemma CrossedItalic()
    ensures ReplaceItalic(false, "*a <b>b* c</b>") == "<i>a <b>b</i> c</b>"
    ensures ItalicRunAt(false, "*a <b>b* c</b>") && ItalicEnd("*a <b>b* c</b>", 2) == 7
  {
    hide ReplaceItalic, ItalicRunAt, ItalicEnd;
    var x, rest := "a <b>b", " c</b>";
    ItalicRunRenders(x, rest);
    NoAsterisks(true, rest);
    assert "*" + x + "*" + rest == "*a <b>b* c</b>";
    assert "<i>" + x + "</i>" + rest == "<i>a <b>b</i> c</b>";
  }

  lemma CrossingIsSeen()
    requires ItalicRunAt(false, "*a <b>b* c</b>") && ItalicEnd("*a <b>b* c</b>", 2) == 7
    ensures !RunsStayApart(false, "*a <b>b* c</b>", false)
  {
    hide ItalicRunAt, ItalicEnd, RunsStayApart, TagEdges;
    var bold := "*a <b>b* c</b>";
    assert bold[1..7] == "a <b>b";
    OneOpenTag();
    UnfoldApart(false, bold, false);
  }

  lemma CrossedBold()
    ensures ReplaceBold("*a **b* c**", "<b>", "</b>") == "*a <b>b* c</b>"
  {
    hide ReplaceBold;
    var x := "b* c";
    var rest := "**" + x + "**" + "";
    assert forall i | 0 <= i < |x| && x[i] == '*' :: i == 1;
    BoldRunRenders(x, "", "<b>", "</b>");
    BoldSkips("a ", rest, "<b>", "</b>");
    LoneAsterisk("a " + rest, "<b>", "</b>");
    BoldOfNothing("<b>", "</b>");
    assert "*" + ("a " + rest) == "*a **b* c**";
    assert "*" + ("a " + ("<b>" + x + "</b>" + "")) == "*a <b>b* c</b>";
  }

  lemma BoldOfNothing(o: string, k: string)
    ensures ReplaceBold("", o, k) == ""
  {
  }

  lemma LoneAsterisk(rest: string, o: string, k: string)
    requires rest != "" && rest[0] != '*'
    ensures ReplaceBold("*" + rest, o, k) == "*" + ReplaceBold(rest, o, k)
  {
    var s := "*" + rest;
    assert s[0] == '*' && s[1] == rest[0] && s[1..] == rest;
  }

  lemma {:induction false} NoAsterisks(touched: bool, s: string)
    requires '*' !in s
    ensures ReplaceItalic(touched, s) == s
    decreases |s|
  {
    hide TouchesEmphasis;
    if s != "" {
      NoAsterisks(TouchesEmphasis(s[0]), s[1..]);
      assert [s[0]] + s[1..] == s;
    }
  }

  lemma OneOpenTag()
    ensures TagEdges("a <b>b") == [Edge(false, "b")]
  {
    hide TagEdges;
    assert "a <b>b" == "a " + (Tag(false, 'b') + "b");
    ReadPlain("a ");
    PlainHasNoEdges("a ");
    PlainHasNoEdges("b");
    TagIsOneEdge(false, 'b');
    TagEdgesConcat("a ", Tag(false, 'b') + "b");
    TagEdgesConcat(Tag(false, 'b'), "b");
  }

  // ---------------------------------------------------------------------------------------
  // Pages.

  ghost predicate IsCleanText(text: string) {
    Verdict([], TagEdges(text), true)
  }

  /** A text of whole tags that the stack machine either accepts or finds at fault by itself. */
  ghost predicate IsRendered(text: string) {
    Whole(text) && Verdict([], TagEdges(text), IsCleanText(text))
  }

  lemma VerdictIsRendered(text: string, clean: bool)
    requires Whole(text) && Verdict([], TagEdges(text), clean)
    ensures IsRendered(text) && (IsCleanText(text) <==> clean)
  {
    hide Whole, TagEdges, RunProblems, RunOpen;
  }

  lemma EmptyIsClean()
    ensures IsRendered("") && IsCleanText("")
  {
    hide Whole, TagEdges, Verdict, IsRendered, IsCleanText;
    ReadPlain("");
    PlainHasNoEdges("");
    NoEdgesClean();
    VerdictIsRendered("", true);
  }

  predicate IsSeparator(sep: string) {
    sep == "\n" || sep == "\n\n"
  }

  /** Two rendered texts, one below the other. */
  lemma BelowIsCleanIff(first: string, sep: string, rest: string)
    requires IsSeparator(sep) && IsRendered(first) && IsRendered(rest)
    ensures IsRendered(first + sep + rest)
    ensures IsCleanText(first + sep + rest) <==> IsCleanText(first) && IsCleanText(rest)
  {
    hide Whole, TagEdges, Verdict, IsCleanText;
    if sep == "\n" {
      JoinVerdict(first, rest, IsCleanText(first), IsCleanText(rest));
    } else {
      PlainFirst('\n', rest);
      JoinVerdict(first, ['\n'] + rest, IsCleanText(first), IsCleanText(rest));
      assert first + "\n" + (['\n'] + rest) == first + sep + rest;
    }
    VerdictIsRendered(first + sep + rest, IsCleanText(first) && IsCleanText(rest));
  }

  ghost predicate AreRendered(blocks: seq<string>) {
    forall i | 0 <= i < |blocks| :: IsRendered(blocks[i])
  }

  ghost predicate AreClean(blocks: seq<string>) {
    forall i | 0 <= i < |blocks| :: IsCleanText(blocks[i])
  }

  lemma ConcatAreClean(a: seq<string>, b: seq<string>)
    ensures AreRendered(a + b) <==> AreRendered(a) && AreRendered(b)
    ensures AreClean(a + b) <==> AreClean(a) && AreClean(b)
  {
    hide IsRendered, IsCleanText;
    assert forall i | 0 <= i < |a| :: (a + b)[i] == a[i];
    assert forall i | 0 <= i < |b| :: (a + b)[|a| + i] == b[i];
  }

  lemma {:induction false} JoinIsCleanIff(blocks: seq<string>, sep: string)
    requires IsSeparator(sep) && AreRendered(blocks)
    ensures IsRendered(Join(blocks, sep))
    ensures IsCleanText(Join(blocks, sep)) <==> AreClean(blocks)
  {
    hide IsRendered, IsCleanText, IsSeparator;
    if blocks == [] {
      EmptyIsClean();
    } else if |blocks| > 1 {
      ConcatAreClean(blocks[..1], blocks[1..]);
      assert blocks == blocks[..1] + blocks[1..];
      JoinIsCleanIff(blocks[1..], sep);
      BelowIsCleanIff(blocks[0], sep, Join(blocks[1..], sep));
    }
  }

  lemma {:induction false} RunsAreCleanIff(runs: seq<seq<string>>, sep: string)
    requires IsSeparator(sep) && AreRendered(Packing.Chain(runs))
    ensures AreRendered(Packing.JoinRuns(runs, sep))
    ensures AreClean(Packing.JoinRuns(runs, sep)) <==> AreClean(Packing.Chain(runs))
  {
    hide IsRendered, IsCleanText, IsSeparator;
    if runs != [] {
      ConcatAreClean(runs[0], Packing.Chain(runs[1..]));
      RunsAreCleanIff(runs[1..], sep);
      JoinIsCleanIff(runs[0], sep);
      ConcatAreClean([Join(runs[0], sep)], Packing.JoinRuns(runs[1..], sep));
    }
  }

  lemma {:induction false} EmptyBlocksAreClean(blocks: seq<string>)
    ensures AreRendered(Packing.NonEmpty(blocks)) <==> AreRendered(blocks)
    ensures AreClean(Packing.NonEmpty(blocks)) <==> AreClean(blocks)
  {
    hide IsRendered, IsCleanText;
    if blocks != [] {
      EmptyIsClean();
      EmptyBlocksAreClean(blocks[1..]);
      var first := if blocks[0] == "" then [] else [blocks[0]];
      ConcatAreClean(first, Packing.NonEmpty(blocks[1..]));
      ConcatAreClean([blocks[0]], blocks[1..]);
      assert blocks == [blocks[0]] + blocks[1..];
    }
  }

  /** Packing tears nothing apart: its pages nest exactly when its blocks do. */
  lemma PackedIsCleanIff(blocks: seq<string>, budget: nat, sep: string)
    requires IsSeparator(sep) && AreRendered(blocks)
    ensures AreRendered(Packing.Packed(blocks, budget, sep))
    ensures AreClean(Packing.Packed(blocks, budget, sep)) <==> AreClean(blocks)
  {
    hide AreRendered, AreClean, IsSeparator, Packing.Greedy;
    Packing.PackedIsOptimal(blocks, budget, sep);
    EmptyBlocksAreClean(blocks);
    RunsAreCleanIff(Packing.Greedy([], blocks, budget, sep), sep);
  }

  /** The fragments whose italic runs stay clear of bold tags. */
  predicate AllStayApart(fragments: seq<string>) {
    forall i | 0 <= i < |fragments| :: LinesStayApart(Split(fragments[i], '\n'))
  }

  lemma ConcatStayApart(a: seq<string>, b: seq<string>)
    ensures AllStayApart(a + b) <==> AllStayApart(a) && AllStayApart(b)
  {
    hide LinesStayApart;
    assert forall i | 0 <= i < |a| :: (a + b)[i] == a[i];
    assert forall i | 0 <= i < |b| :: (a + b)[|a| + i] == b[i];
  }

  lemma {:induction false} RenderedPiecesAreCleanIff(pieces: seq<string>)
    ensures AreRendered(Policies.FlattenEach(pieces))
    ensures AreClean(Policies.FlattenEach(pieces)) <==> AllStayApart(pieces)
  {
    hide Flatten, Verdict, IsRendered, IsCleanText, LinesStayApart, Whole, TagEdges;
    if pieces != [] {
      var first, rest := pieces[0], pieces[1..];
      RenderedPiecesAreCleanIff(rest);
      FlattenVerdict(first);
      VerdictIsRendered(Flatten(first), LinesStayApart(Split(first, '\n')));
      ConcatAreClean([Flatten(first)], Policies.FlattenEach(rest));
      ConcatStayApart([first], rest);
      assert pieces == [first] + rest;
      assert [first][0] == first && [Flatten(first)][0] == Flatten(first);
    }
  }

  lemma FittedIsCleanIff(section: string, budget: nat)
    ensures AreRendered(Policies.Fitted(section, budget))
    ensures AreClean(Policies.Fitted(section, budget)) <==>
            AllStayApart(if |Flatten(section)| <= budget then [section]
                         else Policies.Pieces(Split(section, '\n'), budget))
  {
    hide Flatten, AreRendered, AreClean, AllStayApart, Packing.Packed, Policies.Pieces;
    if |Flatten(section)| <= budget {
      RenderedPiecesAreCleanIff([section]);
      Policies.FlattenEachOne(section);
    } else {
      var pieces := Policies.Pieces(Split(section, '\n'), budget);
      RenderedPiecesAreCleanIff(pieces);
      PackedIsCleanIff(Policies.FlattenEach(pieces), budget, "\n");
    }
  }

  lemma {:induction false} BlocksAreCleanIff(sections: seq<string>, budget: nat)
    ensures AreRendered(Policies.Blocks(sections, budget))
    ensures AreClean(Policies.Blocks(sections, budget)) <==> AllStayApart(PolicyPages.Fragments(sections, budget))
  {
    hide Flatten, IsRendered, IsCleanText, LinesStayApart, Policies.Fitted, Policies.Pieces;
    if sections != [] {
      var section, rest := sections[0], sections[1..];
      BlocksAreCleanIff(rest, budget);
      FittedIsCleanIff(section, budget);
      ConcatAreClean(Policies.Fitted(section, budget), Policies.Blocks(rest, budget));
      ConcatStayApart(if |Flatten(section)| <= budget then [section] else Policies.Pieces(Split(section, '\n'), budget),
                      PolicyPages.Fragments(rest, budget));
    }
  }

  /** Through sections, fitting and both packings: the pages of a document are all properly nested if and
      only if no italic run crosses a bold tag in anything that is rendered on its own. Page breaks never
      tear an element apart, and never mend one. */
  lemma PagesNestIff(markdown: string, budget: nat)
    ensures (forall page | page in Policies.AllPages(markdown, budget) ::
               Structural(MarkupProblems(Tokens(page))) == [])
            <==> AllStayApart(PolicyPages.Fragments(Policies.SectionsOf(markdown), budget))
  {
    hide Policies.Blocks, Packing.Packed, Policies.SectionsOf, AllStayApart, PolicyPages.Fragments, Structural, Tokens,
         IsRendered, IsCleanText;
    var blocks := Policies.Blocks(Policies.SectionsOf(markdown), budget);
    var pages := Packing.Packed(blocks, budget, "\n\n");
    BlocksAreCleanIff(Policies.SectionsOf(markdown), budget);
    PackedIsCleanIff(blocks, budget, "\n\n");
    forall i | 0 <= i < |pages|
      ensures Structural(MarkupProblems(Tokens(pages[i]))) == [] <==> IsCleanText(pages[i])
    {
      CleanIffNested(pages[i]);
    }
    assert Policies.AllPages(markdown, budget) == pages;
    assert forall i | 0 <= i < |pages| :: pages[i] in pages;
  }

  lemma CleanIffNested(page: string)
    requires IsRendered(page)
    ensures Structural(MarkupProblems(Tokens(page))) == [] <==> IsCleanText(page)
  {
    hide Verdict, Whole, TagEdges, IsCleanText, Structural, Tokens;
    CheckFollowsVerdict(page, IsCleanText(page));
  }
}
