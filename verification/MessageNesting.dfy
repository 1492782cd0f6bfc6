/** The stack machine of `validateTelegramMessage` against the grammar of properly nested markup,
    and what its error recovery promises. */
module MessageNesting {
  import opened Text
  import opened MessageFormat
  import opened Escape

  /** Properly nested markup: elements side by side, each holding elements. */
  datatype Forest = Bare | Element(tag: string, inner: Forest, rest: Forest)

  /** One tag in a text, its attributes left aside. */
  datatype Edge = Edge(closing: bool, tag: string)

  function EdgeOf(t: Token): Edge {
    Edge(t.closing, t.tag)
  }

  function Edges(tokens: seq<Token>): seq<Edge> {
    if tokens == [] then [] else [EdgeOf(tokens[0])] + Edges(tokens[1..])
  }

  /** The tags of a forest, left to right. */
  function Word(f: Forest): seq<Edge> {
    match f
    case Bare => []
    case Element(tag, inner, rest) => [Edge(false, tag)] + Word(inner) + [Edge(true, tag)] + Word(rest)
  }

  ghost predicate IsNested(edges: seq<Edge>) {
    exists f :: Word(f) == edges
  }

  predicate AllAllowed(edges: seq<Edge>) {
    forall i | 0 <= i < |edges| :: IsAllowed(edges[i].tag)
  }

  /** A problem with a tag or its nesting, as opposed to an attribute, a link or the size. */
  predicate IsStructural(p: Problem) {
    p.UnknownTag? || p.UnclosedTag? || p.UnexpectedClosingTag?
  }

  function Structural(problems: seq<Problem>): seq<Problem> {
    if problems == [] then []
    else (if IsStructural(problems[0]) then [problems[0]] else []) + Structural(problems[1..])
  }

  // ---------------------------------------------------------------------------------------
  // The machine on edges: attributes never influence structure.

  function EdgeOpen(open: seq<string>, e: Edge): seq<string> {
    if !IsAllowed(e.tag) then open
    else if !e.closing then open + [e.tag]
    else if Closes(open, e.tag) then open[..|open| - 1]
    else open
  }

  function EdgeProblems(open: seq<string>, e: Edge): seq<Problem> {
    if !IsAllowed(e.tag) then [UnknownTag(e.tag)]
    else if !e.closing || Closes(open, e.tag) then []
    else [UnexpectedClosingTag(e.tag)]
  }

  function RunOpen(open: seq<string>, edges: seq<Edge>): seq<string>
    decreases |edges|
  {
    if edges == [] then open else RunOpen(EdgeOpen(open, edges[0]), edges[1..])
  }

  function RunProblems(open: seq<string>, edges: seq<Edge>): seq<Problem>
    decreases |edges|
  {
    if edges == [] then []
    else EdgeProblems(open, edges[0]) + RunProblems(EdgeOpen(open, edges[0]), edges[1..])
  }

  lemma {:induction false} StructuralConcat(a: seq<Problem>, b: seq<Problem>)
    ensures Structural(a + b) == Structural(a) + Structural(b)
  {
    hide IsStructural;
    if a == [] {
      assert a + b == b;
    } else {
      assert (a + b)[1..] == a[1..] + b;
      StructuralConcat(a[1..], b);
      Regroup(if IsStructural(a[0]) then [a[0]] else [], Structural(a[1..]), Structural(b));
    }
  }

  lemma {:induction false} AttributesAreNotStructure(tag: string, attributes: seq<Attribute>)
    ensures Structural(AttributeProblems(tag, attributes)) == []
  {
    hide IsSafeLink;
    if attributes != [] {
      AttributesAreNotStructure(tag, attributes[1..]);
      StructuralConcat(AttributeProblem(tag, attributes[0]), AttributeProblems(tag, attributes[1..]));
    }
  }

  lemma StructureOfStep(open: seq<string>, t: Token)
    ensures StepOpen(open, t) == EdgeOpen(open, EdgeOf(t))
    ensures Structural(StepProblems(open, t)) == EdgeProblems(open, EdgeOf(t))
  {
    hide IsAllowed;
    AttributesAreNotStructure(t.tag, Attributes(t.attributes));
  }

  lemma {:induction false} StructureOfRun(open: seq<string>, tokens: seq<Token>)
    ensures OpenAfter(open, tokens) == RunOpen(open, Edges(tokens))
    ensures Structural(TokenProblems(open, tokens)) == RunProblems(open, Edges(tokens))
    decreases |tokens|
  {
    hide StepOpen, StepProblems, EdgeProblems, EdgeOpen, IsStructural;
    if tokens != [] {
      var next := StepOpen(open, tokens[0]);
      StructureOfStep(open, tokens[0]);
      StructureOfRun(next, tokens[1..]);
      StructuralConcat(StepProblems(open, tokens[0]), TokenProblems(next, tokens[1..]));
      assert Edges(tokens)[1..] == Edges(tokens[1..]);
    }
  }

  lemma {:induction false} UnclosedAreStructural(open: seq<string>)
    ensures Structural(UnclosedProblems(open)) == UnclosedProblems(open)
    ensures UnclosedProblems(open) == [] <==> open == []
  {
    if open != [] {
      UnclosedAreStructural(open[1..]);
    }
  }

  /** The structural problems of a text, from its tags alone. */
  lemma StructureOfMarkup(tokens: seq<Token>)
    ensures Structural(MarkupProblems(tokens)) ==
            RunProblems([], Edges(tokens)) + UnclosedProblems(RunOpen([], Edges(tokens)))
  {
    hide TokenProblems, OpenAfter, RunProblems, RunOpen;
    StructureOfRun([], tokens);
    UnclosedAreStructural(OpenAfter([], tokens));
    StructuralConcat(TokenProblems([], tokens), UnclosedProblems(OpenAfter([], tokens)));
  }

  lemma {:induction false} RunConcat(open: seq<string>, a: seq<Edge>, b: seq<Edge>)
    ensures RunOpen(open, a + b) == RunOpen(RunOpen(open, a), b)
    ensures RunProblems(open, a + b) == RunProblems(open, a) + RunProblems(RunOpen(open, a), b)
    decreases |a|
  {
    hide EdgeOpen, EdgeProblems;
    if a == [] {
      assert a + b == b;
    } else {
      assert (a + b)[1..] == a[1..] + b;
      RunConcat(EdgeOpen(open, a[0]), a[1..], b);
    }
  }

  // ---------------------------------------------------------------------------------------
  // Machine and grammar accept the same words.

  lemma RunOne(open: seq<string>, e: Edge)
    ensures RunOpen(open, [e]) == EdgeOpen(open, e)
    ensures RunProblems(open, [e]) == EdgeProblems(open, e)
  {
    hide EdgeOpen, EdgeProblems;
    assert [e][1..] == [];
    assert RunProblems(EdgeOpen(open, e), [e][1..]) == [];
  }

  /** Nested markup of allowed tags leaves the stack as it found it and draws no problem. */
  lemma {:induction false} NestedRunsClean(open: seq<string>, f: Forest)
    requires AllAllowed(Word(f))
    ensures RunOpen(open, Word(f)) == open && RunProblems(open, Word(f)) == []
    decreases f
  {
    hide IsAllowed, RunOpen, RunProblems, AllAllowed, Word;
    if f == Bare {
      WordOfBare();
      NothingRuns(open);
    } else {
      var first, last := [Edge(false, f.tag)], [Edge(true, f.tag)];
      var inner, rest := Word(f.inner), Word(f.rest);
      PartsAllowed(f);
      assert (open + [f.tag])[..|open|] == open;
      RunConcat(open, first, inner + (last + rest));
      RunConcat(open + [f.tag], inner, last + rest);
      RunConcat(open + [f.tag], last, rest);
      RunOne(open, first[0]);
      RunOne(open + [f.tag], last[0]);
      NestedRunsClean(open + [f.tag], f.inner);
      NestedRunsClean(open, f.rest);
    }
  }

  lemma PartsAllowed(f: Forest)
    requires f.Element? && AllAllowed(Word(f))
    ensures IsAllowed(f.tag) && AllAllowed(Word(f.inner)) && AllAllowed(Word(f.rest))
    ensures Word(f) == [Edge(false, f.tag)] + (Word(f.inner) + ([Edge(true, f.tag)] + Word(f.rest)))
  {
    hide IsAllowed;
    WordOfElement(f);
    hide Word;
    WordParts(Edge(false, f.tag), Word(f.inner), Edge(true, f.tag), Word(f.rest));
    RegroupFour([Edge(false, f.tag)], Word(f.inner), [Edge(true, f.tag)], Word(f.rest));
  }

  lemma WordParts(first: Edge, inner: seq<Edge>, last: Edge, rest: seq<Edge>)
    ensures var word := [first] + inner + [last] + rest;
            && |word| == |inner| + |rest| + 2 && word[0] == first
            && (forall i | 0 <= i < |inner| :: inner[i] == word[1 + i])
            && (forall i | 0 <= i < |rest| :: rest[i] == word[2 + |inner| + i])
  {
  }

  lemma NothingRuns(open: seq<string>)
    ensures RunOpen(open, []) == open && RunProblems(open, []) == []
  {
  }

  /** Markup that closes the tags of `open`, innermost first, with nested markup in between. */
  function Under(forests: seq<Forest>, open: seq<string>): seq<Edge>
    requires |forests| == |open| + 1
    decreases |open|
  {
    if open == [] then Word(forests[0])
    else Word(forests[0]) + [Edge(true, open[|open| - 1])] + Under(forests[1..], open[..|open| - 1])
  }

  /** A run without problems that closes everything reads off its own nesting. */
  lemma {:induction false} CleanRunIsNested(open: seq<string>, edges: seq<Edge>) returns (forests: seq<Forest>)
    requires RunProblems(open, edges) == [] && RunOpen(open, edges) == []
    ensures |forests| == |open| + 1 && Under(forests, open) == edges
    ensures AllAllowed(edges)
    decreases |edges|
  {
    hide IsAllowed, RunOpen, RunProblems, Under, Word;
    if edges == [] {
      NothingRuns(open);
      forests := [Bare];
      UnderUnfolds(forests, open);
      assert Word(Bare) == [] by { WordOfBare(); }
    } else {
      var e, later := edges[0], edges[1..];
      var next := EdgeOpen(open, e);
      RunUnfolds(open, edges);
      var below := CleanRunIsNested(next, later);
      assert edges == [e] + later;
      assert forall i | 0 < i < |edges| :: edges[i] == later[i - 1];
      if e.closing {
        forests := [Bare] + below;
        assert forests[1..] == below;
        UnderUnfolds(forests, open);
        WordOfBare();
      } else {
        forests := [Element(e.tag, below[0], below[1])] + below[2..];
        UnderOpened(e.tag, below, open);
        UnderFirst(forests[0], below, open);
      }
    }
  }

  lemma RunUnfolds(open: seq<string>, edges: seq<Edge>)
    requires edges != []
    ensures RunOpen(open, edges) == RunOpen(EdgeOpen(open, edges[0]), edges[1..])
    ensures RunProblems(open, edges) == EdgeProblems(open, edges[0]) + RunProblems(EdgeOpen(open, edges[0]), edges[1..])
  {
    hide EdgeOpen, EdgeProblems;
  }

  lemma UnderOpened(tag: string, below: seq<Forest>, open: seq<string>)
    requires |below| == |open| + 2
    ensures Under(below, open + [tag]) == Word(below[0]) + [Edge(true, tag)] + Under(below[1..], open)
  {
    hide Word;
    var next := open + [tag];
    assert next[..|next| - 1] == open && next[|next| - 1] == tag;
  }

  lemma UnderUnfolds(forests: seq<Forest>, open: seq<string>)
    requires |forests| == |open| + 1
    ensures Under(forests, open) == Word(forests[0]) + UnderRest(forests[1..], open)
  {
    hide Word;
  }

  /** What follows the innermost forest. */
  function UnderRest(forests: seq<Forest>, open: seq<string>): seq<Edge>
    requires |forests| == |open|
  {
    if open == [] then [] else [Edge(true, open[|open| - 1])] + Under(forests, open[..|open| - 1])
  }

  lemma UnderFirst(f: Forest, below: seq<Forest>, open: seq<string>)
    requires |below| == |open| + 2 && f.Element? && f.inner == below[0] && f.rest == below[1]
    ensures Under([f] + below[2..], open) ==
            [Edge(false, f.tag)] + Word(f.inner) + [Edge(true, f.tag)] + Under(below[1..], open)
  {
    hide Word, Under, UnderRest;
    var forests := [f] + below[2..];
    assert forests[0] == f && forests[1..] == below[2..] == below[1..][1..];
    WordOfElement(f);
    UnderUnfolds(forests, open);
    UnderUnfolds(below[1..], open);
    Regroup([Edge(false, f.tag)] + Word(f.inner) + [Edge(true, f.tag)], Word(f.rest), UnderRest(below[2..], open));
  }

  lemma WordOfBare()
    ensures Word(Bare) == []
  {
  }

  lemma WordOfElement(f: Forest)
    requires f.Element?
    ensures Word(f) == [Edge(false, f.tag)] + Word(f.inner) + [Edge(true, f.tag)] + Word(f.rest)
  {
  }

  /** A body draws no unknown-tag, nesting or unclosed problem if and only if all its tags are
      allowed and they form properly nested markup. */
  lemma NoStructuralProblemIffNested(tokens: seq<Token>)
    ensures Structural(MarkupProblems(tokens)) == [] <==> AllAllowed(Edges(tokens)) && IsNested(Edges(tokens))
  {
    hide RunOpen, RunProblems, AllAllowed, Structural;
    var edges := Edges(tokens);
    StructureOfMarkup(tokens);
    UnclosedAreStructural(RunOpen([], edges));
    if Structural(MarkupProblems(tokens)) == [] {
      var forests := CleanRunIsNested([], edges);
      assert Word(forests[0]) == edges;
    }
    if AllAllowed(edges) && IsNested(edges) {
      var f :| Word(f) == edges;
      NestedRunsClean([], f);
    }
  }

  // ---------------------------------------------------------------------------------------
  // Error recovery: one stray closing tag is one problem.

  /** The original run still has to close a `tag` that an inserted `</tag>` closed early: wherever
      that happens, the other run has exactly one closing tag too many. */
  lemma {:induction false} ClosedEarly(below: seq<string>, tag: string, above: seq<string>, edges: seq<Edge>)
    requires RunProblems(below + [tag] + above, edges) == []
    requires RunOpen(below + [tag] + above, edges) == []
    ensures RunProblems(below + above, edges) == [UnexpectedClosingTag(tag)]
    ensures RunOpen(below + above, edges) == []
    decreases |edges|
  {
    hide IsAllowed, RunOpen, RunProblems;
    var before, after := below + [tag] + above, below + above;
    if edges == [] {
      NothingRuns(before);
    } else {
      var e, later := edges[0], edges[1..];
      RunUnfolds(before, edges);
      RunUnfolds(after, edges);
      assert EdgeProblems(before, e) == [];
      if !e.closing {
        assert before + [e.tag] == below + [tag] + (above + [e.tag]);
        assert after + [e.tag] == below + (above + [e.tag]);
        ClosedEarly(below, tag, above + [e.tag], later);
      } else if above != [] {
        var n := |above| - 1;
        assert before[..|before| - 1] == below + [tag] + above[..n];
        assert after[..|after| - 1] == below + above[..n];
        ClosedEarly(below, tag, above[..n], later);
      } else {
        assert before[..|before| - 1] == below && after == below;
        if Closes(below, tag) {
          var n := |below| - 1;
          assert below == below[..n] + [tag] + [];
          assert below[..n] == below[..n] + [];
          ClosedEarly(below[..n], tag, [], later);
        }
      }
    }
  }

  /** One stray closing tag of an allowed kind, put anywhere into properly nested markup, draws
      exactly one structural problem, the one that names it, even where it closes an element early. */
  lemma OneStrayClosingTagIsOneProblem(before: seq<Token>, stray: Token, after: seq<Token>)
    requires stray.closing && IsAllowed(stray.tag)
    requires AllAllowed(Edges(before + after)) && IsNested(Edges(before + after))
    ensures Structural(MarkupProblems(before + [stray] + after)) == [UnexpectedClosingTag(stray.tag)]
  {
    hide IsAllowed, AllAllowed, RunOpen, RunProblems, Structural;
    var a, s, b := Edges(before), [EdgeOf(stray)], Edges(after);
    EdgesConcat(before, after);
    EdgesConcat(before + [stray], after);
    EdgesConcat(before, [stray]);
    EdgesOne(stray);
    var f :| Word(f) == a + b;
    NestedRunsClean([], f);
    RunConcat([], a, b);
    RunConcat([], a + s, b);
    RunConcat([], a, s);
    var open := RunOpen([], a);
    RunOne(open, s[0]);
    if Closes(open, stray.tag) {
      var n := |open| - 1;
      assert open == open[..n] + [stray.tag] + [];
      assert open[..n] == open[..n] + [];
      ClosedEarly(open[..n], stray.tag, [], b);
    }
    StructureOfMarkup(before + [stray] + after);
  }

  lemma EdgesOne(t: Token)
    ensures Edges([t]) == [EdgeOf(t)]
  {
    assert [t][1..] == [];
    assert Edges([t][1..]) == [];
  }

  lemma {:induction false} EdgesConcat(a: seq<Token>, b: seq<Token>)
    ensures Edges(a + b) == Edges(a) + Edges(b)
  {
    if a == [] {
      assert a + b == b;
    } else {
      assert (a + b)[1..] == a[1..] + b;
      EdgesConcat(a[1..], b);
    }
  }

  // ---------------------------------------------------------------------------------------
  // The whole verdict.

  /** No attribute of an opening tag is at fault. */
  predicate AttributesFit(tokens: seq<Token>) {
    forall i | 0 <= i < |tokens| && !tokens[i].closing ::
      AttributeProblems(tokens[i].tag, Attributes(tokens[i].attributes)) == []
  }

  lemma {:induction false} CleanTokens(open: seq<string>, tokens: seq<Token>)
    requires Structural(TokenProblems(open, tokens)) == []
    ensures TokenProblems(open, tokens) == [] <==> AttributesFit(tokens)
    decreases |tokens|
  {
    hide IsAllowed, AttributeProblems, Attributes;
    if tokens != [] {
      var t, later := tokens[0], tokens[1..];
      var next := StepOpen(open, t);
      StructuralConcat(StepProblems(open, t), TokenProblems(next, later));
      StructureOfStep(open, t);
      CleanTokens(next, later);
      assert forall i | 0 < i < |tokens| :: tokens[i] == later[i - 1];
      assert AttributesFit(tokens) <==>
        (!t.closing ==> AttributeProblems(t.tag, Attributes(t.attributes)) == []) && AttributesFit(later);
      assert StepProblems(open, t) == [] <==> (!t.closing ==> AttributeProblems(t.tag, Attributes(t.attributes)) == []);
    }
  }

  /** An HTML body is accepted if and only if it is neither blank nor too long, and its tags are
      allowed, properly nested and carry only attributes that are fine. */
  lemma AcceptedIffWellFormed(text: string)
    ensures ProblemsOf(text, Html) == [] <==>
            && Trim(text) != ""
            && |text| <= TELEGRAM_MESSAGE_LIMIT
            && AllAllowed(Edges(Tokens(text)))
            && IsNested(Edges(Tokens(text)))
            && AttributesFit(Tokens(text))
  {
    hide Trim, Tokens, AllAllowed, IsNested, AttributesFit, Structural;
    var tokens := Tokens(text);
    NoStructuralProblemIffNested(tokens);
    UnclosedAreStructural(OpenAfter([], tokens));
    StructuralConcat(TokenProblems([], tokens), UnclosedProblems(OpenAfter([], tokens)));
    if Structural(TokenProblems([], tokens)) == [] {
      CleanTokens([], tokens);
    } else {
      NoneIsNoStructure();
    }
  }

  lemma NoneIsNoStructure()
    ensures Structural([]) == []
  {
  }

  lemma {:induction false} NoBracketNoTokens(s: string)
    requires '<' !in s
    ensures Tokens(s) == []
  {
    if s != "" {
      NoBracketNoTokens(s[1..]);
    }
  }

  /** An escaped value never draws a markup problem, whatever somebody typed into it. */
  lemma EscapedIsAlwaysAccepted(value: string)
    ensures MarkupProblems(Tokens(EscapeHtml(value))) == []
  {
    EscapeHtmlLeavesNoMarkup(value);
    NoBracketNoTokens(EscapeHtml(value));
  }
}
