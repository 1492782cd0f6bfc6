/** The rules of `validateTelegramMessage`, spelled out: which tags and attributes may stand in a body, which
    links are safe, and which problem each fault is reported as. */
module MessageRules {
  import opened Text
  import opened MessageFormat
  import opened MessageNesting

  /** The fourteen tags, by name. */
  lemma FourteenTags(tag: string)
    ensures IsAllowed(tag) <==>
            || tag == "b" || tag == "strong"
            || tag == "i" || tag == "em"
            || tag == "u" || tag == "ins"
            || tag == "s" || tag == "strike" || tag == "del"
            || tag == "code" || tag == "pre"
            || tag == "blockquote" || tag == "tg-spoiler" || tag == "a"
  {
  }

  /** `https://` and at least one character, none of them white space or a quote. */
  predicate IsHttps(link: string) {
    && |link| >= 9
    && link[..8] == "https://"
    && forall i | 8 <= i < |link| :: !IsSpace(link[i]) && link[i] != '"' && link[i] != '\''
  }

  function UpTo(s: string, n: nat): string {
    if |s| <= n then s else s[..n]
  }

  lemma OneAttribute(tag: string, a: Attribute)
    ensures AttributeProblems(tag, [a]) == AttributeProblem(tag, a)
  {
    hide AttributeProblem;
    assert [a][1..] == [];
    assert AttributeProblems(tag, [a][1..]) == [];
  }

  /** A link is fine if and only if it is an https link; any other is reported, cut at 120 characters. */
  lemma LinkRule(link: string)
    ensures AttributeProblems("a", [Attribute("href", link)]) ==
            if IsHttps(link) then [] else [UnsafeLink(UpTo(link, 120))]
  {
    OneAttribute("a", Attribute("href", link));
  }

  /** `href` is for `a` alone and `class` for `pre` alone; no other attribute may stand anywhere. */
  lemma AttributeRule(tag: string, name: string, value: string)
    requires !(tag == "a" && name == "href")
    ensures AttributeProblems(tag, [Attribute(name, value)]) ==
            if tag == "pre" && name == "class" then [] else [UnsupportedAttribute(tag, name)]
  {
    OneAttribute(tag, Attribute(name, value));
  }

  /** The attributes of a tag are judged one by one, in order. */
  lemma {:induction false} AttributesAddUp(tag: string, a: seq<Attribute>, b: seq<Attribute>)
    ensures AttributeProblems(tag, a + b) == AttributeProblems(tag, a) + AttributeProblems(tag, b)
  {
    hide AttributeProblem;
    if a == [] {
      assert a + b == b;
    } else {
      assert (a + b)[1..] == a[1..] + b;
      AttributesAddUp(tag, a[1..], b);
      Regroup(AttributeProblem(tag, a[0]), AttributeProblems(tag, a[1..]), AttributeProblems(tag, b));
    }
  }

  /** What may stand in an opening tag. */
  predicate MayStand(tag: string, a: Attribute) {
    || (tag == "a" && a.name == "href" && IsHttps(a.value))
    || (tag == "pre" && a.name == "class")
  }

  lemma {:induction false} NoProblemIffAllMayStand(tag: string, attributes: seq<Attribute>)
    ensures AttributeProblems(tag, attributes) == [] <==> forall a | a in attributes :: MayStand(tag, a)
  {
    hide MayStand;
    if attributes != [] {
      var a := attributes[0];
      NoProblemIffAllMayStand(tag, attributes[1..]);
      OneIsFineIff(tag, a);
      hide AttributeProblem;
      assert forall x :: x in attributes <==> x == a || x in attributes[1..];
    }
  }

  lemma OneIsFineIff(tag: string, a: Attribute)
    ensures AttributeProblem(tag, a) == [] <==> MayStand(tag, a)
  {
  }

  /** A body without markup is at fault for being blank or too long, and for nothing else. */
  lemma SizeRule(text: string)
    ensures ProblemsOf(text, Plain) ==
            (if IsBlankText(text) then [Empty] else []) + (if |text| > 4096 then [TooLong(|text|, 4096)] else [])
  {
    hide Trim;
    BlankIffNothingLeft(text);
  }

  /** An HTML body has those faults first, and then those of its markup. */
  lemma HtmlRule(text: string)
    ensures ProblemsOf(text, Html) == ProblemsOf(text, Plain) + MarkupProblems(Tokens(text))
  {
    hide Trim, Tokens, MarkupProblems;
  }

  /** Exactly which HTML bodies are accepted, from the text on: its tags are of the fourteen and nested, and
      what stands in an opening tag may stand there. */
  lemma AcceptedIff(text: string)
    ensures ProblemsOf(text, Html) == [] <==>
            && !IsBlankText(text)
            && |text| <= 4096
            && AllAllowed(Edges(Tokens(text)))
            && IsNested(Edges(Tokens(text)))
            && forall i | 0 <= i < |Tokens(text)| && !Tokens(text)[i].closing ::
                 forall a | a in Attributes(Tokens(text)[i].attributes) :: MayStand(Tokens(text)[i].tag, a)
  {
    hide Trim, Tokens, AllAllowed, IsNested, ProblemsOf, MayStand, Attributes, AttributeProblems, IsBlankText;
    AcceptedIffWellFormed(text);
    BlankIffNothingLeft(text);
    forall i | 0 <= i < |Tokens(text)| && !Tokens(text)[i].closing
      ensures AttributeProblems(Tokens(text)[i].tag, Attributes(Tokens(text)[i].attributes)) == [] <==>
              forall a | a in Attributes(Tokens(text)[i].attributes) :: MayStand(Tokens(text)[i].tag, a)
    {
      NoProblemIffAllMayStand(Tokens(text)[i].tag, Attributes(Tokens(text)[i].attributes));
    }
  }

  // ---------------------------------------------------------------------------------------
  // Which problem is reported.

  /** One tag of another name, opening or closing, put anywhere into properly nested markup, draws exactly
      the problem that names it. */
  lemma OneUnknownTagIsOneProblem(before: seq<Token>, stray: Token, after: seq<Token>)
    requires !IsAllowed(stray.tag)
    requires AllAllowed(Edges(before + after)) && IsNested(Edges(before + after))
    ensures Structural(MarkupProblems(before + [stray] + after)) == [UnknownTag(stray.tag)]
  {
    hide IsAllowed, AllAllowed, RunOpen, RunProblems, Structural;
    var a, s, b := Edges(before), [EdgeOf(stray)], Edges(after);
    EdgesConcat(before, after);
    EdgesConcat(before + [stray], after);
    EdgesConcat(before, [stray]);
    EdgesOne(stray);
    var f :| Word(f) == a + b;
    NestedRunsClean([], f);
    RunConcat([], a, b);
    RunConcat([], a + s, b);
    RunConcat([], a, s);
    RunOne(RunOpen([], a), s[0]);
    StructureOfMarkup(before + [stray] + after);
  }

  /** Properly nested markup in between tags that are opened and never closed. */
  function LeftOpen(forests: seq<Forest>, left: seq<string>): seq<Edge>
    requires |forests| == |left| + 1
    decreases |left|
  {
    if left == [] then Word(forests[0])
    else Word(forests[0]) + [Edge(false, left[0])] + LeftOpen(forests[1..], left[1..])
  }

  lemma {:induction false} LeftOpenRuns(open: seq<string>, forests: seq<Forest>, left: seq<string>)
    requires |forests| == |left| + 1 && AllAllowed(LeftOpen(forests, left))
    ensures RunOpen(open, LeftOpen(forests, left)) == open + left
    ensures RunProblems(open, LeftOpen(forests, left)) == []
    decreases |left|
  {
    hide IsAllowed, RunOpen, RunProblems, Word;
    var front := Word(forests[0]);
    if left == [] {
      NestedRunsClean(open, forests[0]);
      assert open + [] == open;
    } else {
      var edge, back := [Edge(false, left[0])], LeftOpen(forests[1..], left[1..]);
      var all := front + edge + back;
      assert forall i | 0 <= i < |front| :: front[i] == all[i];
      assert all[|front|] == edge[0];
      assert forall i | 0 <= i < |back| :: back[i] == all[|front| + 1 + i];
      NestedRunsClean(open, forests[0]);
      RunConcat(open, front + edge, back);
      RunConcat(open, front, edge);
      RunOne(open, edge[0]);
      LeftOpenRuns(open + [left[0]], forests[1..], left[1..]);
      assert open + [left[0]] + left[1..] == open + left;
    }
  }

  lemma {:induction false} UnclosedAre(open: seq<string>)
    ensures UnclosedProblems(open) == seq(|open|, i requires 0 <= i < |open| => UnclosedTag(open[i]))
  {
    if open != [] {
      UnclosedAre(open[1..]);
    }
  }

  /** The tags that are never closed are reported, each once, the outermost first. */
  lemma LeftOpenAreNamed(tokens: seq<Token>, forests: seq<Forest>, left: seq<string>)
    requires |forests| == |left| + 1 && Edges(tokens) == LeftOpen(forests, left) && AllAllowed(Edges(tokens))
    ensures Structural(MarkupProblems(tokens)) == seq(|left|, i requires 0 <= i < |left| => UnclosedTag(left[i]))
  {
    hide IsAllowed, RunOpen, RunProblems, Structural, AllAllowed, UnclosedProblems;
    StructureOfMarkup(tokens);
    LeftOpenRuns([], forests, left);
    assert [] + left == left;
    UnclosedAre(left);
  }
}
