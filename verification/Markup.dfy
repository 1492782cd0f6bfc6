/** What the HTML made by `flatten` is to Telegram: which tags it carries, how many of each, and
    the text a reader is left with. */
module Markup {
  import opened Text
  import opened Escape
  import opened Markdown

  /** The length of the emphasis tag `s` starts with, or 0. */
  function TagAt(s: string): (n: nat)
    ensures n <= |s|
  {
    if |s| >= 3 && s[0] == '<' && (s[1] == 'b' || s[1] == 'i') && s[2] == '>' then 3
    else if |s| >= 4 && s[0] == '<' && s[1] == '/' && (s[2] == 'b' || s[2] == 'i') && s[3] == '>' then 4
    else 0
  }

  /** How much of a non-empty `s` is read in one step: a whole tag, or one character. */
  function Step(s: string): (k: nat)
    requires s != ""
    ensures 1 <= k <= |s|
  {
    if TagAt(s) > 0 then TagAt(s) else 1
  }

  /** Every `<` and `>` of `s` belongs to a `<b>`, `</b>`, `<i>` or `</i>`. */
  predicate Whole(s: string)
    decreases |s|
  {
    s == "" || ((TagAt(s) > 0 || (s[0] != '<' && s[0] != '>')) && Whole(s[Step(s)..]))
  }

  function Weight(s: string, kind: char): int
    requires s != ""
  {
    if TagAt(s) == 3 && s[1] == kind then 1 else if TagAt(s) == 4 && s[2] == kind then -1 else 0
  }

  /** How many more opening than closing tags of one kind `s` carries. */
  function Excess(s: string, kind: char): int
    decreases |s|
  {
    if s == "" then 0 else Weight(s, kind) + Excess(s[Step(s)..], kind)
  }

  function ShownHead(s: string): string
    requires s != ""
  {
    if TagAt(s) > 0 || s[0] == '*' then "" else [s[0]]
  }

  /** The text between the tags, asterisks left out: they are Markdown's own marks. */
  function Shown(s: string): string
    decreases |s|
  {
    if s == "" then "" else ShownHead(s) + Shown(s[Step(s)..])
  }

  /** All tags are whole, and each kind is closed as often as it is opened. */
  predicate Balanced(s: string) {
    Whole(s) && Excess(s, 'b') == 0 && Excess(s, 'i') == 0
  }

  /** `a` carries the same surplus of tags as `b`. */
  predicate SameTags(a: string, b: string) {
    Whole(a) == Whole(b) && Excess(a, 'b') == Excess(b, 'b') && Excess(a, 'i') == Excess(b, 'i')
  }

  /** No tag contains such a character. */
  predicate Neutral(c: char) {
    c != '<' && c != '>' && c != '/' && c != 'b' && c != 'i'
  }

  /** What follows does not change what the first step reads. */
  lemma StepConcat(a: string, b: string)
    requires a != "" && Whole(a)
    ensures Step(a + b) == Step(a)
    ensures (TagAt(a) > 0 || (a[0] != '<' && a[0] != '>')) && (TagAt(a + b) > 0 <==> TagAt(a) > 0)
    ensures Weight(a + b, 'b') == Weight(a, 'b') && Weight(a + b, 'i') == Weight(a, 'i')
    ensures ShownHead(a + b) == ShownHead(a)
  {
  }

  lemma {:induction false} TagsConcat(a: string, b: string)
    requires Whole(a)
    ensures Whole(a + b) == Whole(b)
    ensures Excess(a + b, 'b') == Excess(a, 'b') + Excess(b, 'b')
    ensures Excess(a + b, 'i') == Excess(a, 'i') + Excess(b, 'i')
    decreases |a|
  {
    hide TagAt, Step, Weight;
    if a == "" {
      assert a + b == b;
    } else {
      var k := Step(a);
      StepConcat(a, b);
      assert (a + b)[k..] == a[k..] + b;
      TagsConcat(a[k..], b);
    }
  }

  lemma {:induction false} ShownConcat(a: string, b: string)
    requires Whole(a)
    ensures Shown(a + b) == Shown(a) + Shown(b)
    decreases |a|
  {
    hide TagAt, Step, ShownHead;
    if a == "" {
      assert a + b == b;
    } else {
      var k := Step(a);
      StepConcat(a, b);
      assert (a + b)[k..] == a[k..] + b;
      ShownConcat(a[k..], b);
    }
  }

  lemma ReadConcat(a: string, b: string)
    requires Whole(a)
    ensures Whole(a + b) == Whole(b)
    ensures Excess(a + b, 'b') == Excess(a, 'b') + Excess(b, 'b')
    ensures Excess(a + b, 'i') == Excess(a, 'i') + Excess(b, 'i')
    ensures Shown(a + b) == Shown(a) + Shown(b)
  {
    hide Whole, Excess, Shown;
    TagsConcat(a, b);
    ShownConcat(a, b);
  }

  lemma ReadOneTag(close: bool, kind: char)
    requires kind == 'b' || kind == 'i'
    ensures var t := Tag(close, kind);
            && TagAt(t) == |t|
            && Whole(t)
            && Shown(t) == ""
            && Excess(t, kind) == (if close then -1 else 1)
            && forall k | k != kind :: Excess(t, k) == 0
  {
    var t := Tag(close, kind);
    assert TagAt(t) == |t|;
    assert t[|t|..] == "";
  }

  function Tag(close: bool, kind: char): string {
    if close then ['<', '/', kind, '>'] else ['<', kind, '>']
  }

  /** The tag a text starts with. */
  lemma HeadIsTag(s: string)
    requires TagAt(s) > 0
    ensures s[TagAt(s) - 2] == 'b' || s[TagAt(s) - 2] == 'i'
    ensures s[..TagAt(s)] == Tag(TagAt(s) == 4, s[TagAt(s) - 2])
  {
  }

  /** What one step reads is whole. */
  lemma StepIsWhole(s: string)
    requires s != "" && Whole(s)
    ensures Whole(s[..Step(s)])
  {
    if TagAt(s) > 0 {
      HeadIsTag(s);
      ReadOneTag(TagAt(s) == 4, s[TagAt(s) - 2]);
    } else {
      var t := s[..1];
      assert t == [s[0]];
      assert t[1..] == "";
      assert Whole(t[1..]);
    }
  }

  /** `s` without its asterisks. */
  function NoStars(s: string): string {
    if s == "" then "" else (if s[0] == '*' then "" else [s[0]]) + NoStars(s[1..])
  }

  lemma {:induction false} ReadPlain(s: string)
    requires '<' !in s && '>' !in s
    ensures Whole(s) && Excess(s, 'b') == 0 && Excess(s, 'i') == 0 && Shown(s) == NoStars(s)
  {
    if s != "" {
      ReadPlain(s[1..]);
    }
  }

  lemma ReadOne(c: char)
    requires c != '<' && c != '>'
    ensures Balanced([c])
    ensures Shown([c]) == if c == '*' then "" else [c]
  {
    ReadPlain([c]);
    assert [c][1..] == "";
    assert NoStars([c][1..]) == "";
  }

  lemma ReadStep(c: char, s: string)
    requires c != '<' && c != '>'
    ensures SameTags([c] + s, s)
    ensures Shown([c] + s) == (if c == '*' then "" else [c]) + Shown(s)
  {
    hide Whole, Excess, Shown;
    ReadOne(c);
    ReadConcat([c], s);
  }

  /** No tag reaches over a character that tags do not contain. */
  lemma StepStopsAtNeutral(s: string, i: nat)
    requires 0 < i < |s| && Neutral(s[i])
    ensures Step(s) <= i
  {
  }

  /** A text of whole tags may be cut at any character that no tag contains. */
  lemma {:induction false} CutAtNeutral(s: string, i: nat)
    requires Whole(s) && i < |s| && Neutral(s[i])
    ensures Whole(s[..i]) && Whole(s[i + 1..])
    decreases |s|
  {
    WholeAfterStep(s);
    if i > 0 {
      var k := Step(s);
      StepStopsAtNeutral(s, i);
      StepIsWhole(s);
      hide Whole, Step, Neutral;
      CutAtNeutral(s[k..], i - k);
      CutInTwo(s, k, i);
      TagsConcat(s[..k], s[k..][..i - k]);
    } else {
      assert s[..0] == "";
    }
  }

  lemma CutInTwo(s: string, k: nat, i: nat)
    requires k <= i < |s|
    ensures s[..i] == s[..k] + s[k..][..i - k] && s[k..][i - k + 1..] == s[i + 1..]
  {
  }

  // ---------------------------------------------------------------------------------------
  // Emphasis is invisible to the reading: a pair of tags opens and closes once, and only
  // asterisks disappear.

  predicate ReadsLike(a: string, b: string) {
    SameTags(a, b) && Shown(a) == Shown(b)
  }

  lemma ReadTagFirst(close: bool, kind: char, rest: string)
    requires kind == 'b' || kind == 'i'
    ensures var s := Tag(close, kind) + rest;
            var step := if close then -1 else 1;
            && Whole(s) == Whole(rest)
            && Shown(s) == Shown(rest)
            && Excess(s, 'b') == Excess(rest, 'b') + (if kind == 'b' then step else 0)
            && Excess(s, 'i') == Excess(rest, 'i') + (if kind == 'i' then step else 0)
  {
    hide Whole, Excess, Shown;
    ReadOneTag(close, kind);
    ReadConcat(Tag(close, kind), rest);
  }

  /** A pair of emphasis tags around `inner` reads like `inner`. */
  lemma ReadWrapped(kind: char, inner: string, rest: string)
    requires kind == 'b' || kind == 'i'
    requires Whole(inner)
    ensures ReadsLike(Tag(false, kind) + inner + Tag(true, kind) + rest, inner + rest)
  {
    hide Whole, Excess, Shown;
    var open, close := Tag(false, kind), Tag(true, kind);
    var tail := close + rest;
    var all := inner + tail;
    assert open + inner + close + rest == open + all;
    ReadTagFirst(true, kind, rest);
    ReadConcat(inner, tail);
    ReadTagFirst(false, kind, all);
    ReadConcat(inner, rest);
  }

  lemma ReadStars(stars: string, rest: string)
    requires stars == "*" || stars == "**"
    ensures ReadsLike(stars + rest, rest)
  {
    hide Whole, Excess, Shown;
    ReadStep('*', rest);
    if stars == "*" {
      assert stars + rest == ['*'] + rest;
    } else {
      ReadStep('*', ['*'] + rest);
      assert stars + rest == ['*'] + (['*'] + rest);
    }
  }

  lemma ReadStarred(stars: string, inner: string, rest: string)
    requires stars == "*" || stars == "**"
    requires Whole(inner)
    ensures ReadsLike(stars + inner + stars + rest, inner + rest)
  {
    hide Whole, Excess, Shown;
    assert stars + inner + stars + rest == stars + (inner + (stars + rest));
    ReadStars(stars, inner + (stars + rest));
    ReadConcat(inner, stars + rest);
    ReadStars(stars, rest);
    ReadConcat(inner, rest);
  }

  lemma SameFront(front: string, a: string, b: string, fa: string, fb: string)
    requires Whole(front) && ReadsLike(a, b)
    requires fa == front + a && fb == front + b
    ensures ReadsLike(fa, fb)
  {
    hide Whole, Excess, Shown;
    ReadConcat(front, a);
    ReadConcat(front, b);
  }

  lemma {:induction false} BoldReadsTheSame(s: string)
    requires '<' !in s && '>' !in s
    ensures ReadsLike(ReplaceBold(s, "<b>", "</b>"), s)
    decreases |s|
  {
    hide Whole, Excess, Shown;
    if s != "" {
      if |s| >= 2 && s[0] == '*' && s[1] == '*' && BoldEnd(s, 3) != -1 {
        var e := BoldEnd(s, 3);
        BoldReadsTheSame(s[e + 2..]);
        ReadPlain(s[2..e]);
        BoldMatch(s, s[2..e], s[e + 2..], ReplaceBold(s[e + 2..], "<b>", "</b>"));
      } else {
        ReadOne(s[0]);
        BoldReadsTheSame(s[1..]);
        SameFront([s[0]], ReplaceBold(s[1..], "<b>", "</b>"), s[1..], ReplaceBold(s, "<b>", "</b>"), s);
      }
    }
  }

  lemma BoldMatch(s: string, inner: string, rest: string, rest': string)
    requires Whole(inner) && ReadsLike(rest', rest)
    requires s == "**" + inner + "**" + rest
    ensures ReadsLike("<b>" + inner + "</b>" + rest', s)
  {
    hide Whole, Excess, Shown;
    assert "<b>" == Tag(false, 'b') && "</b>" == Tag(true, 'b');
    ReadWrapped('b', inner, rest');
    SameFront(inner, rest', rest, inner + rest', inner + rest);
    ReadStarred("**", inner, rest);
  }

  lemma ItalicMatch(s: string, inner: string, rest: string, rest': string)
    requires Whole(inner) && ReadsLike(rest', rest)
    requires s == "*" + inner + "*" + rest
    ensures ReadsLike("<i>" + inner + "</i>" + rest', s)
  {
    hide Whole, Excess, Shown;
    assert "<i>" == Tag(false, 'i') && "</i>" == Tag(true, 'i');
    ReadWrapped('i', inner, rest');
    SameFront(inner, rest', rest, inner + rest', inner + rest);
    ReadStarred("*", inner, rest);
  }

  lemma {:induction false} ItalicSkips(touched: bool, s: string, n: nat)
    requires 1 <= n <= |s| && forall k | 0 <= k < n :: s[k] != '*'
    ensures ReplaceItalic(touched, s) == s[..n] + ReplaceItalic(TouchesEmphasis(s[n - 1]), s[n..])
    decreases n
  {
    hide ReplaceItalic, TouchesEmphasis;
    ItalicStep(touched, s);
    if n > 1 {
      ItalicSkips(TouchesEmphasis(s[0]), s[1..], n - 1);
      CutFirst(s, n);
      Regroup([s[0]], s[1..][..n - 1], ReplaceItalic(TouchesEmphasis(s[n - 1]), s[n..]));
    } else {
      assert [s[0]] == s[..1];
    }
  }

  lemma ItalicStep(touched: bool, s: string)
    requires s != "" && s[0] != '*'
    ensures ReplaceItalic(touched, s) == [s[0]] + ReplaceItalic(TouchesEmphasis(s[0]), s[1..])
  {
    hide ItalicEnd, TouchesEmphasis;
  }

  lemma CutFirst(s: string, n: nat)
    requires 1 <= n <= |s|
    ensures s[1..][n - 1..] == s[n..] && [s[0]] + s[1..][..n - 1] == s[..n]
    ensures n > 1 ==> s[1..][n - 2] == s[n - 1]
  {
  }

  lemma WholeAfterStep(s: string)
    requires s != "" && Whole(s)
    ensures Whole(s[Step(s)..]) && (TagAt(s) == 0 ==> s[0] != '<' && s[0] != '>')
  {
  }

  lemma ItalicRunIsWhole(s: string, e: nat)
    requires Whole(s) && 2 <= e < |s| && s[0] == '*' && s[e] == '*'
    ensures Whole(s[1..e])
  {
    WholeAfterStep(s);
    CutAtNeutral(s[1..], e - 1);
    assert s[1..][..e - 1] == s[1..e];
  }

  lemma ItalicSkipsStep(touched: bool, s: string)
    requires s != "" && !ItalicRunAt(touched, s)
    ensures var k := Step(s);
            ReplaceItalic(touched, s) == s[..k] + ReplaceItalic(TouchesEmphasis(s[k - 1]), s[k..])
  {
    if TagAt(s) > 0 {
      ItalicSkips(touched, s, TagAt(s));
    } else {
      assert s[..1] == [s[0]];
    }
  }

  /** An italic run starts and ends at asterisks, so it never cuts a tag in two. */
  lemma {:induction false} ItalicReadsTheSame(touched: bool, s: string)
    requires Whole(s)
    ensures ReadsLike(ReplaceItalic(touched, s), s)
    decreases |s|
  {
    hide Whole, Excess, Shown;
    if ItalicRunAt(touched, s) {
      var e := ItalicEnd(s, 2);
      CutAtNeutral(s, e);
      ItalicRunIsWhole(s, e);
      ItalicReadsTheSame(true, s[e + 1..]);
      ItalicMatch(s, s[1..e], s[e + 1..], ReplaceItalic(true, s[e + 1..]));
    } else if s != "" {
      var front, rest := s[..Step(s)], s[Step(s)..];
      var next := TouchesEmphasis(s[Step(s) - 1]);
      WholeAfterStep(s);
      StepIsWhole(s);
      ItalicReadsTheSame(next, rest);
      ItalicSkipsStep(touched, s);
      assert s == front + rest;
      SameFront(front, ReplaceItalic(next, rest), rest, ReplaceItalic(touched, s), s);
    }
  }

  lemma NoStarsEntity(c: char)
    ensures NoStars(EntityOf(c)) == if c == '*' then "" else EntityOf(c)
  {
    if c == '*' {
      assert [c][1..] == "";
    } else {
      var e := EntityOf(c);
      assert '*' !in e;
      NoStarsPlain(e);
    }
  }

  lemma {:induction false} NoStarsPlain(s: string)
    requires '*' !in s
    ensures NoStars(s) == s
  {
    if s != "" {
      NoStarsPlain(s[1..]);
      assert [s[0]] + s[1..] == s;
    }
  }

  lemma {:induction false} NoStarsConcat(a: string, b: string)
    ensures NoStars(a + b) == NoStars(a) + NoStars(b)
  {
    if a == "" {
      assert a + b == b;
    } else {
      assert (a + b)[1..] == a[1..] + b;
      NoStarsConcat(a[1..], b);
    }
  }

  lemma {:induction false} NoStarsEscape(s: string)
    ensures NoStars(EscapeHtml(s)) == EscapeHtml(NoStars(s))
  {
    if s != "" {
      NoStarsEscape(s[1..]);
      EscapeHtmlStep(s[0], s[1..]);
      assert s == [s[0]] + s[1..];
      NoStarsConcat(EntityOf(s[0]), EscapeHtml(s[1..]));
      NoStarsEntity(s[0]);
      if s[0] != '*' {
        EscapeHtmlStep(s[0], NoStars(s[1..]));
      } else {
        assert EscapeHtml(NoStars(s)) == EscapeHtml(NoStars(s[1..])) by {
          assert NoStars(s) == "" + NoStars(s[1..]) == NoStars(s[1..]);
        }
      }
    }
  }

  /** The tags of a rendered body are whole and pair up in number, and a reader sees the text that
      was written: nothing but asterisks is taken out of it, and nothing is put in. */
  lemma RenderBodyKeepsText(body: string)
    ensures Balanced(RenderBody(body))
    ensures Decode(Shown(RenderBody(body))) == NoStars(body)
  {
    var e := EscapeHtml(body);
    EscapeHtmlLeavesNoMarkup(body);
    BoldReadsTheSame(e);
    ReadPlain(e);
    ItalicReadsTheSame(false, ReplaceBold(e, "<b>", "</b>"));
    NoStarsEscape(body);
    DecodeEscapeHtml(NoStars(body));
  }

  lemma HeadingIsBalanced(title: string)
    ensures Balanced("<b>" + EscapeHtml(title) + "</b>")
  {
    var inner := EscapeHtml(title);
    EscapeHtmlLeavesNoMarkup(title);
    ReadPlain(inner);
    ReadWrapped('b', inner, "");
    assert "<b>" + inner + "</b>" == Tag(false, 'b') + inner + Tag(true, 'b') + "";
    assert inner + "" == inner;
  }

  lemma RenderLineIsBalanced(line: string)
    ensures Balanced(RenderLine(line))
  {
    var t := Trim(line);
    if Heading(t).Some? {
      HeadingIsBalanced(ReplaceBold(Heading(t).value, "", ""));
    } else if Bullet(t).Some? {
      RenderBodyKeepsText("\U{2022} " + Bullet(t).value);
    } else {
      RenderBodyKeepsText(line);
    }
  }

  // ---------------------------------------------------------------------------------------
  // Joining, collapsing and trimming keep a text balanced.

  lemma BalancedConcat(a: string, b: string)
    requires Balanced(a) && Balanced(b)
    ensures Balanced(a + b)
  {
    hide Whole, Excess, Shown;
    TagsConcat(a, b);
  }

  lemma {:induction false} JoinIsBalanced(parts: seq<string>, sep: string)
    requires forall p | p in parts :: Balanced(p)
    requires Balanced(sep)
    ensures Balanced(Join(parts, sep))
  {
    if |parts| == 1 {
      assert parts[0] in parts;
    } else if |parts| > 1 {
      JoinIsBalanced(parts[1..], sep);
      assert parts[0] in parts;
      BalancedConcat(parts[0], sep);
      BalancedConcat(parts[0] + sep, Join(parts[1..], sep));
    }
  }

  lemma {:induction false} RenderLinesAreBalanced(lines: seq<string>)
    ensures forall p | p in RenderLines(lines) :: Balanced(p)
  {
    if lines != [] {
      RenderLinesAreBalanced(lines[1..]);
      RenderLineIsBalanced(lines[0]);
    }
  }

  lemma {:induction false} TrimStartIsBalanced(s: string)
    requires Balanced(s)
    ensures Balanced(TrimStart(s))
  {
    if s != "" && IsSpace(s[0]) {
      ReadStep(s[0], s[1..]);
      assert s == [s[0]] + s[1..];
      TrimStartIsBalanced(s[1..]);
    }
  }

  lemma {:induction false} TrimEndIsBalanced(s: string)
    requires Balanced(s)
    ensures Balanced(TrimEnd(s))
  {
    if s != "" && IsSpace(s[|s| - 1]) {
      var n := |s| - 1;
      CutAtNeutral(s, n);
      ReadOne(s[n]);
      assert s == s[..n] + [s[n]];
      TagsConcat(s[..n], [s[n]]);
      TrimEndIsBalanced(s[..n]);
    }
  }

  lemma {:induction false} CollapseSkips(s: string, n: nat)
    requires n <= |s| && forall k | 0 <= k < n :: s[k] != '\n'
    ensures CollapseBlankLines(s) == s[..n] + CollapseBlankLines(s[n..])
  {
    hide CollapseBlankLines;
    if n == 0 {
      assert s[..0] == "" && s[0..] == s;
    } else {
      CollapseStep(s);
      CollapseSkips(s[1..], n - 1);
      CutFirst(s, n);
      Regroup([s[0]], s[1..][..n - 1], CollapseBlankLines(s[n..]));
    }
  }

  lemma CollapseStep(s: string)
    requires s != "" && s[0] != '\n'
    ensures CollapseBlankLines(s) == [s[0]] + CollapseBlankLines(s[1..])
  {
  }

  lemma SameTagsConcat(a: string, b: string, a': string, b': string)
    requires Whole(a) && Whole(a') && SameTags(a, a') && SameTags(b, b')
    ensures SameTags(a + b, a' + b')
  {
    hide Whole, Excess, Shown;
    TagsConcat(a, b);
    TagsConcat(a', b');
  }

  lemma {:induction false} CollapseKeepsTags(s: string)
    requires Whole(s)
    ensures SameTags(CollapseBlankLines(s), s)
    decreases |s|
  {
    if s != "" {
      WholeAfterStep(s);
      StepIsWhole(s);
      if s[0] == '\n' {
        var n := NewlineRun(s);
        var kept := if n >= 3 then "\n\n" else s[..n];
        ReadPlain(s[..n]);
        ReadPlain(kept);
        assert s == s[..n] + s[n..];
        TagsConcat(s[..n], s[n..]);
        CollapseKeepsTags(s[n..]);
        SameTagsConcat(kept, CollapseBlankLines(s[n..]), s[..n], s[n..]);
      } else {
        var k := Step(s);
        CollapseSkips(s, k);
        CollapseKeepsTags(s[k..]);
        SameTagsConcat(s[..k], CollapseBlankLines(s[k..]), s[..k], s[k..]);
        assert s == s[..k] + s[k..];
      }
    }
  }

  /** Whatever the document says, its rendering carries only whole emphasis tags, and each kind is
      closed as often as it is opened. */
  lemma FlattenIsBalanced(markdown: string)
    ensures Balanced(Flatten(markdown))
  {
    var rendered := RenderLines(Split(markdown, '\n'));
    RenderLinesAreBalanced(Split(markdown, '\n'));
    ReadOne('\n');
    JoinIsBalanced(rendered, "\n");
    CollapseKeepsTags(Join(rendered, "\n"));
    TrimStartIsBalanced(CollapseBlankLines(Join(rendered, "\n")));
    TrimEndIsBalanced(TrimStart(CollapseBlankLines(Join(rendered, "\n"))));
  }
}
