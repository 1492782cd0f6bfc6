/** `telegram-message.ts`: whether Telegram will accept a body that a person typed, and if not, why. */
module MessageFormat {
  import opened Text

  const TELEGRAM_MESSAGE_LIMIT: nat := 4096

  /** `ALLOWED_TAGS.has(tag)`. */
  predicate IsAllowed(tag: string) {
    tag in ["b", "strong", "i", "em", "u", "ins", "s", "strike", "del", "code", "pre", "blockquote", "tg-spoiler", "a"]
  }

  datatype Problem =
    | TooLong(length: nat, limit: nat)
    | Empty
    | UnknownTag(tag: string)
    | UnclosedTag(tag: string)
    | UnexpectedClosingTag(tag: string)
    | UnsafeLink(href: string)
    | UnsupportedAttribute(tag: string, attribute: string)

  datatype ParseMode = Plain | Html

  datatype Verdict = Verdict(ok: bool, problems: seq<Problem>)

  // ---------------------------------------------------------------------------------------
  // The two patterns.

  /** `[a-zA-Z-]`. */
  predicate IsNameChar(c: char) {
    'a' <= c <= 'z' || 'A' <= c <= 'Z' || c == '-'
  }

  function SkipSpaces(s: string, i: nat): (j: nat)
    requires i <= |s|
    ensures i <= j <= |s|
    decreases |s| - i
  {
    if i < |s| && IsSpace(s[i]) then SkipSpaces(s, i + 1) else i
  }

  function SkipName(s: string, i: nat): (j: nat)
    requires i <= |s|
    ensures i <= j <= |s|
    decreases |s| - i
  {
    if i < |s| && IsNameChar(s[i]) then SkipName(s, i + 1) else i
  }

  function SkipTo(s: string, c: char, i: nat): (j: nat)
    requires i <= |s|
    ensures i <= j <= |s|
    ensures j < |s| ==> s[j] == c
    decreases |s| - i
  {
    if i < |s| && s[i] != c then SkipTo(s, c, i + 1) else i
  }

  datatype Token = Token(closing: bool, tag: string, attributes: string)

  datatype TagMatch = NoTag | TagMatch(token: Token, end: nat)

  /** `/<\s*(\/?)\s*([a-zA-Z-]+)([^>]*)>/` at the start of `s`. */
  function MatchTag(s: string): (m: TagMatch)
    ensures m.TagMatch? ==> 0 < m.end <= |s| && s[0] == '<'
  {
    if s == "" || s[0] != '<' then NoTag
    else
      var slash := SkipSpaces(s, 1);
      var closing := slash < |s| && s[slash] == '/';
      var name := SkipSpaces(s, if closing then slash + 1 else slash);
      var attributes := SkipName(s, name);
      var end := SkipTo(s, '>', attributes);
      if attributes == name || end == |s| then NoTag
      else TagMatch(Token(closing, Lower(s[name..attributes]), s[attributes..end]), end + 1)
  }

  /** `text.matchAll(TAG_PATTERN)`. */
  function Tokens(s: string): seq<Token>
    decreases |s|
  {
    if s == "" then []
    else if MatchTag(s).TagMatch? then [MatchTag(s).token] + Tokens(s[MatchTag(s).end..])
    else Tokens(s[1..])
  }

  datatype Attribute = Attribute(name: string, value: string)

  datatype AttributeMatch = NoAttribute | AttributeMatch(attribute: Attribute, end: nat)

  /** `/([a-zA-Z-]+)\s*=\s*"([^"]*)"/` at the start of `s`, the name already lowered. */
  function MatchAttribute(s: string): (m: AttributeMatch)
    ensures m.AttributeMatch? ==> 0 < m.end <= |s|
  {
    var nameEnd := SkipName(s, 0);
    var equals := SkipSpaces(s, nameEnd);
    if nameEnd == 0 || equals == |s| || s[equals] != '=' then NoAttribute
    else
      var quote := SkipSpaces(s, equals + 1);
      if quote == |s| || s[quote] != '"' then NoAttribute
      else
        var end := SkipTo(s, '"', quote + 1);
        if end == |s| then NoAttribute
        else AttributeMatch(Attribute(Lower(s[..nameEnd]), s[quote + 1..end]), end + 1)
  }

  /** `attributes.matchAll(ATTRIBUTE_PATTERN)`. */
  function Attributes(s: string): seq<Attribute>
    decreases |s|
  {
    if s == "" then []
    else if MatchAttribute(s).AttributeMatch? then
      [MatchAttribute(s).attribute] + Attributes(s[MatchAttribute(s).end..])
    else Attributes(s[1..])
  }

  /** `/^https:\/\/[^\s"']+$/`. */
  predicate IsSafeLink(value: string) {
    && StartsWith(value, "https://")
    && |value| > 8
    && forall i | 8 <= i < |value| :: !IsSpace(value[i]) && value[i] != '"' && value[i] != '\''
  }

  // ---------------------------------------------------------------------------------------
  // What one token does to the stack of open tags, and which problems it draws.

  function AttributeProblem(tag: string, attribute: Attribute): seq<Problem> {
    if tag == "a" && attribute.name == "href" then
      if IsSafeLink(attribute.value) then []
      else [UnsafeLink(if |attribute.value| > 120 then attribute.value[..120] else attribute.value)]
    else if tag == "pre" && attribute.name == "class" then []
    else [UnsupportedAttribute(tag, attribute.name)]
  }

  function AttributeProblems(tag: string, attributes: seq<Attribute>): seq<Problem> {
    if attributes == [] then []
    else AttributeProblem(tag, attributes[0]) + AttributeProblems(tag, attributes[1..])
  }

  predicate Closes(open: seq<string>, tag: string) {
    open != [] && open[|open| - 1] == tag
  }

  function StepOpen(open: seq<string>, t: Token): seq<string> {
    if !IsAllowed(t.tag) then open
    else if !t.closing then open + [t.tag]
    else if Closes(open, t.tag) then open[..|open| - 1]
    else open
  }

  function StepProblems(open: seq<string>, t: Token): seq<Problem> {
    if !IsAllowed(t.tag) then [UnknownTag(t.tag)]
    else if !t.closing then AttributeProblems(t.tag, Attributes(t.attributes))
    else if Closes(open, t.tag) then []
    else [UnexpectedClosingTag(t.tag)]
  }

  /** The tags still open after some tokens. */
  function OpenAfter(open: seq<string>, tokens: seq<Token>): seq<string>
    decreases |tokens|
  {
    if tokens == [] then open else OpenAfter(StepOpen(open, tokens[0]), tokens[1..])
  }

  /** The problems some tokens draw, in order. */
  function TokenProblems(open: seq<string>, tokens: seq<Token>): seq<Problem>
    decreases |tokens|
  {
    if tokens == [] then []
    else StepProblems(open, tokens[0]) + TokenProblems(StepOpen(open, tokens[0]), tokens[1..])
  }

  function UnclosedProblems(open: seq<string>): seq<Problem> {
    if open == [] then [] else [UnclosedTag(open[0])] + UnclosedProblems(open[1..])
  }

  /** All the problems of the markup of a text. */
  function MarkupProblems(tokens: seq<Token>): seq<Problem> {
    TokenProblems([], tokens) + UnclosedProblems(OpenAfter([], tokens))
  }

  function SizeProblems(text: string): seq<Problem> {
    (if Trim(text) == "" then [Empty] else [])
    + (if |text| > TELEGRAM_MESSAGE_LIMIT then [TooLong(|text|, TELEGRAM_MESSAGE_LIMIT)] else [])
  }

  function ProblemsOf(text: string, mode: ParseMode): seq<Problem> {
    SizeProblems(text) + if mode.Html? then MarkupProblems(Tokens(text)) else []
  }

  lemma {:induction false} OpenAfterSnoc(open: seq<string>, tokens: seq<Token>, t: Token)
    ensures OpenAfter(open, tokens + [t]) == StepOpen(OpenAfter(open, tokens), t)
    ensures TokenProblems(open, tokens + [t]) == TokenProblems(open, tokens) + StepProblems(OpenAfter(open, tokens), t)
    decreases |tokens|
  {
    hide StepOpen, StepProblems;
    if tokens == [] {
      assert tokens + [t] == [t];
      assert [t][1..] == [];
      assert TokenProblems(StepOpen(open, t), [t][1..]) == [];
    } else {
      assert (tokens + [t])[1..] == tokens[1..] + [t];
      OpenAfterSnoc(StepOpen(open, tokens[0]), tokens[1..], t);
    }
  }

  lemma {:induction false} AttributeProblemsSnoc(tag: string, attributes: seq<Attribute>, a: Attribute)
    ensures AttributeProblems(tag, attributes + [a]) == AttributeProblems(tag, attributes) + AttributeProblem(tag, a)
  {
    hide AttributeProblem;
    if attributes == [] {
      assert attributes + [a] == [a];
      assert [a][1..] == [];
      assert AttributeProblems(tag, [a][1..]) == [];
    } else {
      assert (attributes + [a])[1..] == attributes[1..] + [a];
      AttributeProblemsSnoc(tag, attributes[1..], a);
    }
  }

  lemma {:induction false} UnclosedSnoc(open: seq<string>, tag: string)
    ensures UnclosedProblems(open + [tag]) == UnclosedProblems(open) + [UnclosedTag(tag)]
  {
    if open == [] {
      assert open + [tag] == [tag];
      assert [tag][1..] == [];
    } else {
      assert (open + [tag])[1..] == open[1..] + [tag];
      UnclosedSnoc(open[1..], tag);
    }
  }

  /** The loop over the attributes of one opening tag. */
  method JudgeAttributes(tag: string, attributes: seq<Attribute>) returns (problems: seq<Problem>)
    ensures problems == AttributeProblems(tag, attributes)
  {
    hide IsSafeLink;
    problems := [];
    for j := 0 to |attributes|
      invariant problems == AttributeProblems(tag, attributes[..j])
    {
      var name, value := attributes[j].name, attributes[j].value;
      assert attributes[..j + 1] == attributes[..j] + [attributes[j]];
      AttributeProblemsSnoc(tag, attributes[..j], attributes[j]);
      if tag == "a" && name == "href" {
        if !IsSafeLink(value) {
          problems := problems + [UnsafeLink(if |value| > 120 then value[..120] else value)];
        }
        continue;
      }
      if tag == "pre" && name == "class" {
        continue;
      }
      problems := problems + [UnsupportedAttribute(tag, name)];
    }
    assert attributes[..|attributes|] == attributes;
  }

  /** The loop over the tags of a text: the problems they draw, and the tags left open. */
  method JudgeTokens(tokens: seq<Token>) returns (problems: seq<Problem>, open: seq<string>)
    ensures problems == TokenProblems([], tokens)
    ensures open == OpenAfter([], tokens)
  {
    hide IsAllowed, Attributes, AttributeProblems;
    problems, open := [], [];
    for i := 0 to |tokens|
      invariant open == OpenAfter([], tokens[..i])
      invariant problems == TokenProblems([], tokens[..i])
    {
      var token := tokens[i];
      var tag := token.tag;
      assert tokens[..i + 1] == tokens[..i] + [token];
      OpenAfterSnoc([], tokens[..i], token);
      hide OpenAfter, TokenProblems;
      if !IsAllowed(tag) {
        problems := problems + [UnknownTag(tag)];
        continue;
      }
      if token.closing {
        if open == [] {
          problems := problems + [UnexpectedClosingTag(tag)];
        } else {
          var expected := open[|open| - 1];
          ghost var stack := open;
          open := open[..|open| - 1];
          if expected != tag {
            problems := problems + [UnexpectedClosingTag(tag)];
            open := open + [expected];
            assert open == stack;
          }
        }
        continue;
      }
      open := open + [tag];
      var unfit := JudgeAttributes(tag, Attributes(token.attributes));
      problems := problems + unfit;
    }
    assert tokens[..|tokens|] == tokens;
  }

  method ValidateTelegramMessage(text: string, parseMode: ParseMode) returns (verdict: Verdict)
    ensures verdict.problems == ProblemsOf(text, parseMode)
    ensures verdict.ok <==> verdict.problems == []
  {
    hide Trim, Tokens, TokenProblems, OpenAfter;
    var problems: seq<Problem> := [];
    if |Trim(text)| == 0 {
      problems := problems + [Empty];
    }
    if |text| > TELEGRAM_MESSAGE_LIMIT {
      problems := problems + [TooLong(|text|, TELEGRAM_MESSAGE_LIMIT)];
    }
    assert problems == SizeProblems(text);
    if parseMode != Html {
      return Verdict(problems == [], problems);
    }
    var tokenProblems, open := JudgeTokens(Tokens(text));
    problems := problems + tokenProblems;
    ghost var marked := problems;
    for i := 0 to |open|
      invariant problems == marked + UnclosedProblems(open[..i])
    {
      assert open[..i + 1] == open[..i] + [open[i]];
      UnclosedSnoc(open[..i], open[i]);
      problems := problems + [UnclosedTag(open[i])];
    }
    assert open[..|open|] == open;
    assert problems == SizeProblems(text) + (tokenProblems + UnclosedProblems(open));
    return Verdict(problems == [], problems);
  }
}
