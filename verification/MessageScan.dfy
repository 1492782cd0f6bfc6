/** The two patterns of `telegram-message.ts` read back what is written: the tags of a text, and the
    attributes of a tag. */
module MessageScan {
  import opened Text
  import opened MessageFormat

  /** A stretch of a text: words without a `<`, or one tag, with blanks in front of the slash and the name. */
  datatype Piece = Words(text: string) | Tag(token: Token, before: string, between: string, written: string)

  /** A name in lower case, however it is written. */
  predicate SameName(written: string, name: string) {
    && written != ""
    && |written| == |name|
    && forall i | 0 <= i < |name| ::
         || (written[i] == name[i] && ('a' <= name[i] <= 'z' || name[i] == '-'))
         || ('A' <= written[i] <= 'Z' && name[i] as int == written[i] as int + 32)
  }

  predicate IsPiece(p: Piece) {
    match p
    case Words(text) => '<' !in text
    case Tag(t, before, between, written) =>
      && SameName(written, t.tag)
      && IsBlankText(before) && IsBlankText(between) && (between != "" ==> t.closing)
      && '>' !in t.attributes && (t.attributes != "" ==> !IsNameChar(t.attributes[0]))
  }

  /** What stands in front of a tag's name. */
  function Opening(p: Piece): string
    requires p.Tag?
  {
    "<" + p.before + (if p.token.closing then "/" else "") + p.between
  }

  function Printed(p: Piece): string {
    match p
    case Words(text) => text
    case Tag(t, _, _, written) => Opening(p) + written + t.attributes + ">"
  }

  function PrintedAll(pieces: seq<Piece>): string {
    if pieces == [] then "" else Printed(pieces[0]) + PrintedAll(pieces[1..])
  }

  function TokensOf(pieces: seq<Piece>): seq<Token> {
    if pieces == [] then []
    else (if pieces[0].Tag? then [pieces[0].token] else []) + TokensOf(pieces[1..])
  }

  lemma {:induction false} NameRuns(s: string, i: nat, n: nat)
    requires i <= n <= |s| && (n < |s| ==> !IsNameChar(s[n]))
    requires forall k | i <= k < n :: IsNameChar(s[k])
    ensures SkipName(s, i) == n
    decreases n - i
  {
    if i < n {
      NameRuns(s, i + 1, n);
    }
  }

  lemma {:induction false} RunsTo(s: string, c: char, i: nat, n: nat)
    requires i <= n < |s| && s[n] == c
    requires forall k | i <= k < n :: s[k] != c
    ensures SkipTo(s, c, i) == n
    decreases n - i
  {
    if i < n {
      RunsTo(s, c, i + 1, n);
    }
  }

  lemma NameIsLower(written: string, name: string)
    requires SameName(written, name)
    ensures Lower(written) == name
    ensures forall i | 0 <= i < |written| :: IsNameChar(written[i])
    ensures forall i | 0 <= i < |written| :: !IsSpace(written[i]) && written[i] != '/'
  {
  }

  lemma {:induction false} BlanksAreSkipped(s: string, i: nat, j: nat)
    requires i <= j <= |s| && (j < |s| ==> !IsSpace(s[j]))
    requires forall k | i <= k < j :: IsSpace(s[k])
    ensures SkipSpaces(s, i) == j
    decreases j - i
  {
    hide IsSpace;
    if i < j {
      BlanksAreSkipped(s, i + 1, j);
    }
  }

  /** What the tag pattern makes of a `<`, blanks, perhaps a `/` and blanks, a name from `name` to `named`, and
      anything up to a `>` at `end`. */
  lemma TagIsReadAt(s: string, closing: bool, slash: nat, name: nat, named: nat, end: nat)
    requires 1 <= slash <= name < named <= end < |s| && s[0] == '<' && s[end] == '>'
    requires forall k | 1 <= k < slash :: IsSpace(s[k])
    requires !IsSpace(s[slash]) && (closing <==> s[slash] == '/') && (!closing ==> name == slash)
    requires closing ==> slash < name && forall k | slash < k < name :: IsSpace(s[k])
    requires !IsSpace(s[name])
    requires forall k | name <= k < named :: IsNameChar(s[k])
    requires !IsNameChar(s[named])
    requires forall k | named <= k < end :: s[k] != '>'
    ensures MatchTag(s) == TagMatch(Token(closing, Lower(s[name..named]), s[named..end]), end + 1)
  {
    hide IsSpace, IsNameChar, Lower, SkipTo, SkipName, SkipSpaces;
    BlanksAreSkipped(s, 1, slash);
    BlanksAreSkipped(s, if closing then slash + 1 else slash, name);
    NameRuns(s, name, named);
    RunsTo(s, '>', named, end);
  }

  lemma Layout(a: string, b: string, c: string, d: string)
    ensures var s := a + b + c + ">" + d;
            && s[|a|..|a| + |b|] == b && s[|a| + |b|..|a| + |b| + |c|] == c && s[|a| + |b| + |c|] == '>'
            && forall k | 0 <= k < |a| :: s[k] == a[k]
  {
  }

  /** Where the slash of a tag is, or else its name. */
  lemma OpeningIs(p: Piece)
    requires p.Tag? && IsPiece(p)
    ensures var o, slash := Opening(p), 1 + |p.before|;
            && o[0] == '<'
            && |o| == slash + (if p.token.closing then 1 else 0) + |p.between|
            && (forall k | 1 <= k < slash :: IsSpace(o[k]))
            && (p.token.closing ==> o[slash] == '/')
            && (forall k | slash < k < |o| :: IsSpace(o[k]))
  {
    hide IsSpace;
    var o := Opening(p);
    assert forall k | 1 <= k < 1 + |p.before| :: o[k] == p.before[k - 1];
    var from := |o| - |p.between|;
    assert forall k | from <= k < |o| :: o[k] == p.between[k - from];
  }

  /** A tag is matched where it stands, whatever follows it, in whatever case its name is written. */
  lemma TagIsMatched(p: Piece, rest: string)
    requires p.Tag? && IsPiece(p)
    ensures MatchTag(Printed(p) + rest) == TagMatch(p.token, |Printed(p)|)
  {
    hide IsSpace, IsNameChar, Lower, MatchTag, Opening;
    var t, o := p.token, Opening(p);
    var s := o + p.written + t.attributes + ">" + rest;
    Layout(o, p.written, t.attributes, rest);
    OpeningIs(p);
    NameIsLower(p.written, t.tag);
    var slash, named := 1 + |p.before|, |o| + |p.written|;
    var end := named + |t.attributes|;
    SliceAt(s, |o|, named, p.written);
    SliceAt(s, named, end, t.attributes);
    BracketsAreNotNames();
    SlashIsNoSpace();
    TagIsReadAt(s, t.closing, slash, |o|, named, end);
  }

  lemma SliceAt(s: string, i: nat, j: nat, x: string)
    requires i <= j <= |s| && s[i..j] == x
    ensures forall k | i <= k < j :: s[k] == x[k - i]
  {
  }

  lemma SlashIsNoSpace()
    ensures !IsSpace('/')
  {
  }

  lemma BracketsAreNotNames()
    ensures !IsNameChar('>') && !IsNameChar(' ') && !IsNameChar('=') && !IsSpace('/') && !IsSpace('=') && !IsSpace('"')
  {
  }

  lemma {:induction false} WordsAreSkipped(text: string, rest: string)
    requires '<' !in text
    ensures Tokens(text + rest) == Tokens(rest)
  {
    hide MatchTag;
    if text == "" {
      assert text + rest == rest;
    } else {
      assert (text + rest)[0] == text[0] && (text + rest)[1..] == text[1..] + rest;
      WordsAreSkipped(text[1..], rest);
    }
  }

  /** The scan of a text finds exactly the tags that were written into it, in order. */
  lemma {:induction false} TokensOfPrinted(pieces: seq<Piece>)
    requires forall p | p in pieces :: IsPiece(p)
    ensures Tokens(PrintedAll(pieces)) == TokensOf(pieces)
  {
    hide MatchTag, Printed;
    if pieces != [] {
      var p, rest := pieces[0], PrintedAll(pieces[1..]);
      TokensOfPrinted(pieces[1..]);
      match p
      case Words(text) =>
        PrintedWords(text);
        assert IsPiece(p);
        WordsAreSkipped(text, rest);
      case Tag(_, _, _, _) =>
        TagIsMatched(p, rest);
        assert (Printed(p) + rest)[|Printed(p)|..] == rest;
    }
  }

  lemma PrintedWords(text: string)
    ensures Printed(Words(text)) == text
  {
  }

  /** An attribute, the way its name is written, and the blanks around its `=`. */
  datatype Spelled = Spelled(attribute: Attribute, written: string, before: string, after: string)

  predicate IsSpelled(a: Spelled) {
    SameName(a.written, a.attribute.name) && IsBlankText(a.before) && IsBlankText(a.after) && '"' !in a.attribute.value
  }

  function PrintedAttribute(a: Spelled): string {
    a.written + a.before + "=" + a.after + "\"" + a.attribute.value + "\""
  }

  function PrintedAttributes(attributes: seq<Spelled>): string {
    if attributes == [] then "" else " " + PrintedAttribute(attributes[0]) + PrintedAttributes(attributes[1..])
  }

  function AttributesOf(attributes: seq<Spelled>): seq<Attribute> {
    if attributes == [] then [] else [attributes[0].attribute] + AttributesOf(attributes[1..])
  }

  /** What the attribute pattern makes of a name, blanks, a `=` at `equals`, blanks, a quote at `quote` and
      anything up to a quote at `end`. */
  lemma AttributeIsReadAt(s: string, named: nat, equals: nat, quote: nat, end: nat)
    requires 1 <= named <= equals < quote < end < |s| && s[equals] == '=' && s[quote] == '"' && s[end] == '"'
    requires forall k | 0 <= k < named :: IsNameChar(s[k])
    requires !IsNameChar(s[named])
    requires forall k | named <= k < equals || equals < k < quote :: IsSpace(s[k])
    requires forall k | quote < k < end :: s[k] != '"'
    ensures MatchAttribute(s) == AttributeMatch(Attribute(Lower(s[..named]), s[quote + 1..end]), end + 1)
  {
    BracketsAreNotNames();
    hide IsSpace, IsNameChar, Lower, SkipTo, SkipName, SkipSpaces;
    NameRuns(s, 0, named);
    BlanksAreSkipped(s, named, equals);
    BlanksAreSkipped(s, equals + 1, quote);
    RunsTo(s, '"', quote + 1, end);
  }

  /** The places in a printed attribute. */
  lemma AttributeLayout(w: string, b: string, f: string, v: string, rest: string)
    ensures var s := w + b + "=" + f + "\"" + v + "\"" + rest;
            var equals := |w| + |b|;
            var quote := equals + 1 + |f|;
            && |s| == quote + |v| + 2 + |rest|
            && s[..|w|] == w && s[|w|..equals] == b && s[equals] == '=' && s[equals + 1..quote] == f
            && s[quote] == '"' && s[quote + 1..quote + 1 + |v|] == v && s[quote + 1 + |v|] == '"'
  {
  }

  lemma BlankIsNoName(c: char)
    requires IsSpace(c)
    ensures !IsNameChar(c)
  {
  }

  lemma AttributeIsMatched(a: Spelled, rest: string)
    requires IsSpelled(a)
    ensures MatchAttribute(PrintedAttribute(a) + rest) == AttributeMatch(a.attribute, |PrintedAttribute(a)|)
  {
    hide IsSpace, IsNameChar, Lower, MatchAttribute;
    var w, b, f, v := a.written, a.before, a.after, a.attribute.value;
    var s := w + b + "=" + f + "\"" + v + "\"" + rest;
    AttributeLayout(w, b, f, v, rest);
    NameIsLower(w, a.attribute.name);
    BracketsAreNotNames();
    var equals := |w| + |b|;
    var quote := equals + 1 + |f|;
    var end := quote + 1 + |v|;
    SliceAt(s, 0, |w|, w);
    SliceAt(s, |w|, equals, b);
    SliceAt(s, equals + 1, quote, f);
    SliceAt(s, quote + 1, end, v);
    if b != "" {
      BlankIsNoName(b[0]);
    }
    assert s[|w|] == if b != "" then b[0] else '=';
    AttributeIsReadAt(s, |w|, equals, quote, end);
  }

  /** The scan of a tag finds exactly the attributes that were written into it, in order. */
  lemma {:induction false} AttributesOfPrinted(attributes: seq<Spelled>)
    requires forall a | a in attributes :: IsSpelled(a)
    ensures Attributes(PrintedAttributes(attributes)) == AttributesOf(attributes)
  {
    hide MatchAttribute, PrintedAttribute;
    if attributes != [] {
      var a, later := attributes[0], PrintedAttributes(attributes[1..]);
      var s := PrintedAttribute(a) + later;
      AttributesOfPrinted(attributes[1..]);
      AttributeIsMatched(a, later);
      assert s[|PrintedAttribute(a)|..] == later;
      assert PrintedAttributes(attributes) == [' '] + s;
      assert ([' '] + s)[1..] == s;
      BlankIsNoAttribute(s);
    }
  }

  lemma BlankIsNoAttribute(s: string)
    ensures MatchAttribute([' '] + s) == NoAttribute
  {
    assert !IsNameChar(([' '] + s)[0]);
  }
}
