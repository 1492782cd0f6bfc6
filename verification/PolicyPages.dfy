/** What `paginatePolicy` promises: nothing lost, repeated or reordered; every page within the
    budget; only whole, paired tags on a page; no page break inside a section that fits. */
module PolicyPages {
  import opened Text
  import opened Markdown
  import opened Packing
  import opened Policies
  import Markup

  // ---------------------------------------------------------------------------------------
  // Nothing is lost: the source text.

  lemma {:induction false} InkOfUnixNewlines(s: string)
    ensures Ink(UnixNewlines(s)) == Ink(s)
  {
    hide Ink;
    if s != "" {
      if |s| >= 2 && s[0] == '\r' && s[1] == '\n' {
        InkOfUnixNewlines(s[2..]);
        InkConcat("\n", UnixNewlines(s[2..]));
        InkConcat(s[..2], s[2..]);
        assert s == s[..2] + s[2..];
        assert s[..2] == "\r\n";
        InkOfBlank("\n");
        InkOfBlank("\r\n");
      } else {
        InkOfUnixNewlines(s[1..]);
        InkConcat([s[0]], UnixNewlines(s[1..]));
        InkConcat([s[0]], s[1..]);
        assert s == [s[0]] + s[1..];
      }
    }
  }

  lemma {:induction false} InkOfBlank(s: string)
    requires forall i | 0 <= i < |s| :: IsSpace(s[i])
    ensures Ink(s) == ""
  {
    if s != "" {
      InkOfBlank(s[1..]);
    }
  }

  lemma InkOfSplit(s: string, sep: char)
    requires IsSpace(sep)
    ensures Ink(Concat(Split(s, sep))) == Ink(s)
  {
    hide IsSpace;
    InkOfBlank([sep]);
    JoinSplit(s, sep);
    InkJoin(Split(s, sep), [sep]);
  }

  lemma InkOfConcat(a: seq<string>, b: seq<string>)
    ensures Ink(Concat(a + b)) == Ink(Concat(a)) + Ink(Concat(b))
  {
    ConcatAppend(a, b);
    InkConcat(Concat(a), Concat(b));
  }

  lemma ConcatOne(s: string)
    ensures Concat([s]) == s
  {
    assert [s][1..] == [];
    assert Concat([s][1..]) == "";
    assert s + "" == s;
  }

  lemma InkOfSectionText(group: seq<string>)
    ensures Ink(Concat(SectionText(group))) == Ink(Concat(group))
  {
    hide Trim;
    var text := Trim(Join(group, "\n"));
    InkTrim(Join(group, "\n"));
    InkOfBlank("\n");
    InkJoin(group, "\n");
    ConcatOne(text);
  }

  lemma {:induction false} InkOfSectionTexts(groups: seq<seq<string>>)
    ensures Ink(Concat(SectionTexts(groups))) == Ink(Concat(Chain(groups)))
  {
    hide SectionText;
    if groups != [] {
      InkOfSectionTexts(groups[1..]);
      InkOfSectionText(groups[0]);
      InkOfConcat(SectionText(groups[0]), SectionTexts(groups[1..]));
      InkOfConcat(groups[0], Chain(groups[1..]));
    }
  }

  /** The sections hold the ink of the document. */
  lemma InkOfSections(markdown: string)
    ensures Ink(Concat(SectionsOf(markdown))) == Ink(markdown)
  {
    hide SectionTexts, Groups;
    var lines := DocumentLines(markdown);
    GroupsCutAtHeadings([], lines);
    assert [] + lines == lines;
    InkOfSectionTexts(Groups([], lines));
    InkOfSplit(UnixNewlines(markdown), '\n');
    InkOfUnixNewlines(markdown);
  }

  lemma {:induction false} InkOfChunks(chunk: string, words: seq<string>, budget: nat)
    ensures Ink(Concat(Chunks(chunk, words, budget))) == Ink(chunk) + Ink(Concat(words))
    decreases |words|
  {
    hide Flatten, Ink;
    if words == [] {
      ConcatOne(chunk);
      InkOfBlank("");
      assert Ink("") == "";
    } else {
      var candidate := if chunk == "" then words[0] else chunk + " " + words[0];
      InkConcat(words[0], Concat(words[1..]));
      assert Concat(words) == words[0] + Concat(words[1..]);
      InkOfBlank("");
      InkOfBlank(" ");
      if |Flatten(candidate)| > budget && chunk != "" {
        InkOfChunks(words[0], words[1..], budget);
        InkOfConcat([chunk], Chunks(words[0], words[1..], budget));
        ConcatOne(chunk);
      } else {
        InkOfChunks(candidate, words[1..], budget);
        InkConcat(chunk, " ");
        InkConcat(chunk + " ", words[0]);
      }
    }
  }

  lemma InkOfLinePieces(line: string, budget: nat)
    ensures Ink(Concat(Pieces([line], budget))) == Ink(line)
  {
    hide Flatten, Pieces, Chunks, Ink;
    PiecesOfLine(line, budget);
    if |Flatten(line)| <= budget {
      ConcatOne(line);
    } else {
      InkOfChunks("", Split(line, ' '), budget);
      InkOfBlank("");
      InkOfSplit(line, ' ');
    }
  }

  lemma {:induction false} InkOfPieces(lines: seq<string>, budget: nat)
    ensures Ink(Concat(Pieces(lines, budget))) == Ink(Concat(lines))
  {
    hide Flatten, Chunks, Ink;
    if lines != [] {
      InkOfPieces(lines[1..], budget);
      InkOfLinePieces(lines[0], budget);
      assert Pieces(lines, budget) == Pieces([lines[0]], budget) + Pieces(lines[1..], budget) by {
        PiecesOfLine(lines[0], budget);
      }
      InkOfConcat(Pieces([lines[0]], budget), Pieces(lines[1..], budget));
      InkConcat(lines[0], Concat(lines[1..]));
    }
  }

  /** The stretches of the document that are rendered on their own: whole sections where they fit. */
  function Fragments(sections: seq<string>, budget: nat): seq<string> {
    if sections == [] then []
    else
      (if |Flatten(sections[0])| <= budget then [sections[0]] else Pieces(Split(sections[0], '\n'), budget))
      + Fragments(sections[1..], budget)
  }

  lemma {:induction false} InkOfFragments(sections: seq<string>, budget: nat)
    ensures Ink(Concat(Fragments(sections, budget))) == Ink(Concat(sections))
  {
    hide Flatten, Pieces, Ink;
    if sections != [] {
      var first := sections[0];
      InkOfFragments(sections[1..], budget);
      var pieces := if |Flatten(first)| <= budget then [first] else Pieces(Split(first, '\n'), budget);
      InkOfPieces(Split(first, '\n'), budget);
      InkOfSplit(first, '\n');
      ConcatOne(first);
      InkOfConcat(pieces, Fragments(sections[1..], budget));
      InkConcat(first, Concat(sections[1..]));
    }
  }

  /** A section's pages carry the ink of its rendered fragments. */
  lemma InkOfFitted(section: string, budget: nat)
    ensures var pieces := if |Flatten(section)| <= budget then [section] else Pieces(Split(section, '\n'), budget);
            Ink(Concat(Fitted(section, budget))) == Ink(Concat(FlattenEach(pieces)))
  {
    hide Flatten, Pieces, Ink, Packed;
    if |Flatten(section)| <= budget {
      FlattenEachOne(section);
    } else {
      InkOfBlank("\n");
      InkOfPacked(FlattenEach(Pieces(Split(section, '\n'), budget)), budget, "\n");
    }
  }

  lemma {:induction false} InkOfBlocks(sections: seq<string>, budget: nat)
    ensures Ink(Concat(Blocks(sections, budget))) == Ink(Concat(FlattenEach(Fragments(sections, budget))))
  {
    hide Flatten, Pieces, Ink, Fitted;
    if sections != [] {
      var first := sections[0];
      var pieces := if |Flatten(first)| <= budget then [first] else Pieces(Split(first, '\n'), budget);
      InkOfBlocks(sections[1..], budget);
      InkOfFitted(first, budget);
      InkOfConcat(Fitted(first, budget), Blocks(sections[1..], budget));
      FlattenEachConcat(pieces, Fragments(sections[1..], budget));
      InkOfConcat(FlattenEach(pieces), FlattenEach(Fragments(sections[1..], budget)));
    }
  }

  /** Whatever the document and the budget: the document is cut into fragments that together are
      its text, and the pages are those fragments rendered, none lost, repeated or moved. */
  lemma PagesRenderTheDocument(markdown: string, budget: nat)
    ensures var fragments := Fragments(SectionsOf(markdown), budget);
            && Ink(Concat(fragments)) == Ink(markdown)
            && Ink(Concat(AllPages(markdown, budget))) == Ink(Concat(FlattenEach(fragments)))
  {
    hide Flatten, SectionsOf, Fragments, FlattenEach, Blocks, Packed, Ink, Concat;
    var sections := SectionsOf(markdown);
    InkOfSections(markdown);
    InkOfFragments(sections, budget);
    InkOfBlocks(sections, budget);
    InkOfBlank("\n\n");
    InkOfPacked(Blocks(sections, budget), budget, "\n\n");
  }

  // ---------------------------------------------------------------------------------------
  // Which lines and words of a section are lines and words of the document.

  /** A line renders within the budget, or each of its space-separated words does. */
  predicate LineFits(line: string, budget: nat, byWord: bool) {
    if byWord then forall w | w in Split(line, ' ') :: |Flatten(w)| <= budget
    else |Flatten(line)| <= budget
  }

  predicate LinesFit(lines: seq<string>, budget: nat, byWord: bool) {
    forall i | 0 <= i < |lines| :: LineFits(lines[i], budget, byWord)
  }

  lemma {:induction false} SplitHas(s: string, sep: char, c: char)
    requires c !in s
    ensures forall w | w in Split(s, sep) :: c !in w
  {
    if s != "" {
      SplitHas(s[1..], sep, c);
      var rest := Split(s[1..], sep);
      assert rest[0] in rest;
      assert forall w | w in rest[1..] :: w in rest;
    }
  }

  lemma LineFitsWithoutLead(c: char, line: string, budget: nat, byWord: bool)
    requires IsSpace(c) && c != '\n' && '\n' !in line
    requires LineFits([c] + line, budget, byWord)
    ensures LineFits(line, budget, byWord)
  {
    hide Flatten;
    assert ([c] + line)[1..] == line;
    if byWord {
      var words, words' := Split(line, ' '), Split([c] + line, ' ');
      SplitHas(line, ' ', '\n');
      forall w | w in words
        ensures |Flatten(w)| <= budget
      {
        if c == ' ' {
          assert words' == [""] + words;
          assert w in words';
        } else {
          assert words' == [[c] + words[0]] + words[1..];
          assert words == [words[0]] + words[1..];
          if w == words[0] {
            FlattenLineLead(c, w);
            assert words'[0] in words';
          } else {
            assert w in words[1..];
            assert w in words';
          }
        }
      }
    } else {
      FlattenLineLead(c, line);
    }
  }

  lemma LineFitsWithoutTrail(line: string, c: char, budget: nat, byWord: bool)
    requires IsSpace(c) && c != '\n' && '\n' !in line
    requires LineFits(line + [c], budget, byWord)
    ensures LineFits(line, budget, byWord)
  {
    hide Flatten, IsSpace;
    if byWord {
      var words, words' := Split(line, ' '), Split(line + [c], ' ');
      var n := |words| - 1;
      SplitHas(line, ' ', '\n');
      SplitTrail(line, c, ' ');
      forall w | w in words
        ensures |Flatten(w)| <= budget
      {
        if c == ' ' {
          assert w in words';
        } else {
          assert words == words[..n] + [words[n]];
          if w == words[n] {
            FlattenLineTrail(w, c);
            assert words'[n] in words';
          } else {
            assert w in words[..n];
            assert w in words';
          }
        }
      }
    } else {
      FlattenLineTrail(line, c);
    }
  }

  lemma {:induction false} LinesFitTrimStart(s: string, budget: nat, byWord: bool)
    requires LinesFit(Split(s, '\n'), budget, byWord)
    ensures LinesFit(Split(TrimStart(s), '\n'), budget, byWord)
  {
    hide LineFits;
    if s != "" && IsSpace(s[0]) {
      var parts, rest := Split(s, '\n'), Split(s[1..], '\n');
      if s[0] == '\n' {
        assert parts == [""] + rest;
        forall i | 0 <= i < |rest|
          ensures LineFits(rest[i], budget, byWord)
        {
          assert rest[i] == parts[i + 1];
        }
      } else {
        assert parts == [[s[0]] + rest[0]] + rest[1..];
        forall i | 0 <= i < |rest|
          ensures LineFits(rest[i], budget, byWord)
        {
          if i == 0 {
            assert parts[0] == [s[0]] + rest[0];
            LineFitsWithoutLead(s[0], rest[0], budget, byWord);
          } else {
            assert rest[i] == parts[i];
          }
        }
      }
      LinesFitTrimStart(s[1..], budget, byWord);
    }
  }

  lemma LinesFitWithoutTrail(t: string, c: char, budget: nat, byWord: bool)
    requires IsSpace(c)
    requires LinesFit(Split(t + [c], '\n'), budget, byWord)
    ensures LinesFit(Split(t, '\n'), budget, byWord)
  {
    hide LineFits, IsSpace;
    SplitTrail(t, c, '\n');
    var parts, parts' := Split(t, '\n'), Split(t + [c], '\n');
    forall i | 0 <= i < |parts|
      ensures LineFits(parts[i], budget, byWord)
    {
      if c == '\n' || i < |parts| - 1 {
        assert parts'[i] == parts[i];
      } else {
        assert parts'[i] == parts[i] + [c];
        LineFitsWithoutTrail(parts[i], c, budget, byWord);
      }
    }
  }

  lemma {:induction false} LinesFitTrimEnd(s: string, budget: nat, byWord: bool)
    requires LinesFit(Split(s, '\n'), budget, byWord)
    ensures LinesFit(Split(TrimEnd(s), '\n'), budget, byWord)
  {
    hide LineFits, LinesFit;
    if s != "" && IsSpace(s[|s| - 1]) {
      var t := s[..|s| - 1];
      assert s == t + [s[|s| - 1]];
      LinesFitWithoutTrail(t, s[|s| - 1], budget, byWord);
      LinesFitTrimEnd(t, budget, byWord);
    }
  }

  /** A document's lines carry no newline. */
  predicate AreLines(lines: seq<string>) {
    forall i | 0 <= i < |lines| :: '\n' !in lines[i]
  }

  lemma SectionTextFits(group: seq<string>, budget: nat, byWord: bool)
    requires AreLines(group) && LinesFit(group, budget, byWord)
    ensures forall text | text in SectionText(group) :: LinesFit(Split(text, '\n'), budget, byWord)
  {
    hide LineFits, LinesFit;
    if group != [] {
      SplitJoin(group, '\n');
      LinesFitTrimStart(Join(group, "\n"), budget, byWord);
      LinesFitTrimEnd(TrimStart(Join(group, "\n")), budget, byWord);
    }
  }

  lemma {:induction false} SectionTextsFit(groups: seq<seq<string>>, budget: nat, byWord: bool)
    requires AreLines(Chain(groups)) && LinesFit(Chain(groups), budget, byWord)
    ensures forall text | text in SectionTexts(groups) :: LinesFit(Split(text, '\n'), budget, byWord)
  {
    hide LineFits, SectionText;
    if groups != [] {
      var g, later := groups[0], Chain(groups[1..]);
      assert forall i | 0 <= i < |g| :: (g + later)[i] == g[i];
      assert forall i | 0 <= i < |later| :: (g + later)[|g| + i] == later[i];
      SectionTextFits(g, budget, byWord);
      SectionTextsFit(groups[1..], budget, byWord);
    }
  }

  lemma SectionsFit(markdown: string, budget: nat, byWord: bool)
    requires LinesFit(DocumentLines(markdown), budget, byWord)
    ensures forall text | text in SectionsOf(markdown) :: LinesFit(Split(text, '\n'), budget, byWord)
  {
    hide LineFits, LinesFit, Groups, SectionTexts;
    var lines := DocumentLines(markdown);
    GroupsCutAtHeadings([], lines);
    assert [] + lines == lines;
    SectionTextsFit(Groups([], lines), budget, byWord);
  }

  // ---------------------------------------------------------------------------------------
  // Nothing is lost: the rendered lines.

  lemma {:induction false} InkOfFlattenedLines(lines: seq<string>)
    requires AreLines(lines)
    ensures Ink(Concat(FlattenEach(lines))) == InkOfLines(lines)
  {
    hide Flatten, Ink, RenderLines;
    if lines != [] {
      InkOfFlattenedLines(lines[1..]);
      InkFlatten(lines[0]);
      SplitPlain(lines[0], '\n');
      InkConcat(Flatten(lines[0]), Concat(FlattenEach(lines[1..])));
      InkOfLinesConcat([lines[0]], lines[1..]);
      assert lines == [lines[0]] + lines[1..];
    } else {
      InkOfBlank("");
      assert RenderLines([]) == [] by {
        RenderNothing();
      }
    }
  }

  lemma RenderNothing()
    ensures RenderLines([]) == []
  {
  }

  lemma {:induction false} PiecesAreLines(lines: seq<string>, budget: nat)
    requires LinesFit(lines, budget, false)
    ensures Pieces(lines, budget) == lines
  {
    hide Flatten;
    if lines != [] {
      assert LineFits(lines[0], budget, false);
      assert forall i | 0 <= i < |lines| - 1 :: lines[1..][i] == lines[i + 1];
      PiecesAreLines(lines[1..], budget);
    }
  }

  lemma InkOfFittedLines(section: string, budget: nat)
    requires LinesFit(Split(section, '\n'), budget, false)
    ensures Ink(Concat(Fitted(section, budget))) == InkOfLines(Split(section, '\n'))
  {
    hide Flatten, Fitted, InkOfLines, Ink, Concat, LinesFit;
    InkOfFitted(section, budget);
    if |Flatten(section)| <= budget {
      FlattenEachOne(section);
      ConcatOne(Flatten(section));
      InkFlatten(section);
    } else {
      PiecesAreLines(Split(section, '\n'), budget);
      InkOfFlattenedLines(Split(section, '\n'));
    }
  }

  /** The ink of texts whose lines are rendered one by one. */
  function InkOfTexts(texts: seq<string>): string {
    if texts == [] then "" else InkOfLines(Split(texts[0], '\n')) + InkOfTexts(texts[1..])
  }

  lemma {:induction false} InkOfTextsConcat(a: seq<string>, b: seq<string>)
    ensures InkOfTexts(a + b) == InkOfTexts(a) + InkOfTexts(b)
  {
    hide InkOfLines;
    if a == [] {
      assert a + b == b;
    } else {
      assert (a + b)[1..] == a[1..] + b;
      InkOfTextsConcat(a[1..], b);
    }
  }

  lemma InkOfSectionLines(group: seq<string>)
    requires AreLines(group)
    ensures InkOfTexts(SectionText(group)) == InkOfLines(group)
  {
    hide InkOfLines, Trim;
    var text := Trim(Join(group, "\n"));
    InkOfLinesTrim(Join(group, "\n"));
    if group == [] {
      NoLinesNoInk();
    } else {
      SplitJoin(group, '\n');
      if text == "" {
        InkOfBlankLine();
        assert Split("", '\n') == [""];
      } else {
        assert [text][1..] == [];
        assert InkOfTexts([text][1..]) == "";
        assert InkOfTexts([text]) == InkOfLines(Split(text, '\n')) + "";
      }
    }
  }

  lemma NoLinesNoInk()
    ensures InkOfLines([]) == "" && Trim(Join([], "\n")) == ""
  {
  }

  lemma {:induction false} InkOfSectionsLines(groups: seq<seq<string>>)
    requires AreLines(Chain(groups))
    ensures InkOfTexts(SectionTexts(groups)) == InkOfLines(Chain(groups))
  {
    hide InkOfLines, SectionText;
    if groups != [] {
      var g, later := groups[0], Chain(groups[1..]);
      assert forall i | 0 <= i < |g| :: (g + later)[i] == g[i];
      assert forall i | 0 <= i < |later| :: (g + later)[|g| + i] == later[i];
      InkOfSectionLines(g);
      InkOfSectionsLines(groups[1..]);
      InkOfTextsConcat(SectionText(g), SectionTexts(groups[1..]));
      InkOfLinesConcat(g, later);
    } else {
      NoLinesNoInk();
    }
  }

  lemma {:induction false} InkOfFittedSections(sections: seq<string>, budget: nat)
    requires forall text | text in sections :: LinesFit(Split(text, '\n'), budget, false)
    ensures Ink(Concat(Blocks(sections, budget))) == InkOfTexts(sections)
  {
    hide Fitted, InkOfLines, LinesFit;
    if sections != [] {
      InkOfFittedLines(sections[0], budget);
      InkOfFittedSections(sections[1..], budget);
      InkOfConcat(Fitted(sections[0], budget), Blocks(sections[1..], budget));
    }
  }

  lemma InkOfAllPages(markdown: string, budget: nat)
    requires LinesFit(DocumentLines(markdown), budget, false)
    ensures Ink(Concat(AllPages(markdown, budget))) == InkOfLines(DocumentLines(markdown))
  {
    hide LinesFit, Groups, SectionTexts, Blocks, Packed, InkOfLines, Ink, Concat;
    var lines := DocumentLines(markdown);
    GroupsCutAtHeadings([], lines);
    assert [] + lines == lines;
    InkOfSectionsLines(Groups([], lines));
    SectionsFit(markdown, budget, false);
    InkOfFittedSections(SectionsOf(markdown), budget);
    InkOfBlank("\n\n");
    InkOfPacked(Blocks(SectionsOf(markdown), budget), budget, "\n\n");
  }

  lemma FlattenHasInk(markdown: string)
    requires Flatten(markdown) != ""
    ensures Ink(Flatten(markdown)) != ""
  {
    var collapsed := CollapseBlankLines(Join(RenderLines(Split(markdown, '\n')), "\n"));
    InkOfTrimmed(TrimEnd(TrimStart(collapsed)));
  }

  lemma {:induction false} FlattenEachMember(pieces: seq<string>, block: string) returns (piece: string)
    requires block in FlattenEach(pieces)
    ensures piece in pieces && block == Flatten(piece)
  {
    hide Flatten;
    if block == Flatten(pieces[0]) {
      piece := pieces[0];
    } else {
      piece := FlattenEachMember(pieces[1..], block);
    }
  }

  lemma InkOfRun(run: seq<string>, joiner: string)
    requires run != [] && Ink(run[0]) != "" && Ink(joiner) == ""
    ensures Ink(Join(run, joiner)) != ""
  {
    InkJoin(run, joiner);
    InkConcat(run[0], Concat(run[1..]));
  }

  /** No page of a section is without ink, apart from a section that renders to nothing. */
  lemma FittedHasInk(section: string, budget: nat, block: string)
    requires block in Fitted(section, budget) && block != ""
    ensures Ink(block) != ""
  {
    hide Flatten, Packed, Pieces, Ink;
    if |Flatten(section)| <= budget {
      FlattenHasInk(section);
    } else {
      var pieces := Pieces(Split(section, '\n'), budget);
      var run := PackedPage(FlattenEach(pieces), budget, "\n", block);
      var piece := FlattenEachMember(pieces, run[0]);
      FlattenHasInk(piece);
      InkOfBlank("\n");
      InkOfRun(run, "\n");
    }
  }

  lemma {:induction false} BlocksMember(sections: seq<string>, budget: nat, block: string) returns (section: string)
    requires block in Blocks(sections, budget)
    ensures section in sections && block in Fitted(section, budget)
  {
    hide Fitted;
    if block in Fitted(sections[0], budget) {
      section := sections[0];
    } else {
      section := BlocksMember(sections[1..], budget, block);
    }
  }

  lemma PageHasInk(markdown: string, budget: nat, page: string)
    requires page in AllPages(markdown, budget)
    ensures Ink(page) != ""
  {
    hide Fitted, Blocks, Packed, SectionsOf, Ink;
    var sections := SectionsOf(markdown);
    var run := PackedPage(Blocks(sections, budget), budget, "\n\n", page);
    var section := BlocksMember(sections, budget, run[0]);
    FittedHasInk(section, budget, run[0]);
    InkOfBlank("\n\n");
    InkOfRun(run, "\n\n");
  }

  /** When every line renders within the budget, the pages in order carry exactly the text of the
      rendered lines in order, horizontal rules dropped, if and only if the document needs no more
      pages than a `pl:` button can name. */
  lemma PaginationKeepsEveryLine(markdown: string, budget: nat)
    requires LinesFit(DocumentLines(markdown), budget, false)
    ensures Ink(Concat(Paginated(markdown, budget))) == InkOfLines(DocumentLines(markdown))
            <==> |AllPages(markdown, budget)| <= MAX_POLICY_PAGE + 1
  {
    hide AllPages, LinesFit, InkOfLines, DocumentLines, Ink;
    var pages := AllPages(markdown, budget);
    InkOfAllPages(markdown, budget);
    var cap := MAX_POLICY_PAGE + 1;
    if pages == [] {
      ConcatOne("");
    } else if |pages| > cap {
      assert pages == pages[..cap] + pages[cap..];
      InkOfConcat(pages[..cap], pages[cap..]);
      PageHasInk(markdown, budget, pages[cap]);
      InkConcat(pages[cap], Concat(pages[cap..][1..]));
    }
  }

  // ---------------------------------------------------------------------------------------
  // Every page fits.

  /** A word of the document's sections. */
  ghost predicate IsWordOf(sections: seq<string>, word: string) {
    exists section, line | section in sections && line in Split(section, '\n') :: word in Split(line, ' ')
  }

  /** A chunk that overflows the page is a single word. */
  lemma {:induction false} OneWordMore(chunk: string, words: seq<string>, budget: nat, piece: string)
    requires piece in Chunks(chunk, words, budget)
    ensures |Flatten(piece)| <= budget || piece in words || piece == chunk
    decreases |words|
  {
    hide Flatten;
    if words != [] {
      var candidate := if chunk == "" then words[0] else chunk + " " + words[0];
      assert words == [words[0]] + words[1..];
      if |Flatten(candidate)| > budget && chunk != "" {
        if piece != chunk {
          OneWordMore(words[0], words[1..], budget, piece);
        }
      } else {
        OneWordMore(candidate, words[1..], budget, piece);
      }
    }
  }

  lemma {:induction false} PieceFits(lines: seq<string>, budget: nat, piece: string)
    requires piece in Pieces(lines, budget) && |Flatten(piece)| > budget
    ensures exists line | line in lines :: piece in Split(line, ' ')
  {
    hide Flatten, Chunks;
    assert lines == [lines[0]] + lines[1..];
    assert lines[0] in lines;
    var head := if |Flatten(lines[0])| <= budget then [lines[0]] else Chunks("", Split(lines[0], ' '), budget);
    if piece in head {
      OneWordMore("", Split(lines[0], ' '), budget, piece);
      EmptyWord(lines[0], budget, piece);
    } else {
      PieceFits(lines[1..], budget, piece);
    }
  }

  lemma EmptyWord(line: string, budget: nat, piece: string)
    requires |Flatten(piece)| > budget
    ensures piece != ""
  {
    SplitPlain("", '\n');
    FlattenLine("");
  }

  /** The chunk `next` starts with a word that would have made the chunk before it overflow. */
  predicate CutIsForced(chunk: string, next: string, words: seq<string>, budget: nat) {
    exists w | w in words :: w <= next && |Flatten(chunk + " " + w)| > budget
  }

  /** A line that is too long is never cut sooner than it has to be. */
  lemma {:induction false} ChunksAreFull(chunk: string, words: seq<string>, budget: nat)
    ensures var chunks := Chunks(chunk, words, budget);
            && (chunks != [] ==> chunk <= chunks[0])
            && forall i | 0 <= i < |chunks| - 1 :: CutIsForced(chunks[i], chunks[i + 1], words, budget)
    decreases |words|
  {
    hide Flatten, CutIsForced;
    if words != [] {
      var candidate := if chunk == "" then words[0] else chunk + " " + words[0];
      var chunks := Chunks(chunk, words, budget);
      if |Flatten(candidate)| > budget && chunk != "" {
        var later := Chunks(words[0], words[1..], budget);
        ChunksAreFull(words[0], words[1..], budget);
        assert chunks == [chunk] + later;
        forall i | 0 <= i < |chunks| - 1
          ensures CutIsForced(chunks[i], chunks[i + 1], words, budget)
        {
          if i == 0 {
            WordForcesCut(chunk, later[0], words, budget);
          } else {
            assert chunks[i] == later[i - 1] && chunks[i + 1] == later[i];
            StillForced(later[i - 1], later[i], words, budget);
          }
        }
      } else {
        ChunksAreFull(candidate, words[1..], budget);
        assert chunks == Chunks(candidate, words[1..], budget);
        forall i | 0 <= i < |chunks| - 1
          ensures CutIsForced(chunks[i], chunks[i + 1], words, budget)
        {
          StillForced(chunks[i], chunks[i + 1], words, budget);
        }
      }
    }
  }

  lemma WordForcesCut(chunk: string, next: string, words: seq<string>, budget: nat)
    requires words != [] && words[0] <= next && |Flatten(chunk + " " + words[0])| > budget
    ensures CutIsForced(chunk, next, words, budget)
  {
    hide Flatten;
  }

  lemma StillForced(chunk: string, next: string, words: seq<string>, budget: nat)
    requires words != [] && CutIsForced(chunk, next, words[1..], budget)
    ensures CutIsForced(chunk, next, words, budget)
  {
    hide Flatten;
  }

  /** Cut up, a line whose words stand one space apart is still that line: one space between chunks, and one
      between the words of a chunk. */
  lemma {:induction false} ChunksRejoin(chunk: string, words: seq<string>, budget: nat)
    requires forall i | 0 <= i < |words| :: words[i] != ""
    ensures Join(Chunks(chunk, words, budget), " ") ==
            if words == [] then chunk
            else if chunk == "" then Join(words, " ")
            else chunk + " " + Join(words, " ")
    ensures Chunks(chunk, words, budget) == [] <==> words == [] && chunk == ""
    decreases |words|
  {
    hide Flatten, Join;
    JoinOfFew(chunk);
    if words != [] {
      var word, later := words[0], words[1..];
      var candidate := if chunk == "" then word else chunk + " " + word;
      JoinFirst(words);
      if |Flatten(candidate)| > budget && chunk != "" {
        ChunksRejoin(word, later, budget);
        var rest := Chunks(word, later, budget);
        JoinFirst([chunk] + rest);
        assert ([chunk] + rest)[1..] == rest;
      } else {
        ChunksRejoin(candidate, later, budget);
        if later != [] && chunk != "" {
          Regroup(chunk + " ", word + " ", Join(later, " "));
          assert chunk + " " + word + " " == chunk + " " + (word + " ");
        }
      }
    }
  }

  lemma JoinOfFew(one: string)
    ensures Join([one], " ") == one && Join([], " ") == ""
  {
  }

  lemma JoinFirst(parts: seq<string>)
    requires parts != []
    ensures Join(parts, " ") == if |parts| == 1 then parts[0] else parts[0] + " " + Join(parts[1..], " ")
  {
  }

  /** A section that is longer than a page is cut between its lines: its pages are its rendered pieces, line
      below line, in the fewest pages that hold them. */
  lemma LongSectionIsCutBetweenLines(section: string, budget: nat)
    requires |Flatten(section)| > budget
    ensures var rendered := FlattenEach(Pieces(Split(section, '\n'), budget));
            exists runs :: IsPaging(runs, NonEmpty(rendered), budget, "\n")
                        && Fitted(section, budget) == JoinRuns(runs, "\n")
                        && forall others | IsPaging(others, NonEmpty(rendered), budget, "\n") :: |runs| <= |others|
    ensures |Flatten(section)| <= budget ==> Fitted(section, budget) == [Flatten(section)]
  {
    hide Flatten, Pieces, Greedy, JoinRuns, NonEmpty, IsPaging;
    PackedIsOptimal(FlattenEach(Pieces(Split(section, '\n'), budget)), budget, "\n");
  }

  /** A piece of a section is one of its lines, if that renders within the budget, or else one of the chunks
      that the line's words fill. */
  lemma {:induction false} PiecesAre(lines: seq<string>, budget: nat, piece: string)
    requires piece in Pieces(lines, budget)
    ensures exists line | line in lines ::
              if |Flatten(line)| <= budget then piece == line else piece in Chunks("", Split(line, ' '), budget)
  {
    hide Flatten, Chunks, Split;
    var first := if |Flatten(lines[0])| <= budget then [lines[0]] else Chunks("", Split(lines[0], ' '), budget);
    if piece in first {
      assert lines[0] in lines;
    } else {
      PiecesAre(lines[1..], budget, piece);
      var line :| line in lines[1..] &&
        if |Flatten(line)| <= budget then piece == line else piece in Chunks("", Split(line, ' '), budget);
      assert line in lines;
    }
  }

  /** The pages are the first 36 of all there are, and a document without text is one empty page. */
  lemma FirstPages(markdown: string, budget: nat)
    ensures var all, pages := AllPages(markdown, budget), Paginated(markdown, budget);
            && (all == [] ==> pages == [""])
            && (all != [] ==> pages <= all && |pages| == if |all| < 36 then |all| else 36)
  {
    hide AllPages;
  }

  // ---------------------------------------------------------------------------------------
  // The lines of a document.

  /** Lines are told apart by newlines, with or without a carriage return in front of each. */
  lemma {:induction false} LinesOfEitherKind(lines: seq<string>)
    requires lines != [] && forall i | 0 <= i < |lines| :: '\n' !in lines[i] && '\r' !in lines[i]
    ensures DocumentLines(Join(lines, "\r\n")) == lines && DocumentLines(Join(lines, "\n")) == lines
  {
    hide Split, UnixNewlines, Join;
    UnixOfCarriage(lines);
    UnixOfNewlines(lines);
    SplitJoin(lines, '\n');
    assert ['\n'] == "\n";
  }

  lemma {:induction false} UnixSkips(line: string, rest: string)
    requires '\r' !in line
    ensures UnixNewlines(line + rest) == line + UnixNewlines(rest)
  {
    if line == "" {
      assert line + rest == rest;
    } else {
      assert (line + rest)[0] == line[0] && (line + rest)[1..] == line[1..] + rest;
      UnixSkips(line[1..], rest);
      Regroup([line[0]], line[1..], UnixNewlines(rest));
    }
  }

  lemma UnixBreaks(rest: string)
    ensures UnixNewlines("\r\n" + rest) == "\n" + UnixNewlines(rest)
    ensures UnixNewlines("\n" + rest) == "\n" + UnixNewlines(rest)
    ensures UnixNewlines("") == ""
  {
    var s := "\r\n" + rest;
    assert s[0] == '\r' && s[1] == '\n' && s[2..] == rest;
    assert ("\n" + rest)[1..] == rest;
  }

  lemma {:induction false} UnixOfCarriage(lines: seq<string>)
    requires lines != [] && forall i | 0 <= i < |lines| :: '\r' !in lines[i]
    ensures UnixNewlines(Join(lines, "\r\n")) == Join(lines, "\n")
  {
    hide UnixNewlines;
    if |lines| == 1 {
      UnixSkips(lines[0], "");
      UnixBreaks("");
      assert lines[0] + "" == lines[0];
    } else {
      var rest := Join(lines[1..], "\r\n");
      Regroup(lines[0], "\r\n", rest);
      UnixSkips(lines[0], "\r\n" + rest);
      UnixBreaks(rest);
      UnixOfCarriage(lines[1..]);
      Regroup(lines[0], "\n", Join(lines[1..], "\n"));
    }
  }

  lemma {:induction false} UnixOfNewlines(lines: seq<string>)
    requires lines != [] && forall i | 0 <= i < |lines| :: '\r' !in lines[i]
    ensures UnixNewlines(Join(lines, "\n")) == Join(lines, "\n")
  {
    hide UnixNewlines;
    if |lines| == 1 {
      UnixSkips(lines[0], "");
      UnixBreaks("");
      assert lines[0] + "" == lines[0];
    } else {
      var rest := Join(lines[1..], "\n");
      Regroup(lines[0], "\n", rest);
      UnixSkips(lines[0], "\n" + rest);
      UnixBreaks(rest);
      UnixOfNewlines(lines[1..]);
    }
  }

  /** Some lines have text if and only if some character of them is not white space. */
  lemma TextIsInk(group: seq<string>)
    ensures HasText(group) <==> exists i, k | 0 <= i < |group| && 0 <= k < |group[i]| :: !IsSpace(group[i][k])
  {
    hide Trim, IsSpace;
    forall i | 0 <= i < |group|
      ensures Trim(group[i]) == "" <==> forall k | 0 <= k < |group[i]| :: IsSpace(group[i][k])
    {
      BlankIffNothingLeft(group[i]);
    }
  }

  /** A section starts at exactly two `#` and a blank, whatever blanks stand in front; not at one or three. */
  lemma SectionStarts(line: string)
    ensures StartsSection(line) <==>
            |Trim(line)| >= 3 && Trim(line)[..2] == "##" && IsSpace(Trim(line)[2])
    ensures Trim(line) != "" && (Trim(line)[0] != '#' || |Trim(line)| == 1 || Trim(line)[1] != '#') ==>
              !StartsSection(line)
    ensures |Trim(line)| >= 3 && Trim(line)[2] == '#' ==> !StartsSection(line)
  {
    assert !IsSpace('#');
    hide Trim, IsSpace;
  }

  /** A block that no page can hold is one word. */
  lemma FittedBlockFits(sections: seq<string>, section: string, budget: nat, block: string)
    requires section in sections && block in Fitted(section, budget) && |block| > budget
    ensures exists word :: IsWordOf(sections, word) && block == Flatten(word)
  {
    hide Flatten, Packed, Pieces;
    var pieces := Pieces(Split(section, '\n'), budget);
    var run := PackedPage(FlattenEach(pieces), budget, "\n", block);
    assert run[0] == block;
    var piece := FlattenEachMember(pieces, block);
    PieceFits(Split(section, '\n'), budget, piece);
    var line :| line in Split(section, '\n') && piece in Split(line, ' ');
    assert IsWordOf(sections, piece);
  }

  /** Whatever the document, a page breaks the budget only when it is the rendering of one single
      space-separated word that breaks it alone. */
  lemma PageOverBudgetIsOneWord(markdown: string, budget: nat, page: string)
    requires page in Paginated(markdown, budget) && |page| > budget
    ensures exists word :: IsWordOf(SectionsOf(markdown), word) && page == Flatten(word)
  {
    hide Flatten, Fitted, Blocks, Packed, SectionsOf, IsWordOf;
    var sections := SectionsOf(markdown);
    assert page in AllPages(markdown, budget);
    var run := PackedPage(Blocks(sections, budget), budget, "\n\n", page);
    assert run[0] == page;
    var section := BlocksMember(sections, budget, page);
    FittedBlockFits(sections, section, budget, page);
  }

  lemma OverBudgetFitted(section: string, budget: nat, text: string)
    requires |text| > budget
    ensures var own := if |Flatten(section)| <= budget then [section] else Pieces(Split(section, '\n'), budget);
            text in Fitted(section, budget) <==> text in FlattenEach(own)
  {
    hide Flatten, Packed, Pieces;
    if |Flatten(section)| <= budget {
      FlattenEachOne(section);
    } else {
      PagesOverBudgetAreBlocks(FlattenEach(Pieces(Split(section, '\n'), budget)), budget, "\n", text);
    }
  }

  lemma {:induction false} OverBudgetBlocks(sections: seq<string>, budget: nat, text: string)
    requires |text| > budget
    ensures text in Blocks(sections, budget) <==> text in FlattenEach(Fragments(sections, budget))
  {
    hide Flatten, Fitted, Pieces, FlattenEach;
    if sections == [] {
      NothingFlattened();
    } else {
      var section := sections[0];
      var own := if |Flatten(section)| <= budget then [section] else Pieces(Split(section, '\n'), budget);
      OverBudgetFitted(section, budget, text);
      OverBudgetBlocks(sections[1..], budget, text);
      FlattenEachConcat(own, Fragments(sections[1..], budget));
    }
  }

  lemma NothingFlattened()
    ensures FlattenEach([]) == []
  {
  }

  /** When a page breaks the budget at all: the pages over it are exactly the fragments that render over
      it, so there is one if and only if there is such a fragment. */
  lemma PagesOverBudgetAreFragments(markdown: string, budget: nat, text: string)
    requires |text| > budget
    ensures text in AllPages(markdown, budget) <==> text in FlattenEach(Fragments(SectionsOf(markdown), budget))
  {
    hide Flatten, Blocks, Packed, SectionsOf, FlattenEach, Fragments;
    OverBudgetBlocks(SectionsOf(markdown), budget, text);
    PagesOverBudgetAreBlocks(Blocks(SectionsOf(markdown), budget), budget, "\n\n", text);
  }

  /** So no page exceeds the budget when every space-separated word of the document renders within it. */
  lemma EveryPageFits(markdown: string, budget: nat)
    requires LinesFit(DocumentLines(markdown), budget, true)
    ensures forall page | page in Paginated(markdown, budget) :: |page| <= budget
  {
    hide Flatten, SectionsOf, Paginated, DocumentLines;
    forall page | page in Paginated(markdown, budget)
      ensures |page| <= budget
    {
      if |page| > budget {
        PageOverBudgetIsOneWord(markdown, budget, page);
        SectionsFit(markdown, budget, true);
      }
    }
  }

  /** Pages of the usual budget, 3000, leave 1096 characters of a Telegram message for what stands above them. */
  lemma UsualPagesLeaveRoom(markdown: string)
    requires LinesFit(DocumentLines(markdown), 3000, true)
    ensures forall page | page in Paginated(markdown, PAGE_BUDGET) :: |page| + 1096 <= 4096
    ensures Paginated(markdown, PAGE_BUDGET) == Paginated(markdown, 3000)
  {
    hide Paginated, LinesFit, DocumentLines;
    EveryPageFits(markdown, 3000);
  }

  // ---------------------------------------------------------------------------------------
  // What is on a page.

  lemma {:induction false} FlattenEachIsBalanced(pieces: seq<string>)
    ensures forall block | block in FlattenEach(pieces) :: Markup.Balanced(block)
  {
    hide Flatten, Markup.Balanced;
    if pieces != [] {
      FlattenEachIsBalanced(pieces[1..]);
      Markup.FlattenIsBalanced(pieces[0]);
    }
  }

  lemma PackedIsBalanced(blocks: seq<string>, budget: nat, joiner: string, page: string)
    requires forall block | block in blocks :: Markup.Balanced(block)
    requires Markup.Balanced(joiner)
    requires page in Packed(blocks, budget, joiner)
    ensures Markup.Balanced(page)
  {
    hide Packed, Markup.Balanced;
    var run := PackedPage(blocks, budget, joiner, page);
    Markup.JoinIsBalanced(run, joiner);
  }

  lemma FittedIsBalanced(section: string, budget: nat, block: string)
    requires block in Fitted(section, budget)
    ensures Markup.Balanced(block)
  {
    hide Flatten, Packed, Pieces, Markup.Balanced;
    if |Flatten(section)| <= budget {
      Markup.FlattenIsBalanced(section);
    } else {
      var blocks := FlattenEach(Pieces(Split(section, '\n'), budget));
      FlattenEachIsBalanced(Pieces(Split(section, '\n'), budget));
      Markup.ReadOne('\n');
      PackedIsBalanced(blocks, budget, "\n", block);
    }
  }

  /** On every page, each `<` and `>` belongs to an emphasis tag, and there are as many closing tags
      of each kind as opening ones: no page break falls between a tag and its partner. */
  lemma EveryPageIsBalanced(markdown: string, budget: nat, page: string)
    requires page in Paginated(markdown, budget)
    ensures Markup.Balanced(page)
  {
    hide Fitted, Blocks, Packed, SectionsOf, Markup.Balanced;
    Markup.ReadPlain("");
    assert Markup.Balanced("") by {
      EmptyIsBalanced();
    }
    if page in AllPages(markdown, budget) {
      var sections := SectionsOf(markdown);
      var blocks := Blocks(sections, budget);
      forall block | block in blocks
        ensures Markup.Balanced(block)
      {
        var section := BlocksMember(sections, budget, block);
        FittedIsBalanced(section, budget, block);
      }
      Markup.ReadOne('\n');
      Markup.BalancedConcat("\n", "\n");
      assert "\n" + "\n" == "\n\n";
      PackedIsBalanced(blocks, budget, "\n\n", page);
    }
  }

  lemma EmptyIsBalanced()
    ensures Markup.Balanced("")
  {
  }

  lemma {:induction false} BlocksOfShortSections(sections: seq<string>, budget: nat)
    requires forall section | section in sections :: |Flatten(section)| <= budget
    ensures Blocks(sections, budget) == FlattenEach(sections)
  {
    hide Flatten;
    if sections != [] {
      BlocksOfShortSections(sections[1..], budget);
    }
  }

  /** When every section fits a page, a page is a run of whole rendered sections: there is no page
      break inside a section. */
  lemma ShortSectionsStayWhole(markdown: string, budget: nat)
    requires forall section | section in SectionsOf(markdown) :: |Flatten(section)| <= budget
    ensures var rendered := FlattenEach(SectionsOf(markdown));
            exists runs :: IsPaging(runs, NonEmpty(rendered), budget, "\n\n")
                        && AllPages(markdown, budget) == JoinRuns(runs, "\n\n")
  {
    hide Flatten, SectionsOf, Blocks, FlattenEach, Greedy, JoinRuns, NonEmpty, IsPaging;
    BlocksOfShortSections(SectionsOf(markdown), budget);
    PackedIsOptimal(FlattenEach(SectionsOf(markdown)), budget, "\n\n");
  }
}
