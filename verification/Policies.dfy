/** `policies.ts`: a policy document as the pages it is read in. */
module Policies {
  import opened Text
  import opened Markdown
  import opened Packing

  const PAGE_BUDGET: nat := 3000
  const MAX_POLICY_PAGE: nat := 35

  // ---------------------------------------------------------------------------------------
  // Sections: the document cut at its `##` headings.

  /** `replace(/\r\n/g, '\n')`. */
  function UnixNewlines(s: string): string {
    if s == "" then ""
    else if |s| >= 2 && s[0] == '\r' && s[1] == '\n' then "\n" + UnixNewlines(s[2..])
    else [s[0]] + UnixNewlines(s[1..])
  }

  /** `/^##\s/.test(line.trim())`. */
  predicate StartsSection(line: string) {
    var t := Trim(line);
    |t| >= 3 && t[0] == '#' && t[1] == '#' && IsSpace(t[2])
  }

  predicate IsBlank(line: string) {
    Trim(line) == ""
  }

  predicate HasText(group: seq<string>) {
    exists i | 0 <= i < |group| :: !IsBlank(group[i])
  }

  /** The lines grouped into sections, `current` being the section that is still open. */
  function Groups(current: seq<string>, lines: seq<string>): seq<seq<string>>
    decreases |lines|
  {
    if lines == [] then [current]
    else if StartsSection(lines[0]) && HasText(current) then [current] + Groups([lines[0]], lines[1..])
    else Groups(current + [lines[0]], lines[1..])
  }

  /** A section's text; a group of blank lines is no section. */
  function SectionText(group: seq<string>): seq<string> {
    var text := Trim(Join(group, "\n"));
    if text == "" then [] else [text]
  }

  function SectionTexts(groups: seq<seq<string>>): seq<string> {
    if groups == [] then [] else SectionText(groups[0]) + SectionTexts(groups[1..])
  }

  function DocumentLines(markdown: string): seq<string> {
    Split(UnixNewlines(markdown), '\n')
  }

  function SectionsOf(markdown: string): seq<string> {
    SectionTexts(Groups([], DocumentLines(markdown)))
  }

  lemma GroupsUnfold(current: seq<string>, lines: seq<string>)
    requires lines != []
    ensures Groups(current, lines) ==
            if StartsSection(lines[0]) && HasText(current) then [current] + Groups([lines[0]], lines[1..])
            else Groups(current + [lines[0]], lines[1..])
  {
    hide StartsSection, HasText;
  }

  lemma GroupsEnd(current: seq<string>)
    ensures Groups(current, []) == [current]
  {
  }

  /** Behind the last of some groups, or in its place. */
  lemma LastOne(groups: seq<seq<string>>, group: seq<string>)
    requires groups != []
    ensures var n := |groups| - 1;
            && groups == groups[..n] + [groups[n]]
            && (groups + [group])[..n + 1] == groups[..n] + [groups[n]] && (groups + [group])[n + 1] == group
            && groups[n := group][..n] == groups[..n] && groups[n := group][n] == group
  {
  }

  method Sections(markdown: string) returns (sections: seq<string>)
    ensures sections == SectionsOf(markdown)
  {
    hide IsSpace, StartsSection, Groups, SectionTexts, Split, HasText, UnixNewlines;
    var lines := Split(UnixNewlines(markdown), '\n');
    var groups: seq<seq<string>> := [[]];
    for i := 0 to |lines|
      invariant groups != []
      invariant groups[..|groups| - 1] + Groups(groups[|groups| - 1], lines[i..]) == Groups([], lines)
    {
      var line := lines[i];
      var current := groups[|groups| - 1];
      ghost var closed := groups[..|groups| - 1];
      assert lines[i..][0] == line && lines[i..][1..] == lines[i + 1..];
      GroupsUnfold(current, lines[i..]);
      if StartsSection(line) && HasText(current) {
        LastOne(groups, [line]);
        groups := groups + [[line]];
        ghost var later := Groups([line], lines[i + 1..]);
        assert closed + ([current] + later) == (closed + [current]) + later;
      } else {
        LastOne(groups, current + [line]);
        groups := groups[|groups| - 1 := current + [line]];
      }
    }
    assert lines[|lines|..] == [];
    GroupsEnd(groups[|groups| - 1]);
    assert groups == groups[..|groups| - 1] + [groups[|groups| - 1]];
    sections := SectionTexts(groups);
  }

  /** A section runs from its heading to the next: past its first line with text no heading follows. */
  predicate IsOneSection(group: seq<string>) {
    forall i | 0 < i < |group| && StartsSection(group[i]) :: !HasText(group[..i])
  }

  /** The cut is at the `##` headings, all of them and nothing else, and no line is lost. */
  lemma {:induction false} GroupsCutAtHeadings(current: seq<string>, lines: seq<string>)
    requires IsOneSection(current)
    ensures var groups := Groups(current, lines);
            && groups != [] && current <= groups[0]
            && Chain(groups) == current + lines
            && (forall i | 0 <= i < |groups| :: IsOneSection(groups[i]))
            && (forall i | 0 < i < |groups| :: groups[i] != [] && StartsSection(groups[i][0]))
            && (forall i | 0 <= i < |groups| - 1 :: HasText(groups[i]))
    decreases |lines|
  {
    hide StartsSection, HasText;
    if lines == [] {
      assert [current][1..] == [];
      assert Chain([current][1..]) == [];
    } else if StartsSection(lines[0]) && HasText(current) {
      var later := Groups([lines[0]], lines[1..]);
      GroupsCutAtHeadings([lines[0]], lines[1..]);
      var groups := [current] + later;
      assert groups[1..] == later;
      forall i | 0 < i < |groups|
        ensures groups[i] != [] && StartsSection(groups[i][0]) && IsOneSection(groups[i])
      {
        if i == 1 {
          assert later[0][0] == [lines[0]][0];
        }
        assert groups[i] == later[i - 1];
      }
    } else {
      var next := current + [lines[0]];
      forall i | 0 < i < |next| && StartsSection(next[i])
        ensures !HasText(next[..i])
      {
        if i < |current| {
          assert next[..i] == current[..i];
        } else {
          assert next[..i] == current;
        }
      }
      GroupsCutAtHeadings(next, lines[1..]);
    }
  }

  // ---------------------------------------------------------------------------------------
  // Fitting one section.

  /** A line that is longer than a page, cut between words; `chunk` is the part being filled. */
  function Chunks(chunk: string, words: seq<string>, budget: nat): seq<string>
    decreases |words|
  {
    if words == [] then (if chunk == "" then [] else [chunk])
    else
      var candidate := if chunk == "" then words[0] else chunk + " " + words[0];
      if |Flatten(candidate)| > budget && chunk != "" then [chunk] + Chunks(words[0], words[1..], budget)
      else Chunks(candidate, words[1..], budget)
  }

  /** What a section is cut into when it is longer than a page. */
  function Pieces(lines: seq<string>, budget: nat): seq<string> {
    if lines == [] then []
    else
      (if |Flatten(lines[0])| <= budget then [lines[0]] else Chunks("", Split(lines[0], ' '), budget))
      + Pieces(lines[1..], budget)
  }

  function FlattenEach(pieces: seq<string>): seq<string> {
    if pieces == [] then [] else [Flatten(pieces[0])] + FlattenEach(pieces[1..])
  }

  function Fitted(section: string, budget: nat): seq<string> {
    var whole := Flatten(section);
    if |whole| <= budget then [whole]
    else Packed(FlattenEach(Pieces(Split(section, '\n'), budget)), budget, "\n")
  }

  lemma {:induction false} PiecesSnoc(lines: seq<string>, line: string, budget: nat)
    ensures Pieces(lines + [line], budget) == Pieces(lines, budget) + Pieces([line], budget)
  {
    hide Flatten, Chunks;
    if lines == [] {
      assert lines + [line] == [line];
      assert [] + Pieces([line], budget) == Pieces([line], budget);
    } else {
      assert (lines + [line])[1..] == lines[1..] + [line];
      PiecesSnoc(lines[1..], line, budget);
    }
  }

  lemma {:induction false} FlattenEachConcat(a: seq<string>, b: seq<string>)
    ensures FlattenEach(a + b) == FlattenEach(a) + FlattenEach(b)
  {
    hide Flatten;
    if a == [] {
      assert a + b == b;
    } else {
      assert (a + b)[1..] == a[1..] + b;
      FlattenEachConcat(a[1..], b);
    }
  }

  lemma FlattenEachOne(piece: string)
    ensures FlattenEach([piece]) == [Flatten(piece)]
  {
    hide Flatten;
    assert [piece][1..] == [];
    assert FlattenEach([piece][1..]) == [];
  }

  lemma PiecesOfLine(line: string, budget: nat)
    ensures Pieces([line], budget) ==
            if |Flatten(line)| <= budget then [line] else Chunks("", Split(line, ' '), budget)
  {
    hide Flatten, Chunks;
    assert [line][1..] == [];
    assert Pieces([line][1..], budget) == [];
  }

  lemma NoPieces(budget: nat)
    ensures Pieces([], budget) == []
  {
  }

  lemma ChunksUnfold(chunk: string, words: seq<string>, budget: nat)
    requires words != []
    ensures var candidate := if chunk == "" then words[0] else chunk + " " + words[0];
            Chunks(chunk, words, budget) ==
              if |Flatten(candidate)| > budget && chunk != "" then [chunk] + Chunks(words[0], words[1..], budget)
              else Chunks(candidate, words[1..], budget)
  {
    hide Flatten;
  }

  lemma ChunksEnd(chunk: string, budget: nat)
    ensures Chunks(chunk, [], budget) == if chunk == "" then [] else [chunk]
  {
  }

  method Fit(section: string, budget: nat) returns (pages: seq<string>)
    ensures pages == Fitted(section, budget)
  {
    hide Flatten, Chunks, Pieces;
    var whole := Flatten(section);
    if |whole| <= budget {
      return [whole];
    }
    var pieces: seq<string> := [];
    var lines := Split(section, '\n');
    assert Pieces(lines[..0], budget) == [] by { NoPieces(budget); }
    for i := 0 to |lines|
      invariant pieces == Pieces(lines[..i], budget)
    {
      var line := lines[i];
      ghost var before := pieces;
      assert lines[..i + 1] == lines[..i] + [line];
      PiecesSnoc(lines[..i], line, budget);
      PiecesOfLine(line, budget);
      if |Flatten(line)| <= budget {
        pieces := pieces + [line];
      } else {
        var chunk := "";
        var words := Split(line, ' ');
        for j := 0 to |words|
          invariant pieces + Chunks(chunk, words[j..], budget) == before + Chunks("", words, budget)
        {
          var word := words[j];
          assert words[j..][0] == word && words[j..][1..] == words[j + 1..];
          ChunksUnfold(chunk, words[j..], budget);
          var candidate := if chunk == "" then word else chunk + " " + word;
          if |Flatten(candidate)| > budget && chunk != "" {
            ghost var later := Chunks(word, words[j + 1..], budget);
            assert pieces + ([chunk] + later) == (pieces + [chunk]) + later;
            pieces := pieces + [chunk];
            chunk := word;
          } else {
            chunk := candidate;
          }
        }
        assert words[|words|..] == [];
        ChunksEnd(chunk, budget);
        if chunk != "" {
          pieces := pieces + [chunk];
        } else {
          assert pieces + [] == pieces;
        }
      }
    }
    assert lines[..|lines|] == lines;
    pages := Pack(FlattenEach(pieces), budget, "\n");
  }

  // ---------------------------------------------------------------------------------------
  // The whole document.

  /** `sections.flatMap((section) => fit(section, budget))`. */
  function Blocks(sections: seq<string>, budget: nat): seq<string> {
    if sections == [] then [] else Fitted(sections[0], budget) + Blocks(sections[1..], budget)
  }

  /** The pages before their number is capped. */
  function AllPages(markdown: string, budget: nat): seq<string> {
    Packed(Blocks(SectionsOf(markdown), budget), budget, "\n\n")
  }

  function Paginated(markdown: string, budget: nat): seq<string> {
    var pages := AllPages(markdown, budget);
    if |pages| == 0 then [""]
    else if |pages| <= MAX_POLICY_PAGE + 1 then pages
    else pages[..MAX_POLICY_PAGE + 1]
  }

  lemma {:induction false} BlocksSnoc(sections: seq<string>, section: string, budget: nat)
    ensures Blocks(sections + [section], budget) == Blocks(sections, budget) + Fitted(section, budget)
  {
    hide Fitted;
    if sections == [] {
      assert sections + [section] == [section];
      assert [section][1..] == [];
      assert Blocks([section][1..], budget) == [];
    } else {
      assert (sections + [section])[1..] == sections[1..] + [section];
      BlocksSnoc(sections[1..], section, budget);
    }
  }

  method PaginatePolicy(contentMd: string, budget: nat := PAGE_BUDGET) returns (pages: seq<string>)
    ensures pages == Paginated(contentMd, budget)
  {
    hide SectionsOf, Fitted, Packed;
    var sections := Sections(contentMd);
    var blocks: seq<string> := [];
    for i := 0 to |sections|
      invariant blocks == Blocks(sections[..i], budget)
    {
      assert sections[..i + 1] == sections[..i] + [sections[i]];
      BlocksSnoc(sections[..i], sections[i], budget);
      var fitted := Fit(sections[i], budget);
      blocks := blocks + fitted;
    }
    assert sections[..|sections|] == sections;
    pages := Pack(blocks, budget, "\n\n");
    if |pages| == 0 {
      pages := [""];
    } else if |pages| > MAX_POLICY_PAGE + 1 {
      pages := pages[..MAX_POLICY_PAGE + 1];
    }
  }
}
