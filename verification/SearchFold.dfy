/** `search-fold.ts`: the form in which a name and what somebody typed are compared, after Unicode
    normalization, which is not part of this model. */
module SearchFold {
  import opened Text

  /** `LETTER_FOLDING`. */
  function FoldLetter(c: char): char {
    if c == '\U{064A}' || c == '\U{0649}' || c == '\U{0626}' then '\U{06CC}'
    else if c == '\U{0643}' then '\U{06A9}'
    else if c == '\U{0629}' || c == '\U{06C0}' || c == '\U{06BE}' || c == '\U{06D5}' then '\U{0647}'
    else if c == '\U{0623}' || c == '\U{0625}' || c == '\U{0622}' || c == '\U{0671}' then '\U{0627}'
    else if c == '\U{0624}' then '\U{0648}'
    else c
  }

  /** The zero-width non-joiner separates words. */
  function SpaceOut(c: char): char {
    if c == '\U{200C}' then ' ' else c
  }

  /** The other invisible characters mean nothing. */
  predicate IsInvisible(c: char) {
    c == '\U{200B}' || c == '\U{200D}' || c == '\U{200E}' || c == '\U{200F}' || c == '\U{061C}' || c == '\U{FEFF}'
  }

  function MapChars(s: string, f: char -> char): (r: string)
    ensures |r| == |s|
    ensures forall i | 0 <= i < |s| :: r[i] == f(s[i])
  {
    seq(|s|, i requires 0 <= i < |s| => f(s[i]))
  }

  function DropInvisible(s: string): string {
    if s == "" then "" else (if IsInvisible(s[0]) then "" else [s[0]]) + DropInvisible(s[1..])
  }

  /** `replace(/\s+/g, ' ')`; `inRun` says that the run's space has been written. */
  function CollapseSpaces(s: string, inRun: bool): string {
    if s == "" then ""
    else if IsSpace(s[0]) then (if inRun then "" else " ") + CollapseSpaces(s[1..], true)
    else [s[0]] + CollapseSpaces(s[1..], false)
  }

  /** `toLowerCase`, character by character. */
  function LowerCase(s: string, lower: char -> string): string {
    if s == "" then "" else lower(s[0]) + LowerCase(s[1..], lower)
  }

  function Tidy(s: string): string {
    Trim(CollapseSpaces(DropInvisible(MapChars(MapChars(s, FoldLetter), SpaceOut)), false))
  }

  function FoldForSearch(input: string, lower: char -> string): string {
    LowerCase(Tidy(input), lower)
  }

  ghost predicate FoldedIncludes(haystack: string, needle: string, lower: char -> string) {
    var folded := FoldForSearch(needle, lower);
    folded == "" || Includes(FoldForSearch(haystack, lower), folded)
  }

  // ---------------------------------------------------------------------------------------
  // The normal form.

  predicate IsFolded(c: char) {
    FoldLetter(c) == c && SpaceOut(c) == c
  }

  predicate IsClean(c: char) {
    IsFolded(c) && !IsInvisible(c)
  }

  /** No stage has anything left to do with such a character. */
  predicate IsSettled(c: char) {
    IsClean(c) && (IsSpace(c) ==> c == ' ')
  }

  predicate AllSettled(s: string) {
    forall i | 0 <= i < |s| :: IsSettled(s[i])
  }

  /** Settled characters, and no two spaces in a row. */
  predicate IsSpaced(s: string) {
    AllSettled(s) && forall i | 0 < i < |s| :: s[i - 1] == ' ' ==> s[i] != ' '
  }

  predicate IsTidy(s: string) {
    IsSpaced(s) && (s != "" ==> s[0] != ' ' && s[|s| - 1] != ' ')
  }

  lemma {:induction false} DropInvisibleSettles(s: string)
    requires forall i | 0 <= i < |s| :: IsFolded(s[i])
    ensures forall i | 0 <= i < |DropInvisible(s)| :: IsClean(DropInvisible(s)[i])
  {
    hide IsFolded, IsInvisible;
    if s != "" {
      assert IsFolded(s[0]);
      var rest := DropInvisible(s[1..]);
      DropInvisibleSettles(s[1..]);
      assert DropInvisible(s) == (if IsInvisible(s[0]) then "" else [s[0]]) + rest;
    }
  }

  lemma {:induction false} CollapseSettles(s: string, inRun: bool)
    requires forall i | 0 <= i < |s| :: IsClean(s[i])
    ensures var r := CollapseSpaces(s, inRun);
            IsSpaced(r) && (inRun && r != "" ==> r[0] != ' ')
  {
    hide IsClean, IsSpace;
    if s != "" {
      CollapseSettles(s[1..], IsSpace(s[0]));
      SpaceIsSettled();
    }
  }

  lemma SpaceIsSettled()
    ensures IsSettled(' ') && IsSpace(' ')
  {
  }

  lemma {:induction false} TrimStartOfSpaced(s: string)
    requires IsSpaced(s)
    ensures IsSpaced(TrimStart(s)) && (TrimStart(s) != "" ==> TrimStart(s)[0] != ' ')
  {
    if s != "" && IsSpace(s[0]) {
      hide IsSettled;
      TrimStartOfSpaced(s[1..]);
    }
  }

  lemma TrimOfSpaced(s: string)
    requires IsSpaced(s)
    ensures IsTidy(Trim(s))
  {
    hide IsSettled;
    SpaceIsSettled();
    TrimStartOfSpaced(s);
    var t := TrimStart(s);
    assert TrimEnd(t) <= t;
  }

  /** After the stages before `toLowerCase` nothing is left for them to do. */
  lemma TidyIsTidy(s: string)
    ensures IsTidy(Tidy(s))
  {
    hide IsSettled, IsClean, IsFolded, FoldLetter, SpaceOut;
    var folded := MapChars(MapChars(s, FoldLetter), SpaceOut);
    forall i | 0 <= i < |s|
      ensures IsFolded(folded[i])
    {
      FoldingSettles(s[i]);
    }
    DropInvisibleSettles(folded);
    CollapseSettles(DropInvisible(folded), false);
    TrimOfSpaced(CollapseSpaces(DropInvisible(folded), false));
  }

  lemma FoldingSettles(c: char)
    ensures IsFolded(SpaceOut(FoldLetter(c)))
  {
  }

  lemma {:induction false} DropNothing(s: string)
    requires AllSettled(s)
    ensures DropInvisible(s) == s
  {
    if s != "" {
      assert IsSettled(s[0]);
      hide IsSettled, IsInvisible;
      DropNothing(s[1..]);
      assert [s[0]] + s[1..] == s;
    }
  }

  lemma {:induction false} CollapseNothing(s: string, inRun: bool)
    requires IsSpaced(s) && (inRun && s != "" ==> s[0] != ' ')
    ensures CollapseSpaces(s, inRun) == s
  {
    if s != "" {
      assert IsSettled(s[0]);
      SpaceIsSettled();
      hide IsSettled, IsSpace;
      CollapseNothing(s[1..], IsSpace(s[0]));
      assert [s[0]] + s[1..] == s;
    }
  }

  /** Each stage leaves the normal form alone. */
  lemma TidyKeepsTidy(s: string)
    requires IsTidy(s)
    ensures Tidy(s) == s
  {
    assert forall i | 0 <= i < |s| :: IsSettled(s[i]);
    hide IsInvisible;
    assert MapChars(s, FoldLetter) == s;
    assert MapChars(s, SpaceOut) == s;
    DropNothing(s);
    CollapseNothing(s, false);
    if s != "" {
      assert IsSettled(s[0]) && IsSettled(s[|s| - 1]);
    }
    assert TrimStart(s) == s && TrimEnd(s) == s;
  }

  // ---------------------------------------------------------------------------------------
  // Idempotence.

  /** What is assumed of lower-casing: a space stays a space, any other character becomes one or more
      that are not spaces, it makes no character that an earlier stage would still change out of one
      that none would, and what it makes is lower case. */
  ghost predicate IsLowerCasing(lower: char -> string) {
    && lower(' ') == " "
    && (forall c | c != ' ' && IsSettled(c) ::
          lower(c) != "" && forall i | 0 <= i < |lower(c)| :: lower(c)[i] != ' ' && IsSettled(lower(c)[i]))
    && (forall c | IsSettled(c) :: forall i | 0 <= i < |lower(c)| :: lower(lower(c)[i]) == [lower(c)[i]])
  }

  lemma {:induction false} LowerCaseConcat(a: string, b: string, lower: char -> string)
    ensures LowerCase(a + b, lower) == LowerCase(a, lower) + LowerCase(b, lower)
  {
    if a == "" {
      assert a + b == b;
    } else {
      assert (a + b)[1..] == a[1..] + b;
      LowerCaseConcat(a[1..], b, lower);
    }
  }

  lemma {:induction false} LowerKeepsSpaced(s: string, lower: char -> string)
    requires IsSpaced(s) && IsLowerCasing(lower)
    ensures IsSpaced(LowerCase(s, lower))
    ensures LowerCase(s, lower) == "" <==> s == ""
    ensures s != "" ==> (LowerCase(s, lower)[0] == ' ' <==> s[0] == ' ')
  {
    hide IsSettled;
    SpaceIsSettled();
    if s != "" {
      assert IsSettled(s[0]);
      LowerKeepsSpaced(s[1..], lower);
      var head, rest := lower(s[0]), LowerCase(s[1..], lower);
      var r := head + rest;
      forall i | 0 <= i < |r|
        ensures IsSettled(r[i]) && (i > 0 && r[i - 1] == ' ' ==> r[i] != ' ')
      {
        if i >= |head| {
          assert r[i] == rest[i - |head|];
        }
      }
    }
  }

  lemma {:induction false} LowerKeepsLast(s: string, lower: char -> string)
    requires IsSpaced(s) && IsLowerCasing(lower) && s != "" && s[|s| - 1] != ' '
    ensures var r := LowerCase(s, lower); r != "" && r[|r| - 1] != ' '
  {
    hide IsSettled;
    var n := |s| - 1;
    assert s == s[..n] + [s[n]];
    LowerCaseConcat(s[..n], [s[n]], lower);
    assert [s[n]][1..] == "";
    assert LowerCase([s[n]], lower) == lower(s[n]) + "" == lower(s[n]);
    assert IsSettled(s[n]);
  }

  lemma {:induction false} LowerTwice(s: string, lower: char -> string)
    requires AllSettled(s) && IsLowerCasing(lower)
    ensures LowerCase(LowerCase(s, lower), lower) == LowerCase(s, lower)
  {
    hide IsSettled;
    if s != "" {
      assert IsSettled(s[0]);
      LowerTwice(s[1..], lower);
      LowerCaseConcat(lower(s[0]), LowerCase(s[1..], lower), lower);
      LowerFixed(lower(s[0]), lower);
    }
  }

  lemma {:induction false} LowerFixed(s: string, lower: char -> string)
    requires forall i | 0 <= i < |s| :: lower(s[i]) == [s[i]]
    ensures LowerCase(s, lower) == s
  {
    if s != "" {
      LowerFixed(s[1..], lower);
      assert [s[0]] + s[1..] == s;
    }
  }

  /** Folding a folded string changes nothing. */
  lemma FoldIsIdempotent(input: string, lower: char -> string)
    requires IsLowerCasing(lower)
    ensures FoldForSearch(FoldForSearch(input, lower), lower) == FoldForSearch(input, lower)
  {
    hide Tidy, IsSettled, IsLowerCasing;
    var t := Tidy(input);
    TidyIsTidy(input);
    LowerKeepsSpaced(t, lower);
    if t != "" {
      LowerKeepsLast(t, lower);
    }
    TidyKeepsTidy(LowerCase(t, lower));
    LowerTwice(t, lower);
  }

  /** So a search over names stored folded finds exactly what a search over the raw names finds. */
  lemma StoredFoldedIsTheSame(haystack: string, needle: string, lower: char -> string)
    requires IsLowerCasing(lower)
    ensures FoldedIncludes(FoldForSearch(haystack, lower), needle, lower) <==> FoldedIncludes(haystack, needle, lower)
    ensures FoldedIncludes(haystack, FoldForSearch(needle, lower), lower) <==> FoldedIncludes(haystack, needle, lower)
  {
    hide FoldForSearch, IsLowerCasing;
    FoldIsIdempotent(haystack, lower);
    FoldIsIdempotent(needle, lower);
  }

  // ---------------------------------------------------------------------------------------
  // Which typing habits make no difference.

  /** The table, letter by letter. */
  lemma FoldTable(c: char)
    ensures FoldLetter(c) ==
            if c == 'ي' || c == 'ى' || c == 'ئ' then 'ی'
            else if c == 'ك' then 'ک'
            else if c == 'ة' || c == 'ۀ' || c == 'ھ' || c == 'ە' then 'ه'
            else if c == 'أ' || c == 'إ' || c == 'آ' || c == 'ٱ' then 'ا'
            else if c == 'ؤ' then 'و'
            else c
  {
  }

  lemma {:induction false} DropConcat(a: string, b: string)
    ensures DropInvisible(a + b) == DropInvisible(a) + DropInvisible(b)
  {
    hide IsInvisible;
    if a == "" {
      assert a + b == b;
    } else {
      assert (a + b)[1..] == a[1..] + b;
      DropConcat(a[1..], b);
      Regroup(if IsInvisible(a[0]) then "" else [a[0]], DropInvisible(a[1..]), DropInvisible(b));
    }
  }

  /** The zero-width space, the zero-width joiner, the three direction marks and the byte order mark. */
  const MEANINGLESS := "\U{200B}\U{200D}\U{200E}\U{200F}\U{061C}\U{FEFF}"

  /** What the letters and joiners of a text become. */
  function Mapped(s: string): string {
    MapChars(MapChars(s, FoldLetter), SpaceOut)
  }

  lemma MappedConcat(a: string, b: string)
    ensures Mapped(a + b) == Mapped(a) + Mapped(b)
  {
    hide FoldLetter, SpaceOut;
  }

  lemma MappedOne(c: char)
    ensures Mapped([c]) == [SpaceOut(FoldLetter(c))]
  {
    hide FoldLetter, SpaceOut;
  }

  /** An Arabic letter is found as its Persian counterpart, a zero-width non-joiner as a space, and the other
      invisible characters as if they were not there. */
  lemma TypingHabits(a: string, c: char, b: string, lower: char -> string)
    ensures FoldForSearch(a + [c] + b, lower) == FoldForSearch(a + [FoldLetter(c)] + b, lower)
    ensures FoldForSearch(a + ['\U{200C}'] + b, lower) == FoldForSearch(a + [' '] + b, lower)
    ensures c in MEANINGLESS ==> FoldForSearch(a + [c] + b, lower) == FoldForSearch(a + b, lower)
  {
    InvisibleMaps(c);
    FoldsOnce(c);
    hide FoldLetter, SpaceOut, MapChars, IsInvisible, LowerCase, Trim, CollapseSpaces, DropInvisible, Mapped,
         MEANINGLESS;
    FoldIs(a + [c] + b, lower);
    FoldIs(a + [FoldLetter(c)] + b, lower);
    FoldIs(a + ['\U{200C}'] + b, lower);
    FoldIs(a + [' '] + b, lower);
    FoldIs(a + b, lower);
    hide FoldForSearch;
    MappedAround(a, c, b);
    MappedAround(a, FoldLetter(c), b);
    MappedAround(a, '\U{200C}', b);
    MappedAround(a, ' ', b);
    MappedConcat(a, b);
    if IsInvisible(c) {
      DropOne(c);
      DropConcat(Mapped(a) + [c], Mapped(b));
      DropConcat(Mapped(a), [c]);
      DropConcat(Mapped(a), Mapped(b));
      assert DropInvisible(Mapped(a)) + "" == DropInvisible(Mapped(a));
    }
  }

  lemma FoldIs(s: string, lower: char -> string)
    ensures FoldForSearch(s, lower) == LowerCase(Trim(CollapseSpaces(DropInvisible(Mapped(s)), false)), lower)
  {
    hide MapChars, DropInvisible, CollapseSpaces, Trim, LowerCase;
  }

  lemma {:induction false} TwoSpacesAreOne(x: string, c: char, d: char, y: string, inRun: bool)
    requires IsSpace(c) && IsSpace(d)
    ensures CollapseSpaces(x + [c, d] + y, inRun) == CollapseSpaces(x + [' '] + y, inRun)
  {
    assert IsSpace(' ');
    hide IsSpace;
    if x == "" {
      assert (x + [c, d] + y)[1..] == [d] + y && ([d] + y)[1..] == y;
      assert (x + [' '] + y)[1..] == y;
    } else {
      assert (x + [c, d] + y)[1..] == x[1..] + [c, d] + y;
      assert (x + [' '] + y)[1..] == x[1..] + [' '] + y;
      assert (x + [c, d] + y)[0] == x[0] == (x + [' '] + y)[0];
      TwoSpacesAreOne(x[1..], c, d, y, IsSpace(x[0]));
    }
  }

  lemma TwoSpacesMap(a: string, c: char, d: char, b: string)
    requires IsSpace(c) && c != '\U{FEFF}' && IsSpace(d) && d != '\U{FEFF}'
    ensures DropInvisible(Mapped(a + [c, d] + b)) == DropInvisible(Mapped(a)) + [c, d] + DropInvisible(Mapped(b))
  {
    SpaceStays(c);
    SpaceStays(d);
    hide FoldLetter, SpaceOut, MapChars, IsInvisible, DropInvisible, Mapped, IsSpace;
    MappedAround(a + [c], d, b);
    assert a + [c] + [d] + b == a + [c, d] + b;
    MappedConcat(a, [c]);
    MappedOne(c);
    KeptAround(Mapped(a), [c, d], Mapped(b));
    assert Mapped(a) + [c] + [d] + Mapped(b) == Mapped(a) + [c, d] + Mapped(b);
  }

  lemma OneSpaceMaps(a: string, b: string)
    ensures DropInvisible(Mapped(a + [' '] + b)) == DropInvisible(Mapped(a)) + [' '] + DropInvisible(Mapped(b))
  {
    SpaceStays(' ');
    hide FoldLetter, SpaceOut, MapChars, IsInvisible, DropInvisible, Mapped, IsSpace;
    MappedAround(a, ' ', b);
    KeptAround(Mapped(a), [' '], Mapped(b));
  }

  /** White space of any kind, and any amount of it, is one space. */
  lemma SpacesAreOne(a: string, c: char, d: char, b: string, lower: char -> string)
    requires IsSpace(c) && c != '\U{FEFF}' && IsSpace(d) && d != '\U{FEFF}'
    ensures FoldForSearch(a + [c, d] + b, lower) == FoldForSearch(a + [' '] + b, lower)
  {
    hide LowerCase, Trim, CollapseSpaces, DropInvisible, Mapped, IsSpace;
    FoldIs(a + [c, d] + b, lower);
    FoldIs(a + [' '] + b, lower);
    TwoSpacesMap(a, c, d, b);
    OneSpaceMaps(a, b);
    TwoSpacesAreOne(DropInvisible(Mapped(a)), c, d, DropInvisible(Mapped(b)), false);
  }

  /** White space in front of a name is nothing. */
  lemma LeadingSpaceIsNothing(b: string, lower: char -> string)
    ensures FoldForSearch([' '] + b, lower) == FoldForSearch(b, lower)
  {
    SpaceStays(' ');
    hide FoldLetter, SpaceOut, MapChars, IsInvisible, LowerCase, Trim, CollapseSpaces, DropInvisible, Mapped, IsSpace;
    FoldIs([' '] + b, lower);
    FoldIs(b, lower);
    MappedConcat([' '], b);
    MappedOne(' ');
    NothingKept();
    KeptAround("", [' '], Mapped(b));
    assert "" + [' '] + Mapped(b) == [' '] + Mapped(b);
    LeadingSpaceIsTrimmed(DropInvisible(Mapped(b)));
    assert "" + [' '] + DropInvisible(Mapped(b)) == [' '] + DropInvisible(Mapped(b));
  }

  lemma NothingKept()
    ensures DropInvisible("") == ""
  {
  }

  lemma SpaceStays(c: char)
    requires IsSpace(c) && c != '\U{FEFF}'
    ensures SpaceOut(FoldLetter(c)) == c && !IsInvisible(c)
  {
  }

  lemma {:induction false} KeptAround(x: string, spaces: string, y: string)
    requires forall i | 0 <= i < |spaces| :: !IsInvisible(spaces[i])
    ensures DropInvisible(x + spaces + y) == DropInvisible(x) + spaces + DropInvisible(y)
  {
    hide IsInvisible;
    DropConcat(x + spaces, y);
    DropConcat(x, spaces);
    AllKept(spaces);
  }

  lemma {:induction false} AllKept(spaces: string)
    requires forall i | 0 <= i < |spaces| :: !IsInvisible(spaces[i])
    ensures DropInvisible(spaces) == spaces
  {
    hide IsInvisible;
    if spaces != "" {
      AllKept(spaces[1..]);
      assert [spaces[0]] + spaces[1..] == spaces;
    }
  }

  lemma LeadingSpaceIsTrimmed(s: string)
    ensures Trim(CollapseSpaces([' '] + s, false)) == Trim(CollapseSpaces(s, false))
  {
    assert ([' '] + s)[1..] == s;
    var within, outside := CollapseSpaces(s, true), CollapseSpaces(s, false);
    assert CollapseSpaces([' '] + s, false) == " " + within;
    if s != "" && IsSpace(s[0]) {
      assert outside == " " + CollapseSpaces(s[1..], true) && within == CollapseSpaces(s[1..], true);
    } else {
      assert outside == within;
      TrimLead(' ', within);
    }
    hide CollapseSpaces;
    TrimLead(' ', within);
  }

  lemma MappedAround(a: string, c: char, b: string)
    ensures Mapped(a + [c] + b) == Mapped(a) + [SpaceOut(FoldLetter(c))] + Mapped(b)
  {
    hide FoldLetter, SpaceOut, Mapped;
    MappedConcat(a + [c], b);
    MappedConcat(a, [c]);
    MappedOne(c);
  }

  lemma FoldsOnce(c: char)
    ensures FoldLetter(FoldLetter(c)) == FoldLetter(c)
    ensures SpaceOut(FoldLetter('\U{200C}')) == ' ' == SpaceOut(FoldLetter(' '))
  {
  }

  lemma InvisibleMaps(c: char)
    ensures IsInvisible(c) ==> SpaceOut(FoldLetter(c)) == c
    ensures IsInvisible(c) <==> c in MEANINGLESS
  {
    assert MEANINGLESS[0] == '\U{200B}' && MEANINGLESS[1] == '\U{200D}' && MEANINGLESS[2] == '\U{200E}';
    assert MEANINGLESS[3] == '\U{200F}' && MEANINGLESS[4] == '\U{061C}' && MEANINGLESS[5] == '\U{FEFF}';
  }

  lemma DropOne(c: char)
    requires IsInvisible(c)
    ensures DropInvisible([c]) == ""
  {
    hide IsInvisible;
    assert [c][1..] == "";
    assert DropInvisible([c][1..]) == "";
  }

  /** A name without such habits folds to its lower case, character by character, and to nothing else. */
  lemma TidyNameIsLowered(s: string, lower: char -> string)
    requires IsTidy(s)
    ensures FoldForSearch(s, lower) == LowerCase(s, lower)
  {
    TidyKeepsTidy(s);
  }

  /** Whatever was typed, what it folds to is tidy and in lower case. */
  lemma FoldedIsLower(input: string, lower: char -> string)
    requires IsLowerCasing(lower)
    ensures IsTidy(FoldForSearch(input, lower))
    ensures forall i | 0 <= i < |FoldForSearch(input, lower)| ::
              lower(FoldForSearch(input, lower)[i]) == [FoldForSearch(input, lower)[i]]
  {
    hide Tidy, IsLowerCasing;
    TidyIsTidy(input);
    var t := Tidy(input);
    LoweredIsTidy(t, lower);
    LoweredIsLower(t, lower);
  }

  lemma LoweredIsTidy(t: string, lower: char -> string)
    requires IsTidy(t) && IsLowerCasing(lower)
    ensures IsTidy(LowerCase(t, lower))
  {
    LowerKeepsSpaced(t, lower);
    if t != "" {
      LowerKeepsLast(t, lower);
    }
  }

  lemma {:induction false} LoweredIsLower(s: string, lower: char -> string)
    requires AllSettled(s) && IsLowerCasing(lower)
    ensures forall i | 0 <= i < |LowerCase(s, lower)| :: lower(LowerCase(s, lower)[i]) == [LowerCase(s, lower)[i]]
  {
    if s != "" {
      LoweredIsLower(s[1..], lower);
      var head, tail := lower(s[0]), LowerCase(s[1..], lower);
      assert IsSettled(s[0]);
      forall i | 0 <= i < |head + tail|
        ensures lower((head + tail)[i]) == [(head + tail)[i]]
      {
        if i >= |head| {
          assert (head + tail)[i] == tail[i - |head|];
        }
      }
    }
  }

  predicate IsAround(text: string, before: string, part: string, after: string) {
    text == before + part + after
  }

  /** A name is found by exactly its parts: among folded texts, `needle` is found in `haystack` if and only if
      it stands there, and never the other way round. */
  lemma FoundIffPart(haystack: string, needle: string, lower: char -> string)
    requires FoldForSearch(haystack, lower) == haystack && FoldForSearch(needle, lower) == needle
    ensures FoldedIncludes(haystack, needle, lower) <==> exists a, b :: IsAround(haystack, a, needle, b)
    ensures |needle| > |haystack| ==> !FoldedIncludes(haystack, needle, lower)
  {
    hide FoldForSearch;
    if FoldedIncludes(haystack, needle, lower) {
      if needle == "" {
        assert IsAround(haystack, "", needle, haystack);
      } else {
        assert Includes(haystack, needle);
        var i: nat :| At(haystack, needle, i);
        assert IsAround(haystack, haystack[..i], needle, haystack[i + |needle|..]);
      }
    }
    if exists a, b :: IsAround(haystack, a, needle, b) {
      var a, b :| IsAround(haystack, a, needle, b);
      assert At(haystack, needle, |a|);
      assert Includes(haystack, needle);
    }
  }
}
