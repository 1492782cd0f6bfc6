/** `discover-filters.ts`: the list and the filter panel of `/discover`. The bot remembers nothing, so
    every button carries the whole search it would run. */
module DiscoverFilters {
  import opened Text
  import opened CallbackData
  import opened CallbackLaws

  /** What a button says. */
  datatype Caption =
    | WhenChoice(when: When)
    | CostChoice(cost: Cost)
    | AgeSwitch
    | CategoryChoice(categoryId: Option<string>)
    | NextPage | Position(page: int) | PreviousPage
    | OpenFilters(active: nat)
    | BackToList

  /** `marked` is the «✅» in front of the choice in force. */
  datatype FilterButton = FilterButton(caption: Caption, marked: bool, data: string)

  /** `encodeDiscoverCallback`. */
  function EncodeDiscover(f: Filters): string {
    Wire(Discover(f))
  }

  function ParseTap(data: string): Option<Button> {
    ParseDiscover(Split(data, ':'))
  }

  function WhenButton(current: Filters, when: When): FilterButton {
    FilterButton(WhenChoice(when), current.when == when, EncodeDiscover(current.(when := when, page := 0)))
  }

  function CostButton(current: Filters, cost: Cost): FilterButton {
    FilterButton(CostChoice(cost), current.cost == cost, EncodeDiscover(current.(cost := cost, page := 0)))
  }

  function AgeButton(current: Filters): FilterButton {
    FilterButton(AgeSwitch, current.age, EncodeDiscover(current.(age := !current.age, page := 0)))
  }

  function FilterRows(current: Filters, ageKnown: bool): seq<seq<FilterButton>> {
    [[WhenButton(current, AnyTime), WhenButton(current, Today), WhenButton(current, Week)],
     [CostButton(current, AnyCost), CostButton(current, Free)]]
    + if ageKnown then [[AgeButton(current)]] else []
  }

  function CategoryButton(current: Filters, categoryId: Option<string>): FilterButton {
    FilterButton(CategoryChoice(categoryId), current.categoryId == categoryId,
                 EncodeDiscover(current.(categoryId := categoryId, page := 0)))
  }

  /** «all» first, then the catalogue. */
  function CategoryButtons(current: Filters, categories: seq<string>): seq<FilterButton> {
    [CategoryButton(current, None)]
    + seq(|categories|, i requires 0 <= i < |categories| => CategoryButton(current, Some(categories[i])))
  }

  /** Three per row. */
  function InThrees(buttons: seq<FilterButton>): seq<seq<FilterButton>> {
    if buttons == [] then []
    else if |buttons| <= 3 then [buttons]
    else [buttons[..3]] + InThrees(buttons[3..])
  }

  lemma {:induction false} InThreesSnoc(buttons: seq<FilterButton>, n: nat, row: seq<FilterButton>)
    requires n <= |buttons| && n % 3 == 0 && buttons[n..] == row && 0 < |row| <= 3
    ensures InThrees(buttons) == InThrees(buttons[..n]) + [row]
    decreases n
  {
    if n == 0 {
      assert buttons == row;
    } else {
      assert buttons[3..][n - 3..] == row;
      InThreesSnoc(buttons[3..], n - 3, row);
      assert buttons[3..][..n - 3] == buttons[..n][3..];
      assert buttons[..n][..3] == buttons[..3];
      if n == 3 {
        assert InThrees(buttons[..n]) == [buttons[..3]];
        assert InThrees(buttons[3..][..0]) == [];
      }
    }
  }

  method DiscoverCategoryRows(current: Filters, categories: seq<string>) returns (rows: seq<seq<FilterButton>>)
    ensures rows == InThrees(CategoryButtons(current, categories))
  {
    hide EncodeDiscover;
    var buttons := CategoryButtons(current, categories);
    rows := [];
    var index := 0;
    while index < |buttons|
      invariant 0 <= index && (index % 3 == 0 || index >= |buttons|)
      invariant rows == InThrees(buttons[..if index < |buttons| then index else |buttons|])
    {
      var end := if index + 3 < |buttons| then index + 3 else |buttons|;
      var row := buttons[index..end];
      assert buttons[..end][index..] == row;
      assert buttons[..end][..index] == buttons[..index];
      InThreesSnoc(buttons[..end], index, row);
      rows := rows + [row];
      index := index + 3;
    }
    assert buttons[..|buttons|] == buttons;
  }

  function PageRow(current: Filters, hasNext: bool): seq<seq<FilterButton>> {
    if current.page == 0 && !hasNext then []
    else [
      (if hasNext then [FilterButton(NextPage, false, EncodeDiscover(current.(page := current.page + 1)))] else [])
      + [FilterButton(Position(current.page + 1), false, EncodeDiscover(current))]
      + (if current.page > 0 then
           [FilterButton(PreviousPage, false, EncodeDiscover(current.(page := current.page - 1)))]
         else [])]
  }

  method DiscoverPageRow(current: Filters, hasNext: bool) returns (rows: seq<seq<FilterButton>>)
    ensures rows == PageRow(current, hasNext)
  {
    hide EncodeDiscover;
    if current.page == 0 && !hasNext {
      return [];
    }
    var row: seq<FilterButton> := [];
    if hasNext {
      row := row + [FilterButton(NextPage, false, EncodeDiscover(current.(page := current.page + 1)))];
    }
    row := row + [FilterButton(Position(current.page + 1), false, EncodeDiscover(current))];
    if current.page > 0 {
      row := row + [FilterButton(PreviousPage, false, EncodeDiscover(current.(page := current.page - 1)))];
    } else {
      assert row + [] == row;
    }
    assert row == PageRow(current, hasNext)[0];
    rows := [row];
  }

  function ActiveFilterCount(current: Filters): nat {
    (if current.when == AnyTime then 0 else 1) + (if current.cost == AnyCost then 0 else 1)
    + (if current.categoryId == None then 0 else 1) + (if current.age then 1 else 0)
  }

  function ListRows(current: Filters, hasNext: bool): seq<seq<FilterButton>> {
    PageRow(current, hasNext)
    + [[FilterButton(OpenFilters(ActiveFilterCount(current)), false, EncodeDiscover(current.(view := Panel)))]]
  }

  function PanelRows(current: Filters, categories: seq<string>, ageKnown: bool): seq<seq<FilterButton>> {
    FilterRows(current, ageKnown) + InThrees(CategoryButtons(current, categories))
    + [[FilterButton(BackToList, false, EncodeDiscover(current.(view := List)))]]
  }

  /** What the reader sees: the keyboard of the half of the screen that is drawn. */
  function Screen(current: Filters, categories: seq<string>, ageKnown: bool, hasNext: bool): seq<seq<FilterButton>> {
    if current.view == Panel then PanelRows(current, categories, ageKnown) else ListRows(current, hasNext)
  }

  // ---------------------------------------------------------------------------------------
  // What a tap does.

  predicate IsFilters(f: Filters) {
    IsPage(f.page) && (f.categoryId.Some? ==> IsPublicId(f.categoryId.value))
  }

  predicate IsCatalogue(categories: seq<string>) {
    forall i | 0 <= i < |categories| :: IsPublicId(categories[i])
  }

  lemma TapReads(f: Filters)
    requires f.categoryId.Some? ==> IsPublicId(f.categoryId.value)
    ensures ParseTap(EncodeDiscover(f)) == Some(Discover(f.(page := Clamp(f.page))))
  {
    hide FlagsText, ParseFlags, PageText, Clamp, IsPublicId;
    var g := f.(page := Clamp(f.page));
    ClampKeepsFlags(f);
    WireSplits(Discover(g));
    FlagsRoundTrip(g);
    AllIsNoId();
    assert Wire(Discover(f)) == Wire(Discover(g));
  }

  lemma ClampKeepsFlags(f: Filters)
    ensures FlagsText(f.(page := Clamp(f.page))) == FlagsText(f)
    ensures IsPage(Clamp(f.page))
  {
  }

  /** What the caption of a button promises, from the search it is drawn under. */
  function Promised(current: Filters, caption: Caption): Filters {
    match caption
    case WhenChoice(when) => current.(when := when, page := 0)
    case CostChoice(cost) => current.(cost := cost, page := 0)
    case AgeSwitch => current.(age := !current.age, page := 0)
    case CategoryChoice(categoryId) => current.(categoryId := categoryId, page := 0)
    case NextPage => current.(page := Clamp(current.page + 1))
    case Position(_) => current
    case PreviousPage => current.(page := Clamp(current.page - 1))
    case OpenFilters(_) => current.(view := Panel)
    case BackToList => current.(view := List)
  }

  function IsOn(rows: seq<seq<FilterButton>>, b: FilterButton): bool {
    exists r | 0 <= r < |rows| :: b in rows[r]
  }

  lemma {:induction false} InThreesHolds(buttons: seq<FilterButton>, b: FilterButton)
    ensures IsOn(InThrees(buttons), b) <==> b in buttons
    decreases |buttons|
  {
    if |buttons| > 3 {
      InThreesHolds(buttons[3..], b);
      assert buttons == buttons[..3] + buttons[3..];
      var rows, later := InThrees(buttons), InThrees(buttons[3..]);
      assert rows[0] == buttons[..3];
      assert forall r | 0 < r < |rows| :: rows[r] == later[r - 1];
      if IsOn(later, b) {
        var r :| 0 <= r < |later| && b in later[r];
        assert rows[r + 1] == later[r];
      }
    } else if buttons != [] {
      assert InThrees(buttons)[0] == buttons;
    }
  }

  lemma CategoryButtonPromises(current: Filters, categories: seq<string>, b: FilterButton)
    requires IsFilters(current) && IsCatalogue(categories)
    requires b in CategoryButtons(current, categories)
    ensures ParseTap(b.data) == Some(Discover(Promised(current, b.caption)))
  {
    hide ParseTap, EncodeDiscover, IsPublicId, Clamp;
    NoClamp(0);
    TapReads(current.(categoryId := None, page := 0));
    forall i | 0 <= i < |categories|
      ensures ParseTap(CategoryButton(current, Some(categories[i])).data)
           == Some(Discover(Promised(current, CategoryChoice(Some(categories[i])))))
    {
      TapReads(current.(categoryId := Some(categories[i]), page := 0));
    }
  }

  lemma NoClamp(page: int)
    requires IsPage(page)
    ensures Clamp(page) == page
  {
  }

  lemma FilterButtonPromises(current: Filters, ageKnown: bool, b: FilterButton)
    requires IsFilters(current) && IsOn(FilterRows(current, ageKnown), b)
    ensures ParseTap(b.data) == Some(Discover(Promised(current, b.caption)))
  {
    hide ParseTap, EncodeDiscover, IsPublicId, Clamp;
    NoClamp(0);
    TapReads(Promised(current, b.caption));
  }

  lemma ListButtonPromises(current: Filters, hasNext: bool, b: FilterButton)
    requires IsFilters(current) && IsOn(ListRows(current, hasNext), b)
    ensures ParseTap(b.data) == Some(Discover(Promised(current, b.caption)))
  {
    hide ParseTap, EncodeDiscover, IsPublicId, Clamp;
    NoClamp(current.page);
    TapReads(current.(page := current.page + 1));
    TapReads(current);
    TapReads(current.(page := current.page - 1));
    TapReads(current.(view := Panel));
  }

  lemma PanelHas(current: Filters, categories: seq<string>, ageKnown: bool, b: FilterButton)
    ensures IsOn(PanelRows(current, categories, ageKnown), b) <==>
            || IsOn(FilterRows(current, ageKnown), b)
            || b in CategoryButtons(current, categories)
            || b == FilterButton(BackToList, false, EncodeDiscover(current.(view := List)))
  {
    hide EncodeDiscover, FilterRows, CategoryButtons;
    InThreesHolds(CategoryButtons(current, categories), b);
    var top, middle := FilterRows(current, ageKnown), InThrees(CategoryButtons(current, categories));
    var bottom := [[FilterButton(BackToList, false, EncodeDiscover(current.(view := List)))]];
    OnEither(top, middle, b);
    OnEither(top + middle, bottom, b);
    assert IsOn(bottom, b) <==> b in bottom[0];
  }

  lemma OnEither(a: seq<seq<FilterButton>>, b: seq<seq<FilterButton>>, button: FilterButton)
    ensures IsOn(a + b, button) <==> IsOn(a, button) || IsOn(b, button)
  {
    var all := a + b;
    if IsOn(a, button) {
      var r :| 0 <= r < |a| && button in a[r];
      assert all[r] == a[r];
    }
    if IsOn(b, button) {
      var r :| 0 <= r < |b| && button in b[r];
      assert all[|a| + r] == b[r];
    }
  }

  /** Every button on either half of the screen reads as exactly the search it promises: a filter
      change goes back to the first page and keeps every other field. */
  lemma EveryButtonKeepsItsPromise(current: Filters, categories: seq<string>, ageKnown: bool, hasNext: bool,
                                   b: FilterButton)
    requires IsFilters(current) && IsCatalogue(categories)
    requires IsOn(Screen(current, categories, ageKnown, hasNext), b)
    ensures ParseTap(b.data) == Some(Discover(Promised(current, b.caption)))
    ensures IsFilters(Promised(current, b.caption))
  {
    hide ParseTap, EncodeDiscover, FilterRows, CategoryButtons, ListRows, PanelRows, IsPublicId;
    if current.view == Panel {
      PanelHas(current, categories, ageKnown, b);
      if b in CategoryButtons(current, categories) {
        CategoryButtonPromises(current, categories, b);
        CategoriesOffered(current, categories, b);
      } else if IsOn(FilterRows(current, ageKnown), b) {
        FilterButtonPromises(current, ageKnown, b);
        NotACategory(current, ageKnown, b);
      } else {
        NoClamp(current.page);
        TapReads(current.(view := List));
      }
    } else {
      ListButtonPromises(current, hasNext, b);
      ListOffers(current, hasNext, b);
    }
  }

  lemma CategoriesOffered(current: Filters, categories: seq<string>, b: FilterButton)
    requires IsCatalogue(categories) && b in CategoryButtons(current, categories)
    ensures b.caption.CategoryChoice? && (b.caption.categoryId.Some? ==> IsPublicId(b.caption.categoryId.value))
  {
    hide EncodeDiscover, IsPublicId;
  }

  lemma NotACategory(current: Filters, ageKnown: bool, b: FilterButton)
    requires IsOn(FilterRows(current, ageKnown), b)
    ensures b.caption.WhenChoice? || b.caption.CostChoice? || b.caption.AgeSwitch?
  {
    hide EncodeDiscover;
  }

  lemma ListOffers(current: Filters, hasNext: bool, b: FilterButton)
    requires IsOn(ListRows(current, hasNext), b)
    ensures b.caption.NextPage? || b.caption.Position? || b.caption.PreviousPage? || b.caption.OpenFilters?
  {
    hide EncodeDiscover;
  }

  // ---------------------------------------------------------------------------------------
  // Everything can be reached.

  /** One tap takes the reader from one search to another. */
  ghost predicate Taps(from: Filters, to: Filters, categories: seq<string>, ageKnown: bool, hasNext: bool) {
    exists b :: IsOn(Screen(from, categories, ageKnown, hasNext), b) && ParseTap(b.data) == Some(Discover(to))
  }

  /** The panel always offers every time, every cost, every category, the age switch when the age is
      known, and the way back. */
  lemma PanelOffers(current: Filters, categories: seq<string>, ageKnown: bool, hasNext: bool, caption: Caption)
    requires IsFilters(current) && IsCatalogue(categories) && current.view == Panel
    requires caption.WhenChoice? || caption.CostChoice? || caption.BackToList?
             || (caption.AgeSwitch? && ageKnown)
             || (caption.CategoryChoice? && (caption.categoryId == None || caption.categoryId.value in categories))
    ensures Taps(current, Promised(current, caption), categories, ageKnown, hasNext)
  {
    hide ParseTap, EncodeDiscover, PanelRows, IsPublicId;
    var b := match caption
      case WhenChoice(when) => WhenButton(current, when)
      case CostChoice(cost) => CostButton(current, cost)
      case AgeSwitch => AgeButton(current)
      case CategoryChoice(categoryId) => CategoryButton(current, categoryId)
      case _ => FilterButton(BackToList, false, EncodeDiscover(current.(view := List)));
    OnTheRows(current, ageKnown, b);
    OnTheCategories(current, categories, b);
    PanelHas(current, categories, ageKnown, b);
    hide FilterRows, CategoryButtons;
    EveryButtonKeepsItsPromise(current, categories, ageKnown, hasNext, b);
  }

  lemma OnTheRows(current: Filters, ageKnown: bool, b: FilterButton)
    requires b.caption.WhenChoice? ==> b == WhenButton(current, b.caption.when)
    requires b.caption.CostChoice? ==> b == CostButton(current, b.caption.cost)
    requires b.caption.AgeSwitch? && ageKnown ==> b == AgeButton(current)
    ensures b.caption.WhenChoice? || b.caption.CostChoice? || (b.caption.AgeSwitch? && ageKnown) ==>
              IsOn(FilterRows(current, ageKnown), b)
  {
    hide WhenButton, CostButton, AgeButton;
    var rows := FilterRows(current, ageKnown);
    assert rows[0] == [WhenButton(current, AnyTime), WhenButton(current, Today), WhenButton(current, Week)];
    assert rows[1] == [CostButton(current, AnyCost), CostButton(current, Free)];
    match b.caption
    case WhenChoice(when) => assert b in rows[0] by {
      assert b == rows[0][if when == AnyTime then 0 else if when == Today then 1 else 2];
    }
    case CostChoice(cost) => assert b in rows[1] by {
      assert b == rows[1][if cost == AnyCost then 0 else 1];
    }
    case AgeSwitch =>
      if ageKnown {
        assert rows[2] == [b];
      }
    case _ =>
  }

  lemma OnTheCategories(current: Filters, categories: seq<string>, b: FilterButton)
    requires b.caption.CategoryChoice? ==> b == CategoryButton(current, b.caption.categoryId)
    requires b.caption.CategoryChoice? ==> b.caption.categoryId == None || b.caption.categoryId.value in categories
    ensures b.caption.CategoryChoice? ==> b in CategoryButtons(current, categories)
  {
    hide EncodeDiscover;
    if b.caption.CategoryChoice? {
      var buttons := CategoryButtons(current, categories);
      if b.caption.categoryId == None {
        assert buttons[0] == b;
      } else {
        var i :| 0 <= i < |categories| && categories[i] == b.caption.categoryId.value;
        assert buttons[i + 1] == b;
      }
    }
  }

  /** The list always offers the way into the filters. */
  lemma ListOpensPanel(current: Filters, categories: seq<string>, ageKnown: bool, hasNext: bool)
    requires IsFilters(current) && IsCatalogue(categories) && current.view == List
    ensures Taps(current, current.(view := Panel), categories, ageKnown, hasNext)
  {
    hide ParseTap, EncodeDiscover, PageRow, IsPublicId;
    var b := FilterButton(OpenFilters(ActiveFilterCount(current)), false, EncodeDiscover(current.(view := Panel)));
    var rows := ListRows(current, hasNext);
    assert rows[|rows| - 1] == [b];
    assert IsOn(rows, b);
    EveryButtonKeepsItsPromise(current, categories, ageKnown, hasNext, b);
  }

  /** A sequence of taps. */
  ghost predicate IsTour(path: seq<Filters>, categories: seq<string>, ageKnown: bool, hasNext: bool) {
    path != [] && forall i | 0 <= i < |path| - 1 :: Taps(path[i], path[i + 1], categories, ageKnown, hasNext)
  }

  /** From any search, any other choice of time, cost and category, and of the age switch when the age
      is known, is at most six taps away, and it is shown from its first page. */
  lemma EverySearchIsSixTapsAway(from: Filters, to: Filters, categories: seq<string>, ageKnown: bool, hasNext: bool)
    returns (path: seq<Filters>)
    requires IsFilters(from) && IsCatalogue(categories)
    requires to.page == 0 && to.view == List
    requires to.categoryId == None || to.categoryId.value in categories
    requires ageKnown || to.age == from.age
    ensures IsTour(path, categories, ageKnown, hasNext) && |path| <= 7
    ensures path[0] == from && path[|path| - 1] == to
  {
    hide Taps, IsPublicId;
    var s1 := from.(view := Panel);
    var s2 := Promised(s1, WhenChoice(to.when));
    var s3 := Promised(s2, CostChoice(to.cost));
    var s4 := Promised(s3, CategoryChoice(to.categoryId));
    var s5 := if to.age == from.age then s4 else Promised(s4, AgeSwitch);
    if from.view == List {
      ListOpensPanel(from, categories, ageKnown, hasNext);
    }
    PanelOffers(s1, categories, ageKnown, hasNext, WhenChoice(to.when));
    PanelOffers(s2, categories, ageKnown, hasNext, CostChoice(to.cost));
    PanelOffers(s3, categories, ageKnown, hasNext, CategoryChoice(to.categoryId));
    assert IsFilters(s4) by {
      if to.categoryId.Some? {
        var i :| 0 <= i < |categories| && categories[i] == to.categoryId.value;
      }
    }
    if to.age != from.age {
      PanelOffers(s4, categories, ageKnown, hasNext, AgeSwitch);
    }
    PanelOffers(s5, categories, ageKnown, hasNext, BackToList);
    assert Promised(s5, BackToList) == to;
    path := (if from.view == List then [from] else []) + [s1, s2, s3, s4]
            + (if to.age != from.age then [s5] else []) + [to];
  }

  // ---------------------------------------------------------------------------------------
  // What the module's own description gets wrong, and where paging ends.

  /** Tapping the marked choice of a time, a cost or a category keeps it; only the age switch is cleared
      by the button that turned it on. */
  lemma OnlyTheAgeSwitchClearsItself(current: Filters, categories: seq<string>, ageKnown: bool, b: FilterButton)
    requires IsFilters(current) && IsCatalogue(categories) && current.view == Panel
    requires IsOn(PanelRows(current, categories, ageKnown), b) && b.marked
    ensures ParseTap(b.data) ==
            Some(Discover(if b.caption.AgeSwitch? then current.(age := false, page := 0) else current.(page := 0)))
  {
    hide ParseTap, EncodeDiscover, FilterRows, CategoryButtons, PanelRows;
    EveryButtonKeepsItsPromise(current, categories, ageKnown, false, b);
    PanelHas(current, categories, ageKnown, b);
    if b in CategoryButtons(current, categories) {
      MarkedCategory(current, categories, b);
    } else if IsOn(FilterRows(current, ageKnown), b) {
      MarkedFilter(current, ageKnown, b);
    }
  }

  lemma MarkedCategory(current: Filters, categories: seq<string>, b: FilterButton)
    requires b in CategoryButtons(current, categories)
    ensures b.caption.CategoryChoice? && (b.marked <==> current.categoryId == b.caption.categoryId)
  {
    hide EncodeDiscover;
  }

  lemma MarkedFilter(current: Filters, ageKnown: bool, b: FilterButton)
    requires IsOn(FilterRows(current, ageKnown), b)
    ensures match b.caption
            case WhenChoice(when) => b.marked <==> current.when == when
            case CostChoice(cost) => b.marked <==> current.cost == cost
            case AgeSwitch => b.marked <==> current.age
            case _ => false
  {
    hide EncodeDiscover;
  }

  /** «next» leads on exactly while the next page can be named. */
  lemma NextPageLeadsOnIff(current: Filters)
    requires IsFilters(current)
    ensures PageRow(current, true)[0][0].caption == NextPage
    ensures ParseTap(PageRow(current, true)[0][0].data) == Some(Discover(current.(page := current.page + 1)))
            <==> current.page < MAX_PAGE
  {
    hide ParseTap, EncodeDiscover;
    TapReads(current.(page := current.page + 1));
  }

  // ---------------------------------------------------------------------------------------
  // What stands where, and what is marked.

  function Captions(row: seq<FilterButton>): seq<Caption> {
    seq(|row|, i requires 0 <= i < |row| => row[i].caption)
  }

  /** The filters: the three times in one row, the two costs in the next, and the age switch in a row of its
      own when the age is known. */
  lemma FilterLayout(current: Filters, ageKnown: bool)
    ensures var rows := FilterRows(current, ageKnown);
            && |rows| == (if ageKnown then 3 else 2)
            && Captions(rows[0]) == [WhenChoice(AnyTime), WhenChoice(Today), WhenChoice(Week)]
            && Captions(rows[1]) == [CostChoice(AnyCost), CostChoice(Free)]
            && (ageKnown ==> Captions(rows[2]) == [AgeSwitch])
  {
    hide EncodeDiscover;
  }

  /** The categories: «all» first, then the catalogue in its order. */
  lemma CategoryLayout(current: Filters, categories: seq<string>)
    ensures var buttons := CategoryButtons(current, categories);
            && |buttons| == |categories| + 1
            && buttons[0].caption == CategoryChoice(None)
            && forall i | 0 <= i < |categories| :: buttons[i + 1].caption == CategoryChoice(Some(categories[i]))
  {
    hide EncodeDiscover;
  }

  function Flat(rows: seq<seq<FilterButton>>): seq<FilterButton> {
    if rows == [] then [] else rows[0] + Flat(rows[1..])
  }

  /** Rows of three: all the buttons in order, each row but the last full, and the last not empty. */
  lemma {:induction false} ThreesAre(buttons: seq<FilterButton>)
    ensures var rows := InThrees(buttons);
            && Flat(rows) == buttons
            && (forall i | 0 <= i < |rows| :: 1 <= |rows[i]| <= 3)
            && (forall i | 0 <= i < |rows| - 1 :: |rows[i]| == 3)
    decreases |buttons|
  {
    if 0 < |buttons| <= 3 {
      assert [buttons][1..] == [];
      assert Flat([buttons][1..]) == [];
    } else if buttons != [] {
      ThreesAre(buttons[3..]);
      var rest := InThrees(buttons[3..]);
      assert ([buttons[..3]] + rest)[1..] == rest;
      assert buttons[..3] + buttons[3..] == buttons;
    }
  }

  /** The panel: the filters, the categories, and last the way back to the list. The list: the paging, if
      there is any, with next, the position counted from one, and previous, and last the way into the filters. */
  lemma ScreenLayout(current: Filters, categories: seq<string>, ageKnown: bool, hasNext: bool)
    ensures var panel := PanelRows(current, categories, ageKnown);
            var last := panel[|panel| - 1];
            && panel == FilterRows(current, ageKnown) + InThrees(CategoryButtons(current, categories)) + [last]
            && Captions(panel[|panel| - 1]) == [BackToList]
    ensures var list := ListRows(current, hasNext);
            && |list| == (if current.page == 0 && !hasNext then 1 else 2)
            && Captions(list[|list| - 1]) == [OpenFilters(ActiveFilterCount(current))]
            && (|list| == 2 ==>
                  Captions(list[0]) == (if hasNext then [NextPage] else []) + [Position(current.page + 1)]
                                       + (if current.page > 0 then [PreviousPage] else []))
  {
    hide EncodeDiscover, FilterRows, InThrees, CategoryButtons, ActiveFilterCount;
  }

  /** A choice is marked if and only if it is the one in force; nothing else ever is. */
  lemma MarkedIff(current: Filters, categories: seq<string>, ageKnown: bool, hasNext: bool, b: FilterButton)
    requires IsOn(PanelRows(current, categories, ageKnown), b) || IsOn(ListRows(current, hasNext), b)
    ensures b.marked <==>
            match b.caption
            case WhenChoice(when) => when == current.when
            case CostChoice(cost) => cost == current.cost
            case AgeSwitch => current.age
            case CategoryChoice(categoryId) => categoryId == current.categoryId
            case _ => false
  {
    hide EncodeDiscover, FilterRows, CategoryButtons, PanelRows, ListRows, IsOn;
    if IsOn(PanelRows(current, categories, ageKnown), b) {
      PanelHas(current, categories, ageKnown, b);
      if b in CategoryButtons(current, categories) {
        MarkedCategory(current, categories, b);
      } else if IsOn(FilterRows(current, ageKnown), b) {
        MarkedFilter(current, ageKnown, b);
      }
    } else {
      ListIsUnmarked(current, hasNext, b);
    }
  }

  lemma ListIsUnmarked(current: Filters, hasNext: bool, b: FilterButton)
    requires IsOn(ListRows(current, hasNext), b)
    ensures !b.marked && !b.caption.WhenChoice? && !b.caption.CostChoice? && !b.caption.AgeSwitch?
            && !b.caption.CategoryChoice?
  {
    hide EncodeDiscover;
  }

  /** How many filters the way into them announces: none of an open search, and one more for each of the time,
      the cost, the category and the age that is set. */
  lemma CountIs(f: Filters, when: When, cost: Cost, categoryId: string)
    ensures f.when == AnyTime && f.cost == AnyCost && f.categoryId == None && !f.age <==> ActiveFilterCount(f) == 0
    ensures f.when == AnyTime && when != AnyTime ==> ActiveFilterCount(f.(when := when)) == ActiveFilterCount(f) + 1
    ensures f.cost == AnyCost && cost != AnyCost ==> ActiveFilterCount(f.(cost := cost)) == ActiveFilterCount(f) + 1
    ensures f.categoryId == None ==>
              ActiveFilterCount(f.(categoryId := Some(categoryId))) == ActiveFilterCount(f) + 1
    ensures !f.age ==> ActiveFilterCount(f.(age := true)) == ActiveFilterCount(f) + 1
  {
  }
}
