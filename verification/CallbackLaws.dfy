/** The laws of the button protocols: every parser inverts its encoder, every button fits Telegram's
    limit, and no tap is taken for a button of another protocol. */
module CallbackLaws {
  import opened Text
  import opened CallbackData

  function ProtocolOf(b: Button): Protocol {
    match b
    case Chat(_, _) => ChatP
    case Event(_, _) => EventP
    case Review(_, _) => ReviewP
    case ReviewEdit(_) => ReviewEditP
    case ReportAsk(_, _) => ReportP
    case ReportReason(_, _, _) => ReportP
    case Discover(_) => DiscoverP
    case Back(_, _) => BackP
    case MyEvents(_) => MyEventsP
    case Direct(_, _) => DirectP
    case Policy(_, _) => PolicyP
    case GuideButton(_) => GuideP
    case Gender(_) => GenderP
    case Wallet(_) => WalletP
    case Trust(_) => TrustP
    case Setting(_, _) => SettingP
    case Admin(_, _) => AdminP
    case Code(_) => CodeP
    case Buy => BuyP
    case ProfileField(_) => ProfileFieldP
    case ChannelRecheck => ChannelP
    case MenuButton(_) => MenuP
    case Suggestion(_) => SuggestionP
  }

  predicate IsPage(page: int) {
    0 <= page <= MAX_PAGE
  }

  /** The buttons the bot means to draw. */
  predicate IsButton(b: Button) {
    match b
    case Chat(action, id) => action in CHAT_ACTIONS && IsPublicId(id)
    case Event(action, id) => action in EVENT_ACTIONS && IsPublicId(id)
    case Review(rating, id) => 1 <= rating <= 5 && IsPublicId(id)
    case ReviewEdit(id) => IsPublicId(id)
    case ReportAsk(target, id) => target in REPORT_TARGETS && IsPublicId(id)
    case ReportReason(target, reason, id) => target in REPORT_TARGETS && reason in REPORT_REASONS && IsPublicId(id)
    case Discover(f) => IsPage(f.page) && (f.categoryId.Some? ==> IsPublicId(f.categoryId.value))
    case Back(list, id) => list in BACK_TARGETS && (id.Some? ==> 0 < id.value < 1_000_000_000_000)
    case MyEvents(page) => IsPage(page)
    case Direct(action, id) => action in DIRECT_ACTIONS && IsPublicId(id)
    case Policy(doc, page) => doc in POLICY_DOCS && IsPage(page)
    case GuideButton(guide) => guide.GuideSlug? ==> IsSlug(guide.slug)
    case Gender(_) => true
    case Wallet(page) => IsPage(page)
    case Trust(page) => IsPage(page)
    case Setting(field, _) => field in SETTING_LETTERS
    case Admin(action, id) =>
      action in ADMIN_ACTIONS && (action == "list" <==> id.None?) && (id.Some? ==> IsPublicId(id.value))
    case Code(kind) => kind in CODE_KINDS
    case Buy => true
    case ProfileField(field) => field in PROFILE_FIELDS
    case ChannelRecheck => true
    case MenuButton(MenuRoot) => true
    case MenuButton(MenuGroup(key)) => IsMenuKey(key)
    case MenuButton(MenuCommand(command)) => IsMenuKey(command)
    case Suggestion(id) => IsPublicId(id)
  }

  /** What is needed of `Number(text)`: it reads the five ratings. */
  ghost predicate ReadsRatings(rate: string -> int) {
    rate("1") == 1 && rate("2") == 2 && rate("3") == 3 && rate("4") == 4 && rate("5") == 5
  }

  // ---------------------------------------------------------------------------------------
  // Fields are plain: no colon, one byte a character, and short.

  predicate IsPlainChar(c: char) {
    IsWordChar(c) || c == '-'
  }

  predicate IsPlain(s: string, limit: nat) {
    |s| <= limit && forall i | 0 <= i < |s| :: IsPlainChar(s[i])
  }

  predicate ArePlain(list: seq<string>, limit: nat) {
    forall i | 0 <= i < |list| :: IsPlain(list[i], limit)
  }

  lemma EventActionsArePlain()
    ensures ArePlain(EVENT_ACTIONS, 9)
  {
    FirstActionsArePlain();
    LastActionsArePlain();
    hide EVENT_ACTIONS, IsPlain;
    forall i | 0 <= i < |EVENT_ACTIONS|
      ensures IsPlain(EVENT_ACTIONS[i], 9)
    {
      if i < 10 {
        assert EVENT_ACTIONS[i] == EVENT_ACTIONS[..10][i];
      } else {
        assert EVENT_ACTIONS[i] == EVENT_ACTIONS[10..][i - 10];
      }
    }
  }

  lemma FirstActionsArePlain()
    ensures |EVENT_ACTIONS| == 20 && ArePlain(EVENT_ACTIONS[..10], 9)
  {
  }

  lemma LastActionsArePlain()
    ensures |EVENT_ACTIONS| == 20 && ArePlain(EVENT_ACTIONS[10..], 9)
  {
  }

  lemma ActionsArePlain()
    ensures ArePlain(CHAT_ACTIONS, 9) && ArePlain(DIRECT_ACTIONS, 9) && ArePlain(ADMIN_ACTIONS, 9)
  {
  }

  lemma MemberIsPlain(list: seq<string>, limit: nat, s: string)
    requires ArePlain(list, limit) && s in list
    ensures IsPlain(s, limit)
  {
  }

  lemma ListsArePlain()
    ensures ArePlain(REPORT_TARGETS, 1) && ArePlain(REPORT_REASONS, 13) && ArePlain(BACK_TARGETS, 1)
    ensures ArePlain(POLICY_DOCS, 1) && ArePlain(SETTING_LETTERS, 1) && ArePlain(CODE_KINDS, 9)
    ensures ArePlain(PROFILE_FIELDS, 9)
  {
    hide ArePlain;
    ReasonsArePlain();
    LettersArePlain();
    WordsArePlain();
  }

  lemma ReasonsArePlain()
    ensures ArePlain(REPORT_REASONS, 13)
  {
  }

  lemma LettersArePlain()
    ensures ArePlain(REPORT_TARGETS, 1) && ArePlain(BACK_TARGETS, 1)
    ensures ArePlain(POLICY_DOCS, 1) && ArePlain(SETTING_LETTERS, 1)
  {
  }

  lemma WordsArePlain()
    ensures ArePlain(CODE_KINDS, 9) && ArePlain(PROFILE_FIELDS, 9)
  {
  }

  lemma PlainConcat(a: string, b: string, m: nat, n: nat)
    requires IsPlain(a, m) && IsPlain(b, n)
    ensures IsPlain(a + b, m + n)
  {
    hide IsPlainChar;
  }

  lemma PublicIdIsPlain(id: string)
    requires IsPublicId(id)
    ensures IsPlain(id, 36)
  {
    hide IsWordChar, IsHex;
    forall i | 0 <= i < |id|
      ensures IsPlainChar(id[i])
    {
      if id[i] != '-' {
        HexIsPlain(id[i]);
      }
    }
  }

  lemma HexIsPlain(c: char)
    requires IsHex(c)
    ensures IsPlainChar(c)
  {
  }

  lemma PageIsPlain(page: int)
    ensures IsPlain(PageText(page), 1)
  {
  }

  lemma {:induction false} DecimalIsPlain(n: nat, digits: nat, bound: nat)
    requires 1 <= digits && bound == Power10(digits) && n < bound
    ensures IsPlain(Decimal(n), digits)
  {
    if n >= 10 {
      assert digits > 1;
      DecimalIsPlain(n / 10, digits - 1, Power10(digits - 1));
      PlainConcat(Decimal(n / 10), ['0' + (n % 10) as char], digits - 1, 1);
    }
  }

  lemma MessageIdIsPlain(n: nat)
    requires n < 1_000_000_000_000
    ensures IsPlain(Decimal(n), 12)
  {
    assert Power10(6) == 1_000_000;
    assert Power10(12) == 1_000_000_000_000;
    DecimalIsPlain(n, 12, Power10(12));
  }

  /** Every field of a button is plain, and together they leave room for the colons. */
  predicate HasShape(fields: seq<string>) {
    && (|fields| == 2 || |fields| == 3)
    && IsPlain(fields[0], 4) && IsPlain(fields[1], 14) && (|fields| == 3 ==> IsPlain(fields[2], 40))
  }

  predicate IsListed(b: Button) {
    b.Chat? || b.Event? || b.Direct? || b.Admin? || b.ReportAsk? || b.ReportReason? || b.Code? || b.ProfileField?
  }

  lemma ListedFieldsArePlain(b: Button)
    requires IsButton(b) && IsListed(b)
    ensures HasShape(Fields(b))
  {
    hide IsPublicId;
    ActionsArePlain();
    EventActionsArePlain();
    ListsArePlain();
    hide IsPlainChar;
    match b
    case Chat(action, id) => PublicIdIsPlain(id); MemberIsPlain(CHAT_ACTIONS, 9, action); Prefixes();
    case Event(action, id) => PublicIdIsPlain(id); MemberIsPlain(EVENT_ACTIONS, 9, action); Prefixes();
    case Direct(action, id) => PublicIdIsPlain(id); MemberIsPlain(DIRECT_ACTIONS, 9, action); Prefixes();
    case Admin(action, id) =>
      MemberIsPlain(ADMIN_ACTIONS, 9, action);
      Prefixes();
      if id.Some? {
        PublicIdIsPlain(id.value);
      }
    case ReportAsk(target, id) =>
      PublicIdIsPlain(id);
      MemberIsPlain(REPORT_TARGETS, 1, target);
      Prefixes();
      PlainConcat("ask", target, 3, 1);
    case ReportReason(target, reason, id) =>
      PublicIdIsPlain(id);
      MemberIsPlain(REPORT_TARGETS, 1, target);
      MemberIsPlain(REPORT_REASONS, 13, reason);
      Prefixes();
      PlainConcat(target, reason, 1, 13);
    case Code(kind) => MemberIsPlain(CODE_KINDS, 9, kind); Prefixes();
    case ProfileField(field) => MemberIsPlain(PROFILE_FIELDS, 9, field); Prefixes();
  }

  lemma Prefixes()
    ensures IsPlain("chat", 4) && IsPlain("ev", 4) && IsPlain("dm", 4) && IsPlain("ad", 4) && IsPlain("rp", 4)
    ensures IsPlain("ask", 3) && IsPlain("cd", 4) && IsPlain("pf", 4) && IsPlain("x", 1)
  {
  }

  lemma MorePrefixes()
    ensures IsPlain("rv", 4) && IsPlain("rate", 4) && IsPlain("edit", 4) && IsPlain("sg", 4) && IsPlain("host", 4)
    ensures IsPlain("dc", 4) && IsPlain("all", 4) && IsPlain("bk", 4) && IsPlain("x", 1)
  {
  }

  lemma PagerPrefixes()
    ensures IsPlain("mv", 4) && IsPlain("wl", 4) && IsPlain("ts", 4) && IsPlain("pl", 4) && IsPlain("st", 4)
    ensures IsPlain("0", 1) && IsPlain("1", 1) && IsPlain("x", 1)
  {
  }

  lemma GuidePrefixes()
    ensures IsPlain("gd", 4) && IsPlain("i", 1) && IsPlain("k", 1) && IsPlain("g", 1) && IsPlain("c", 1)
    ensures IsPlain("mn", 4) && IsPlain("root", 4)
  {
  }

  lemma FixedPrefixes()
    ensures IsPlain("gn", 4) && IsPlain("F", 1) && IsPlain("M", 1) && IsPlain("by", 4) && IsPlain("coins", 5)
    ensures IsPlain("cg", 4) && IsPlain("recheck", 7) && IsPlain("x", 1)
  {
  }

  lemma FlagsArePlain(f: Filters)
    ensures IsPlain(FlagsText(f), 5) && |FlagsText(f)| == 5
  {
    hide PageText;
    PageIsPlain(f.page);
    PageIsOneChar(f.page);
  }

  lemma PageIsOneChar(page: int)
    ensures |PageText(page)| == 1
  {
  }

  lemma OtherFieldsArePlain(b: Button)
    requires IsButton(b) && !IsListed(b) && !IsScreen(b)
    ensures HasShape(Fields(b))
  {
    hide IsPublicId, IsPlainChar, PageText, Decimal, FlagsText;
    match b
    case Review(rating, id) =>
      PublicIdIsPlain(id);
      MorePrefixes();
      MessageIdIsPlain(rating);
      PlainConcat("rate", Decimal(rating), 4, 12);
      RatingIsOneDigit(rating);
    case ReviewEdit(id) => PublicIdIsPlain(id); MorePrefixes();
    case Discover(f) =>
      MorePrefixes();
      FlagsArePlain(f);
      if f.categoryId.Some? {
        PublicIdIsPlain(f.categoryId.value);
      }
    case Back(list, id) =>
      MorePrefixes();
      ListsArePlain();
      MemberIsPlain(BACK_TARGETS, 1, list);
      MessageIdIsPlain(if id.Some? then id.value else 0);
    case MyEvents(page) => PagerPrefixes(); PageIsPlain(page);
    case Wallet(page) => PagerPrefixes(); PageIsPlain(page);
    case Trust(page) => PagerPrefixes(); PageIsPlain(page);
    case Policy(doc, page) =>
      PagerPrefixes();
      ListsArePlain();
      MemberIsPlain(POLICY_DOCS, 1, doc);
      PageIsPlain(page);
    case Setting(field, value) =>
      PagerPrefixes();
      ListsArePlain();
      MemberIsPlain(SETTING_LETTERS, 1, field);
      PlainConcat(field, if value then "1" else "0", 1, 1);
  }

  predicate IsScreen(b: Button) {
    b.GuideButton? || b.MenuButton? || b.Gender? || b.Buy? || b.ChannelRecheck? || b.Suggestion?
  }

  lemma ScreenFieldsArePlain(b: Button)
    requires IsButton(b) && IsScreen(b)
    ensures HasShape(Fields(b))
  {
    hide IsButton, HasShape, Fields;
    match b
    case GuideButton(_) => GuideFieldsArePlain(b);
    case MenuButton(_) => MenuFieldsArePlain(b);
    case _ => FixedFieldsArePlain(b);
  }

  lemma FixedFieldsArePlain(b: Button)
    requires IsButton(b) && (b.Gender? || b.Buy? || b.ChannelRecheck? || b.Suggestion?)
    ensures HasShape(Fields(b))
  {
    hide IsPublicId, IsPlainChar;
    match b
    case Suggestion(id) => PublicIdIsPlain(id); MorePrefixes();
    case _ => FixedPrefixes();
  }

  lemma GuideFieldsArePlain(b: Button)
    requires IsButton(b) && b.GuideButton?
    ensures HasShape(Fields(b))
  {
    hide IsPlainChar, IsSlug;
    GuidePrefixes();
    if b.guide.GuideSlug? {
      SlugIsPlain(b.guide.slug);
    }
  }

  lemma MenuFieldsArePlain(b: Button)
    requires IsButton(b) && b.MenuButton?
    ensures HasShape(Fields(b))
  {
    hide IsPlainChar, IsMenuKey;
    GuidePrefixes();
    if b.menu.MenuGroup? {
      MenuKeyIsPlain(b.menu.group);
    } else if b.menu.MenuCommand? {
      MenuKeyIsPlain(b.menu.command);
    }
  }

  lemma RatingIsOneDigit(rating: int)
    requires 0 <= rating < 10
    ensures |Decimal(rating)| == 1
  {
  }

  lemma SlugIsPlain(s: string)
    requires IsSlug(s)
    ensures IsPlain(s, 40)
  {
  }

  lemma MenuKeyIsPlain(s: string)
    requires IsMenuKey(s)
    ensures IsPlain(s, 40)
  {
  }

  lemma FieldsArePlain(b: Button)
    requires IsButton(b)
    ensures HasShape(Fields(b))
  {
    hide Fields, IsButton, HasShape;
    if IsListed(b) {
      ListedFieldsArePlain(b);
    } else if IsScreen(b) {
      ScreenFieldsArePlain(b);
    } else {
      OtherFieldsArePlain(b);
    }
  }

  // ---------------------------------------------------------------------------------------
  // Every button fits.

  lemma PlainHasNoColon(s: string, limit: nat)
    requires IsPlain(s, limit)
    ensures ':' !in s
  {
  }

  lemma {:induction false} OneByteEach(s: string)
    requires forall i | 0 <= i < |s| :: s[i] < '\U{80}'
    ensures ByteLength(s) == |s|
  {
    if s != "" {
      OneByteEach(s[1..]);
    }
  }

  lemma JoinOfFields(fields: seq<string>)
    requires |fields| == 2 || |fields| == 3
    ensures Join(fields, ":") ==
            if |fields| == 2 then fields[0] + ":" + fields[1] else fields[0] + ":" + (fields[1] + ":" + fields[2])
  {
    assert fields[1..] == [fields[1]] || fields[1..] == [fields[1], fields[2]];
    if |fields| == 3 {
      assert [fields[1], fields[2]][1..] == [fields[2]];
    }
  }

  lemma WireIsShort(fields: seq<string>)
    requires HasShape(fields)
    ensures |Join(fields, ":")| <= 60
    ensures forall i | 0 <= i < |Join(fields, ":")| :: Join(fields, ":")[i] < '\U{80}'
  {
    hide IsWordChar;
    JoinOfFields(fields);
    forall i, k | 0 <= k < |fields| && 0 <= i < |fields[k]|
      ensures fields[k][i] < '\U{80}'
    {
      PlainIsAscii(fields[k][i]);
    }
  }

  lemma PlainIsAscii(c: char)
    requires IsPlainChar(c)
    ensures c < '\U{80}'
  {
  }

  /** Every button the bot draws is within Telegram's 64 bytes: its encoder never throws. */
  lemma EveryButtonFits(b: Button)
    requires IsButton(b)
    ensures ByteLength(Wire(b)) <= 60
    ensures Encode(b) == Some(Wire(b))
  {
    hide IsButton, Fields, HasShape;
    FieldsArePlain(b);
    WireIsShort(Fields(b));
    OneByteEach(Wire(b));
  }

  /** The data of a button splits into the fields it was built from. */
  lemma WireSplits(b: Button)
    requires IsButton(b)
    ensures Split(Wire(b), ':') == Fields(b)
  {
    hide IsButton, Fields, IsPlain;
    var fields := Fields(b);
    FieldsArePlain(b);
    PlainHasNoColon(fields[0], 4);
    PlainHasNoColon(fields[1], 14);
    if |fields| == 3 {
      PlainHasNoColon(fields[2], 40);
    }
    SplitJoin(fields, ':');
  }

  // ---------------------------------------------------------------------------------------
  // Parsing a button gives it back.

  lemma PageRoundTrip(page: int)
    requires IsPage(page)
    ensures ParsePage(PageText(page)) == Some(page)
  {
  }

  lemma {:induction false} DecimalRoundTrip(n: nat)
    ensures DecimalValue(Decimal(n)) == n
  {
    if n >= 10 {
      DecimalRoundTrip(n / 10);
      var s := Decimal(n);
      assert s[..|s| - 1] == Decimal(n / 10);
    } else {
      assert Decimal(n)[..0] == "";
    }
  }

  lemma RatingRoundTrip(rating: int, rate: string -> int)
    requires 1 <= rating <= 5 && ReadsRatings(rate)
    ensures StartsWith("rate" + Decimal(rating), "rate") && rate(("rate" + Decimal(rating))[4..]) == rating
  {
    assert ("rate" + Decimal(rating))[4..] == Decimal(rating);
    assert Decimal(rating) == ["0", "1", "2", "3", "4", "5"][rating];
  }

  lemma FlagsRoundTrip(f: Filters)
    requires IsPage(f.page)
    ensures ParseFlags(FlagsText(f), f.categoryId) == Some(f)
  {
    hide PageText, ParsePage;
    PageIsOneChar(f.page);
    PageRoundTrip(f.page);
    var flags := FlagsText(f);
    assert flags[2..3] == PageText(f.page);
  }

  /** A payload of an older release, which had the first two, three or four flags only, still parses:
      what it does not say is the first page, the list, and no age filter. */
  lemma OldShapesStillParse(f: Filters, k: nat, rate: string -> int)
    requires IsButton(Discover(f)) && 2 <= k <= 5
    ensures Parse(DiscoverP, "dc:" + FlagsText(f)[..k] + ":" + CategoryText(f), rate) == Some(Discover(AsOf(f, k)))
  {
    hide ParseFlags, FlagsText, IsPublicId, PageText;
    FlagsArePlain(f);
    var flags, category := FlagsText(f)[..k], CategoryText(f);
    var data := "dc:" + flags + ":" + category;
    OldFlagsStillParse(f, k);
    CategoryIsPlain(f);
    PlainHasNoColon(FlagsText(f), 5);
    assert forall c | c in flags :: c in FlagsText(f);
    PlainHasNoColon(category, 40);
    ThreeFields("dc", flags, category);
    assert data == "dc" + ":" + flags + ":" + category;
    AllIsNoId();
    assert f.categoryId == if category == "all" then None else Some(category);
    assert Parse(DiscoverP, data, rate) == ParseDiscover(["dc", flags, category]);
  }

  function CategoryText(f: Filters): string {
    if f.categoryId.Some? then f.categoryId.value else "all"
  }

  /** What the first `k` flags of a search say. */
  function AsOf(f: Filters, k: nat): Filters {
    f.(page := if k < 3 then 0 else f.page, view := if k < 4 then List else f.view, age := k == 5 && f.age)
  }

  lemma CategoryIsPlain(f: Filters)
    requires IsButton(Discover(f))
    ensures IsPlain(CategoryText(f), 40)
  {
    hide IsPublicId;
    MorePrefixes();
    if f.categoryId.Some? {
      PublicIdIsPlain(f.categoryId.value);
    }
  }

  lemma ThreeFields(a: string, b: string, c: string)
    requires ':' !in a && ':' !in b && ':' !in c
    ensures Split(a + ":" + b + ":" + c, ':') == [a, b, c]
  {
    SplitFirst(a, ':', b + ":" + c);
    SplitFirst(b, ':', c);
    SplitPlain(c, ':');
    assert a + ":" + b + ":" + c == a + [':'] + (b + [':'] + c);
    assert b + ":" + c == b + [':'] + c;
  }

  lemma OldFlagsStillParse(f: Filters, k: nat)
    requires IsPage(f.page) && 2 <= k <= 5
    ensures ParseFlags(FlagsText(f)[..k], f.categoryId) == Some(AsOf(f, k))
  {
    FlagChars(f);
    PageRoundTrip(f.page);
    hide FlagsText, PageText, ParsePage, ParseWhen, ParseCost;
    var all, flags := FlagsText(f), FlagsText(f)[..k];
    assert forall i | 0 <= i < k :: flags[i] == all[i];
    if k > 2 {
      assert flags[2..3] == [all[2]];
    }
  }

  lemma FlagChars(f: Filters)
    requires IsPage(f.page)
    ensures var t := FlagsText(f);
            && |t| == 5
            && ParseWhen(t[0]) == Some(f.when) && ParseCost(t[1]) == Some(f.cost)
            && [t[2]] == PageText(f.page)
            && t[3] == (if f.view == List then 'l' else 'f')
            && t[4] == (if f.age then 'y' else 'n')
  {
    hide PageText;
    PageIsOneChar(f.page);
    var page := PageText(f.page);
    assert page == [page[0]];
  }

  lemma AllIsNoId()
    ensures !IsPublicId("all") && !IsPublicId("x")
  {
  }

  lemma ReportRoundTrip(b: Button)
    requires IsButton(b) && (b.ReportAsk? || b.ReportReason?)
    ensures ParseReport(Fields(b)) == Some(b)
  {
    hide IsPublicId;
    if b.ReportAsk? {
      assert ("ask" + b.target)[3..] == b.target;
    } else {
      var text := b.target + b.reason;
      TargetIsNotAsk(b.target);
      assert text[..1] == b.target && text[1..] == b.reason;
      assert text[0] == b.target[0];
    }
  }

  lemma TargetIsNotAsk(target: string)
    requires target in REPORT_TARGETS
    ensures |target| == 1 && target[0] != 'a'
  {
  }

  lemma SettingRoundTrip(b: Button)
    requires IsButton(b) && b.Setting?
    ensures ParseSetting(Fields(b)) == Some(b)
  {
    LetterIsOne(b.field);
    var text := b.field + if b.value then "1" else "0";
    assert text[..1] == b.field;
  }

  lemma LetterIsOne(letter: string)
    requires letter in SETTING_LETTERS
    ensures |letter| == 1
  {
  }

  lemma BackRoundTrip(b: Button)
    requires IsButton(b) && b.Back?
    ensures ParseBack(Fields(b)) == Some(b)
  {
    hide IsPlainChar;
    var n := if b.commandMessageId.Some? then b.commandMessageId.value else 0;
    MessageIdIsPlain(n);
    DecimalRoundTrip(n);
  }

  lemma FixedRoundTrip(b: Button)
    requires b.Gender? || b.ChannelRecheck?
    ensures Wire(b) == match b case Gender(female) => (if female then "gn:F" else "gn:M") case _ => "cg:recheck:x"
  {
    JoinOfFields(Fields(b));
  }

  lemma NamedRoundTrip(b: Button, rate: string -> int)
    requires IsButton(b) && Split(Wire(b), ':') == Fields(b)
    requires b.Chat? || b.Event? || b.Direct? || b.ReviewEdit? || b.Admin? || b.Suggestion?
    ensures Parse(ProtocolOf(b), Wire(b), rate) == Some(b)
  {
    hide IsPublicId, Wire;
  }

  lemma FormRoundTrip(b: Button, rate: string -> int)
    requires IsButton(b) && Split(Wire(b), ':') == Fields(b)
    requires b.Code? || b.ProfileField? || b.Buy?
    ensures Parse(ProtocolOf(b), Wire(b), rate) == Some(b)
  {
    hide Wire;
  }

  lemma ScreenRoundTrip(b: Button, rate: string -> int)
    requires IsButton(b) && Split(Wire(b), ':') == Fields(b)
    requires b.GuideButton? || b.MenuButton?
    ensures Parse(ProtocolOf(b), Wire(b), rate) == Some(b)
  {
    hide Wire, IsSlug, IsMenuKey;
  }

  lemma ChoiceRoundTrip(b: Button, rate: string -> int)
    requires b.Gender? || b.ChannelRecheck?
    ensures Parse(ProtocolOf(b), Wire(b), rate) == Some(b)
  {
    hide Wire;
    FixedRoundTrip(b);
  }

  lemma PagedRoundTrip(b: Button, rate: string -> int)
    requires IsButton(b) && Split(Wire(b), ':') == Fields(b)
    requires b.MyEvents? || b.Wallet? || b.Trust? || b.Policy?
    ensures Parse(ProtocolOf(b), Wire(b), rate) == Some(b)
  {
    hide Wire, PageText, ParsePage;
    PageRoundTrip(b.page);
  }

  lemma ComposedRoundTrip(b: Button, rate: string -> int)
    requires IsButton(b) && ReadsRatings(rate) && Split(Wire(b), ':') == Fields(b)
    requires b.Review? || b.Discover?
    ensures Parse(ProtocolOf(b), Wire(b), rate) == Some(b)
  {
    hide Wire, IsPublicId, PageText, Decimal, FlagsText, ParseFlags, StartsWith;
    match b
    case Review(rating, id) => RatingRoundTrip(rating, rate);
    case Discover(f) => FlagsRoundTrip(f); AllIsNoId();
  }

  lemma LetteredRoundTrip(b: Button, rate: string -> int)
    requires IsButton(b) && Split(Wire(b), ':') == Fields(b)
    requires b.ReportAsk? || b.ReportReason? || b.Back? || b.Setting?
    ensures Parse(ProtocolOf(b), Wire(b), rate) == Some(b)
  {
    hide ParseReport, ParseBack, ParseSetting, Fields, Wire, IsButton;
    match b
    case Back(_, _) => BackRoundTrip(b);
    case Setting(_, _) => SettingRoundTrip(b);
    case _ => ReportRoundTrip(b);
  }

  /** Every parser inverts its encoder, on every button the bot means to draw. */
  lemma ParseEncode(b: Button, rate: string -> int)
    requires IsButton(b) && ReadsRatings(rate)
    ensures Parse(ProtocolOf(b), Wire(b), rate) == Some(b)
  {
    hide IsButton, Wire, Fields, Parse, ReadsRatings;
    WireSplits(b);
    match b
    case Chat(_, _) => NamedRoundTrip(b, rate);
    case Event(_, _) => NamedRoundTrip(b, rate);
    case Direct(_, _) => NamedRoundTrip(b, rate);
    case ReviewEdit(_) => NamedRoundTrip(b, rate);
    case Admin(_, _) => NamedRoundTrip(b, rate);
    case Suggestion(_) => NamedRoundTrip(b, rate);
    case MyEvents(_) => PagedRoundTrip(b, rate);
    case Wallet(_) => PagedRoundTrip(b, rate);
    case Trust(_) => PagedRoundTrip(b, rate);
    case Policy(_, _) => PagedRoundTrip(b, rate);
    case Review(_, _) => ComposedRoundTrip(b, rate);
    case ReportAsk(_, _) => LetteredRoundTrip(b, rate);
    case ReportReason(_, _, _) => LetteredRoundTrip(b, rate);
    case Discover(_) => ComposedRoundTrip(b, rate);
    case Back(_, _) => LetteredRoundTrip(b, rate);
    case Setting(_, _) => LetteredRoundTrip(b, rate);
    case GuideButton(_) => ScreenRoundTrip(b, rate);
    case MenuButton(_) => ScreenRoundTrip(b, rate);
    case Gender(_) => ChoiceRoundTrip(b, rate);
    case ChannelRecheck => ChoiceRoundTrip(b, rate);
    case _ => FormRoundTrip(b, rate);
  }

  // ---------------------------------------------------------------------------------------
  // No tap belongs to two protocols.

  function PrefixOf(protocol: Protocol): string {
    match protocol
    case ChatP => "chat" case EventP => "ev" case ReviewP => "rv" case ReviewEditP => "rv" case ReportP => "rp"
    case DiscoverP => "dc" case BackP => "bk" case MyEventsP => "mv" case DirectP => "dm" case PolicyP => "pl"
    case GuideP => "gd" case GenderP => "gn" case WalletP => "wl" case TrustP => "ts" case SettingP => "st"
    case AdminP => "ad" case CodeP => "cd" case BuyP => "by" case ProfileFieldP => "pf" case ChannelP => "cg"
    case MenuP => "mn" case SuggestionP => "sg"
  }

  /** The protocols in three groups, to look at a few parsers at a time. */
  predicate IsNamed(p: Protocol) {
    p.ChatP? || p.EventP? || p.DirectP? || p.ReviewEditP? || p.AdminP? || p.SuggestionP? || p.CodeP? || p.ProfileFieldP?
  }

  predicate IsComposed(p: Protocol) {
    p.ReviewP? || p.ReportP? || p.DiscoverP? || p.BackP? || p.SettingP? || p.GuideP? || p.MenuP?
  }

  lemma NamedHasPrefix(protocol: Protocol, data: string, rate: string -> int)
    requires IsNamed(protocol) && Parse(protocol, data, rate).Some?
    ensures Split(data, ':')[0] == PrefixOf(protocol)
  {
    hide IsPublicId, StartsWith;
  }

  lemma ComposedHasPrefix(protocol: Protocol, data: string, rate: string -> int)
    requires IsComposed(protocol) && Parse(protocol, data, rate).Some?
    ensures Split(data, ':')[0] == PrefixOf(protocol)
  {
    hide IsPublicId, ParsePage, ParseFlags, StartsWith, DecimalValue, IsSlug, IsMenuKey;
  }

  lemma ChoiceHasPrefix(protocol: Protocol, data: string, rate: string -> int)
    requires (protocol.GenderP? || protocol.ChannelP?) && Parse(protocol, data, rate).Some?
    ensures Split(data, ':')[0] == PrefixOf(protocol)
  {
    var rest := data[3..];
    if protocol.GenderP? {
      assert data == "gn" + [':'] + rest;
      SplitFirst("gn", ':', rest);
    } else {
      assert data == "cg" + [':'] + rest;
      SplitFirst("cg", ':', rest);
    }
  }

  lemma OtherHasPrefix(protocol: Protocol, data: string, rate: string -> int)
    requires !IsNamed(protocol) && !IsComposed(protocol) && !protocol.GenderP? && !protocol.ChannelP?
    requires Parse(protocol, data, rate).Some?
    ensures Split(data, ':')[0] == PrefixOf(protocol)
  {
    hide ParsePage;
  }

  lemma AcceptedHasPrefix(protocol: Protocol, data: string, rate: string -> int)
    requires Parse(protocol, data, rate).Some?
    ensures Split(data, ':')[0] == PrefixOf(protocol)
  {
    hide Parse, PrefixOf, IsNamed, IsComposed;
    if IsNamed(protocol) {
      NamedHasPrefix(protocol, data, rate);
    } else if IsComposed(protocol) {
      ComposedHasPrefix(protocol, data, rate);
    } else if protocol.GenderP? || protocol.ChannelP? {
      ChoiceHasPrefix(protocol, data, rate);
    } else {
      OtherHasPrefix(protocol, data, rate);
    }
  }

  lemma PrefixesDiffer(p: Protocol, q: Protocol)
    requires PrefixOf(p) == PrefixOf(q)
    ensures p == q || (p in {ReviewP, ReviewEditP} && q in {ReviewP, ReviewEditP})
  {
    var a, b := PrefixOf(p), PrefixOf(q);
    assert a[0] == b[0] && |a| == |b| && a[1] == b[1];
  }

  lemma EditIsNoRating(parts: seq<string>, rate: string -> int)
    requires ParseReviewEdit(parts).Some?
    ensures ParseReview(parts, rate).None?
  {
    var action := parts[1];
    assert action[0] == 'e' && "rate"[0] == 'r';
  }

  /** Whatever arrives, at most one protocol accepts it. */
  lemma OnlyOneProtocolAccepts(p: Protocol, q: Protocol, data: string, rate: string -> int)
    requires Parse(p, data, rate).Some? && Parse(q, data, rate).Some?
    ensures p == q
  {
    AcceptedHasPrefix(p, data, rate);
    AcceptedHasPrefix(q, data, rate);
    PrefixesDiffer(p, q);
    hide PrefixOf, ParseReview, ParseReviewEdit;
    if p != q {
      EditIsNoRating(Split(data, ':'), rate);
    }
  }

  // ---------------------------------------------------------------------------------------
  // What is accepted is always a button the bot could have drawn.

  lemma ParsedPageIsPage(s: string)
    requires ParsePage(s).Some?
    ensures IsPage(ParsePage(s).value)
  {
  }

  lemma {:induction false} TwelveDigits(s: string, k: nat)
    requires forall i | 0 <= i < |s| :: IsDigit(s[i])
    requires |s| <= k
    ensures DecimalValue(s) < Power10(k)
  {
    if s != "" {
      TwelveDigits(s[..|s| - 1], k - 1);
      assert Power10(k) == 10 * Power10(k - 1);
      assert DigitValue(s[|s| - 1]) <= 9;
    }
  }

  lemma ParsedFlagsAreFine(flags: string, categoryId: Option<string>)
    requires ParseFlags(flags, categoryId).Some?
    ensures IsPage(ParseFlags(flags, categoryId).value.page)
    ensures ParseFlags(flags, categoryId).value.categoryId == categoryId
  {
    if |flags| > 2 {
      ParsedPageIsPage(flags[2..3]);
    }
  }

  lemma ParsedBackIsButton(parts: seq<string>)
    requires ParseBack(parts).Some?
    ensures IsButton(ParseBack(parts).value)
  {
    assert Power10(6) == 1_000_000;
    assert Power10(12) == 1_000_000_000_000;
    TwelveDigits(parts[2], 12);
  }

  lemma NamedIsButton(protocol: Protocol, data: string, rate: string -> int)
    requires IsNamed(protocol) && Parse(protocol, data, rate).Some?
    ensures var b := Parse(protocol, data, rate).value; IsButton(b) && ProtocolOf(b) == protocol
  {
    hide IsPublicId, StartsWith;
  }

  lemma ComposedIsButton(protocol: Protocol, data: string, rate: string -> int)
    requires IsComposed(protocol) && Parse(protocol, data, rate).Some?
    ensures var b := Parse(protocol, data, rate).value; IsButton(b) && ProtocolOf(b) == protocol
  {
    hide IsPublicId, ParsePage, ParseFlags, StartsWith, IsSlug, IsMenuKey;
    var parts := Split(data, ':');
    match protocol
    case DiscoverP => ParsedFlagsAreFine(parts[1], if parts[2] == "all" then None else Some(parts[2]));
    case BackP => ParsedBackIsButton(parts);
    case GuideP => ParsedGuideIsButton(parts);
    case MenuP => ParsedMenuIsButton(parts);
    case ReportP => ParsedReportIsButton(parts);
    case _ =>
  }

  lemma ParsedGuideIsButton(parts: seq<string>)
    requires ParseGuide(parts).Some?
    ensures IsButton(ParseGuide(parts).value) && ProtocolOf(ParseGuide(parts).value) == GuideP
  {
    hide IsSlug;
  }

  lemma ParsedMenuIsButton(parts: seq<string>)
    requires ParseMenu(parts).Some?
    ensures IsButton(ParseMenu(parts).value) && ProtocolOf(ParseMenu(parts).value) == MenuP
  {
    hide IsMenuKey;
  }

  lemma ParsedReportIsButton(parts: seq<string>)
    requires ParseReport(parts).Some?
    ensures IsButton(ParseReport(parts).value) && ProtocolOf(ParseReport(parts).value) == ReportP
  {
    hide IsPublicId;
  }

  lemma OtherIsButton(protocol: Protocol, data: string, rate: string -> int)
    requires !IsNamed(protocol) && !IsComposed(protocol) && Parse(protocol, data, rate).Some?
    ensures var b := Parse(protocol, data, rate).value; IsButton(b) && ProtocolOf(b) == protocol
  {
    hide ParsePage;
    var parts := Split(data, ':');
    match protocol
    case MyEventsP => ParsedPageIsPage(parts[1]);
    case WalletP => ParsedPageIsPage(parts[1]);
    case TrustP => ParsedPageIsPage(parts[1]);
    case PolicyP => ParsedPageIsPage(parts[2]);
    case _ =>
  }

  /** Every accepted tap, of whatever age and shape, names a button the bot draws. */
  lemma AcceptedIsButton(protocol: Protocol, data: string, rate: string -> int)
    requires Parse(protocol, data, rate).Some?
    ensures var b := Parse(protocol, data, rate).value; IsButton(b) && ProtocolOf(b) == protocol
  {
    hide Parse, IsButton, ProtocolOf, IsNamed, IsComposed;
    if IsNamed(protocol) {
      NamedIsButton(protocol, data, rate);
    } else if IsComposed(protocol) {
      ComposedIsButton(protocol, data, rate);
    } else {
      OtherIsButton(protocol, data, rate);
    }
  }

  /** So reading a tap, writing it in today's shape and reading it again changes nothing: the four
      shapes of discovery payload, leading zeros and all. */
  lemma ReparseChangesNothing(protocol: Protocol, data: string, rate: string -> int)
    requires ReadsRatings(rate) && Parse(protocol, data, rate).Some?
    ensures Parse(protocol, Wire(Parse(protocol, data, rate).value), rate) == Parse(protocol, data, rate)
  {
    hide Parse, IsButton, Wire, ReadsRatings;
    AcceptedIsButton(protocol, data, rate);
    ParseEncode(Parse(protocol, data, rate).value, rate);
  }
}
