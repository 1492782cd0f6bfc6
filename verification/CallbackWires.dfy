/** What travels: the very strings that buttons in old messages carry, and that must therefore not change. */
module CallbackWires {
  import opened Text
  import opened CallbackData
  import opened CallbackLaws

  lemma TwoParts(a: string, b: string)
    ensures Join([a, b], ":") == a + ":" + b
  {
    JoinOfFields([a, b]);
  }

  lemma ThreeParts(a: string, b: string, c: string)
    ensures Join([a, b, c], ":") == a + ":" + b + ":" + c
  {
    JoinOfFields([a, b, c]);
    assert a + ":" + (b + ":" + c) == a + ":" + b + ":" + c;
  }

  /** The buttons about a person, an activity or a message. */
  lemma SubjectWires(action: string, id: string)
    ensures Wire(Chat(action, id)) == "chat:" + action + ":" + id
    ensures Wire(Event(action, id)) == "ev:" + action + ":" + id
    ensures Wire(Direct(action, id)) == "dm:" + action + ":" + id
    ensures Wire(Admin(action, Some(id))) == "ad:" + action + ":" + id
    ensures Wire(Admin(action, None)) == "ad:" + action + ":x"
  {
    hide Join;
    ThreeParts("chat", action, id);
    ThreeParts("ev", action, id);
    ThreeParts("dm", action, id);
    ThreeParts("ad", action, id);
    ThreeParts("ad", action, "x");
    SubjectText(action, id);
  }

  lemma SubjectText(action: string, id: string)
    ensures "chat" + ":" + action + ":" + id == "chat:" + action + ":" + id
    ensures "ev" + ":" + action + ":" + id == "ev:" + action + ":" + id
    ensures "dm" + ":" + action + ":" + id == "dm:" + action + ":" + id
    ensures "ad" + ":" + action + ":" + id == "ad:" + action + ":" + id
    ensures "ad" + ":" + action + ":" + "x" == "ad:" + action + ":x"
  {
  }

  /** The buttons of a review, a report or a suggestion. */
  lemma ReportWires(id: string, target: string, reason: string)
    ensures Wire(ReviewEdit(id)) == "rv:edit:" + id
    ensures Wire(ReportAsk(target, id)) == "rp:ask" + target + ":" + id
    ensures Wire(ReportReason(target, reason, id)) == "rp:" + target + reason + ":" + id
    ensures Wire(Suggestion(id)) == "sg:host:" + id
  {
    hide Join;
    ThreeParts("rv", "edit", id);
    ThreeParts("rp", "ask" + target, id);
    ThreeParts("rp", target + reason, id);
    ThreeParts("sg", "host", id);
    ReportText(id, target, reason);
  }

  lemma ReportText(id: string, target: string, reason: string)
    ensures "rv" + ":" + "edit" + ":" + id == "rv:edit:" + id
    ensures "rp" + ":" + ("ask" + target) + ":" + id == "rp:ask" + target + ":" + id
    ensures "rp" + ":" + (target + reason) + ":" + id == "rp:" + target + reason + ":" + id
    ensures "sg" + ":" + "host" + ":" + id == "sg:host:" + id
  {
  }

  /** The one character a page travels as: `0` to `9`, then `a` to `z`. */
  lemma PageLetters(page: int)
    requires 0 <= page <= 35
    ensures PageText(page) == ["0123456789abcdefghijklmnopqrstuvwxyz"[page]]
  {
  }

  /** A page before the first travels as the first, and one that has no letter as the last that has. */
  lemma PagesAreCut(page: int)
    ensures page < 0 ==> PageText(page) == "0"
    ensures page > 35 ==> PageText(page) == "z"
  {
  }

  /** The buttons that page. */
  lemma PagedWires(page: int)
    requires 0 <= page <= 35
    ensures var p := ["0123456789abcdefghijklmnopqrstuvwxyz"[page]];
            && Wire(MyEvents(page)) == "mv:" + p + ":x"
            && Wire(Wallet(page)) == "wl:" + p + ":x"
            && Wire(Trust(page)) == "ts:" + p + ":x"
  {
    PageLetters(page);
    hide Join, PageText;
    var p := PageText(page);
    ThreeParts("mv", p, "x");
    ThreeParts("wl", p, "x");
    ThreeParts("ts", p, "x");
    PagedText(p);
  }

  /** A page of a document. */
  lemma PolicyWire(page: int, doc: string)
    requires 0 <= page <= 35
    ensures Wire(Policy(doc, page)) == "pl:" + doc + ":" + ["0123456789abcdefghijklmnopqrstuvwxyz"[page]]
  {
    PageLetters(page);
    hide Join, PageText;
    ThreeParts("pl", doc, PageText(page));
    assert "pl" + ":" == "pl:";
  }

  lemma PagedText(p: string)
    ensures "mv" + ":" + p + ":" + "x" == "mv:" + p + ":x" && "wl" + ":" + p + ":" + "x" == "wl:" + p + ":x"
    ensures "ts" + ":" + p + ":" + "x" == "ts:" + p + ":x"
  {
  }

  /** The buttons that open a screen. */
  lemma OpeningWires(key: string)
    ensures Wire(GuideButton(GuideSlug(key))) == "gd:g:" + key
    ensures Wire(MenuButton(MenuGroup(key))) == "mn:g:" + key && Wire(MenuButton(MenuCommand(key))) == "mn:c:" + key
  {
    hide Join;
    ThreeParts("gd", "g", key);
    ThreeParts("mn", "g", key);
    ThreeParts("mn", "c", key);
    OpeningText(key);
  }

  lemma OpeningText(key: string)
    ensures "gd" + ":" + "g" + ":" + key == "gd:g:" + key
    ensures "mn" + ":" + "g" + ":" + key == "mn:g:" + key && "mn" + ":" + "c" + ":" + key == "mn:c:" + key
  {
  }

  /** The buttons that set something. */
  lemma SettingWires(kind: string)
    ensures Wire(Setting(kind, true)) == "st:" + kind + "1:x" && Wire(Setting(kind, false)) == "st:" + kind + "0:x"
    ensures Wire(Code(kind)) == "cd:" + kind + ":x" && Wire(ProfileField(kind)) == "pf:" + kind + ":x"
  {
    hide Join;
    ThreeParts("st", kind + "1", "x");
    ThreeParts("st", kind + "0", "x");
    ThreeParts("cd", kind, "x");
    ThreeParts("pf", kind, "x");
    SettingText(kind);
  }

  lemma SettingText(kind: string)
    ensures "st" + ":" + (kind + "1") + ":" + "x" == "st:" + kind + "1:x"
    ensures "st" + ":" + (kind + "0") + ":" + "x" == "st:" + kind + "0:x"
    ensures "cd" + ":" + kind + ":" + "x" == "cd:" + kind + ":x"
    ensures "pf" + ":" + kind + ":" + "x" == "pf:" + kind + ":x"
  {
  }

  /** The buttons that carry nothing of their own. */
  lemma FixedWires()
    ensures Wire(GuideButton(GuideIndex)) == "gd:i" && Wire(GuideButton(GuideCommands)) == "gd:k"
    ensures Wire(MenuButton(MenuRoot)) == "mn:root"
    ensures Wire(Gender(true)) == "gn:F" && Wire(Gender(false)) == "gn:M"
    ensures Wire(Buy) == "by:coins:x" && Wire(ChannelRecheck) == "cg:recheck:x"
  {
    hide Join;
    TwoParts("gd", "i");
    TwoParts("gd", "k");
    TwoParts("mn", "root");
    TwoParts("gn", "F");
    TwoParts("gn", "M");
    ThreeParts("by", "coins", "x");
    ThreeParts("cg", "recheck", "x");
    ShortText();
    LongText();
  }

  lemma ShortText()
    ensures "gd" + ":" + "i" == "gd:i" && "gd" + ":" + "k" == "gd:k" && "mn" + ":" + "root" == "mn:root"
    ensures "gn" + ":" + "F" == "gn:F" && "gn" + ":" + "M" == "gn:M"
  {
  }

  lemma LongText()
    ensures "by" + ":" + "coins" + ":" + "x" == "by:coins:x" && "cg" + ":" + "recheck" + ":" + "x" == "cg:recheck:x"
  {
  }

  /** A search: one letter each for the time, the cost, the page, the half of the screen and the age, and the
      category or «all». */
  lemma SearchWire(f: Filters)
    requires 0 <= f.page <= 35
    ensures var when := if f.when == AnyTime then "a" else if f.when == Today then "t" else "w";
            var cost := if f.cost == AnyCost then "a" else "f";
            var page := ["0123456789abcdefghijklmnopqrstuvwxyz"[f.page]];
            var view := if f.view == List then "l" else "f";
            var age := if f.age then "y" else "n";
            var category := if f.categoryId.Some? then f.categoryId.value else "all";
            Wire(Discover(f)) == "dc:" + (when + cost + page + view + age) + ":" + category
  {
    PageLetters(f.page);
    hide Join, PageText;
    ThreeParts("dc", FlagsText(f), CategoryText(f));
    DiscoverText(FlagsText(f), CategoryText(f));
  }

  lemma DiscoverText(flags: string, category: string)
    ensures "dc" + ":" + flags + ":" + category == "dc:" + flags + ":" + category
  {
  }

  /** A rating, and the way back to one of the two lists. */
  lemma NumberedWires(rating: nat, id: string, list: string, message: nat)
    ensures Wire(Review(rating, id)) == "rv:rate" + Decimal(rating) + ":" + id
    ensures Wire(Back(list, Some(message))) == "bk:" + list + ":" + Decimal(message)
    ensures Wire(Back(list, None)) == "bk:" + list + ":0"
  {
    assert Decimal(0) == "0";
    hide Join, Decimal;
    ThreeParts("rv", "rate" + Decimal(rating), id);
    ThreeParts("bk", list, Decimal(message));
    ThreeParts("bk", list, "0");
    NumberedText(Decimal(rating), id, list, Decimal(message));
  }

  lemma NumberedText(rating: string, id: string, list: string, message: string)
    ensures "rv" + ":" + ("rate" + rating) + ":" + id == "rv:rate" + rating + ":" + id
    ensures "bk" + ":" + list + ":" + message == "bk:" + list + ":" + message
    ensures "bk" + ":" + list + ":" + "0" == "bk:" + list + ":0"
  {
  }

  // ---------------------------------------------------------------------------------------
  // What is accepted, and nothing else.

  /** A page is one of the 36 characters. */
  lemma PageReadsIff(text: string, page: int)
    ensures ParsePage(text) == Some(page) <==>
            0 <= page <= 35 && text == ["0123456789abcdefghijklmnopqrstuvwxyz"[page]]
  {
    if ParsePage(text) == Some(page) {
      assert text == [text[0]];
      LetterReads(text[0], page);
    }
    if 0 <= page <= 35 {
      PageRoundTrip(page);
      PageLetters(page);
    }
  }

  lemma LetterReads(c: char, page: int)
    requires ParsePage([c]) == Some(page)
    ensures 0 <= page <= 35 && c == "0123456789abcdefghijklmnopqrstuvwxyz"[page]
  {
    PageLetters(page);
  }

  predicate IsHexText(s: string, n: nat) {
    |s| == n && forall i | 0 <= i < n :: s[i] in "0123456789abcdefABCDEF"
  }

  lemma HexLetters(c: char)
    ensures IsHex(c) <==> c in "0123456789abcdefABCDEF"
  {
  }

  /** A public id is five groups of 8, 4, 4, 4 and 12 hexadecimal digits, in either case. */
  lemma PublicIdIff(id: string)
    ensures IsPublicId(id) <==>
            && |id| == 36
            && IsHexText(id[..8], 8) && id[8] == '-'
            && IsHexText(id[9..13], 4) && id[13] == '-'
            && IsHexText(id[14..18], 4) && id[18] == '-'
            && IsHexText(id[19..23], 4) && id[23] == '-'
            && IsHexText(id[24..], 12)
  {
    hide IsHex;
    if |id| == 36 {
      HexSlice(id, 0, 8);
      HexSlice(id, 9, 13);
      HexSlice(id, 14, 18);
      HexSlice(id, 19, 23);
      HexSlice(id, 24, 36);
      assert id[0..8] == id[..8] && id[24..36] == id[24..];
      hide IsHexText;
    }
  }

  lemma HexSlice(id: string, i: nat, j: nat)
    requires i <= j <= |id|
    ensures IsHexText(id[i..j], j - i) <==> forall k | i <= k < j :: IsHex(id[k])
  {
    hide IsHex;
    forall k | i <= k < j
      ensures IsHex(id[k]) <==> id[i..j][k - i] in "0123456789abcdefABCDEF"
    {
      HexLetters(id[k]);
    }
    if IsHexText(id[i..j], j - i) {
      assert forall k | i <= k < j :: id[k] == id[i..j][k - i];
    }
  }

  /** The protocols that accept exactly what is drawn today. */
  predicate IsExact(p: Protocol) {
    !(p.ReviewP? || p.DiscoverP? || p.BackP? || p.MyEventsP? || p.WalletP? || p.TrustP? || p.SettingP?)
  }

  lemma SubjectFields(p: Protocol, data: string, rate: string -> int)
    requires (p.ChatP? || p.EventP? || p.DirectP? || p.ReviewEditP? || p.SuggestionP?) && Parse(p, data, rate).Some?
    ensures Split(data, ':') == Fields(Parse(p, data, rate).value)
  {
    hide IsPublicId, Split, CHAT_ACTIONS, EVENT_ACTIONS, DIRECT_ACTIONS;
    var parts := Split(data, ':');
    assert |parts| == 3 ==> parts == [parts[0], parts[1], parts[2]];
  }

  lemma FormFields(p: Protocol, data: string, rate: string -> int)
    requires (p.CodeP? || p.ProfileFieldP? || p.BuyP?) && Parse(p, data, rate).Some?
    ensures Split(data, ':') == Fields(Parse(p, data, rate).value)
  {
    hide Split, CODE_KINDS, PROFILE_FIELDS;
    var parts := Split(data, ':');
    assert |parts| == 3 ==> parts == [parts[0], parts[1], parts[2]];
  }

  lemma OpeningFields(p: Protocol, data: string, rate: string -> int)
    requires (p.GuideP? || p.MenuP?) && Parse(p, data, rate).Some?
    ensures Split(data, ':') == Fields(Parse(p, data, rate).value)
  {
    hide Split, IsSlug, IsMenuKey;
    var parts := Split(data, ':');
    assert |parts| == 3 ==> parts == [parts[0], parts[1], parts[2]];
    assert |parts| == 2 ==> parts == [parts[0], parts[1]];
  }

  lemma PolicyFields(p: Protocol, data: string, rate: string -> int)
    requires (p.PolicyP?) && Parse(p, data, rate).Some?
    ensures Split(data, ':') == Fields(Parse(p, data, rate).value)
  {
    hide Split, PageText, ParsePage, POLICY_DOCS;
    var parts := Split(data, ':');
    assert |parts| == 3 ==> parts == [parts[0], parts[1], parts[2]];
    var page := ParsePage(parts[2]).value;
    PageReadsIff(parts[2], page);
    PageLetters(page);
  }

  lemma AdminFields(p: Protocol, data: string, rate: string -> int)
    requires (p.AdminP?) && Parse(p, data, rate).Some?
    ensures Split(data, ':') == Fields(Parse(p, data, rate).value)
  {
    hide IsPublicId, Split, ADMIN_ACTIONS;
    var parts := Split(data, ':');
    assert |parts| == 3 ==> parts == [parts[0], parts[1], parts[2]];
  }

  lemma ReportFields(data: string, rate: string -> int)
    requires Parse(ReportP, data, rate).Some?
    ensures Split(data, ':') == Fields(Parse(ReportP, data, rate).value)
  {
    hide IsPublicId, Split;
    var parts := Split(data, ':');
    assert parts == [parts[0], parts[1], parts[2]];
    if StartsWith(parts[1], "ask") {
      assert parts[1] == parts[1][..3] + parts[1][3..];
    } else {
      assert parts[1] == parts[1][..1] + parts[1][1..];
    }
  }

  /** Fifteen of the protocols accept a string if and only if it is what one of their buttons carries. */
  lemma AcceptedIffDrawn(p: Protocol, data: string, rate: string -> int, b: Button)
    requires IsExact(p) && ReadsRatings(rate)
    ensures Parse(p, data, rate) == Some(b) <==> IsButton(b) && ProtocolOf(b) == p && data == Wire(b)
  {
    hide Parse, Fields, IsButton, Wire;
    if Parse(p, data, rate) == Some(b) {
      AcceptedIsButton(p, data, rate);
      AcceptedIsWire(p, data, rate);
    }
    if IsButton(b) && ProtocolOf(b) == p && data == Wire(b) {
      ParseEncode(b, rate);
    }
  }

  lemma AcceptedIsWire(p: Protocol, data: string, rate: string -> int)
    requires IsExact(p) && Parse(p, data, rate).Some?
    ensures data == Wire(Parse(p, data, rate).value)
  {
    hide Split, Join, Fields;
    if p.GenderP? || p.ChannelP? {
      FixedWires();
      hide Wire;
    } else {
      hide Parse;
      JoinSplit(data, ':');
      assert [':'] == ":";
      match p
      case ReportP => ReportFields(data, rate);
      case PolicyP => PolicyFields(p, data, rate);
      case AdminP => AdminFields(p, data, rate);
      case GuideP => OpeningFields(p, data, rate);
      case MenuP => OpeningFields(p, data, rate);
      case CodeP => FormFields(p, data, rate);
      case ProfileFieldP => FormFields(p, data, rate);
      case BuyP => FormFields(p, data, rate);
      case _ => SubjectFields(p, data, rate);
    }
  }

  /** The pagers and the settings never look at their third field; the first two must be those of a button. */
  lemma ThirdFieldIsIgnored(p: Protocol, data: string, rate: string -> int)
    requires (p.MyEventsP? || p.WalletP? || p.TrustP? || p.SettingP?) && Parse(p, data, rate).Some?
    ensures var parts, fields := Split(data, ':'), Fields(Parse(p, data, rate).value);
            |parts| == 3 && |fields| == 3 && parts[0] == fields[0] && parts[1] == fields[1]
  {
    hide Split, PageText, ParsePage;
    var parts := Split(data, ':');
    if p.SettingP? {
      assert parts[1] == parts[1][..1] + [parts[1][1]];
    } else {
      var page := ParsePage(parts[1]).value;
      PageReadsIff(parts[1], page);
      PageLetters(page);
    }
  }

  /** A rating, a search and a way back have the shapes they have had: a rating is whatever text `Number`
      reads as one; a search has two to five flags; a message id has one to twelve digits. */
  lemma LooseShapes(data: string, rate: string -> int)
    ensures Parse(ReviewP, data, rate).Some? <==>
            var parts := Split(data, ':');
            |parts| == 3 && parts[0] == "rv" && IsPublicId(parts[2])
            && |parts[1]| >= 4 && parts[1][..4] == "rate" && 1 <= rate(parts[1][4..]) <= 5
    ensures Parse(BackP, data, rate).Some? <==>
            var parts := Split(data, ':');
            |parts| == 3 && parts[0] == "bk" && (parts[1] == "d" || parts[1] == "m")
            && 1 <= |parts[2]| <= 12 && forall i | 0 <= i < |parts[2]| :: '0' <= parts[2][i] <= '9'
    ensures Parse(DiscoverP, data, rate).Some? ==>
            var parts := Split(data, ':');
            |parts| == 3 && parts[0] == "dc" && 2 <= |parts[1]| <= 5 && (parts[2] == "all" || IsPublicId(parts[2]))
  {
    assert BACK_TARGETS[0] == "d" && BACK_TARGETS[1] == "m";
    hide Split, IsPublicId, DecimalValue, ParsePage;
  }

  lemma {:induction false} BytesConcat(a: string, b: string)
    ensures ByteLength(a + b) == ByteLength(a) + ByteLength(b)
  {
    if a == "" {
      assert a + b == b;
    } else {
      assert (a + b)[0] == a[0] && (a + b)[1..] == a[1..] + b;
      BytesConcat(a[1..], b);
    }
  }

  /** UTF-8 takes one byte for ASCII, and two, three or four for what lies beyond; and an encoder throws
      exactly over 64 bytes. */
  lemma EncodesIff(b: Button, c: char)
    ensures Encode(b).Some? <==> ByteLength(Wire(b)) <= 64
    ensures Encode(b).Some? ==> Encode(b) == Some(Wire(b))
    ensures ByteLength([c]) ==
            if c <= '\U{7F}' then 1 else if c <= '\U{7FF}' then 2 else if c <= '\U{FFFF}' then 3 else 4
  {
    hide Wire;
    assert [c][1..] == "";
    assert ByteLength([c][1..]) == 0;
  }

  const LETTERS := "abcdefghijklmnopqrstuvwxyz"
  const DIGITS := "0123456789"

  lemma LetterIff(c: char)
    ensures c in LETTERS <==> 'a' <= c <= 'z'
  {
    if 'a' <= c <= 'z' {
      assert LETTERS[(c - 'a') as int] == c;
    }
  }

  lemma DigitIff(c: char)
    ensures c in DIGITS <==> IsDigit(c)
  {
    if IsDigit(c) {
      assert DIGITS[(c - '0') as int] == c;
    }
  }

  /** What a guide's and a menu's keys are written in. */
  lemma KeysAre(s: string)
    ensures IsSlug(s) <==>
            1 <= |s| <= 40 && forall i | 0 <= i < |s| :: s[i] in LETTERS || s[i] in DIGITS || s[i] == '_' || s[i] == '-'
    ensures IsMenuKey(s) <==>
            1 <= |s| <= 32 && forall i | 0 <= i < |s| :: s[i] in LETTERS || s[i] in DIGITS || s[i] == '_'
  {
    hide LETTERS, DIGITS;
    forall i | 0 <= i < |s|
      ensures (s[i] in LETTERS <==> 'a' <= s[i] <= 'z') && (s[i] in DIGITS <==> IsDigit(s[i]))
    {
      LetterIff(s[i]);
      DigitIff(s[i]);
    }
  }
  /** The actions, targets and reasons, by name. */
  lemma ActionsAre(a: string)
    ensures a in CHAT_ACTIONS <==> a == "accept" || a == "reject"
    ensures a in DIRECT_ACTIONS <==>
            a == "write" || a == "view" || a == "reply" || a == "guest" || a == "block" || a == "unblock"
    ensures a in ADMIN_ACTIONS <==>
            a == "list" || a == "open" || a == "claim" || a == "release" || a == "escalate"
    ensures a in REPORT_TARGETS <==> a == "e" || a == "c" || a == "u" || a == "v"
    ensures a in REPORT_REASONS <==>
            || a == "SPAM" || a == "HARASSMENT" || a == "INAPPROPRIATE" || a == "SCAM" || a == "IMPERSONATION"
            || a == "SAFETY" || a == "OTHER"
  {
  }

  /** What a tap on an activity can ask for: each of the asking kind has its «yes». */
  lemma EventActionsAre(a: string)
    ensures a in EVENT_ACTIONS <==>
            || a == "join" || a == "joinyes" || a == "cancel" || a == "cancelyes" || a == "noshow"
            || a == "noshowyes" || a == "post" || a == "postyes" || a == "invite" || a == "inviteyes"
            || a == "drop" || a == "dropyes" || a == "acc" || a == "rej"
            || a == "show" || a == "disp" || a == "habs" || a == "hresp" || a == "hrev" || a == "who"
  {
  }

  /** The single letters and words of the other protocols. */
  lemma LettersAre(a: string)
    ensures a in BACK_TARGETS <==> a == "d" || a == "m"
    ensures a in POLICY_DOCS <==> a == "s" || a == "t" || a == "p" || a == "c"
    ensures a in SETTING_LETTERS <==>
            a == "c" || a == "e" || a == "m" || a == "p" || a == "g" || a == "n" || a == "b"
    ensures a in CODE_KINDS <==> a == "gift" || a == "ref"
    ensures a in PROFILE_FIELDS <==> a == "name" || a == "birth" || a == "loc" || a == "bio" || a == "tags"
  {
  }
}
