/** `callback-data.ts`: what a button carries, in at most 64 bytes, and how a tap is read back. */
module CallbackData {
  import opened Text

  const MAX_BYTES: nat := 64
  const MAX_PAGE: nat := 35

  // ---------------------------------------------------------------------------------------
  // The values in a button.

  predicate IsDigit(c: char) {
    '0' <= c <= '9'
  }

  /** `[0-9a-f]` with the `i` flag. */
  predicate IsHex(c: char) {
    IsDigit(c) || 'a' <= c <= 'f' || 'A' <= c <= 'F'
  }

  /** `PUBLIC_ID`: a UUID in either case. */
  predicate IsPublicId(s: string) {
    && |s| == 36
    && forall i | 0 <= i < 36 :: if i == 8 || i == 13 || i == 18 || i == 23 then s[i] == '-' else IsHex(s[i])
  }

  const CHAT_ACTIONS := ["accept", "reject"]
  const EVENT_ACTIONS := [
    "join", "joinyes", "cancel", "cancelyes", "show", "disp", "habs", "hresp", "hrev", "who", "noshow",
    "noshowyes", "post", "postyes", "invite", "inviteyes", "drop", "dropyes", "acc", "rej"]
  const DIRECT_ACTIONS := ["write", "view", "reply", "guest", "block", "unblock"]
  const ADMIN_ACTIONS := ["list", "open", "claim", "release", "escalate"]
  const REPORT_TARGETS := ["e", "c", "u", "v"]
  const REPORT_REASONS := ["SPAM", "HARASSMENT", "INAPPROPRIATE", "SCAM", "IMPERSONATION", "SAFETY", "OTHER"]
  const BACK_TARGETS := ["d", "m"]
  const POLICY_DOCS := ["s", "t", "p", "c"]
  const SETTING_LETTERS := ["c", "e", "m", "p", "g", "n", "b"]
  const CODE_KINDS := ["gift", "ref"]
  const PROFILE_FIELDS := ["name", "birth", "loc", "bio", "tags"]

  datatype When = AnyTime | Today | Week
  datatype Cost = AnyCost | Free
  datatype View = List | Panel

  datatype Filters = Filters(when: When, cost: Cost, categoryId: Option<string>, page: int, view: View, age: bool)

  datatype Guide = GuideIndex | GuideCommands | GuideSlug(slug: string)
  datatype Menu = MenuRoot | MenuGroup(group: string) | MenuCommand(command: string)

  /** A button of one of the protocols. */
  datatype Button =
    | Chat(action: string, id: string)
    | Event(action: string, id: string)
    | Review(rating: int, id: string)
    | ReviewEdit(id: string)
    | ReportAsk(target: string, id: string)
    | ReportReason(target: string, reason: string, id: string)
    | Discover(filters: Filters)
    | Back(list: string, commandMessageId: Option<int>)
    | MyEvents(page: int)
    | Direct(action: string, id: string)
    | Policy(doc: string, page: int)
    | GuideButton(guide: Guide)
    | Gender(female: bool)
    | Wallet(page: int)
    | Trust(page: int)
    | Setting(field: string, value: bool)
    | Admin(action: string, caseId: Option<string>)
    | Code(kind: string)
    | Buy
    | ProfileField(field: string)
    | ChannelRecheck
    | MenuButton(menu: Menu)
    | Suggestion(id: string)

  /** `Math.min(Math.max(Math.trunc(page), 0), 35)`. */
  function Clamp(page: int): (p: nat)
    ensures p <= MAX_PAGE
  {
    if page < 0 then 0 else if page > MAX_PAGE then MAX_PAGE else page
  }

  /** A page in base 36, which is one character. */
  function PageText(page: int): string {
    var p := Clamp(page);
    if p < 10 then ['0' + p as char] else ['a' + (p - 10) as char]
  }

  /** `/^[0-9a-z]$/` and `Number.parseInt(letter, 36)`. */
  function ParsePage(s: string): Option<int> {
    if |s| != 1 then None
    else if IsDigit(s[0]) then Some((s[0] - '0') as int)
    else if 'a' <= s[0] <= 'z' then Some((s[0] - 'a') as int + 10)
    else None
  }

  /** `String(n)` for a whole number that is not negative. */
  function Decimal(n: nat): (s: string)
    ensures s != "" && forall i | 0 <= i < |s| :: IsDigit(s[i])
  {
    if n < 10 then ['0' + n as char] else Decimal(n / 10) + ['0' + (n % 10) as char]
  }

  function Power10(k: nat): (p: nat)
    ensures p >= 1
  {
    if k == 0 then 1 else 10 * Power10(k - 1)
  }

  function DigitValue(c: char): nat
    requires IsDigit(c)
  {
    (c - '0') as int
  }

  /** `Number.parseInt(s, 10)` for digits. */
  function DecimalValue(s: string): nat
    requires forall i | 0 <= i < |s| :: IsDigit(s[i])
  {
    if s == "" then 0 else DecimalValue(s[..|s| - 1]) * 10 + DigitValue(s[|s| - 1])
  }

  function WhenText(w: When): string {
    match w case AnyTime => "a" case Today => "t" case Week => "w"
  }

  function CostText(c: Cost): string {
    match c case AnyCost => "a" case Free => "f"
  }

  function ViewText(v: View): string {
    match v case List => "l" case Panel => "f"
  }

  function FlagsText(f: Filters): string {
    WhenText(f.when) + CostText(f.cost) + PageText(f.page) + ViewText(f.view) + if f.age then "y" else "n"
  }

  /** The fields of a button, which colons separate. */
  function Fields(b: Button): seq<string> {
    match b
    case Chat(action, id) => ["chat", action, id]
    case Event(action, id) => ["ev", action, id]
    case Review(rating, id) => ["rv", "rate" + Decimal(if rating < 0 then 0 else rating), id]
    case ReviewEdit(id) => ["rv", "edit", id]
    case ReportAsk(target, id) => ["rp", "ask" + target, id]
    case ReportReason(target, reason, id) => ["rp", target + reason, id]
    case Discover(f) => ["dc", FlagsText(f), match f.categoryId case None => "all" case Some(id) => id]
    case Back(list, id) => ["bk", list, Decimal(match id case None => 0 case Some(n) => if n <= 0 then 0 else n)]
    case MyEvents(page) => ["mv", PageText(page), "x"]
    case Direct(action, id) => ["dm", action, id]
    case Policy(doc, page) => ["pl", doc, PageText(page)]
    case GuideButton(GuideIndex) => ["gd", "i"]
    case GuideButton(GuideCommands) => ["gd", "k"]
    case GuideButton(GuideSlug(slug)) => ["gd", "g", slug]
    case Gender(female) => ["gn", if female then "F" else "M"]
    case Wallet(page) => ["wl", PageText(page), "x"]
    case Trust(page) => ["ts", PageText(page), "x"]
    case Setting(field, value) => ["st", field + (if value then "1" else "0"), "x"]
    case Admin(action, id) => ["ad", action, match id case None => "x" case Some(i) => i]
    case Code(kind) => ["cd", kind, "x"]
    case Buy => ["by", "coins", "x"]
    case ProfileField(field) => ["pf", field, "x"]
    case ChannelRecheck => ["cg", "recheck", "x"]
    case MenuButton(MenuRoot) => ["mn", "root"]
    case MenuButton(MenuGroup(key)) => ["mn", "g", key]
    case MenuButton(MenuCommand(command)) => ["mn", "c", command]
    case Suggestion(id) => ["sg", "host", id]
  }

  function Wire(b: Button): string {
    Join(Fields(b), ":")
  }

  /** `Buffer.byteLength(data, 'utf8')`. */
  function ByteLength(s: string): nat {
    if s == "" then 0
    else (if s[0] < '\U{80}' then 1 else if s[0] < '\U{800}' then 2 else if s[0] < '\U{10000}' then 3 else 4)
         + ByteLength(s[1..])
  }

  /** An encoder: a button that Telegram would refuse is an error, None, when it is built. */
  function Encode(b: Button): Option<string> {
    if ByteLength(Wire(b)) > MAX_BYTES then None else Some(Wire(b))
  }

  // ---------------------------------------------------------------------------------------
  // The parsers, one per protocol.

  datatype Protocol =
    | ChatP | EventP | ReviewP | ReviewEditP | ReportP | DiscoverP | BackP | MyEventsP | DirectP | PolicyP | GuideP
    | GenderP | WalletP | TrustP | SettingP | AdminP | CodeP | BuyP | ProfileFieldP | ChannelP | MenuP | SuggestionP

  function ParseChat(parts: seq<string>): Option<Button> {
    if |parts| == 3 && parts[0] == "chat" && IsPublicId(parts[2]) && parts[1] in CHAT_ACTIONS then
      Some(Chat(parts[1], parts[2]))
    else None
  }

  function ParseEvent(parts: seq<string>): Option<Button> {
    if |parts| == 3 && parts[0] == "ev" && IsPublicId(parts[2]) && parts[1] in EVENT_ACTIONS then
      Some(Event(parts[1], parts[2]))
    else None
  }

  /** `rate` stands for `Number(text)`, reduced to 0 when that is not a rating. */
  function ParseReview(parts: seq<string>, rate: string -> int): Option<Button> {
    if |parts| == 3 && parts[0] == "rv" && IsPublicId(parts[2]) && StartsWith(parts[1], "rate") then
      var rating := rate(parts[1][4..]);
      if 1 <= rating <= 5 then Some(Review(rating, parts[2])) else None
    else None
  }

  function ParseReviewEdit(parts: seq<string>): Option<Button> {
    if |parts| == 3 && parts[0] == "rv" && parts[1] == "edit" && IsPublicId(parts[2]) then Some(ReviewEdit(parts[2]))
    else None
  }

  function ParseReport(parts: seq<string>): Option<Button> {
    if !(|parts| == 3 && parts[0] == "rp" && IsPublicId(parts[2])) then None
    else if StartsWith(parts[1], "ask") then
      if parts[1][3..] in REPORT_TARGETS then Some(ReportAsk(parts[1][3..], parts[2])) else None
    else if parts[1] == "" then None
    else if parts[1][..1] in REPORT_TARGETS && parts[1][1..] in REPORT_REASONS then
      Some(ReportReason(parts[1][..1], parts[1][1..], parts[2]))
    else None
  }

  function ParseWhen(c: char): Option<When> {
    if c == 'a' then Some(AnyTime) else if c == 't' then Some(Today) else if c == 'w' then Some(Week) else None
  }

  function ParseCost(c: char): Option<Cost> {
    if c == 'a' then Some(AnyCost) else if c == 'f' then Some(Free) else None
  }

  /** An absent flag is what every button minted before the flag existed means. */
  function ParsePageFlag(flags: string): Option<int> {
    if |flags| <= 2 then Some(0) else ParsePage(flags[2..3])
  }

  function ParseViewFlag(flags: string): Option<View> {
    if |flags| <= 3 then Some(List)
    else if flags[3] == 'l' then Some(List) else if flags[3] == 'f' then Some(Panel) else None
  }

  function ParseAgeFlag(flags: string): Option<bool> {
    if |flags| <= 4 then Some(false)
    else if flags[4] == 'y' then Some(true) else if flags[4] == 'n' then Some(false) else None
  }

  function ParseFlags(flags: string, categoryId: Option<string>): Option<Filters> {
    if !(2 <= |flags| <= 5) then None
    else
      var when := ParseWhen(flags[0]);
      var cost := ParseCost(flags[1]);
      var page := ParsePageFlag(flags);
      var view := ParseViewFlag(flags);
      var age := ParseAgeFlag(flags);
      if when.Some? && cost.Some? && page.Some? && view.Some? && age.Some? then
        Some(Filters(when.value, cost.value, categoryId, page.value, view.value, age.value))
      else None
  }

  function ParseDiscover(parts: seq<string>): Option<Button> {
    if !(|parts| == 3 && parts[0] == "dc" && (parts[2] == "all" || IsPublicId(parts[2]))) then None
    else
      match ParseFlags(parts[1], if parts[2] == "all" then None else Some(parts[2]))
      case None => None
      case Some(filters) => Some(Discover(filters))
  }

  function ParseBack(parts: seq<string>): Option<Button> {
    if |parts| == 3 && parts[0] == "bk" && parts[1] in BACK_TARGETS && 1 <= |parts[2]| <= 12
       && forall i | 0 <= i < |parts[2]| :: IsDigit(parts[2][i])
    then
      var id := DecimalValue(parts[2]);
      Some(Back(parts[1], if id == 0 then None else Some(id)))
    else None
  }

  /** The pagers of the wallet, the trust ledger and one's own events: the third field is never looked at. */
  function ParsePager(parts: seq<string>, prefix: string): Option<int> {
    if |parts| == 3 && parts[0] == prefix then ParsePage(parts[1]) else None
  }

  function ParseDirect(parts: seq<string>): Option<Button> {
    if |parts| == 3 && parts[0] == "dm" && IsPublicId(parts[2]) && parts[1] in DIRECT_ACTIONS then
      Some(Direct(parts[1], parts[2]))
    else None
  }

  function ParsePolicy(parts: seq<string>): Option<Button> {
    if |parts| == 3 && parts[0] == "pl" && parts[1] in POLICY_DOCS then
      match ParsePage(parts[2])
      case None => None
      case Some(page) => Some(Policy(parts[1], page))
    else None
  }

  /** `/^[a-z0-9_-]{1,40}$/`. */
  predicate IsSlug(s: string) {
    1 <= |s| <= 40 && forall i | 0 <= i < |s| :: 'a' <= s[i] <= 'z' || IsDigit(s[i]) || s[i] == '_' || s[i] == '-'
  }

  function ParseGuide(parts: seq<string>): Option<Button> {
    if parts == [] || parts[0] != "gd" then None
    else if |parts| == 2 && parts[1] == "i" then Some(GuideButton(GuideIndex))
    else if |parts| == 2 && parts[1] == "k" then Some(GuideButton(GuideCommands))
    else if |parts| == 3 && parts[1] == "g" && IsSlug(parts[2]) then Some(GuideButton(GuideSlug(parts[2])))
    else None
  }

  function ParseGender(data: string): Option<Button> {
    if data == "gn:F" then Some(Gender(true)) else if data == "gn:M" then Some(Gender(false)) else None
  }

  function ParseSetting(parts: seq<string>): Option<Button> {
    if |parts| == 3 && parts[0] == "st" && |parts[1]| == 2 && parts[1][..1] in SETTING_LETTERS
       && (parts[1][1] == '0' || parts[1][1] == '1')
    then Some(Setting(parts[1][..1], parts[1][1] == '1'))
    else None
  }

  function ParseAdmin(parts: seq<string>): Option<Button> {
    if !(|parts| == 3 && parts[0] == "ad" && parts[1] in ADMIN_ACTIONS) then None
    else if parts[1] == "list" then (if parts[2] == "x" then Some(Admin("list", None)) else None)
    else if IsPublicId(parts[2]) then Some(Admin(parts[1], Some(parts[2])))
    else None
  }

  function ParseCode(parts: seq<string>): Option<Button> {
    if |parts| == 3 && parts[0] == "cd" && parts[2] == "x" && parts[1] in CODE_KINDS then Some(Code(parts[1])) else None
  }

  function ParseBuy(parts: seq<string>): Option<Button> {
    if |parts| == 3 && parts[0] == "by" && parts[1] == "coins" && parts[2] == "x" then Some(Buy) else None
  }

  function ParseProfileField(parts: seq<string>): Option<Button> {
    if |parts| == 3 && parts[0] == "pf" && parts[2] == "x" && parts[1] in PROFILE_FIELDS then
      Some(ProfileField(parts[1]))
    else None
  }

  function ParseChannel(data: string): Option<Button> {
    if data == "cg:recheck:x" then Some(ChannelRecheck) else None
  }

  /** `/^[a-z0-9_]+$/`, at most 32 characters. */
  predicate IsMenuKey(s: string) {
    1 <= |s| <= 32 && forall i | 0 <= i < |s| :: 'a' <= s[i] <= 'z' || IsDigit(s[i]) || s[i] == '_'
  }

  function ParseMenu(parts: seq<string>): Option<Button> {
    if parts == [] || parts[0] != "mn" then None
    else if |parts| == 2 && parts[1] == "root" then Some(MenuButton(MenuRoot))
    else if !(|parts| == 3 && IsMenuKey(parts[2])) then None
    else if parts[1] == "g" then Some(MenuButton(MenuGroup(parts[2])))
    else if parts[1] == "c" then Some(MenuButton(MenuCommand(parts[2])))
    else None
  }

  function ParseSuggestion(parts: seq<string>): Option<Button> {
    if |parts| == 3 && parts[0] == "sg" && parts[1] == "host" && IsPublicId(parts[2]) then Some(Suggestion(parts[2]))
    else None
  }

  function Paged(page: Option<int>, button: int -> Button): Option<Button> {
    match page case None => None case Some(p) => Some(button(p))
  }

  /** The parser of one protocol, on the data of a tap. */
  function Parse(protocol: Protocol, data: string, rate: string -> int): Option<Button> {
    var parts := Split(data, ':');
    match protocol
    case ChatP => ParseChat(parts)
    case EventP => ParseEvent(parts)
    case ReviewP => ParseReview(parts, rate)
    case ReviewEditP => ParseReviewEdit(parts)
    case ReportP => ParseReport(parts)
    case DiscoverP => ParseDiscover(parts)
    case BackP => ParseBack(parts)
    case MyEventsP => Paged(ParsePager(parts, "mv"), p => MyEvents(p))
    case DirectP => ParseDirect(parts)
    case PolicyP => ParsePolicy(parts)
    case GuideP => ParseGuide(parts)
    case GenderP => ParseGender(data)
    case WalletP => Paged(ParsePager(parts, "wl"), p => Wallet(p))
    case TrustP => Paged(ParsePager(parts, "ts"), p => Trust(p))
    case SettingP => ParseSetting(parts)
    case AdminP => ParseAdmin(parts)
    case CodeP => ParseCode(parts)
    case BuyP => ParseBuy(parts)
    case ProfileFieldP => ParseProfileField(parts)
    case ChannelP => ParseChannel(data)
    case MenuP => ParseMenu(parts)
    case SuggestionP => ParseSuggestion(parts)
  }
}
