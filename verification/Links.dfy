/** `deep-link.ts` and `event-code.ts`: how a link or a command names an activity. */
module Links {
  import opened Text
  import opened CallbackData

  // ---------------------------------------------------------------------------------------
  // `?start=` payloads.

  datatype Action = EventAction | JoinAction | HostAction

  datatype StartLink = StartLink(action: Action, id: string)

  function ActionText(a: Action): string {
    match a case EventAction => "event" case JoinAction => "join" case HostAction => "host"
  }

  /** `[A-Za-z0-9_-]`. */
  predicate IsPayloadChar(c: char) {
    IsWordChar(c) || c == '-'
  }

  /** `START_PAYLOAD`: what Telegram carries. */
  predicate IsStartPayload(s: string) {
    1 <= |s| <= 64 && forall i | 0 <= i < |s| :: IsPayloadChar(s[i])
  }

  /** `encodeStartPayload`; None where it throws. */
  function EncodeStartPayload(a: Action, id: string): Option<string> {
    var payload := ActionText(a) + "_" + id;
    if IsStartPayload(payload) then Some(payload) else None
  }

  function IndexOf(s: string, c: char): (i: nat)
    ensures i <= |s| && c !in s[..i] && (i < |s| ==> s[i] == c)
  {
    if s == "" || s[0] == c then 0
    else
      assert s == [s[0]] + s[1..];
      1 + IndexOf(s[1..], c)
  }

  function ParseAction(s: string): Option<Action> {
    if s == "event" then Some(EventAction) else if s == "join" then Some(JoinAction)
    else if s == "host" then Some(HostAction) else None
  }

  function ParseStartPayload(payload: string): Option<StartLink> {
    var separator := IndexOf(payload, '_');
    if separator == |payload| then None
    else
      var action := ParseAction(payload[..separator]);
      var id := payload[separator + 1..];
      if action.Some? && IsPublicId(id) then Some(StartLink(action.value, id)) else None
  }

  lemma ActionIsPlain(a: Action)
    ensures |ActionText(a)| <= 5 && '_' !in ActionText(a) && ParseAction(ActionText(a)) == Some(a)
    ensures forall i | 0 <= i < |ActionText(a)| :: IsPayloadChar(ActionText(a)[i])
  {
  }

  lemma PublicIdIsPayload(id: string)
    requires IsPublicId(id)
    ensures forall i | 0 <= i < |id| :: IsPayloadChar(id[i])
  {
  }

  lemma IndexOfFirst(a: string, c: char, rest: string)
    requires c !in a
    ensures IndexOf(a + [c] + rest, c) == |a|
  {
    var s := a + [c] + rest;
    assert s[|a|] == c && forall i | 0 <= i < |a| :: s[i] == a[i];
    assert forall i | |a| < i <= |s| :: s[..i][|a|] == c;
  }

  /** A link to a public id is never refused by Telegram, and reads back as what it names. */
  lemma StartPayloadRoundTrip(a: Action, id: string)
    requires IsPublicId(id)
    ensures EncodeStartPayload(a, id).Some?
    ensures ParseStartPayload(EncodeStartPayload(a, id).value) == Some(StartLink(a, id))
  {
    hide IsPayloadChar, IsPublicId;
    ActionIsPlain(a);
    PublicIdIsPayload(id);
    IdLength(id);
    var action := ActionText(a);
    var payload := action + "_" + id;
    Underscore();
    assert forall i | 0 <= i < |payload| :: IsPayloadChar(payload[i]);
    IndexOfFirst(action, '_', id);
    assert payload == action + ['_'] + id;
    assert payload[..|action|] == action && payload[|action| + 1..] == id;
  }

  lemma IdLength(id: string)
    requires IsPublicId(id)
    ensures |id| == 36
  {
  }

  lemma Underscore()
    ensures IsPayloadChar('_')
  {
  }

  /** What is read as a link is exactly what some link to a public id is written as. */
  lemma ParsedPayloadIsEncoded(payload: string)
    requires ParseStartPayload(payload).Some?
    ensures var link := ParseStartPayload(payload).value;
            IsPublicId(link.id) && EncodeStartPayload(link.action, link.id) == Some(payload)
  {
    hide IsPayloadChar, IsPublicId;
    var link := ParseStartPayload(payload).value;
    var separator := IndexOf(payload, '_');
    StartPayloadRoundTrip(link.action, link.id);
    assert payload == payload[..separator] + "_" + payload[separator + 1..];
  }

  // ---------------------------------------------------------------------------------------
  // Campaign tags.

  const CAMPAIGN_START_PREFIX := "src_"

  predicate IsTagText(s: string) {
    forall i | 0 <= i < |s| :: 'a' <= s[i] <= 'z' || IsDigit(s[i]) || s[i] == '_' || s[i] == '-'
  }

  /** `/^[a-z0-9_-]{1,60}$/`. */
  predicate IsTag(s: string) {
    1 <= |s| <= 60 && IsTagText(s)
  }

  /** What is assumed of `toLowerCase`: it leaves such text alone. */
  ghost predicate KeepsTagText(lower: string -> string) {
    forall s | IsTagText(s) :: lower(s) == s
  }

  function NormalizeCampaignTag(raw: string, lower: string -> string): Option<string> {
    var tag := lower(Trim(raw));
    if IsTag(tag) then Some(tag) else None
  }

  function EncodeCampaignPayload(tag: string, lower: string -> string): Option<string> {
    match NormalizeCampaignTag(tag, lower)
    case None => None
    case Some(normalized) => Some(CAMPAIGN_START_PREFIX + normalized)
  }

  function ParseCampaignTag(payload: string, lower: string -> string): Option<string> {
    if StartsWith(lower(payload), CAMPAIGN_START_PREFIX) && |payload| >= 4 then
      NormalizeCampaignTag(payload[4..], lower)
    else None
  }

  lemma TagIsTrimmed(tag: string)
    requires IsTag(tag)
    ensures Trim(tag) == tag
  {
  }

  /** A campaign link carries its tag, Telegram takes it, and no link to an activity is taken for it. */
  lemma CampaignRoundTrip(tag: string, lower: string -> string)
    requires KeepsTagText(lower) && NormalizeCampaignTag(tag, lower).Some?
    ensures var payload := EncodeCampaignPayload(tag, lower).value;
            && ParseCampaignTag(payload, lower) == NormalizeCampaignTag(tag, lower)
            && IsStartPayload(payload)
            && ParseStartPayload(payload) == None
  {
    var normalized := NormalizeCampaignTag(tag, lower).value;
    var payload := CAMPAIGN_START_PREFIX + normalized;
    TagIsTrimmed(normalized);
    assert IsTagText(payload);
    assert payload[4..] == normalized && payload[..4] == CAMPAIGN_START_PREFIX;
    assert payload == "src" + ['_'] + normalized;
    IndexOfFirst("src", '_', normalized);
    assert payload[..3] == "src";
  }

  /** A payload is a campaign's if and only if its first four characters are `src_` in any case and what stands
      behind them is, trimmed and in lower case, a tag: one to sixty letters, digits, `_` or `-`. */
  lemma CampaignIsReadIff(payload: string, tag: string, lower: string -> string)
    requires |lower(payload)| == |payload|
    ensures ParseCampaignTag(payload, lower) == Some(tag) <==>
            && |payload| >= 4 && lower(payload)[..4] == "src_"
            && tag == lower(Trim(payload[4..]))
            && 1 <= |tag| <= 60
            && forall i | 0 <= i < |tag| ::
                 'a' <= tag[i] <= 'z' || '0' <= tag[i] <= '9' || tag[i] == '_' || tag[i] == '-'
  {
  }

  /** What is assumed of `toLowerCase` on text that Telegram carries, which is ASCII. */
  ghost predicate LowersPayloads(lower: string -> string) {
    forall s | (forall i | 0 <= i < |s| :: IsPayloadChar(s[i])) :: lower(s) == Lower(s)
  }

  /** No payload whatsoever is taken for a link to an activity and for a campaign tag. */
  lemma LinkIsNoCampaign(payload: string, lower: string -> string)
    requires LowersPayloads(lower)
    ensures ParseStartPayload(payload).None? || ParseCampaignTag(payload, lower).None?
  {
    hide ParseStartPayload, NormalizeCampaignTag, IsPublicId;
    if ParseStartPayload(payload).Some? {
      LinkLetters(payload);
      assert lower(payload)[0] == LowerChar(payload[0]);
      if StartsWith(lower(payload), CAMPAIGN_START_PREFIX) {
        StartsWithS(lower(payload));
      }
    }
  }

  lemma StartsWithS(s: string)
    requires StartsWith(s, CAMPAIGN_START_PREFIX)
    ensures s[0] == 's'
  {
    assert s[0] == s[..4][0];
  }

  /** What a link to an activity is written in, and how it starts. */
  lemma LinkLetters(payload: string)
    requires ParseStartPayload(payload).Some?
    ensures payload != "" && (payload[0] == 'e' || payload[0] == 'j' || payload[0] == 'h')
    ensures forall i | 0 <= i < |payload| :: IsPayloadChar(payload[i])
  {
    hide IsPublicId;
    ParsedPayloadIsEncoded(payload);
    hide ParseStartPayload;
    var link := ParseStartPayload(payload).value;
    ActionIsPlain(link.action);
    assert payload == ActionText(link.action) + "_" + link.id;
    assert payload[0] == ActionText(link.action)[0];
  }

  // ---------------------------------------------------------------------------------------
  // Activity commands.

  function WithoutDashes(s: string): string {
    if s == "" then "" else (if s[0] == '-' then "" else [s[0]]) + WithoutDashes(s[1..])
  }

  /** `CODE`: ten hexadecimal digits, lower case. */
  predicate IsCode(s: string) {
    |s| == 10 && forall i | 0 <= i < 10 :: IsDigit(s[i]) || 'a' <= s[i] <= 'f'
  }

  function EventCodeOf(publicId: string): Option<string> {
    if !IsPublicId(publicId) then None
    else
      var digits := WithoutDashes(publicId);
      Some(Lower(if |digits| < 10 then digits else digits[..10]))
  }

  function PublicIdPrefixOf(code: string): Option<string> {
    var lowered := Lower(code);
    if IsCode(lowered) then Some(lowered[..8] + "-" + lowered[8..]) else None
  }

  function CodeAfter(command: string, prefix: string): Option<string> {
    var lowered := Lower(command);
    if StartsWith(lowered, prefix) && IsCode(lowered[|prefix|..]) then Some(lowered[|prefix|..]) else None
  }

  const EVENT_COMMAND := "event_"
  const MY_EVENT_COMMAND := "myevent_"

  lemma {:induction false} WithoutDashesPrefix(s: string, k: nat)
    requires k <= |s| && forall i | 0 <= i < k :: s[i] != '-'
    ensures WithoutDashes(s) == s[..k] + WithoutDashes(s[k..])
  {
    if k == 0 {
      assert s[..0] == "" && s[0..] == s;
    } else {
      WithoutDashesPrefix(s[1..], k - 1);
      assert s[1..][k - 1..] == s[k..];
      assert [s[0]] + s[1..][..k - 1] == s[..k];
    }
  }

  /** The code is the id's first eight digits and the next two, the dash between them left out. */
  lemma CodeIsFirstTenDigits(id: string)
    requires IsPublicId(id)
    ensures |WithoutDashes(id)| >= 10 && WithoutDashes(id)[..10] == id[..8] + id[9..11]
  {
    hide WithoutDashes;
    IdDashes(id);
    WithoutDashesPrefix(id, 8);
    var rest := id[8..];
    OneDash(rest);
    var tail := rest[1..];
    assert forall i | 0 <= i < 2 :: tail[i] == id[9 + i];
    WithoutDashesPrefix(tail, 2);
    assert tail[..2] == id[9..11];
  }

  lemma OneDash(s: string)
    requires s != "" && s[0] == '-'
    ensures WithoutDashes(s) == WithoutDashes(s[1..])
  {
  }

  lemma IdDashes(id: string)
    requires IsPublicId(id)
    ensures |id| == 36 && id[8] == '-' && forall i | 0 <= i < 11 && i != 8 :: id[i] != '-' && IsHex(id[i])
  {
  }

  /** From an id to its code and back: the prefix a code stands for is the start of the id it came from,
      in lower case, so looking it up finds that activity. */
  lemma PrefixOfCodeIsPrefixOfId(id: string)
    requires IsPublicId(id)
    ensures EventCodeOf(id).Some? && IsCode(EventCodeOf(id).value)
    ensures PublicIdPrefixOf(EventCodeOf(id).value) == Some(Lower(id)[..11])
  {
    hide WithoutDashes, IsPublicId;
    IdDashes(id);
    CodeIsFirstTenDigits(id);
    var code := EventCodeOf(id).value;
    assert code == Lower(id[..8] + id[9..11]);
    assert Lower(code) == code;
    assert code[..8] + "-" + code[8..] == Lower(id)[..11];
  }

  /** A command opens the activity of a code if and only if it is the command's word followed by that
      code, in whatever case its sender's client wrote it. */
  lemma CommandIffWordAndCode(command: string, prefix: string, code: string)
    ensures CodeAfter(command, prefix) == Some(code) <==> IsCode(code) && Lower(command) == prefix + code
  {
    var lowered := Lower(command);
    assert (prefix + code)[..|prefix|] == prefix && (prefix + code)[|prefix|..] == code;
    assert |lowered| >= |prefix| ==> lowered == lowered[..|prefix|] + lowered[|prefix|..];
  }

  /** No command opens both an activity and one of one's own. */
  lemma CommandsAreToldApart(command: string)
    ensures CodeAfter(command, EVENT_COMMAND).None? || CodeAfter(command, MY_EVENT_COMMAND).None?
  {
    var lowered := Lower(command);
    if StartsWith(lowered, EVENT_COMMAND) {
      assert lowered[0] == lowered[..6][0] == 'e';
    }
    if StartsWith(lowered, MY_EVENT_COMMAND) {
      assert lowered[0] == lowered[..8][0] == 'm';
    }
  }

  // ---------------------------------------------------------------------------------------
  // What travels.

  /** A link names its action and the id. */
  lemma LinkTexts(id: string)
    requires IsPublicId(id)
    ensures EncodeStartPayload(EventAction, id) == Some("event_" + id)
    ensures EncodeStartPayload(JoinAction, id) == Some("join_" + id)
    ensures EncodeStartPayload(HostAction, id) == Some("host_" + id)
  {
    StartPayloadRoundTrip(EventAction, id);
    StartPayloadRoundTrip(JoinAction, id);
    StartPayloadRoundTrip(HostAction, id);
    hide IsPublicId, IsStartPayload;
    assert "event" + "_" + id == "event_" + id;
    assert "join" + "_" + id == "join_" + id;
    assert "host" + "_" + id == "host_" + id;
  }

  /** A campaign names its tag, and a code is the id's first ten digits, in lower case. */
  lemma TagAndCodeTexts(id: string, tag: string, lower: string -> string)
    requires IsPublicId(id)
    ensures IsTag(tag) && KeepsTagText(lower) ==> EncodeCampaignPayload(tag, lower) == Some("src_" + tag)
    ensures EventCodeOf(id) == Some(Lower(id[..8] + id[9..11]))
    ensures EVENT_COMMAND == "event_" && MY_EVENT_COMMAND == "myevent_"
  {
    if IsTag(tag) {
      TagIsTrimmed(tag);
    }
    hide WithoutDashes, IsPublicId, Trim;
    CodeIsFirstTenDigits(id);
  }

  /** What Telegram carries: one to 64 letters, digits, `_` or `-`. */
  lemma StartPayloadIff(s: string)
    ensures IsStartPayload(s) <==>
            1 <= |s| <= 64 && forall i | 0 <= i < |s| ::
              'a' <= s[i] <= 'z' || 'A' <= s[i] <= 'Z' || '0' <= s[i] <= '9' || s[i] == '_' || s[i] == '-'
  {
  }

  /** A payload is refused if and only if Telegram would refuse it: beyond 64 characters, or with a character
      that is not a letter, a digit, `_` or `-`. */
  lemma PayloadIsRefusedIff(a: Action, id: string)
    ensures EncodeStartPayload(a, id).Some? <==>
            var payload := ActionText(a) + "_" + id;
            |payload| <= 64 && forall i | 0 <= i < |payload| ::
              'a' <= payload[i] <= 'z' || 'A' <= payload[i] <= 'Z' || '0' <= payload[i] <= '9'
              || payload[i] == '_' || payload[i] == '-'
  {
  }
}
