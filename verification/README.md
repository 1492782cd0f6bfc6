# Payetam: what its hard logic promises, proved

A Dafny model of the parts of the Payetam monorepo in which something can go wrong that no single
function shows: the pages a policy document is read in, the time-zone arithmetic, the checks on what
people type and upload, the idempotency table, the session of the admin panel, and the strings that
buttons, links and commands carry. `dafny verify dfyconfig.toml` checks everything.

The modules follow the source. An algorithm that the source writes as a loop is a method with the same
loop, proved against a function; a class stands where the source keeps state and updates it; what the
source promises is proved about those functions, over all inputs, or about all histories of a system
whose steps are those methods.

| modules | source |
|---|---|
| `Text`, `Escape`, `Markdown`, `MarkdownBreaks`, `Markup` | `escape.ts`; `flatten` of `policies.ts`; the string operations of ECMA-262 they use |
| `Packing`, `Policies`, `PolicyPages`, `PolicyNesting`, `PolicyRows` | `policies.ts` |
| `MessageFormat`, `MessageScan`, `MessageNesting`, `MessageRules` | `telegram-message.ts` |
| `Calendar`, `CalendarLaws`, `ZonedTime` | `time.ts`, with the calendar of section 21.4.1 of ECMA-262 |
| `Idempotency` | `idempotency.interceptor.ts` |
| `AdminClient` | `api/client.ts` and `stores/session.ts` of the admin panel |
| `CallbackData`, `CallbackLaws`, `CallbackWires`, `DiscoverFilters` | `callback-data.ts`, `discover-filters.ts` |
| `Links` | `deep-link.ts`, `event-code.ts` |
| `Upload`, `UploadRules` | `upload.ts` |
| `Digest`, `SearchFold` | `digest.ts`, `search-fold.ts` |

## Main results

- **Nothing of a policy is lost.** Through sections, fitting and both packings, the ink of the pages in
  order is the ink of the rendered lines in order, if and only if the document needs at most 36 pages
  (`PolicyPages.PaginationKeepsEveryLine`); packing uses the fewest pages there can be
  (`Packing.PackedIsOptimal`), and fills each of them (`Packing.GreedyIffFull`); a page breaks the budget
  only where one single word does (`PolicyPages.PageOverBudgetIsOneWord`); every page is reached by the
  buttons under the pages (`PolicyRows.EveryPageIsReachable`).
- **Lines and paragraphs break where they were written.** Whatever stands above and below, one newline
  between two stretches of text is one newline between their renderings, and any number of empty lines is
  one (`MarkdownBreaks.BreaksAreKept`).
- **What the bot renders, Telegram reads.** The rendered text goes through the model of the very
  check in `telegram-message.ts`: it draws no structural problem if and only if no italic run crosses a
  bold tag (`PolicyNesting.FlattenNestsIff`, `PolicyNesting.PagesNestIff`), which can happen
  (`PolicyNesting.CrossedEmphasis`).
- **The stack machine is the grammar**, in both directions (`MessageNesting.NoStructuralProblemIffNested`),
  and one stray closing tag, one tag of another name, and tags left open each draw exactly the problems that
  name them (`MessageNesting.OneStrayClosingTagIsOneProblem`, `MessageRules.OneUnknownTagIsOneProblem`,
  `MessageRules.LeftOpenAreNamed`).
- **The calendar is a ticking one.** From 1970-01-01 00:00:00 on, for every second before and after, the
  calendar reads one second later what a clock and a calendar page say, months and leap years written out
  (`CalendarLaws.ClockTicks`, `CalendarLaws.MonthLengths`).
- **Wall clocks invert.** For every wall clock of every year and any offset function bounded by `m` with
  at most one transition within `m` of it, `zonedTimeToUtc` finds an instant that reads it if and only if
  there is one, the year is at least 100, and so is the year shown where the offset is read
  (`ZonedTime.ZonedTimeIffOccurs`).
- **Replays are honest**, over every interleaving (`Idempotency.ReplaysAreHonest`). A request is answered
  from the table rather than run if and only if a `create` under its key, before its lookup, left a row
  that outlives its decision (`Idempotency.AnsweredIffLiveRowWasLeft`); two requests of one key both run if
  and only if no such `create` precedes the later lookup (`Idempotency.BothClaimIffNoRowWasLeft`).
- **No GET of the admin panel is answered by a request sent before the last token change that preceded it**
  (`AdminClient.GetsAreServedInTheirSession`). Requests stay deduplicated if and only if no late settlement
  of an earlier token meets a newer entry (`AdminClient.DeduplicatedIff`), and a signed-out panel stays so
  if and only if no earlier `login` or `restore` is still to go on with a session
  (`AdminClient.StaysSignedOutIff`).
- **Twenty-two button protocols** round-trip, fit Telegram's 64 bytes and are never confused
  (`CallbackLaws.ParseEncode`, `EveryButtonFits`, `OnlyOneProtocolAccepts`, `ReparseChangesNothing`); fifteen
  accept a string if and only if one of their buttons carries it (`CallbackWires.AcceptedIffDrawn`).

## Where the code and its comments disagree

The model follows the code.

- `idempotency.interceptor.ts:48` says that concurrent double-taps race to claim a key and exactly one
  wins. Nothing is inserted before the handler runs, so both can run: `OverlappingRequestsBothRun` is such a
  history, and `BothClaimIffNoRowWasLeft` and `AnsweredIffLiveRowWasLeft` say exactly when that happens.
- `idempotency.interceptor.ts:150-151` says that a request that finds an expired row proceeds as new. When
  another request or the sweep has removed that row in the meantime, `delete` throws and the request fails
  (`ExpiredRowFailsTheSecond`); `ClearsTheWayIffNotTaken` is the exact condition.
- `discover-filters.ts:18-21` says that tapping the active choice again clears it. That holds for the age
  switch only; the marked time, cost or category encodes itself (`OnlyTheAgeSwitchClearsItself`).
- `client.ts:63-67` says that an entry is dropped when its own request settles. A request of the previous
  session that settles late drops the entry of its successor (`StaleSettlementDropsNewerEntry`), so an
  identical GET may be sent twice. `DeduplicatedIff` says exactly when that does not happen.
- `client.ts:49-51` and `session.ts:82` speak of forgetting a session. A `restore` or `login` that was sent
  before a sign-out and is answered after it signs the panel back in (`LateRestoreSignsBackIn`).
- `time.ts:128` calls `zonedTimeToUtc` the inverse of `partsIn`. It is, where the wall clock exists and no
  year is taken by `Date.UTC` for one of the twentieth century: a year before 100 never comes back
  (`OldYearsDoNotComeBack`), and an offset is misread where the clock shows one (`OffsetIsRead`).
- The walk in `upload.ts:138-156` does not know the fill bytes that section B.1.1.2 of ITU-T T.81 allows
  before a marker; whatever surrounds them, the size is found if and only if they happen to be a multiple
  of 65537 (`SizeIsFoundIffFillIsJumped`).

## Model

| member | source | states |
|---|---|---|
| `Escape.EscapeHtmlLeavesNoMarkup` | packages/telegram/src/escape.ts:19-21 | an escaped value holds no angle bracket, whatever was typed |
| `Escape.DecodeEscapeHtml` | packages/telegram/src/escape.ts:10-21 | decoding the three entities gives back exactly the value: the order of the replacements double-escapes nothing |
| `Markdown.FlattenLineLead` | packages/telegram/src/policies.ts:85-108 | a blank in front of a line changes nothing about how the line renders |
| `Markdown.FlattenLineTrail` | packages/telegram/src/policies.ts:85-108 | a blank behind a line changes nothing about how the line renders |
| `Markdown.InkFlatten` | packages/telegram/src/policies.ts:85-108 | a rendered text carries the ink of its lines rendered one by one, rules dropped |
| `Markdown.BoldRunRenders` | packages/telegram/src/policies.ts:99 | a bold run holds `x` if and only if `x` is on one line and nothing in it ends the run sooner; it becomes a bold element around `x`, and the text behind it is treated on its own |
| `Markdown.ItalicRunRenders` | packages/telegram/src/policies.ts:100 | an italic run holds `x`, lone asterisks included, if and only if `x` has ink at both edges, nothing in it ends the run sooner, and the run touches no word; it becomes an italic element around `x` |
| `Markdown.HeadingRenders` | packages/telegram/src/policies.ts:90-91 | one to six `#` and a title become the title in bold, its own `**` taken out |
| `Markdown.BulletRenders` | packages/telegram/src/policies.ts:93-94 | `- ` or `* ` at the start of a line becomes a bullet point |
| `MarkdownBreaks.BreaksAreKept` | packages/telegram/src/policies.ts:85-108 | `n` newlines between two stretches of text that meet in ink are one newline between their renderings for `n == 1`, and an empty line for more |
| `MarkdownBreaks.RuleLeavesNoTrace` | packages/telegram/src/policies.ts:87-88 | a horizontal rule between two stretches leaves no trace, not even an empty line |
| `MarkdownBreaks.RuleIff` | packages/telegram/src/policies.ts:87-88 | a rule is three or more asterisks, dashes or underscores, of one kind, and blanks around them |
| `MarkdownBreaks.HashesWithoutRoom` | packages/telegram/src/policies.ts:90-91 | seven `#`, or none before a blank, make no heading: the line is rendered as it stands |
| `MarkdownBreaks.DashWithoutRoom` | packages/telegram/src/policies.ts:93-94 | a dash or an asterisk makes a bullet only before a blank |
| `MarkdownBreaks.PlainLineRenders` | packages/telegram/src/policies.ts:90-100 | a line that starts otherwise is rendered as it stands |
| `MarkdownBreaks.GluedAsteriskIsText` | packages/telegram/src/policies.ts:100 | behind a word character or an asterisk, an asterisk starts no italic run |
| `MarkdownBreaks.AsteriskBeforeBlankIsText` | packages/telegram/src/policies.ts:100 | before a blank it starts none either |
| `MarkdownBreaks.ItalicBehind` | packages/telegram/src/policies.ts:100 | behind any other character it does, if a run follows |
| `Markup.RenderBodyKeepsText` | packages/telegram/src/policies.ts:96-100 | between its tags a rendered line shows the text that was written, asterisks aside, and its tags pair up in number |
| `Markup.FlattenIsBalanced` | packages/telegram/src/policies.ts:85-108 | each angle bracket of a rendered text belongs to `<b>`, `</b>`, `<i>` or `</i>`, each opened as often as closed |
| `Packing.Pack` | packages/telegram/src/policies.ts:170-185 | the loop computes greedy packing |
| `Packing.GreedyIsPaging` | packages/telegram/src/policies.ts:170-185 | the pages are a cut of the non-empty blocks, in order, into runs within the budget or of a single block |
| `Packing.GreedyIsFewest` | packages/telegram/src/policies.ts:169-185 | no such cut has fewer pages |
| `Packing.PackedIsOptimal` | packages/telegram/src/policies.ts:169-185 | `pack` is optimal among all such cuts, and each page is the join of its run |
| `Packing.GreedyIffFull` | packages/telegram/src/policies.ts:170-185 | the pages are those of one cut alone: the one in which no page could take a block more |
| `Packing.InkOfPacked` | packages/telegram/src/policies.ts:170-185 | packing with a white-space joiner keeps all ink, once and in order |
| `Packing.PackedPage` | packages/telegram/src/policies.ts:169-185 | a page that breaks the budget is a single block: packing never splits one |
| `Packing.PagesOverBudgetAreBlocks` | packages/telegram/src/policies.ts:169-185 | the pages over the budget are exactly the blocks over it |
| `Policies.Sections` | packages/telegram/src/policies.ts:123-134 | the loop over the lines groups them into sections |
| `Policies.GroupsCutAtHeadings` | packages/telegram/src/policies.ts:115-132 | the cut is at the `##` headings, all and only those behind some text, and no line is lost |
| `Policies.Fit` | packages/telegram/src/policies.ts:143-167 | the nested loops cut a section between lines, and a line that is too long between words |
| `Policies.PaginatePolicy` | packages/telegram/src/policies.ts:194-201 | the document's sections, fitted, packed and capped |
| `PolicyPages.InkOfSections` | packages/telegram/src/policies.ts:123-134 | the sections hold all the text of the document, in order |
| `PolicyPages.PagesRenderTheDocument` | packages/telegram/src/policies.ts:143-201 | for any document and budget: fragments that together are the document, rendered, are the pages |
| `PolicyPages.PaginationKeepsEveryLine` | packages/telegram/src/policies.ts:187-201 | when every line renders within the budget, pages and rendered lines carry the same text in order if and only if 36 pages are enough |
| `PolicyPages.ChunksAreFull` | packages/telegram/src/policies.ts:153-163 | a line that is too long is never cut before a word that would still have fitted |
| `PolicyPages.ChunksRejoin` | packages/telegram/src/policies.ts:153-163 | the chunks of a line are the line again, its words one space apart, in order |
| `PolicyPages.LongSectionIsCutBetweenLines` | packages/telegram/src/policies.ts:143-167 | the pages of a section that is too long are its rendered pieces, line below line, in the fewest pages that hold them |
| `PolicyPages.FirstPages` | packages/telegram/src/policies.ts:187-201 | the pages are the first 36 of all there are, and one empty page for a document without text |
| `PolicyPages.LinesOfEitherKind` | packages/telegram/src/policies.ts:124 | lines are told apart by newlines, with or without a carriage return |
| `PolicyPages.SectionStarts` | packages/telegram/src/policies.ts:127 | a section starts at exactly two `#` and a blank |
| `PolicyPages.TextIsInk` | packages/telegram/src/policies.ts:127 | lines have text if and only if some character of them is not white space |
| `PolicyPages.PageOverBudgetIsOneWord` | packages/telegram/src/policies.ts:136-185 | a page breaks the budget only when it is one single word that breaks it alone |
| `PolicyPages.PagesOverBudgetAreFragments` | packages/telegram/src/policies.ts:136-185 | the pages over the budget are exactly the separately rendered stretches over it: there is such a page if and only if there is such a stretch |
| `PolicyPages.EveryPageFits` | packages/telegram/src/policies.ts:136-201 | no page breaks the budget when every word of the document renders within it |
| `PolicyPages.UsualPagesLeaveRoom` | packages/telegram/src/policies.ts:51-59 | pages of the usual budget leave 1096 characters of a message for what stands above them |
| `PolicyPages.EveryPageIsBalanced` | packages/telegram/src/policies.ts:194-201 | no page break falls between a tag and its partner |
| `PolicyPages.ShortSectionsStayWhole` | packages/telegram/src/policies.ts:187-201 | when each section fits a page, pages are runs of whole sections |
| `PolicyPages.PageHasInk` | packages/telegram/src/policies.ts:170-201 | no page of a document that has text is blank |
| `PolicyNesting.TokensAreTags` | packages/shared/src/telegram-message.ts:75 | the tag scanner finds exactly the emphasis tags of a rendered text |
| `PolicyNesting.FlattenNestsIff` | packages/telegram/src/policies.ts:96-108 | a rendered text draws no structural problem from the Telegram check if and only if no italic run of a line crosses a bold tag |
| `PolicyNesting.CrossedEmphasis` | packages/telegram/src/policies.ts:99-100 | a line that renders as mis-nested HTML |
| `PolicyNesting.PackedIsCleanIff` | packages/telegram/src/policies.ts:169-185 | packing neither tears an element apart nor mends one: pages nest exactly when blocks do |
| `PolicyNesting.PagesNestIff` | packages/telegram/src/policies.ts:123-201 | through sections, fitting and both packings, all pages nest properly if and only if no italic run crosses a bold tag in anything rendered on its own |
| `PolicyRows.PolicyPageRows` | packages/telegram/src/policies.ts:229-255 | the rows under a page: the way through, the way back, the acceptance |
| `PolicyRows.PolicyRoundTrip` | packages/telegram/src/callback-data.ts:773-789 | a policy button reads as the document and the page, clamped, that it was drawn for |
| `PolicyRows.NextLeadsOnIff` | packages/telegram/src/policies.ts:239-241 | «next» names the next page if and only if that page has a letter |
| `PolicyRows.RowsLeadToNeighbours` | packages/telegram/src/policies.ts:229-255 | under every page of every paginated document, «next» and «previous» are there exactly when they should be and name exactly p+1 and p-1 |
| `PolicyRows.RowsLayout` | packages/telegram/src/policies.ts:229-255 | which rows there are, in which order: paging with next before previous, the way back to the documents, the acceptance on every page |
| `PolicyRows.EveryPageIsReachable` | packages/telegram/src/policies.ts:187-255 | every page is reached from the first by tapping, and the first from every page |
| `MessageFormat.JudgeAttributes` | packages/shared/src/telegram-message.ts:121-138 | the inner loop draws the problems of one tag's attributes, in order |
| `MessageFormat.JudgeTokens` | packages/shared/src/telegram-message.ts:99-139 | the loop with its stack draws the problems of the tags, in order, and leaves the open ones |
| `MessageFormat.ValidateTelegramMessage` | packages/shared/src/telegram-message.ts:84-144 | every problem in order, and ok exactly when there is none |
| `MessageScan.TokensOfPrinted` | packages/shared/src/telegram-message.ts:74-103 | the tag pattern reads back exactly the tags that were written into a text, in whatever case and with blanks before or after the slash |
| `MessageScan.AttributesOfPrinted` | packages/shared/src/telegram-message.ts:76 | the attribute pattern reads back exactly the attributes that were written into a tag, in whatever case, quotes and spacing |
| `MessageNesting.StructureOfMarkup` | packages/shared/src/telegram-message.ts:99-143 | attributes never influence the verdict on structure |
| `MessageNesting.NestedRunsClean` | packages/shared/src/telegram-message.ts:99-143 | nested markup leaves the stack as it was and draws no problem |
| `MessageNesting.CleanRunIsNested` | packages/shared/src/telegram-message.ts:99-143 | a run without problems is nested markup, and the proof builds the tree |
| `MessageNesting.NoStructuralProblemIffNested` | packages/shared/src/telegram-message.ts:99-143 | no tag, nesting or unclosed problem if and only if all tags are allowed and form nested markup |
| `MessageNesting.ClosedEarly` | packages/shared/src/telegram-message.ts:110-119 | after an element was closed early, the rest has exactly one closing tag too many |
| `MessageNesting.OneStrayClosingTagIsOneProblem` | packages/shared/src/telegram-message.ts:110-119 | recovery does not cascade: one stray closing tag anywhere is one problem |
| `MessageNesting.AcceptedIffWellFormed` | packages/shared/src/telegram-message.ts:84-144 | exactly which HTML bodies are accepted |
| `MessageRules.FourteenTags` | packages/shared/src/telegram-message.ts:45-62 | which fourteen tags are allowed, by name |
| `MessageRules.LinkRule` | packages/shared/src/telegram-message.ts:126-132 | an `href` of `a` draws no problem if and only if it is `https://` and at least one character, none of them white space or a quote; any other draws its first 120 characters |
| `MessageRules.AttributeRule` | packages/shared/src/telegram-message.ts:121-138 | `class` may stand on `pre` with any value; no other attribute may stand anywhere |
| `MessageRules.NoProblemIffAllMayStand` | packages/shared/src/telegram-message.ts:121-138 | a tag draws no problem if and only if each of its attributes may stand there, an `href` on `a` with an https link or a `class` on `pre` |
| `MessageRules.HtmlRule` | packages/shared/src/telegram-message.ts:90-97 | an HTML body has the faults of plain text first, blank or too long, and then those of its markup |
| `MessageRules.AcceptedIff` | packages/shared/src/telegram-message.ts:84-144 | exactly which HTML bodies are accepted, down to names, links and lengths |
| `MessageRules.OneUnknownTagIsOneProblem` | packages/shared/src/telegram-message.ts:104-109 | one tag of another name put anywhere into nested markup draws the one problem that names it |
| `MessageRules.LeftOpenAreNamed` | packages/shared/src/telegram-message.ts:141-143 | tags that are opened and never closed, with nested markup in between, are each reported once, the outermost first |
| `MessageNesting.EscapedIsAlwaysAccepted` | packages/telegram/src/escape.ts:1-21 | escaped text never draws a markup problem |
| `Calendar.SecondsOfParts` | packages/domain/src/time.ts:74-88 | counting the seconds of a wall clock inverts reading it |
| `Calendar.PartsOfSeconds` | packages/domain/src/time.ts:54-88 | reading a wall clock inverts counting its seconds |
| `CalendarLaws.MonthLengths` | packages/domain/src/time.ts:151-154 | in every year, the first of the next month is 31, 30, 29 or 28 days later, the months and the leap rule written out |
| `CalendarLaws.UtcCounts` | packages/domain/src/time.ts:151-154 | `Date.UTC` counts months by those lengths, days by 86400000 milliseconds, and hours, minutes and seconds, from the year 100 on |
| `CalendarLaws.EpochReads` | packages/domain/src/time.ts:54-88 | 0 reads midnight on 1 January 1970 |
| `CalendarLaws.ClockTicks` | packages/domain/src/time.ts:54-88 | for every second, the wall clock one second later is the ticked one: with `EpochReads` this determines every reading |
| `ZonedTime.OffsetIsRead` | packages/domain/src/time.ts:73-88 | the offset is read correctly if and only if the clock shows a year from 100 on |
| `ZonedTime.OffsetsAreReadFrom101` | packages/domain/src/time.ts:143-155 | for a wall clock of a year from 101 on, both readings of `zonedTimeToUtc` are correct |
| `ZonedTime.ZonedTimeIffOccurs` | packages/domain/src/time.ts:126-155 | for all wall clocks and offsets under `m`, with one transition within `m`: the result reads the given wall clock if and only if that wall clock exists, its year is at least 100 and both offsets are read there |
| `ZonedTime.OldYearsDoNotComeBack` | packages/domain/src/time.ts:151-154 | a wall clock of a year before 100 never comes back, whatever the zone |
| `ZonedTime.MisreadOffsetsMislead` | packages/domain/src/time.ts:74-88 | in the first days of the year 100, an offset read in the year 99 always misleads |
| `ZonedTime.FixedOffsetZonedTime` | packages/domain/src/time.ts:133-155 | for a fixed offset every wall clock comes back, except exactly those whose year or whose reading is before the year 100 |
| `ZonedTime.StartOfDayIffMidnightStrikes` | packages/domain/src/time.ts:108-124 | where both dates are read alike, `startOfDayIn` gives that date at 00:00:00, not in the future, if and only if midnight strikes that day; where they are not, from the year 2 on, it never does |
| `ZonedTime.ReadsAlikeWhen` | packages/domain/src/time.ts:118-123 | they are from the year 101 on, in the years 2 to 98, and wherever the offset has not changed |
| `ZonedTime.UnlikeReadingsMislead` | packages/domain/src/time.ts:118-123 | from the year 2 on, where they are not, the answer is in another year |
| `ZonedTime.WrongYearIsHitByAccident` | packages/domain/src/time.ts:118-123 | in the year 1 they can be unlike and the answer, a year off, still shows the right midnight |
| `ZonedTime.StartOfDayAgreesIffMidnightStrikesOnce` | packages/domain/src/time.ts:108-124 | all instants of a local day agree if and only if midnight does not strike twice |
| `ZonedTime.DayReadsAlike` | packages/domain/src/time.ts:118-123 | in those years a whole local day is read alike |
| `ZonedTime.StartOfDayIsStable` | packages/domain/src/time.ts:108-124 | the start of a day is its own start of day |
| `ZonedTime.ForwardSkips` | packages/domain/src/time.ts:111-116 | a zone with a wall clock that never occurs and a day without midnight |
| `ZonedTime.BackRepeats` | packages/domain/src/time.ts:111-116 | a zone in which midnight strikes twice and a day has two starts |
| `Idempotency.InvIsKept` | apps/api/src/common/idempotency.interceptor.ts:138-221 | every step keeps the table sound: rows and replays stand for successful runs, ids are fresh |
| `Idempotency.InvHolds` | apps/api/src/common/idempotency.interceptor.ts:138-221 | so every world of every history is sound |
| `Idempotency.LiveRowStays` | apps/api/src/common/idempotency.interceptor.ts:149-154 | no step removes or changes a row that has not expired: deletion is by the id of a row seen expired |
| `Idempotency.LiveRowIsKept` | apps/api/src/common/idempotency.interceptor.ts:149-154 | nor does any stretch of any history |
| `Idempotency.ReplaysAreHonest` | apps/api/src/common/idempotency.interceptor.ts:156-178 | a replay is the status and body of a successful run of the same user, key, method, path and body, less than a day old |
| `Idempotency.LookupSettles` | apps/api/src/common/idempotency.interceptor.ts:138-179 | what was stored when a request looked decides what it does, whatever happens in between |
| `Idempotency.StoredRowAnswersLaterRequests` | apps/api/src/common/idempotency.interceptor.ts:138-179 | after a row is stored, a later request with its user and key, while the row lives, gets that row's status and body if and only if its method, path and body are those of the row, is refused otherwise, and never runs the handler |
| `Idempotency.SuccessBecomesTheRow` | apps/api/src/common/idempotency.interceptor.ts:187-220 | a 2xx answer becomes the row of its user and key, for a day from the answer, and an earlier row stays as it is |
| `Idempotency.FailureEndsThere` | apps/api/src/common/idempotency.interceptor.ts:187-198 | any other answer, and a throw, ends the request there |
| `Idempotency.PathIsKept` | apps/api/src/common/idempotency.interceptor.ts:181-185 | a path is compared by its first 255 characters |
| `Idempotency.HeaderReads` | apps/api/src/common/idempotency.interceptor.ts:113-122 | which text of a header is which key: blanks around it mean nothing, blanks alone are no key, and over 200 characters is too long |
| `Idempotency.AnsweredIffLiveRowWasLeft` | apps/api/src/common/idempotency.interceptor.ts:138-220 | a request is replayed or refused if and only if a `create` under its key, before its lookup, left a row that outlives its decision |
| `Idempotency.BothClaimIffNoRowWasLeft` | apps/api/src/common/idempotency.interceptor.ts:48-50 | while no row of their key has expired, two requests both go on to run if and only if no such `create` precedes the later of their lookups |
| `Idempotency.RowComesFromCreate` | apps/api/src/common/idempotency.interceptor.ts:198-211 | every row in every history goes back to the `create` that put it there |
| `Idempotency.ClearsTheWayIffNotTaken` | apps/api/src/common/idempotency.interceptor.ts:149-154 | a request that saw an expired row goes on as new if and only if no `delete` or sweep took that row between its lookup and its own `delete`; otherwise it fails |
| `Idempotency.CreateLeavesARow` | apps/api/src/common/idempotency.interceptor.ts:198-220 | after a `create`, won or lost, a row is there |
| `Idempotency.FailureStoresNothing` | apps/api/src/common/idempotency.interceptor.ts:43-44 | the step in which a run fails leaves the table alone and ends its request |
| `Idempotency.RowsAreHonest` | apps/api/src/common/idempotency.interceptor.ts:43-44 | in every history, every stored row stands for a successful run of the very request it is keyed by: a failed run is never replayable |
| `Idempotency.OverlappingRequestsBothRun` | apps/api/src/common/idempotency.interceptor.ts:48-50 | two overlapping requests with one key both run; the first answer is the one kept |
| `Idempotency.ExpiredRowFailsTheSecond` | apps/api/src/common/idempotency.interceptor.ts:149-154 | of two requests that meet one expired row, the first runs and the second fails |
| `Idempotency.QueryIsNoIdentity` | apps/api/src/common/idempotency.interceptor.ts:181-185 | requests for one path are the same request, whatever their queries |
| `Idempotency.Interceptor.Intercept` | apps/api/src/common/idempotency.interceptor.ts:62-122 | a key that is too long is refused, a request without a key or a user goes round the table, and any other enters with its trimmed key and shortened path |
| `Idempotency.Interceptor.FindUnique` | apps/api/src/common/idempotency.interceptor.ts:143-145 | the lookup takes a snapshot and touches nothing else |
| `Idempotency.Interceptor.ReplayOrClaim` | apps/api/src/common/idempotency.interceptor.ts:147-179 | the decision on the snapshot: claim, clear an expired row, refuse or replay |
| `Idempotency.Interceptor.DeleteExpired` | apps/api/src/common/idempotency.interceptor.ts:149-154 | exactly the row of that id goes; when it is already gone the request fails |
| `Idempotency.Interceptor.Store` | apps/api/src/common/idempotency.interceptor.ts:187-198 | a success goes on to be stored for a day, anything else does not |
| `Idempotency.Interceptor.CreateRow` | apps/api/src/common/idempotency.interceptor.ts:198-220 | one row per user and key, under a fresh id; a lost race changes nothing |
| `Idempotency.Interceptor.SweepExpired` | packages/domain/src/privacy/retention.service.ts:223 | the retention sweep removes the rows that had expired when it began |
| `AdminClient.InvIsKept` | apps/admin/src/api/client.ts:105-117 | every step keeps the in-flight map fresh and the session consistent |
| `AdminClient.InvHolds` | apps/admin/src/api/client.ts:47-117 | so every state of every history is |
| `AdminClient.GetsAreServedInTheirSession` | apps/admin/src/api/client.ts:47-52 | no GET is answered by a request sent before the last token change that preceded it, or for another URL |
| `AdminClient.OnlyIdenticalGetsAreShared` | apps/admin/src/api/client.ts:54-71 | callers share an answer only for the identical URL in one session, and never a mutation |
| `AdminClient.SignedOutCannotMutate` | apps/admin/src/stores/session.ts:28-37 | signed out means no token and no mutation right, and the right is always the token |
| `AdminClient.UnauthorizedSignsOut` | apps/admin/src/api/client.ts:145-151 | a 401 signs the panel out before its caller hears of it |
| `AdminClient.GetJoinsOrIsSent` | apps/admin/src/api/client.ts:105-117 | a GET waits for the request that is out for its URL, if there is one, and otherwise for one sent for it, without a token |
| `AdminClient.MutationIsSent` | apps/admin/src/api/client.ts:119-128 | a mutation is always sent, with the token of the moment, and is never there to be joined |
| `AdminClient.SettlingTouchesNoSession` | apps/admin/src/api/client.ts:105-117 | settling changes what is known of the request and, for a GET, the entry of its URL, and nobody's session |
| `AdminClient.LogoutSignsOut` | apps/admin/src/stores/session.ts:98-106 | after `logout`, whatever came of its request or if none could be sent, session and token are gone and nothing is in flight |
| `AdminClient.LoginSignsIn` | apps/admin/src/stores/session.ts:52-67 | a `login` that succeeds leaves its session, token and the right to mutate; one that fails changes nothing |
| `AdminClient.RestoreBringsBack` | apps/admin/src/stores/session.ts:69-80 | a `restore` brings the session back, with the right exactly if it brings a token; one that fails signs out; the router may go on either way |
| `AdminClient.ResumingMarks` | apps/admin/src/stores/session.ts:52-106 | whoever goes on is marked and nobody else, and a screen changes nothing |
| `AdminClient.StaleSettlementDropsNewerEntry` | apps/admin/src/api/client.ts:112-114 | a late settlement of an earlier session drops the newer entry: two identical GETs at once |
| `AdminClient.StaysDeduplicatedIff` | apps/admin/src/api/client.ts:105-117 | a step keeps every GET that is out the entry of its URL if and only if it is not such a settlement |
| `AdminClient.DeduplicatedIff` | apps/admin/src/api/client.ts:54-71 | a history is deduplicated throughout if and only if no such settlement happens in it, and then no two GETs of one URL and session are out together |
| `AdminClient.StaysSignedOutIff` | apps/admin/src/stores/session.ts:52-106 | a signed-out panel stays signed out until somebody asks to sign in if and only if no earlier `login` or `restore` is still to go on with a session |
| `AdminClient.LateAnswerSignsIn` | apps/admin/src/stores/session.ts:52-80 | any such call that is left over can sign the panel back in, in at most two steps |
| `AdminClient.LateRestoreSignsBackIn` | apps/admin/src/stores/session.ts:69-80 | the history in which a `restore` answered after a sign-out does |
| `AdminClient.Tab.SetCsrfToken` | apps/admin/src/api/client.ts:47-52 | a token change empties the in-flight map |
| `AdminClient.Tab.ClearSession` | apps/admin/src/stores/session.ts:82-87 | the tab forgets session, right and token |
| `AdminClient.Tab.Request` | apps/admin/src/api/client.ts:105-117 | a GET joins the request in flight for its URL or becomes it; a mutation is always sent |
| `AdminClient.Tab.ReceiveUnauthorized` | apps/admin/src/stores/session.ts:114-117 | the 401 handler clears the session and ends the wait for it |
| `AdminClient.Tab.SettleRequest` | apps/admin/src/api/client.ts:112-114 | settling drops whatever entry the URL has by now |
| `AdminClient.Tab.Continue` | apps/admin/src/stores/session.ts:52-106 | what `login`, `restore` and `logout` do with the outcome, a failed `restore` or `logout` included |
| `CallbackLaws.EveryButtonFits` | packages/telegram/src/callback-data.ts:46-72 | every button is within Telegram's 64 bytes, so no encoder throws |
| `CallbackLaws.WireSplits` | packages/telegram/src/callback-data.ts:63-82 | no field holds the separator |
| `CallbackLaws.ParseEncode` | packages/telegram/src/callback-data.ts:63-1309 | each of the 22 parsers inverts its encoder |
| `CallbackLaws.OnlyOneProtocolAccepts` | packages/telegram/src/callback-data.ts:63-1309 | any string whatsoever is accepted by at most one protocol, rating and edit of `rv:` included |
| `CallbackLaws.AcceptedIsButton` | packages/telegram/src/callback-data.ts:63-1309 | whatever is accepted names a button that the bot draws |
| `CallbackLaws.ReparseChangesNothing` | packages/telegram/src/callback-data.ts:63-1309 | writing an accepted tap in today's shape and reading it again changes nothing |
| `CallbackLaws.FlagsRoundTrip` | packages/telegram/src/callback-data.ts:517-576 | the five flags of a search come back |
| `CallbackLaws.OldShapesStillParse` | packages/telegram/src/callback-data.ts:542-576 | a whole payload of an older release, with two, three or four flags, parses to the first page, the list and no age filter |
| `CallbackLaws.DecimalRoundTrip` | packages/telegram/src/callback-data.ts:612-640 | a message id comes back from its decimal digits |
| `CallbackWires.AcceptedIffDrawn` | packages/telegram/src/callback-data.ts:63-1309 | fifteen protocols accept a string if and only if it is what one of their buttons carries |
| `CallbackWires.LooseShapes` | packages/telegram/src/callback-data.ts:279-640 | exactly which strings are read as a rating and as a way back, and which shapes a search can have |
| `CallbackWires.ThirdFieldIsIgnored` | packages/telegram/src/callback-data.ts:63-1309 | of what the pagers and settings accept, the first two fields are those of the button |
| `CallbackWires.SearchWire` | packages/telegram/src/callback-data.ts:531-540 | the wire of a search, letter by letter |
| `CallbackWires.PagedWires` | packages/telegram/src/callback-data.ts:517-529 | the wires of the buttons that page, with the one character that each page travels as |
| `CallbackWires.PolicyWire` | packages/telegram/src/callback-data.ts:773-777 | the wire of a page of a document |
| `CallbackWires.PagesAreCut` | packages/telegram/src/callback-data.ts:517-529 | a page before the first travels as the first, and one beyond 35 as 35 |
| `CallbackWires.SubjectWires` | packages/telegram/src/callback-data.ts:63-72 | the wires of buttons about a person, an activity, a message or a case |
| `CallbackWires.ReportWires` | packages/telegram/src/callback-data.ts:301-395 | the wires of a review to edit, a report and a suggestion |
| `CallbackWires.NumberedWires` | packages/telegram/src/callback-data.ts:271-278 | the wires of a rating and of the way back |
| `CallbackWires.OpeningWires` | packages/telegram/src/callback-data.ts:809-820 | the wires that open a guide or a menu |
| `CallbackWires.SettingWires` | packages/telegram/src/callback-data.ts:1005-1008 | the wires of a setting, a code and a profile field |
| `CallbackWires.EventActionsAre` | packages/telegram/src/callback-data.ts:114-216 | what a tap on an activity can ask for, by name |
| `CallbackWires.ActionsAre` | packages/telegram/src/callback-data.ts:348-359 | the targets and reasons of a report, and the actions of the other protocols, by name |
| `CallbackWires.EncodesIff` | packages/telegram/src/callback-data.ts:63-72 | an encoder throws exactly over 64 bytes of UTF-8 |
| `CallbackWires.LettersAre` | packages/telegram/src/callback-data.ts:983-998 | the letters of a setting, and those of the other protocols |
| `CallbackWires.KeysAre` | packages/telegram/src/callback-data.ts:807-840 | what the keys of a guide and a menu are written in |
| `CallbackWires.PublicIdIff` | packages/telegram/src/callback-data.ts:49 | a public id is five groups of hexadecimal digits |
| `DiscoverFilters.DiscoverCategoryRows` | packages/telegram/src/discover-filters.ts:97-117 | «all» first, then the catalogue, three per row |
| `DiscoverFilters.DiscoverPageRow` | packages/telegram/src/discover-filters.ts:208-231 | next, position and previous, each only where it leads somewhere |
| `DiscoverFilters.EveryButtonKeepsItsPromise` | packages/telegram/src/discover-filters.ts:50-231 | every button drawn parses, resets the page when it changes a filter, and keeps every other field |
| `DiscoverFilters.EverySearchIsSixTapsAway` | packages/telegram/src/discover-filters.ts:50-177 | from any search any other is reached in at most six taps, the age switch included when the age is known |
| `DiscoverFilters.OnlyTheAgeSwitchClearsItself` | packages/telegram/src/discover-filters.ts:16-22 | what tapping a marked choice again reads as: the same search from its first page, except that the age switch goes off |
| `DiscoverFilters.ScreenLayout` | packages/telegram/src/discover-filters.ts:97-231 | which rows there are on the panel and the list, in which order, and the position counted from one |
| `DiscoverFilters.FilterLayout` | packages/telegram/src/discover-filters.ts:50-88 | the three times in one row, the two costs in the next, the age switch in its own when the age is known |
| `DiscoverFilters.CategoryLayout` | packages/telegram/src/discover-filters.ts:97-117 | «all» first, then the catalogue in its order |
| `DiscoverFilters.MarkedIff` | packages/telegram/src/discover-filters.ts:50-177 | a button is marked if and only if it is the choice in force |
| `DiscoverFilters.CountIs` | packages/telegram/src/discover-filters.ts:180-187 | each of the time, the cost, the category and the age that is set counts one |
| `DiscoverFilters.NextPageLeadsOnIff` | packages/telegram/src/discover-filters.ts:213-218 | «next» names the next page if and only if that page has a letter |
| `Links.StartPayloadRoundTrip` | packages/telegram/src/deep-link.ts:65-112 | a link to a public id is never refused and reads back as what it names |
| `Links.ParsedPayloadIsEncoded` | packages/telegram/src/deep-link.ts:103-112 | what is read as a link is exactly what that link is written as |
| `Links.CampaignRoundTrip` | packages/telegram/src/deep-link.ts:119-140 | a campaign tag comes back, Telegram takes its link, and it is no link to an activity |
| `Links.CampaignIsReadIff` | packages/telegram/src/deep-link.ts:135-138 | exactly which payloads are read as which campaign tag |
| `Links.PayloadIsRefusedIff` | packages/telegram/src/deep-link.ts:65-80 | a payload is refused if and only if it has more than 64 characters, or one that is no letter, digit, `_` or `-` |
| `Links.StartPayloadIff` | packages/telegram/src/deep-link.ts:115-117 | what Telegram carries: one to 64 letters, digits, `_` or `-` |
| `Links.LinkTexts` | packages/telegram/src/deep-link.ts:65-75 | which text each kind of link is |
| `Links.TagAndCodeTexts` | packages/telegram/src/event-code.ts:42-81 | which text a campaign and a code are: the id's first ten digits, in lower case |
| `Links.LinkIsNoCampaign` | packages/telegram/src/deep-link.ts:103-140 | no payload whatsoever is read both as a link and as a campaign tag |
| `Links.PrefixOfCodeIsPrefixOfId` | packages/telegram/src/event-code.ts:63-81 | the prefix that an id's code stands for is the start of that id |
| `Links.CommandIffWordAndCode` | packages/telegram/src/event-code.ts:98-119 | a command opens a code if and only if it is the word and the code, in whatever case |
| `Links.CommandsAreToldApart` | packages/telegram/src/event-code.ts:48-119 | no command opens both an activity and one of one's own |
| `Upload.DecodeAscii` | packages/shared/src/upload.ts:161-165 | the loop maps each byte to the character of its number |
| `Upload.ReadDimensions` | packages/shared/src/upload.ts:121-159 | on any bytes the walk ends and every read is in bounds |
| `Upload.FrameHeaderIsFound` | packages/shared/src/upload.ts:138-156 | after any segments, a frame header's width and height are returned, not swapped |
| `Upload.SizeIsFoundIffFillIsJumped` | packages/shared/src/upload.ts:138-156 | with fill bytes before the marker and anything around them, the header's size, whichever it is, is returned if and only if the fill bytes are a multiple of 65537 |
| `Upload.FilledSizeIsIgnored` | packages/shared/src/upload.ts:138-156 | with almost any other number of them the result does not depend on the header's size at all |
| `Upload.FrameIsFoundIffNoFill` | packages/shared/src/upload.ts:138-156 | in any single stream the header is found behind a multiple of 65537 fill bytes, and in one that ends within 48 KB only behind none |
| `Upload.ContainsDocumentMarker` | packages/shared/src/upload.ts:116-119 | true if and only if one of the markers stands somewhere in the whole buffer |
| `Upload.MarkerIsFoundAnywhere` | packages/shared/src/upload.ts:52-66 | wherever and in whatever case a marker is written, it is found |
| `Upload.ValidateUpload` | packages/shared/src/upload.ts:68-102 | exactly which bytes are accepted, as which format, and which refusal the others get |
| `Upload.OversizedFrameIsRefused` | packages/shared/src/upload.ts:74-102 | a JPEG without fill bytes, unless too long or with a document marker, is refused as too large exactly when its header says more than 4096 either way, and otherwise accepted |
| `UploadRules.SniffIff` | packages/shared/src/upload.ts:45-114 | which first bytes are a JPEG, a PNG and a WebP |
| `UploadRules.OversizedPngIsRefused` | packages/shared/src/upload.ts:68-136 | a PNG, unless too long or with a document marker, is refused as too large exactly when it states more than 4096 either way, and otherwise accepted |
| `UploadRules.FrameMarkersAre` | packages/shared/src/upload.ts:144-146 | the frame headers that carry a size are SOF0 to SOF3 and SOF5 to SOF7 |
| `UploadRules.HasMarkerIff` | packages/shared/src/upload.ts:52-66 | the six document markers, in any case, anywhere |
| `UploadRules.SvgIsRefused` | packages/shared/src/upload.ts:74-102 | blanks and `<svg` in any case are refused as SVG |
| `UploadRules.XmlSvgIsRefused` | packages/shared/src/upload.ts:74-102 | and so is an XML declaration with `<svg` within the first kilobyte |
| `UploadRules.SizeRule` | packages/shared/src/upload.ts:74-80 | nothing at all, and over 5242880 bytes, is refused for just that |
| `Digest.BuildDigest` | packages/telegram/src/digest.ts:63-95 | the message is the heading, the entries shown and the tail; the entries shown are a longest fitting prefix |
| `Digest.KeptIsLongest` | packages/telegram/src/digest.ts:67-77 | no longer prefix of the first twenty fits the budget |
| `Digest.DigestReads` | packages/telegram/src/digest.ts:63-95 | the title in bold, the entries shown in order, each under an empty line, and how many are left out |
| `Digest.KeptWithin` | packages/telegram/src/digest.ts:67-77 | of title and entries as they will stand: at most twenty, more than one only within 3500 characters, and one more would be over |
| `Digest.DigestFitsTelegramIff` | packages/telegram/src/digest.ts:13-21 | the message stays under 4096 if and only if heading and first entry are within the budget, or over it and under 4096 with the tail |
| `Digest.AnnouncedIsTheRest` | packages/telegram/src/digest.ts:59-62 | the Persian number in the tail, read back, plus what is shown is the total |
| `SearchFold.TidyIsTidy` | packages/shared/src/search-fold.ts:54-71 | each stage keeps the normal form of the earlier ones |
| `SearchFold.FoldIsIdempotent` | packages/shared/src/search-fold.ts:48-74 | folding a folded string changes nothing |
| `SearchFold.StoredFoldedIsTheSame` | packages/shared/src/search-fold.ts:76-80 | a search over names stored folded finds exactly what a search over the raw names finds |
| `SearchFold.TypingHabits` | packages/shared/src/search-fold.ts:32-71 | an Arabic letter is found as its Persian counterpart, a zero-width non-joiner as a space, and the other invisible characters as if they were not there |
| `SearchFold.FoldTable` | packages/shared/src/search-fold.ts:32-46 | which letter is folded to which |
| `SearchFold.SpacesAreOne` | packages/shared/src/search-fold.ts:54-71 | white space of any kind, and any amount of it, is one space |
| `SearchFold.LeadingSpaceIsNothing` | packages/shared/src/search-fold.ts:54-71 | white space in front of a name is nothing |
| `SearchFold.FoldedIsLower` | packages/shared/src/search-fold.ts:54-71 | whatever was typed, what it folds to is tidy and in lower case |
| `SearchFold.TidyNameIsLowered` | packages/shared/src/search-fold.ts:54-71 | a name without such habits folds to its lower case and nothing else |
| `SearchFold.FoundIffPart` | packages/shared/src/search-fold.ts:76-80 | of folded texts, one is found in another if and only if it stands there |

## Left out

What the model abstracts from:

- Characters: a `char` is a Unicode scalar value, so a character beyond the basic plane counts one in lengths and budgets here and two in the source, and a lone surrogate cannot be written.
- `Intl`: a zone is any function from instants to whole-second offsets; formatting and the `formatters` cache in `time.ts` are not part of this model, instants have no bounds, and there is no Invalid Date.
- `toLowerCase`: ASCII in scanners and parsers, Latin-1 in the upload check; in `SearchFold` any character-wise function with the properties `IsLowerCasing` states, so the final sigma and letters outside the basic plane are not captured.
- Unicode normalization: `foldForSearch` is modelled after its NFC step.
- `Number(text)` in the rating parser: any function that reads the five ratings.
- SHA-256 and JSON text: a body is its fingerprint, a response is its serialized string.
- Headers: `keyOf` is modelled from the first value of the header on; picking it out of the request is not.
- `pathOf`: the path that a row is compared by is cut at the query and after 255 characters, as in the source, so two longer paths that agree so far count as one.
- `resolveInternalId`: the user of a request is already the internal one.
- Prisma, Redis, Nest, Pinia and Vue wiring: a database call is one atomic step on a map with one row per user and key.
- `LoseCreate` in `Idempotency`: any other failure of `create` is modelled as leaving the table alone; a write that happened although its answer was lost is not.
- `toQuery` and `URLSearchParams`: the URL of a request is its path with its query.
- The body of an answer: in `AdminClient` a login that succeeds answers with an account and a token, and other answers are not looked into.

What a statement above does not cover:

- ZonedTime.ZonedTimeIffOccurs: is for offsets under a day, as those of all zones are, and transitions at whole seconds.
- ZonedTime.StartOfDayIffMidnightStrikes: has the same conditions; before the year 2, where the two dates are not read alike, it promises nothing, because the year before Christ that shows the same number can be hit by accident (`WrongYearIsHitByAccident`).
- ZonedTime.UnlikeReadingsMislead: is for the years from 2 on, for the same reason.
- Idempotency.BothClaimIffNoRowWasLeft: takes the rows of the key, if any, to outlive the later decision; for one request and with expiry, `AnsweredIffLiveRowWasLeft` and `ClearsTheWayIffNotTaken` are exact.
- Upload.FrameHeaderIsFound: is about segments that carry a length; stand-alone markers and SOF8 or higher are not handled by the walk either.
- Upload.FrameIsFoundIffNoFill: does not exclude that in a stream longer than 48 KB the walk lands on the same size somewhere else; `SizeIsFoundIffFillIsJumped` is exact for any stream, over all sizes.
- Digest.DigestFitsTelegramIff: is for fewer than ten thousand million entries, which an array of the language cannot reach.
- SearchFold.FoldIsIdempotent: is for the steps after Unicode normalization, because removing a joiner can create a pair that composes.
- Markup.RenderBodyKeepsText: leaves asterisks out of the comparison, because which of them are marks is what `BoldRunRenders` and `ItalicRunRenders` say.
- MarkdownBreaks.BreaksAreKept: is for stretches that meet in ink and not in a rule: a blank at the end of a line stays in front of the break, and what a rule leaves is `RuleLeavesNoTrace`.
- CalendarLaws.UtcCounts: is for the years from 100 on, because `Date.UTC` takes a smaller year for one of the twentieth century.
- CallbackWires.LooseShapes: gives one direction for a search; what its two to five flags may be is in `SearchWire` and `CallbackLaws.OldShapesStillParse`.
- SearchFold.SpacesAreOne: leaves out the zero-width no-break space, which the source removes before it looks at white space.

What is not modelled:

- `formatPolicyPage`, `formatPolicySummary`, `formatStanding`, `policyReadRows`, `describeFilters`, `toPersianAmount` and all wording: catalogues with facts per branch.
- `templates.ts`, `copy.ts`, `errors.ts`, `seats.ts`, `version.ts`, `trust-proxy.ts`, routers and the order state machine: small or table-like.
- `stripReferralPrefix`, `botStartUrl` and `shareUrl`: string building around the payloads that are modelled.
- The domain services behind the bot (seats, ledgers, waitlist, reviews): their code is not part of this model.
