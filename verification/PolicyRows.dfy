/** `policyPageRows` of `policies.ts`: the buttons under a page, and where they lead. */
module PolicyRows {
  import opened Text
  import opened CallbackData
  import opened CallbackLaws
  import Policies

  datatype Label = Next | Previous | BackToDocuments | Accept

  datatype RowButton = RowButton(caption: Label, data: string)

  predicate IsDocument(letter: string) {
    letter == "t" || letter == "p" || letter == "c"
  }

  /** `encodePolicyCallback`, which clamps the page. */
  function EncodePolicy(letter: string, page: int): string {
    Wire(Policy(letter, page))
  }

  function NavRow(letter: string, page: int, pages: int): seq<RowButton> {
    (if page < pages - 1 then [RowButton(Next, EncodePolicy(letter, page + 1))] else [])
    + (if page > 0 then [RowButton(Previous, EncodePolicy(letter, page - 1))] else [])
  }

  function RowsOf(letter: string, page: int, pages: int, accept: Option<string>): seq<seq<RowButton>> {
    (if NavRow(letter, page, pages) == [] then [] else [NavRow(letter, page, pages)])
    + [[RowButton(BackToDocuments, EncodePolicy("s", 0))]]
    + (if accept.Some? then [[RowButton(Accept, accept.value)]] else [])
  }

  method PolicyPageRows(letter: string, page: int, pages: int, acceptCallbackData: Option<string>)
    returns (rows: seq<seq<RowButton>>)
    ensures rows == RowsOf(letter, page, pages, acceptCallbackData)
  {
    hide EncodePolicy;
    var nav: seq<RowButton> := [];
    if page < pages - 1 {
      nav := nav + [RowButton(Next, EncodePolicy(letter, page + 1))];
    }
    if page > 0 {
      nav := nav + [RowButton(Previous, EncodePolicy(letter, page - 1))];
    }
    assert nav == NavRow(letter, page, pages);
    rows := [];
    if |nav| > 0 {
      rows := rows + [nav];
    }
    rows := rows + [[RowButton(BackToDocuments, EncodePolicy("s", 0))]];
    if acceptCallbackData.Some? {
      rows := rows + [[RowButton(Accept, acceptCallbackData.value)]];
    } else {
      assert rows + [] == rows;
    }
  }

  function ParseTap(data: string): Option<Button> {
    ParsePolicy(Split(data, ':'))
  }

  lemma PolicyRoundTrip(letter: string, page: int)
    requires letter in POLICY_DOCS
    ensures ParseTap(EncodePolicy(letter, page)) == Some(Policy(letter, Clamp(page)))
  {
    hide PageText, ParsePage, Clamp;
    var b := Policy(letter, Clamp(page));
    ClampedText(page);
    WireSplits(b);
    PageRoundTrip(Clamp(page));
    assert Wire(Policy(letter, page)) == Wire(b);
  }

  lemma ClampedText(page: int)
    ensures PageText(Clamp(page)) == PageText(page) && IsPage(Clamp(page))
  {
  }

  /** Where the rows under a page lead: some button in them reads as that page of the document. */
  ghost predicate LeadsTo(rows: seq<seq<RowButton>>, letter: string, target: int) {
    exists r, k | 0 <= r < |rows| && 0 <= k < |rows[r]| :: ParseTap(rows[r][k].data) == Some(Policy(letter, target))
  }

  /** «next» reads as the page after this one exactly while that page has a letter to be named by. */
  lemma NextLeadsOnIff(letter: string, page: nat, pages: nat)
    requires IsDocument(letter) && page < pages - 1
    ensures NavRow(letter, page, pages)[0].caption == Next
    ensures ParseTap(NavRow(letter, page, pages)[0].data) == Some(Policy(letter, page + 1)) <==> page + 1 <= MAX_PAGE
  {
    hide ParseTap, EncodePolicy;
    PolicyRoundTrip(letter, page + 1);
  }

  /** On any page of any paginated document, the rows offer «next» exactly when there is a later page
      and «previous» exactly when there is an earlier one, and they read as exactly those pages. */
  lemma RowsLeadToNeighbours(letter: string, page: nat, markdown: string, budget: nat, accept: Option<string>)
    requires IsDocument(letter) && page < |Policies.Paginated(markdown, budget)|
    ensures var pages := |Policies.Paginated(markdown, budget)|;
            var nav := NavRow(letter, page, pages);
            && (exists b | b in nav :: b.caption == Next) == (page + 1 < pages)
            && (exists b | b in nav :: b.caption == Previous) == (page > 0)
            && (forall b | b in nav ::
                  ParseTap(b.data) == Some(Policy(letter, if b.caption == Next then page + 1 else page - 1)))
            && (nav != [] ==> RowsOf(letter, page, pages, accept)[0] == nav)
  {
    hide ParseTap, EncodePolicy, Policies.AllPages;
    var pages := |Policies.Paginated(markdown, budget)|;
    assert pages <= MAX_PAGE + 1;
    PolicyRoundTrip(letter, page + 1);
    if page > 0 {
      PolicyRoundTrip(letter, page - 1);
    }
    var next := RowButton(Next, EncodePolicy(letter, page + 1));
    var previous := RowButton(Previous, EncodePolicy(letter, page - 1));
    var nav := NavRow(letter, page, pages);
    assert page + 1 < pages ==> next in nav;
    assert page > 0 ==> previous in nav;
    assert forall b | b in nav :: (b == next && page + 1 < pages) || (b == previous && page > 0);
  }

  /** Every page of every paginated document is reached from its first page by tapping its buttons. */
  lemma EveryPageIsReachable(letter: string, page: nat, markdown: string, budget: nat, accept: Option<string>)
    requires IsDocument(letter) && page < |Policies.Paginated(markdown, budget)|
    ensures var pages := |Policies.Paginated(markdown, budget)|;
            forall p | 0 <= p < page :: LeadsTo(RowsOf(letter, p, pages, accept), letter, p + 1)
                                     && LeadsTo(RowsOf(letter, p + 1, pages, accept), letter, p)
  {
    hide ParseTap, EncodePolicy, Policies.Paginated, RowsOf, NavRow;
    var pages := |Policies.Paginated(markdown, budget)|;
    forall p | 0 <= p < page
      ensures LeadsTo(RowsOf(letter, p, pages, accept), letter, p + 1)
      ensures LeadsTo(RowsOf(letter, p + 1, pages, accept), letter, p)
    {
      RowsLeadToNeighbours(letter, p, markdown, budget, accept);
      var next :| next in NavRow(letter, p, pages) && next.caption == Next;
      NavLeads(letter, p, pages, accept, next, p + 1);
      RowsLeadToNeighbours(letter, p + 1, markdown, budget, accept);
      var previous :| previous in NavRow(letter, p + 1, pages) && previous.caption == Previous;
      NavLeads(letter, p + 1, pages, accept, previous, p);
    }
  }

  lemma NavLeads(letter: string, page: nat, pages: nat, accept: Option<string>, b: RowButton, target: int)
    requires b in NavRow(letter, page, pages) && ParseTap(b.data) == Some(Policy(letter, target))
    ensures LeadsTo(RowsOf(letter, page, pages, accept), letter, target)
  {
    hide ParseTap, EncodePolicy, NavRow;
    var rows := RowsOf(letter, page, pages, accept);
    assert rows[0] == NavRow(letter, page, pages);
    var k :| 0 <= k < |rows[0]| && rows[0][k] == b;
  }

  // ---------------------------------------------------------------------------------------
  // What stands where.

  /** Under every page: first the way through the document, next before previous; then the way back to the
      documents; and last, if there is something to accept, the acceptance, on this page as on any other. */
  lemma RowsLayout(letter: string, page: nat, pages: nat, accept: Option<string>)
    ensures var rows := RowsOf(letter, page, pages, accept);
            var nav := page + 1 < pages || page > 0;
            var at := if nav then 1 else 0;
            && |rows| == at + (if accept.Some? then 2 else 1)
            && (nav ==> |rows[0]| == (if page + 1 < pages then 1 else 0) + (if page > 0 then 1 else 0))
            && (page + 1 < pages ==> rows[0][0].caption == Next)
            && (page > 0 ==> rows[0][|rows[0]| - 1].caption == Previous)
            && |rows[at]| == 1 && rows[at][0].caption == BackToDocuments
            && ParseTap(rows[at][0].data) == Some(Policy("s", 0))
            && (accept.Some? ==> rows[at + 1] == [RowButton(Accept, accept.value)])
  {
    assert POLICY_DOCS[0] == "s";
    PolicyRoundTrip("s", 0);
    hide EncodePolicy, ParseTap;
  }
}
