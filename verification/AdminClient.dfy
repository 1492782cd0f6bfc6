/** `api/client.ts` and `stores/session.ts` of the admin panel: requests in flight, and the session they
    are sent under, as interleaved steps. A step is what runs between two awaits. */
module AdminClient {
  import opened Text

  /** How a request ended. `/auth/login` and `/me` answer with a session and a token. */
  datatype Outcome = Failure | Answer | Session(account: string, token: string)

  datatype Progress = Pending | Unauthorized | Settled(outcome: Outcome)

  /** A request that was sent: `url` is its path and query, `header` its `x-csrf-token`, and `sentAt` counts
      the token changes before it. */
  datatype Promise = Promise(isGet: bool, url: string, header: Option<string>, sentAt: nat, progress: Progress)

  datatype Purpose = Screen | Restore | Login | Logout

  /** Somebody waiting for a promise, and when they asked. */
  datatype Call = Call(purpose: Purpose, isGet: bool, url: string, promise: nat, askedAt: nat, resumed: bool)

  datatype Panel = Panel(
    csrfToken: Option<string>,
    inFlight: map<string, nat>,
    promises: seq<Promise>,
    calls: seq<Call>,
    session: Option<string>,
    ready: bool,
    canMutate: bool,
    epoch: nat)

  datatype Event =
    | Get(purpose: Purpose, url: string)
    | Mutate(purpose: Purpose, url: string)
    | LeaveWithoutToken
    | Answer401(promise: nat)
    | Settle(promise: nat, outcome: Outcome)
    | Resume(call: nat)

  function Start(): Panel {
    Panel(None, map[], [], [], None, false, false, 0)
  }

  /** `setCsrfToken`: an answer fetched for the previous session is not handed to the next one. */
  function SetToken(p: Panel, token: Option<string>): Panel {
    p.(csrfToken := token, inFlight := map[], epoch := p.epoch + 1)
  }

  /** `clear` of the session store. */
  function Clear(p: Panel): Panel {
    SetToken(p.(session := None, canMutate := false), None)
  }

  predicate Enabled(p: Panel, e: Event) {
    match e
    case Get(purpose, url) => purpose == Screen || purpose == Restore
    case Mutate(purpose, url) => purpose == Screen || purpose == Login || (purpose == Logout && p.canMutate)
    case LeaveWithoutToken => !p.canMutate
    case Answer401(i) => i < |p.promises| && p.promises[i].progress.Pending?
    case Settle(i, outcome) =>
      i < |p.promises|
      && (p.promises[i].progress.Pending? || (p.promises[i].progress.Unauthorized? && outcome.Failure?))
    case Resume(c) =>
      c < |p.calls| && !p.calls[c].resumed && p.calls[c].promise < |p.promises|
      && p.promises[p.calls[c].promise].progress.Settled?
  }

  function Send(p: Panel, isGet: bool, url: string): Panel {
    p.(promises := p.promises + [Promise(isGet, url, if isGet then None else p.csrfToken, p.epoch, Pending)])
  }

  function Wait(p: Panel, purpose: Purpose, isGet: bool, url: string, promise: nat): Panel {
    p.(calls := p.calls + [Call(purpose, isGet, url, promise, p.epoch, false)])
  }

  /** `request` for a GET: join the request in flight for the same path and query, or send one. */
  function RequestGet(p: Panel, purpose: Purpose, url: string): Panel {
    if url in p.inFlight then Wait(p, purpose, true, url, p.inFlight[url])
    else
      var sent := Send(p, true, url);
      Wait(sent.(inFlight := p.inFlight[url := |p.promises|]), purpose, true, url, |p.promises|)
  }

  function Progressed(p: Panel, i: nat, progress: Progress): Panel
    requires i < |p.promises|
  {
    p.(promises := p.promises[i := p.promises[i].(progress := progress)])
  }

  /** A request settles; for a GET, `finally` drops whatever entry its URL has by now. */
  function Settling(p: Panel, i: nat, outcome: Outcome): Panel
    requires i < |p.promises|
  {
    var settled := Progressed(p, i, Settled(outcome));
    if p.promises[i].isGet then settled.(inFlight := p.inFlight - {p.promises[i].url}) else settled
  }

  /** What the caller does with the outcome. */
  function Resumed(p: Panel, purpose: Purpose, outcome: Outcome): Panel {
    match purpose
    case Screen => p
    case Login =>
      if outcome.Session? then
        SetToken(p, Some(outcome.token)).(session := Some(outcome.account), canMutate := true)
      else p
    case Restore =>
      if outcome.Session? then
        SetToken(p, if outcome.token == "" then None else Some(outcome.token))
          .(session := Some(outcome.account), canMutate := outcome.token != "", ready := true)
      else Clear(p).(ready := true)
    case Logout => Clear(p)
  }

  function Apply(p: Panel, e: Event): Panel
    requires Enabled(p, e)
  {
    match e
    case Get(purpose, url) => RequestGet(p, purpose, url)
    case Mutate(purpose, url) => Wait(Send(p, false, url), purpose, false, url, |p.promises|)
    case LeaveWithoutToken => Clear(p)
    case Answer401(i) => Progressed(Clear(p).(ready := true), i, Unauthorized)
    case Settle(i, outcome) => Settling(p, i, outcome)
    case Resume(c) =>
      var call := p.calls[c];
      var outcome := p.promises[call.promise].progress.outcome;
      Resumed(p.(calls := p.calls[c := call.(resumed := true)]), call.purpose, outcome)
  }

  /** The panels between some events. */
  ghost predicate IsRun(panels: seq<Panel>, events: seq<Event>) {
    && |panels| == |events| + 1
    && forall k | 0 <= k < |events| :: Enabled(panels[k], events[k]) && panels[k + 1] == Apply(panels[k], events[k])
  }

  ghost predicate IsHistory(panels: seq<Panel>, events: seq<Event>) {
    IsRun(panels, events) && panels[0] == Start()
  }

  // ---------------------------------------------------------------------------------------
  // The invariant.

  /** An entry stands for a GET of exactly that URL, sent since the token last changed. */
  predicate EntryIsFresh(p: Panel, url: string) {
    url in p.inFlight
    && var i := p.inFlight[url];
       i < |p.promises| && p.promises[i].isGet && p.promises[i].url == url && p.promises[i].sentAt == p.epoch
  }

  /** A caller waits for a request for what it asked, sent since the last token change before it asked. */
  predicate CallIsServed(p: Panel, call: Call) {
    call.promise < |p.promises|
    && var q := p.promises[call.promise];
       q.isGet == call.isGet && q.url == call.url && q.sentAt == call.askedAt && call.askedAt <= p.epoch
  }

  predicate Inv(p: Panel) {
    && (forall url | url in p.inFlight :: EntryIsFresh(p, url))
    && (forall c | 0 <= c < |p.calls| :: CallIsServed(p, p.calls[c]))
    && (forall c, d | 0 <= c < d < |p.calls| && p.calls[c].promise == p.calls[d].promise :: p.calls[c].isGet)
    && (forall i | 0 <= i < |p.promises| :: p.promises[i].sentAt <= p.epoch)
    && (p.session == None ==> !p.canMutate)
    && (p.canMutate <==> p.csrfToken.Some?)
  }

  lemma StartIsSound()
    ensures Inv(Start())
  {
  }

  lemma SendKeepsInv(p: Panel, isGet: bool, url: string)
    requires Inv(p)
    ensures Inv(Send(p, isGet, url))
  {
    var q := Send(p, isGet, url);
    assert forall i | 0 <= i < |p.promises| :: q.promises[i] == p.promises[i];
    assert forall u | u in q.inFlight :: EntryIsFresh(p, u);
    assert forall c | 0 <= c < |p.calls| :: CallIsServed(p, p.calls[c]);
  }

  lemma EntryKeepsInv(p: Panel, url: string, i: nat)
    requires Inv(p) && i < |p.promises| && p.promises[i] == Promise(true, url, None, p.epoch, Pending)
    ensures Inv(p.(inFlight := p.inFlight[url := i]))
  {
    assert forall u | u in p.inFlight :: EntryIsFresh(p, u);
    assert forall c | 0 <= c < |p.calls| :: CallIsServed(p, p.calls[c]);
  }

  /** Waiting for a fresh promise: one that nobody waits for yet, or a GET. */
  lemma WaitKeepsInv(p: Panel, purpose: Purpose, isGet: bool, url: string, i: nat)
    requires Inv(p) && i < |p.promises|
    requires var q := p.promises[i]; q.isGet == isGet && q.url == url && q.sentAt == p.epoch
    requires isGet || forall c | 0 <= c < |p.calls| :: p.calls[c].promise != i
    ensures Inv(Wait(p, purpose, isGet, url, i))
  {
    var q := Wait(p, purpose, isGet, url, i);
    assert forall u | u in q.inFlight :: EntryIsFresh(p, u);
    assert forall c | 0 <= c < |p.calls| :: q.calls[c] == p.calls[c] && CallIsServed(p, p.calls[c]);
  }

  lemma GetKeepsInv(p: Panel, purpose: Purpose, url: string)
    requires Inv(p)
    ensures Inv(RequestGet(p, purpose, url))
  {
    hide Wait;
    if url in p.inFlight {
      assert EntryIsFresh(p, url);
      WaitKeepsInv(p, purpose, true, url, p.inFlight[url]);
    } else {
      var sent := Send(p, true, url);
      SendKeepsInv(p, true, url);
      EntryKeepsInv(sent, url, |p.promises|);
      WaitKeepsInv(sent.(inFlight := p.inFlight[url := |p.promises|]), purpose, true, url, |p.promises|);
    }
  }

  lemma MutateKeepsInv(p: Panel, purpose: Purpose, url: string)
    requires Inv(p)
    ensures Inv(Wait(Send(p, false, url), purpose, false, url, |p.promises|))
  {
    SendKeepsInv(p, false, url);
    assert forall c | 0 <= c < |p.calls| :: CallIsServed(p, p.calls[c]);
    WaitKeepsInv(Send(p, false, url), purpose, false, url, |p.promises|);
  }

  lemma SettleKeepsInv(p: Panel, i: nat, outcome: Outcome)
    requires Inv(p) && i < |p.promises|
    ensures Inv(Settling(p, i, outcome))
  {
    var q := Settling(p, i, outcome);
    assert forall u | u in q.inFlight :: EntryIsFresh(p, u);
    assert forall c | 0 <= c < |p.calls| :: CallIsServed(p, p.calls[c]);
  }

  lemma UnauthorizedKeepsInv(p: Panel, i: nat)
    requires Inv(p) && i < |p.promises|
    ensures Inv(Progressed(Clear(p).(ready := true), i, Unauthorized))
  {
    assert forall c | 0 <= c < |p.calls| :: CallIsServed(p, p.calls[c]);
  }

  lemma ResumeKeepsInv(p: Panel, purpose: Purpose, outcome: Outcome)
    requires Inv(p)
    ensures Inv(Resumed(p, purpose, outcome))
  {
    assert forall c | 0 <= c < |p.calls| :: CallIsServed(p, p.calls[c]);
  }

  lemma MarkKeepsInv(p: Panel, c: nat)
    requires Inv(p) && c < |p.calls|
    ensures Inv(p.(calls := p.calls[c := p.calls[c].(resumed := true)]))
  {
    var q := p.(calls := p.calls[c := p.calls[c].(resumed := true)]);
    assert forall u | u in q.inFlight :: EntryIsFresh(p, u);
    assert forall d | 0 <= d < |p.calls| :: CallIsServed(p, p.calls[d]);
  }

  lemma InvIsKept(p: Panel, e: Event)
    requires Inv(p) && Enabled(p, e)
    ensures Inv(Apply(p, e))
  {
    hide Inv, RequestGet, Resumed, Settling;
    match e
    case Get(purpose, url) => GetKeepsInv(p, purpose, url);
    case Mutate(purpose, url) => MutateKeepsInv(p, purpose, url);
    case LeaveWithoutToken => LeaveKeepsInv(p);
    case Answer401(i) => UnauthorizedKeepsInv(p, i);
    case Settle(i, outcome) => SettleKeepsInv(p, i, outcome);
    case Resume(c) =>
      MarkKeepsInv(p, c);
      ResumeKeepsInv(p.(calls := p.calls[c := p.calls[c].(resumed := true)]), p.calls[c].purpose,
                     p.promises[p.calls[c].promise].progress.outcome);
  }

  lemma LeaveKeepsInv(p: Panel)
    requires Inv(p)
    ensures Inv(Clear(p))
  {
    assert forall c | 0 <= c < |p.calls| :: CallIsServed(p, p.calls[c]);
  }

  lemma {:induction false} InvHolds(panels: seq<Panel>, events: seq<Event>, k: nat)
    requires IsHistory(panels, events) && k < |panels|
    ensures Inv(panels[k])
  {
    hide Inv, Apply, Enabled, Start;
    if k > 0 {
      InvHolds(panels, events, k - 1);
      assert panels[k] == Apply(panels[k - 1], events[k - 1]);
      InvIsKept(panels[k - 1], events[k - 1]);
    } else {
      StartIsSound();
    }
  }

  // ---------------------------------------------------------------------------------------
  // What every history keeps.

  /** No GET is answered by a request sent before the last token change that preceded it, and what it
      gets is the answer to exactly the URL it asked for. */
  lemma GetsAreServedInTheirSession(panels: seq<Panel>, events: seq<Event>, k: nat, c: nat)
    requires IsHistory(panels, events) && k < |panels| && c < |panels[k].calls|
    ensures var call := panels[k].calls[c];
            && call.promise < |panels[k].promises|
            && panels[k].promises[call.promise].sentAt == call.askedAt
            && panels[k].promises[call.promise].url == call.url
            && panels[k].promises[call.promise].isGet == call.isGet
  {
    hide Apply, Enabled, Start;
    InvHolds(panels, events, k);
    assert CallIsServed(panels[k], panels[k].calls[c]);
  }

  /** Two callers share an answer only for the identical URL, asked for in the same session, and never
      share a mutation. */
  lemma OnlyIdenticalGetsAreShared(panels: seq<Panel>, events: seq<Event>, k: nat, c: nat, d: nat)
    requires IsHistory(panels, events) && k < |panels| && c < d < |panels[k].calls|
    requires panels[k].calls[c].promise == panels[k].calls[d].promise
    ensures panels[k].calls[c].isGet && panels[k].calls[d].isGet
    ensures panels[k].calls[c].url == panels[k].calls[d].url
    ensures panels[k].calls[c].askedAt == panels[k].calls[d].askedAt
  {
    hide Apply, Enabled, Start;
    InvHolds(panels, events, k);
    assert CallIsServed(panels[k], panels[k].calls[c]) && CallIsServed(panels[k], panels[k].calls[d]);
  }

  /** Signed out means no token and no right to mutate; and the right to mutate is always the token. */
  lemma SignedOutCannotMutate(panels: seq<Panel>, events: seq<Event>, k: nat)
    requires IsHistory(panels, events) && k < |panels|
    ensures panels[k].session == None ==> panels[k].csrfToken == None && !panels[k].canMutate
    ensures panels[k].canMutate <==> panels[k].csrfToken.Some?
  {
    hide Apply, Enabled, Start;
    InvHolds(panels, events, k);
  }

  /** A 401 signs the panel out at once, and no request sent so far answers anybody who asks later. */
  lemma UnauthorizedSignsOut(p: Panel, i: nat)
    requires Enabled(p, Answer401(i))
    ensures var q := Apply(p, Answer401(i));
            q.session == None && q.csrfToken == None && !q.canMutate && q.ready && q.inFlight == map[]
            && q.epoch == p.epoch + 1
            && q.promises == p.promises[i := p.promises[i].(progress := Unauthorized)] && q.calls == p.calls
  {
  }

  // ---------------------------------------------------------------------------------------
  // What each step does.

  /** A GET joins the request that is out for its URL, if there is one, and is sent otherwise, without a
      token; either way its caller waits for that request. */
  lemma GetJoinsOrIsSent(p: Panel, purpose: Purpose, url: string)
    requires Enabled(p, Get(purpose, url))
    ensures var q := Apply(p, Get(purpose, url));
            var joined := url in p.inFlight;
            var i := if joined then p.inFlight[url] else |p.promises|;
            && q.calls == p.calls + [Call(purpose, true, url, i, p.epoch, false)]
            && q.promises == p.promises + (if joined then [] else [Promise(true, url, None, p.epoch, Pending)])
            && q.inFlight == p.inFlight[url := i]
            && q.session == p.session && q.csrfToken == p.csrfToken && q.canMutate == p.canMutate
  {
  }

  /** A mutation is always sent, with the token of the moment, and is never there to be joined. */
  lemma MutationIsSent(p: Panel, purpose: Purpose, url: string)
    requires Enabled(p, Mutate(purpose, url))
    ensures var q := Apply(p, Mutate(purpose, url));
            && q.promises == p.promises + [Promise(false, url, p.csrfToken, p.epoch, Pending)]
            && q.calls == p.calls + [Call(purpose, false, url, |p.promises|, p.epoch, false)]
            && q.inFlight == p.inFlight
            && q.session == p.session && q.csrfToken == p.csrfToken && q.canMutate == p.canMutate
  {
  }

  /** Settling changes what is known of the request and, for a GET, the entry of its URL; nobody's session. */
  lemma SettlingTouchesNoSession(p: Panel, i: nat, outcome: Outcome)
    requires Enabled(p, Settle(i, outcome))
    ensures var q := Apply(p, Settle(i, outcome));
            && q.promises == p.promises[i := p.promises[i].(progress := Settled(outcome))]
            && q.calls == p.calls
            && (forall url :: url in q.inFlight <==>
                              url in p.inFlight && !(p.promises[i].isGet && url == p.promises[i].url))
            && (forall url | url in q.inFlight :: q.inFlight[url] == p.inFlight[url])
            && q.session == p.session && q.csrfToken == p.csrfToken && q.canMutate == p.canMutate && q.ready == p.ready
  {
  }

  predicate IsSignedOut(p: Panel) {
    p.session == None && p.csrfToken == None && !p.canMutate && p.inFlight == map[]
  }

  predicate IsSignedIn(p: Panel, account: string, token: string) {
    p.session == Some(account) && p.csrfToken == Some(token) && p.canMutate && p.inFlight == map[]
  }

  /** The outcome that a caller gets to see. */
  function OutcomeFor(p: Panel, c: nat): Outcome
    requires Enabled(p, Resume(c))
  {
    p.promises[p.calls[c].promise].progress.outcome
  }

  /** Signing out signs out, however the request for it ended; and so it does when there is no token to send
      that request with. */
  lemma LogoutSignsOut(p: Panel, c: nat)
    requires Enabled(p, Resume(c)) && p.calls[c].purpose == Logout
    ensures IsSignedOut(Apply(p, Resume(c))) && Apply(p, Resume(c)).ready == p.ready
    ensures !p.canMutate ==> IsSignedOut(Apply(p, LeaveWithoutToken)) && Apply(p, LeaveWithoutToken).ready == p.ready
  {
  }

  /** A sign-in that succeeds leaves its session, its token and the right to mutate; one that fails changes
      nothing. */
  lemma LoginSignsIn(p: Panel, c: nat)
    requires Enabled(p, Resume(c)) && p.calls[c].purpose == Login
    ensures var q := Apply(p, Resume(c));
            match OutcomeFor(p, c)
            case Session(account, token) => IsSignedIn(q, account, token) && q.ready == p.ready
            case _ => q == p.(calls := q.calls)
  {
  }

  /** A restore brings the session back, with the right to mutate exactly if it brings a token; one that
      fails signs out; and the router may go on either way. */
  lemma RestoreBringsBack(p: Panel, c: nat)
    requires Enabled(p, Resume(c)) && p.calls[c].purpose == Restore
    ensures var q := Apply(p, Resume(c));
            && q.ready
            && match OutcomeFor(p, c)
               case Session(account, token) =>
                 if token != "" then IsSignedIn(q, account, token)
                 else q.session == Some(account) && q.csrfToken == None && !q.canMutate && q.inFlight == map[]
               case _ => IsSignedOut(q)
  {
  }

  /** A screen that gets its answer changes nothing. Whoever goes on is marked, and nobody else. */
  lemma ResumingMarks(p: Panel, c: nat)
    requires Enabled(p, Resume(c))
    ensures Apply(p, Resume(c)).calls == p.calls[c := p.calls[c].(resumed := true)]
    ensures Apply(p, Resume(c)).promises == p.promises
    ensures p.calls[c].purpose == Screen ==> Apply(p, Resume(c)) == p.(calls := Apply(p, Resume(c)).calls)
  {
  }

  // ---------------------------------------------------------------------------------------
  // Which GETs are sent once.

  /** A GET that has not settled. */
  predicate IsOut(q: Promise) {
    q.isGet && !q.progress.Settled?
  }

  predicate OutAreEntries(p: Panel) {
    forall i | 0 <= i < |p.promises| && IsOut(p.promises[i]) && p.promises[i].sentAt == p.epoch ::
      p.promises[i].url in p.inFlight && p.inFlight[p.promises[i].url] == i
  }

  predicate EntriesAreOut(p: Panel) {
    forall url | url in p.inFlight :: p.inFlight[url] < |p.promises| && IsOut(p.promises[p.inFlight[url]])
  }

  /** Each GET that is out under the current token is the entry of its URL, and every entry is out. */
  predicate Deduplicated(p: Panel) {
    OutAreEntries(p) && EntriesAreOut(p)
  }

  /** No two GETs of one URL are out that were sent under the same token. */
  predicate OneOfEach(p: Panel) {
    forall i, j | 0 <= i < j < |p.promises| && IsOut(p.promises[i]) && IsOut(p.promises[j]) ::
      p.promises[i].url != p.promises[j].url || p.promises[i].sentAt != p.promises[j].sentAt
  }

  /** A GET sent before the last token change settles while there is an entry for its URL. */
  predicate StaleMeetsEntry(p: Panel, e: Event) {
    && e.Settle?
    && e.promise < |p.promises|
    && p.promises[e.promise].isGet
    && p.promises[e.promise].sentAt < p.epoch
    && p.promises[e.promise].url in p.inFlight
  }

  lemma SettleDeduplicatesIff(p: Panel, i: nat, outcome: Outcome)
    requires Inv(p) && Deduplicated(p) && Enabled(p, Settle(i, outcome))
    ensures Deduplicated(Settling(p, i, outcome)) <==> !StaleMeetsEntry(p, Settle(i, outcome))
  {
    hide Settling, Deduplicated;
    var q, url := Settling(p, i, outcome), p.promises[i].url;
    EntriesOnly(p);
    SettlingIs(p, i, outcome);
    if StaleMeetsEntry(p, Settle(i, outcome)) {
      var entry := p.inFlight[url];
      assert p.promises[entry].sentAt == p.epoch && entry != i;
      assert q.promises[entry] == p.promises[entry];
      EntriesOnly(q);
      assert IsOut(q.promises[entry]) && url !in q.inFlight;
    } else {
      if p.promises[i].isGet && url in p.inFlight {
        OwnEntry(p, i);
      }
      SettlingKeeps(p, i, q);
    }
  }

  /** What is known about entries. */
  lemma EntriesOnly(p: Panel)
    ensures Deduplicated(p) <==> OutAreEntries(p) && EntriesAreOut(p)
    ensures Inv(p) ==> forall url | url in p.inFlight :: EntryIsFresh(p, url)
    ensures Inv(p) ==> forall i | 0 <= i < |p.promises| :: p.promises[i].sentAt <= p.epoch
  {
  }

  lemma SettlingIs(p: Panel, i: nat, outcome: Outcome)
    requires i < |p.promises|
    ensures var q := Settling(p, i, outcome);
            && |q.promises| == |p.promises| && q.epoch == p.epoch
            && (forall j | 0 <= j < |p.promises| && j != i :: q.promises[j] == p.promises[j])
            && q.promises[i] == p.promises[i].(progress := Settled(outcome))
            && q.inFlight == if p.promises[i].isGet then p.inFlight - {p.promises[i].url} else p.inFlight
  {
  }

  lemma OwnEntry(p: Panel, i: nat)
    requires OutAreEntries(p) && i < |p.promises| && IsOut(p.promises[i]) && p.promises[i].sentAt == p.epoch
    ensures p.promises[i].url in p.inFlight && p.inFlight[p.promises[i].url] == i
  {
  }

  /** Settling a request whose entry, if it has one, is its own. */
  lemma SettlingKeeps(p: Panel, i: nat, q: Panel)
    requires Deduplicated(p) && i < |p.promises| && |q.promises| == |p.promises| && q.epoch == p.epoch
    requires forall url | url in p.inFlight :: EntryIsFresh(p, url)
    requires forall j | 0 <= j < |p.promises| && j != i :: q.promises[j] == p.promises[j]
    requires q.promises[i].progress.Settled?
    requires q.inFlight == if p.promises[i].isGet then p.inFlight - {p.promises[i].url} else p.inFlight
    requires p.promises[i].isGet && p.promises[i].url in p.inFlight ==> p.inFlight[p.promises[i].url] == i
    ensures Deduplicated(q)
  {
    forall url | url in q.inFlight
      ensures q.inFlight[url] < |q.promises| && IsOut(q.promises[q.inFlight[url]])
    {
      assert EntryIsFresh(p, url);
    }
    forall j | 0 <= j < |q.promises| && IsOut(q.promises[j]) && q.promises[j].sentAt == q.epoch
      ensures q.promises[j].url in q.inFlight && q.inFlight[q.promises[j].url] == j
    {
      OwnEntry(p, j);
    }
  }

  lemma SettleLeavesOneOfEach(p: Panel, i: nat, outcome: Outcome)
    requires OneOfEach(p) && i < |p.promises|
    ensures OneOfEach(Settling(p, i, outcome))
  {
    hide Settling;
    SettlingIs(p, i, outcome);
  }

  lemma GetDeduplicates(p: Panel, purpose: Purpose, url: string)
    requires Inv(p) && Deduplicated(p)
    ensures Deduplicated(RequestGet(p, purpose, url))
    ensures OneOfEach(p) ==> OneOfEach(RequestGet(p, purpose, url))
  {
    hide Inv, Deduplicated, OneOfEach;
    var q := RequestGet(p, purpose, url);
    EntriesOnly(p);
    if url in p.inFlight {
      SameRequests(p, q);
    } else {
      NewEntry(p, url, q);
    }
  }

  lemma NewEntry(p: Panel, url: string, q: Panel)
    requires Deduplicated(p) && url !in p.inFlight
    requires forall u | u in p.inFlight :: EntryIsFresh(p, u)
    requires q.promises == p.promises + [Promise(true, url, None, p.epoch, Pending)]
    requires q.inFlight == p.inFlight[url := |p.promises|] && q.epoch == p.epoch
    ensures Deduplicated(q) && (OneOfEach(p) ==> OneOfEach(q))
  {
    assert forall j | 0 <= j < |p.promises| :: q.promises[j] == p.promises[j];
    forall u | u in q.inFlight
      ensures q.inFlight[u] < |q.promises| && IsOut(q.promises[q.inFlight[u]])
    {
      if u != url {
        assert EntryIsFresh(p, u);
      }
    }
    forall j | 0 <= j < |q.promises| && IsOut(q.promises[j]) && q.promises[j].sentAt == q.epoch
      ensures q.promises[j].url in q.inFlight && q.inFlight[q.promises[j].url] == j
    {
      if j < |p.promises| {
        OwnEntry(p, j);
      }
    }
  }

  lemma MutationDeduplicates(p: Panel, purpose: Purpose, url: string)
    requires Inv(p) && Deduplicated(p)
    ensures var q := Wait(Send(p, false, url), purpose, false, url, |p.promises|);
            Deduplicated(q) && (OneOfEach(p) ==> OneOfEach(q))
  {
    assert forall u | u in p.inFlight :: EntryIsFresh(p, u);
  }

  /** With a new token nothing is out under it yet. */
  lemma NewTokenDeduplicates(p: Panel, q: Panel)
    requires Inv(p) && q.promises == p.promises && q.inFlight == map[] && q.epoch == p.epoch + 1
    ensures Deduplicated(q) && (OneOfEach(p) ==> OneOfEach(q))
  {
  }

  lemma UnauthorizedDeduplicates(p: Panel, i: nat)
    requires Inv(p) && Enabled(p, Answer401(i))
    ensures var q := Progressed(Clear(p).(ready := true), i, Unauthorized);
            Deduplicated(q) && (OneOfEach(p) ==> OneOfEach(q))
  {
    var q := Progressed(Clear(p).(ready := true), i, Unauthorized);
    assert forall j | 0 <= j < |p.promises| ::
        && IsOut(q.promises[j]) == IsOut(p.promises[j])
        && q.promises[j].url == p.promises[j].url
        && q.promises[j].sentAt == p.promises[j].sentAt;
  }

  lemma ResumeDeduplicates(p: Panel, c: nat)
    requires Inv(p) && Deduplicated(p) && Enabled(p, Resume(c))
    ensures var q := Apply(p, Resume(c)); Deduplicated(q) && (OneOfEach(p) ==> OneOfEach(q))
  {
    hide Inv, Deduplicated, OneOfEach;
    var call := p.calls[c];
    var marked := p.(calls := p.calls[c := call.(resumed := true)]);
    var outcome := p.promises[call.promise].progress.outcome;
    MarkKeepsInv(p, c);
    SameRequests(p, marked);
    var q := Resumed(marked, call.purpose, outcome);
    if q.epoch == p.epoch + 1 {
      NewTokenDeduplicates(marked, q);
    } else {
      SameRequests(marked, q);
    }
  }

  lemma SameRequests(p: Panel, q: Panel)
    requires q.promises == p.promises && q.inFlight == p.inFlight && q.epoch == p.epoch
    ensures Deduplicated(q) == Deduplicated(p) && OneOfEach(q) == OneOfEach(p)
  {
  }

  /** What is in flight stays deduplicated over a step if and only if the step is not the late settlement
      of a GET of an earlier token that meets an entry for its URL. */
  lemma StaysDeduplicatedIff(p: Panel, e: Event)
    requires Inv(p) && Deduplicated(p) && Enabled(p, e)
    ensures Deduplicated(Apply(p, e)) <==> !StaleMeetsEntry(p, e)
    ensures OneOfEach(p) ==> OneOfEach(Apply(p, e))
  {
    hide Inv, Deduplicated, OneOfEach, RequestGet, Settling;
    match e
    case Get(purpose, url) => GetDeduplicates(p, purpose, url);
    case Mutate(purpose, url) => MutationDeduplicates(p, purpose, url);
    case LeaveWithoutToken => NewTokenDeduplicates(p, Clear(p));
    case Answer401(i) => UnauthorizedDeduplicates(p, i);
    case Settle(i, outcome) =>
      SettleDeduplicatesIff(p, i, outcome);
      if OneOfEach(p) {
        SettleLeavesOneOfEach(p, i, outcome);
      }
    case Resume(c) => ResumeDeduplicates(p, c);
  }

  lemma {:induction false} DeduplicatedSoFar(panels: seq<Panel>, events: seq<Event>, k: nat)
    requires IsHistory(panels, events) && k < |panels|
    requires forall j | 0 <= j < k :: !StaleMeetsEntry(panels[j], events[j])
    ensures Deduplicated(panels[k]) && OneOfEach(panels[k])
  {
    hide Inv, Apply, Enabled, Deduplicated, OneOfEach, StaleMeetsEntry;
    if k > 0 {
      DeduplicatedSoFar(panels, events, k - 1);
      InvHolds(panels, events, k - 1);
      assert panels[k] == Apply(panels[k - 1], events[k - 1]);
      StaysDeduplicatedIff(panels[k - 1], events[k - 1]);
    } else {
      StartIsDeduplicated();
    }
  }

  lemma StartIsDeduplicated()
    ensures Deduplicated(Start()) && OneOfEach(Start())
  {
  }

  /** A history is deduplicated throughout if and only if no such settlement happens in it, and then no
      two GETs of one URL and one session are ever out together. */
  lemma DeduplicatedIff(panels: seq<Panel>, events: seq<Event>)
    requires IsHistory(panels, events)
    ensures (forall k | 0 <= k < |panels| :: Deduplicated(panels[k]))
            <==> (forall k | 0 <= k < |events| :: !StaleMeetsEntry(panels[k], events[k]))
    ensures (forall k | 0 <= k < |panels| :: Deduplicated(panels[k])) ==>
            (forall k | 0 <= k < |panels| :: OneOfEach(panels[k]))
  {
    hide Inv, Apply, Enabled, Deduplicated, OneOfEach, StaleMeetsEntry, Start;
    if forall k | 0 <= k < |panels| :: Deduplicated(panels[k]) {
      forall k | 0 <= k < |events|
        ensures !StaleMeetsEntry(panels[k], events[k])
      {
        InvHolds(panels, events, k);
        assert Deduplicated(panels[k + 1]);
        StaysDeduplicatedIff(panels[k], events[k]);
      }
    }
    if forall k | 0 <= k < |events| :: !StaleMeetsEntry(panels[k], events[k]) {
      forall k | 0 <= k < |panels|
        ensures Deduplicated(panels[k]) && OneOfEach(panels[k])
      {
        DeduplicatedSoFar(panels, events, k);
      }
    }
  }

  // ---------------------------------------------------------------------------------------
  // Staying signed out.

  predicate AsksToSignIn(e: Event) {
    (e.Get? && e.purpose == Restore) || (e.Mutate? && e.purpose == Login)
  }

  /** A `login` or `restore` that has not gone on, and whose request may still bring or has brought a session. */
  predicate CouldSignIn(p: Panel, call: Call) {
    && !call.resumed
    && (call.purpose == Login || call.purpose == Restore)
    && call.promise < |p.promises|
    && var progress := p.promises[call.promise].progress;
       progress.Pending? || (progress.Settled? && progress.outcome.Session?)
  }

  predicate SignInIsOut(p: Panel) {
    exists c | 0 <= c < |p.calls| :: CouldSignIn(p, p.calls[c])
  }

  /** A run from `p` in which nobody asks to sign in. */
  ghost predicate IsRunFrom(p: Panel, panels: seq<Panel>, events: seq<Event>)
    ensures IsRunFrom(p, panels, events) ==> |panels| == |events| + 1
  {
    IsRun(panels, events) && panels[0] == p && forall e | e in events :: !AsksToSignIn(e)
  }

  /** Whatever happens, unless somebody asks to sign in, the session stays gone. */
  ghost predicate StaysSignedOut(p: Panel) {
    forall panels: seq<Panel>, events: seq<Event> | IsRunFrom(p, panels, events) :: panels[|events|].session == None
  }

  lemma NoSignInComesOut(p: Panel, e: Event)
    requires Inv(p) && Enabled(p, e) && !AsksToSignIn(e)
    requires p.session == None && !SignInIsOut(p)
    ensures Apply(p, e).session == None && !SignInIsOut(Apply(p, e))
  {
    hide Inv;
    var q := Apply(p, e);
    if e.Resume? {
      var call := p.calls[e.call];
      assert !CouldSignIn(p, call);
    }
    forall c | 0 <= c < |q.calls|
      ensures !CouldSignIn(q, q.calls[c])
    {
      if c < |p.calls| {
        assert !CouldSignIn(p, p.calls[c]);
        StillNoSignIn(p, e, c);
      }
    }
  }

  lemma StillNoSignIn(p: Panel, e: Event, c: nat)
    requires Inv(p) && Enabled(p, e) && c < |p.calls| && !CouldSignIn(p, p.calls[c])
    ensures c < |Apply(p, e).calls| && !CouldSignIn(Apply(p, e), Apply(p, e).calls[c])
  {
    assert CallIsServed(p, p.calls[c]);
    hide Inv, Apply, Enabled;
    CallStays(p, e, c);
    if !p.promises[p.calls[c].promise].progress.Pending? {
      ProgressStays(p, e, p.calls[c].promise);
    }
  }

  lemma CallStays(p: Panel, e: Event, c: nat)
    requires Enabled(p, e) && c < |p.calls|
    ensures var q := Apply(p, e);
            c < |q.calls| && (q.calls[c] == p.calls[c] || q.calls[c] == p.calls[c].(resumed := true))
  {
  }

  /** A request that is refused or has settled never brings a session that it has not brought yet. */
  lemma ProgressStays(p: Panel, e: Event, i: nat)
    requires Enabled(p, e) && i < |p.promises| && !p.promises[i].progress.Pending?
    ensures i < |Apply(p, e).promises|
    ensures var was, now := p.promises[i].progress, Apply(p, e).promises[i].progress;
            now == was || (was.Unauthorized? && now == Settled(Failure))
  {
  }

  lemma {:induction false} SignedOutSoFar(panels: seq<Panel>, events: seq<Event>, k: nat)
    requires IsRun(panels, events) && k < |panels|
    requires Inv(panels[0]) && panels[0].session == None && !SignInIsOut(panels[0])
    requires forall e | e in events :: !AsksToSignIn(e)
    ensures Inv(panels[k]) && panels[k].session == None && !SignInIsOut(panels[k])
  {
    hide Inv, Apply, Enabled, SignInIsOut, AsksToSignIn;
    if k > 0 {
      SignedOutSoFar(panels, events, k - 1);
      assert events[k - 1] in events;
      InvIsKept(panels[k - 1], events[k - 1]);
      NoSignInComesOut(panels[k - 1], events[k - 1]);
    }
  }

  /** An answer that is still out signs a signed-out panel back in. */
  lemma LateAnswerSignsIn(p: Panel, c: nat) returns (panels: seq<Panel>, events: seq<Event>)
    requires c < |p.calls| && CouldSignIn(p, p.calls[c])
    ensures IsRun(panels, events) && panels[0] == p && panels[|events|].session.Some?
    ensures forall e | e in events :: !AsksToSignIn(e)
  {
    var i := p.calls[c].promise;
    if p.promises[i].progress.Pending? {
      var settled := Settle(i, Session("account", "token"));
      var q := Apply(p, settled);
      panels, events := [p, q, Apply(q, Resume(c))], [settled, Resume(c)];
    } else {
      panels, events := [p, Apply(p, Resume(c))], [Resume(c)];
    }
  }

  /** A signed-out panel stays signed out until somebody asks to sign in if and only if no `login` or
      `restore` from before is still to go on with a session. */
  lemma StaysSignedOutIff(p: Panel)
    requires Inv(p) && p.session == None
    ensures StaysSignedOut(p) <==> !SignInIsOut(p)
  {
    hide Inv, Apply, Enabled, CouldSignIn, AsksToSignIn, IsRun;
    if SignInIsOut(p) {
      var c :| 0 <= c < |p.calls| && CouldSignIn(p, p.calls[c]);
      var panels, events := LateAnswerSignsIn(p, c);
      assert IsRunFrom(p, panels, events);
    } else {
      forall panels: seq<Panel>, events: seq<Event> | IsRunFrom(p, panels, events)
        ensures panels[|events|].session == None
      {
        SignedOutSoFar(panels, events, |events|);
      }
    }
  }

  // ---------------------------------------------------------------------------------------
  // What is not promised.

  lemma GoesOn(panels: seq<Panel>, events: seq<Event>, e: Event, next: Panel)
    requires IsHistory(panels, events)
    requires Enabled(panels[|panels| - 1], e) && next == Apply(panels[|panels| - 1], e)
    ensures IsHistory(panels + [next], events + [e])
  {
    hide Enabled, Apply, Start;
    var panels', events' := panels + [next], events + [e];
    forall k | 0 <= k < |events'|
      ensures Enabled(panels'[k], events'[k]) && panels'[k + 1] == Apply(panels'[k], events'[k])
    {
      if k < |events| {
        assert panels'[k] == panels[k] && panels'[k + 1] == panels[k + 1] && events'[k] == events[k];
      }
    }
  }

  /** A history that gets to `p`. */
  ghost predicate Reaches(panels: seq<Panel>, events: seq<Event>, p: Panel) {
    IsHistory(panels, events) && panels[|panels| - 1] == p
  }

  lemma Goes(panels: seq<Panel>, events: seq<Event>, p: Panel, e: Event, next: Panel)
    returns (panels': seq<Panel>, events': seq<Event>)
    requires Reaches(panels, events, p) && Enabled(p, e) && next == Apply(p, e)
    ensures Reaches(panels', events', next) && panels' == panels + [next] && events' == events + [e]
  {
    hide Enabled, Apply;
    GoesOn(panels, events, e, next);
    panels', events' := panels + [next], events + [e];
  }

  lemma Begins() returns (panels: seq<Panel>, events: seq<Event>)
    ensures Reaches(panels, events, Start()) && panels == [Start()] && events == []
  {
    panels, events := [Start()], [];
  }

  /** A request of the previous session that settles late drops the entry of the one that replaced it, so
      two identical GETs of one session can both be on their way. */
  lemma StaleSettlementDropsNewerEntry(url: string) returns (panels: seq<Panel>, events: seq<Event>)
    ensures IsHistory(panels, events)
    ensures var last := panels[|panels| - 1];
            && |last.promises| == 3
            && last.promises[1] == last.promises[2] == Promise(true, url, None, last.epoch, Pending)
  {
    hide IsHistory;
    panels, events := Begins();
    var p0 := Start();
    var earlier, later := Promise(true, url, None, 0, Pending), Promise(true, url, None, 1, Pending);
    var call0, call1 := Call(Screen, true, url, 0, 0, false), Call(Screen, true, url, 1, 1, false);
    var gone := Promise(true, url, None, 0, Settled(Answer));
    var p1 := Panel(None, map[url := 0], [earlier], [call0], None, false, false, 0);
    panels, events := Goes(panels, events, p0, Get(Screen, url), p1);
    var p2 := Panel(None, map[], [earlier], [call0], None, false, false, 1);
    panels, events := Goes(panels, events, p1, LeaveWithoutToken, p2);
    var p3 := Panel(None, map[url := 1], [earlier, later], [call0, call1], None, false, false, 1);
    panels, events := Goes(panels, events, p2, Get(Screen, url), p3);
    var p4 := Panel(None, map[], [gone, later], [call0, call1], None, false, false, 1);
    assert map[url := 1] - {url} == map[];
    panels, events := Goes(panels, events, p3, Settle(0, Answer), p4);
    var p5 := RequestGet(p4, Screen, url);
    panels, events := Goes(panels, events, p4, Get(Screen, url), p5);
  }

  /** A `restore` of before a sign-out that is answered after it signs the panel back in. */
  lemma LateRestoreSignsBackIn(url: string, account: string, token: string)
    returns (panels: seq<Panel>, events: seq<Event>)
    requires token != ""
    ensures IsHistory(panels, events)
    ensures events == [Get(Restore, url), LeaveWithoutToken, Settle(0, Session(account, token)), Resume(0)]
    ensures panels[2].session == None && SignInIsOut(panels[2])
    ensures var last := panels[4]; last.session == Some(account) && last.csrfToken == Some(token) && last.canMutate
  {
    hide IsHistory;
    panels, events := Begins();
    var p0 := Start();
    var asked := Call(Restore, true, url, 0, 0, false);
    var sent := Promise(true, url, None, 0, Pending);
    var back := sent.(progress := Settled(Session(account, token)));
    var p1 := Panel(None, map[url := 0], [sent], [asked], None, false, false, 0);
    panels, events := Goes(panels, events, p0, Get(Restore, url), p1);
    var p2 := Panel(None, map[], [sent], [asked], None, false, false, 1);
    panels, events := Goes(panels, events, p1, LeaveWithoutToken, p2);
    assert CouldSignIn(p2, p2.calls[0]);
    var p3 := Panel(None, map[], [back], [asked], None, false, false, 1);
    panels, events := Goes(panels, events, p2, Settle(0, Session(account, token)), p3);
    var p4 := Panel(Some(token), map[], [back], [asked.(resumed := true)], Some(account), true, true, 2);
    panels, events := Goes(panels, events, p3, Resume(0), p4);
  }

  // ---------------------------------------------------------------------------------------
  // The module state the steps update.

  /** The module variables of the client and the refs of the session store, with the requests sent and
      the callers waiting, which the runtime keeps, and a count of token changes to speak about them. */
  class Tab {
    var csrfToken: Option<string>
    var inFlight: map<string, nat>
    var promises: seq<Promise>
    var calls: seq<Call>
    var session: Option<string>
    var ready: bool
    var canMutate: bool
    var epoch: nat

    ghost function Now(): Panel
      reads this
    {
      Panel(csrfToken, inFlight, promises, calls, session, ready, canMutate, epoch)
    }

    constructor ()
      ensures Now() == Start()
    {
      csrfToken, inFlight, promises, calls := None, map[], [], [];
      session, ready, canMutate, epoch := None, false, false, 0;
    }

    method SetCsrfToken(token: Option<string>)
      modifies this`csrfToken, this`inFlight, this`epoch
      ensures Now() == SetToken(old(Now()), token)
    {
      csrfToken := token;
      inFlight := map[];
      epoch := epoch + 1;
    }

    method ClearSession()
      modifies this`session, this`canMutate, this`csrfToken, this`inFlight, this`epoch
      ensures Now() == Clear(old(Now()))
    {
      session := None;
      canMutate := false;
      SetCsrfToken(None);
    }

    method Dispatch(isGet: bool, url: string)
      modifies this`promises
      ensures Now() == Send(old(Now()), isGet, url)
    {
      var header := if isGet then None else csrfToken;
      promises := promises + [Promise(isGet, url, header, epoch, Pending)];
    }

    /** `request` up to its first await: the caller waits for the promise that is returned. */
    method Request(purpose: Purpose, isGet: bool, url: string) returns (promise: nat)
      requires Enabled(Now(), if isGet then Get(purpose, url) else Mutate(purpose, url))
      modifies this`inFlight, this`promises, this`calls
      ensures Now() == Apply(old(Now()), if isGet then Get(purpose, url) else Mutate(purpose, url))
      ensures calls != [] && calls[|calls| - 1].promise == promise
    {
      if isGet && url in inFlight {
        promise := inFlight[url];
      } else {
        promise := |promises|;
        Dispatch(isGet, url);
        if isGet {
          inFlight := inFlight[url := promise];
        }
      }
      calls := calls + [Call(purpose, isGet, url, promise, epoch, false)];
    }

    /** `send`, on a 401: the store forgets the session before the caller hears of it. */
    method ReceiveUnauthorized(i: nat)
      requires Enabled(Now(), Answer401(i))
      modifies this
      ensures Now() == Apply(old(Now()), Answer401(i))
    {
      ClearSession();
      ready := true;
      promises := promises[i := promises[i].(progress := Unauthorized)];
    }

    /** The end of `send`, and the `finally` of `request`. */
    method SettleRequest(i: nat, outcome: Outcome)
      requires Enabled(Now(), Settle(i, outcome))
      modifies this`promises, this`inFlight
      ensures Now() == Apply(old(Now()), Settle(i, outcome))
    {
      if promises[i].isGet {
        inFlight := inFlight - {promises[i].url};
      }
      promises := promises[i := promises[i].(progress := Settled(outcome))];
    }

    /** The rest of `login`, `restore` and `logout`, once their request has settled. */
    method Continue(c: nat)
      requires Enabled(Now(), Resume(c))
      modifies this
      ensures Now() == Apply(old(Now()), Resume(c))
    {
      var purpose, outcome := calls[c].purpose, promises[calls[c].promise].progress.outcome;
      calls := calls[c := calls[c].(resumed := true)];
      match purpose {
        case Screen =>
        case Login =>
          if outcome.Session? {
            SetCsrfToken(Some(outcome.token));
            session := Some(outcome.account);
            canMutate := true;
          }
        case Restore =>
          if outcome.Session? {
            SetCsrfToken(if outcome.token == "" then None else Some(outcome.token));
            session := Some(outcome.account);
            canMutate := outcome.token != "";
          } else {
            ClearSession();
          }
          ready := true;
        case Logout =>
          ClearSession();
      }
    }
  }
}
