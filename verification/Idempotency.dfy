/** `idempotency.interceptor.ts`: requests with an `Idempotency-Key` as interleaved steps over one
    shared table. A step is what happens between two awaits: one database call, or the code after it. */
module Idempotency {
  import opened Text

  const TTL_MS: int := 24 * 3_600_000

  /** A mutating request that carries a key. `path` is its URL as `pathOf` shortens it, `fingerprint` the
      hash of its body. */
  datatype Request = Request(user: string, key: string, verb: string, path: string, fingerprint: string)

  /** A row of `request_idempotency`; `body` is the serialized response. */
  datatype Row = Row(id: nat, request: Request, statusCode: int, body: string, expiresAt: int)

  /** Where a request is in `handle`, `next.handle()` and `store`. */
  datatype Phase =
    | Arrived                                             // before `findUnique`
    | Looked(found: Option<Row>)                          // `findUnique` has answered
    | Deleting(rowId: nat)                                // an expired row is being deleted
    | Claimed                                             // the handler is running
    | Storing(statusCode: int, body: string, expiresAt: int) // answered with success; `create` is under way
    | Answered(statusCode: int)                           // the handler answered and nothing is left to do
    | Replayed(row: Row, at: int)                         // answered from a row
    | Refused                                             // CONFLICT_STALE_VERSION
    | Failed                                              // the handler threw, or `delete` found no row

  /** A handler run that answered, and when. */
  datatype Run = Run(who: nat, request: Request, statusCode: int, body: string, at: int)

  datatype World = World(
    rows: map<(string, string), Row>, // unique on (user, key)
    nextId: nat,
    now: int,
    requests: map<nat, Request>,
    phases: map<nat, Phase>,
    runs: set<Run>)

  datatype Event =
    | Arrive(who: nat, request: Request)
    | Read(who: nat)
    | Decide(who: nat)
    | Delete(who: nat)
    | Answer(who: nat, statusCode: int, body: string)
    | Throw(who: nat)
    | Create(who: nat)
    | LoseCreate(who: nat)
    | Sweep(cutoff: int)
    | Tick(ms: nat)

  predicate IsSuccess(statusCode: int) {
    200 <= statusCode < 300
  }

  predicate SameIdentity(a: Request, b: Request) {
    a.verb == b.verb && a.path == b.path && a.fingerprint == b.fingerprint
  }

  function KeyOf(r: Request): (string, string) {
    (r.user, r.key)
  }

  predicate InPhase(w: World, who: nat) {
    who in w.phases && who in w.requests
  }

  /** What may happen next. */
  predicate Enabled(w: World, e: Event) {
    match e
    case Arrive(who, request) => who !in w.phases && who !in w.requests
    case Read(who) => InPhase(w, who) && w.phases[who].Arrived?
    case Decide(who) => InPhase(w, who) && w.phases[who].Looked?
    case Delete(who) => InPhase(w, who) && w.phases[who].Deleting?
    case Answer(who, statusCode, body) => InPhase(w, who) && w.phases[who].Claimed?
    case Throw(who) => InPhase(w, who) && w.phases[who].Claimed?
    case Create(who) => InPhase(w, who) && w.phases[who].Storing?
    case LoseCreate(who) => InPhase(w, who) && w.phases[who].Storing?
    case Sweep(cutoff) => cutoff <= w.now
    case Tick(ms) => true
  }

  function Lookup(w: World, key: (string, string)): Option<Row> {
    if key in w.rows then Some(w.rows[key]) else None
  }

  /** `replayOrClaim` once `findUnique` has answered. */
  function DecisionOf(found: Option<Row>, request: Request, now: int): Phase {
    match found
    case None => Claimed
    case Some(row) =>
      if row.expiresAt <= now then Deleting(row.id)
      else if !SameIdentity(row.request, request) then Refused
      else Replayed(row, now)
  }

  function RowsWithout(rows: map<(string, string), Row>, id: nat): map<(string, string), Row> {
    map k | k in rows && rows[k].id != id :: rows[k]
  }

  predicate HasId(rows: map<(string, string), Row>, id: nat) {
    exists k | k in rows :: rows[k].id == id
  }

  /** What `store` does first: only a success goes on to `create`, and the clock is read here. */
  function AfterAnswer(statusCode: int, body: string, now: int): Phase {
    if IsSuccess(statusCode) then Storing(statusCode, body, now + TTL_MS) else Answered(statusCode)
  }

  function MovedTo(w: World, who: nat, phase: Phase): World {
    w.(phases := w.phases[who := phase])
  }

  function Apply(w: World, e: Event): World
    requires Enabled(w, e)
  {
    match e
    case Arrive(who, request) => MovedTo(w.(requests := w.requests[who := request]), who, Arrived)
    case Read(who) => MovedTo(w, who, Looked(Lookup(w, KeyOf(w.requests[who]))))
    case Decide(who) => MovedTo(w, who, DecisionOf(w.phases[who].found, w.requests[who], w.now))
    case Delete(who) =>
      var id := w.phases[who].rowId;
      if HasId(w.rows, id) then MovedTo(w.(rows := RowsWithout(w.rows, id)), who, Claimed)
      else MovedTo(w, who, Failed)
    case Answer(who, statusCode, body) =>
      MovedTo(w.(runs := w.runs + {Run(who, w.requests[who], statusCode, body, w.now)}), who,
              AfterAnswer(statusCode, body, w.now))
    case Throw(who) => MovedTo(w, who, Failed)
    case Create(who) =>
      var request, s := w.requests[who], w.phases[who];
      var key := KeyOf(request);
      if key in w.rows then MovedTo(w, who, Answered(s.statusCode))
      else
        var row := Row(w.nextId, request, s.statusCode, s.body, s.expiresAt);
        MovedTo(w.(rows := w.rows[key := row], nextId := w.nextId + 1), who, Answered(s.statusCode))
    case LoseCreate(who) => MovedTo(w, who, Answered(w.phases[who].statusCode))
    case Sweep(cutoff) => w.(rows := map k | k in w.rows && w.rows[k].expiresAt > cutoff :: w.rows[k])
    case Tick(ms) => w.(now := w.now + ms)
  }

  function Start(now: int): World {
    World(map[], 0, now, map[], map[], {})
  }

  /** One run of the system: the worlds between the events. */
  ghost predicate IsHistory(worlds: seq<World>, events: seq<Event>) {
    && |worlds| == |events| + 1
    && worlds[0] == Start(worlds[0].now)
    && forall k | 0 <= k < |events| :: Enabled(worlds[k], events[k]) && worlds[k + 1] == Apply(worlds[k], events[k])
  }

  // ---------------------------------------------------------------------------------------
  // The invariant.

  /** A row or replay stands for a successful run of the same request. */
  predicate Witnessed(runs: set<Run>, row: Row) {
    exists run | run in runs ::
      run.request == row.request && run.statusCode == row.statusCode && run.body == row.body
      && IsSuccess(run.statusCode) && row.expiresAt == run.at + TTL_MS
  }

  predicate TableIsSound(w: World) {
    && (forall k | k in w.rows ::
          KeyOf(w.rows[k].request) == k && w.rows[k].id < w.nextId && Witnessed(w.runs, w.rows[k]))
    && (forall k, l | k in w.rows && l in w.rows && w.rows[k].id == w.rows[l].id :: k == l)
  }

  /** A row read earlier is still what the table holds under its id, if it holds anything. */
  predicate SnapshotIsSound(w: World, row: Row) {
    && row.id < w.nextId
    && Witnessed(w.runs, row)
    && forall k | k in w.rows && w.rows[k].id == row.id :: w.rows[k] == row
  }

  predicate PhaseIsSound(w: World, request: Request, phase: Phase) {
    match phase
    case Looked(Some(row)) => KeyOf(row.request) == KeyOf(request) && SnapshotIsSound(w, row)
    case Deleting(id) => id < w.nextId && forall k | k in w.rows && w.rows[k].id == id :: w.rows[k].expiresAt <= w.now
    case Storing(statusCode, body, expiresAt) =>
      Witnessed(w.runs, Row(0, request, statusCode, body, expiresAt))
    case Replayed(row, at) =>
      row.request == request && Witnessed(w.runs, row) && at < row.expiresAt
    case _ => true
  }

  predicate Inv(w: World) {
    && w.phases.Keys == w.requests.Keys
    && TableIsSound(w)
    && forall who | who in w.phases && who in w.requests :: PhaseIsSound(w, w.requests[who], w.phases[who])
  }

  lemma WitnessedStill(runs: set<Run>, more: set<Run>, row: Row)
    requires Witnessed(runs, row) && runs <= more
    ensures Witnessed(more, row)
  {
    var run :| run in runs && run.request == row.request && run.statusCode == row.statusCode && run.body == row.body
      && IsSuccess(run.statusCode) && row.expiresAt == run.at + TTL_MS;
    assert run in more;
  }

  /** The part of a world that the soundness of other requests' phases depends on only grows towards
      soundness: rows disappear or appear under a fresh id, runs are added, the clock moves on. */
  predicate Evolves(w: World, w': World) {
    && w.nextId <= w'.nextId && w.now <= w'.now && w.runs <= w'.runs
    && forall k | k in w'.rows :: (k in w.rows && w'.rows[k] == w.rows[k]) || w.nextId <= w'.rows[k].id
  }

  lemma PhaseStaysSound(w: World, w': World, request: Request, phase: Phase)
    requires PhaseIsSound(w, request, phase) && Evolves(w, w')
    ensures PhaseIsSound(w', request, phase)
  {
    hide Witnessed;
    match phase
    case Looked(Some(row)) => WitnessedStill(w.runs, w'.runs, row);
    case Storing(statusCode, body, expiresAt) =>
      WitnessedStill(w.runs, w'.runs, Row(0, request, statusCode, body, expiresAt));
    case Replayed(row, at) => WitnessedStill(w.runs, w'.runs, row);
    case _ =>
  }

  lemma Evolving(w: World, e: Event)
    requires Inv(w) && Enabled(w, e)
    ensures Evolves(w, Apply(w, e))
  {
    hide Witnessed, PhaseIsSound;
  }

  /** The request an event belongs to. */
  function EventOf(e: Event): Option<nat> {
    match e
    case Sweep(_) => None
    case Tick(_) => None
    case _ => Some(e.who)
  }

  lemma TableStaysSound(w: World, e: Event)
    requires Inv(w) && Enabled(w, e)
    ensures TableIsSound(Apply(w, e))
  {
    hide Witnessed, IsSuccess;
    var w' := Apply(w, e);
    forall k | k in w'.rows
      ensures KeyOf(w'.rows[k].request) == k && w'.rows[k].id < w'.nextId && Witnessed(w'.runs, w'.rows[k])
    {
      if k in w.rows && w'.rows[k] == w.rows[k] {
        WitnessedStill(w.runs, w'.runs, w.rows[k]);
      } else {
        CreatedRowIsWitnessed(w, e.who);
      }
    }
  }

  lemma CreatedRowIsWitnessed(w: World, who: nat)
    requires Inv(w) && Enabled(w, Create(who))
    ensures var s := w.phases[who];
            Witnessed(w.runs, Row(w.nextId, w.requests[who], s.statusCode, s.body, s.expiresAt))
  {
    var s := w.phases[who];
    assert PhaseIsSound(w, w.requests[who], s);
    assert Witnessed(w.runs, Row(0, w.requests[who], s.statusCode, s.body, s.expiresAt));
  }

  /** The phase an event moves its own request to is sound. */
  lemma OwnPhaseIsSound(w: World, e: Event)
    requires Inv(w) && Enabled(w, e) && EventOf(e).Some?
    ensures PhaseIsSound(Apply(w, e), Apply(w, e).requests[e.who], Apply(w, e).phases[e.who])
  {
    hide Witnessed;
    var w' := Apply(w, e);
    match e
    case Decide(who) => assert PhaseIsSound(w, w.requests[who], w.phases[who]);
    case Answer(who, statusCode, body) =>
      if IsSuccess(statusCode) {
        AnswerIsWitnessed(w, who, statusCode, body);
      }
    case _ =>
  }

  lemma AnswerIsWitnessed(w: World, who: nat, statusCode: int, body: string)
    requires Enabled(w, Answer(who, statusCode, body)) && IsSuccess(statusCode)
    ensures Witnessed(Apply(w, Answer(who, statusCode, body)).runs,
                      Row(0, w.requests[who], statusCode, body, w.now + TTL_MS))
  {
    assert Run(who, w.requests[who], statusCode, body, w.now) in Apply(w, Answer(who, statusCode, body)).runs;
  }

  lemma InvIsKept(w: World, e: Event)
    requires Inv(w) && Enabled(w, e)
    ensures Inv(Apply(w, e))
  {
    hide PhaseIsSound, TableIsSound;
    var w' := Apply(w, e);
    Evolving(w, e);
    TableStaysSound(w, e);
    forall who | who in w'.phases && who in w'.requests
      ensures PhaseIsSound(w', w'.requests[who], w'.phases[who])
    {
      if EventOf(e) == Some(who) {
        OwnPhaseIsSound(w, e);
      } else {
        PhaseStaysSound(w, w', w.requests[who], w.phases[who]);
      }
    }
  }

  lemma {:induction false} InvHolds(worlds: seq<World>, events: seq<Event>, k: nat)
    requires IsHistory(worlds, events) && k < |worlds|
    ensures Inv(worlds[k])
  {
    hide Enabled, Apply, Inv, Start;
    if k > 0 {
      InvHolds(worlds, events, k - 1);
      assert worlds[k] == Apply(worlds[k - 1], events[k - 1]);
      InvIsKept(worlds[k - 1], events[k - 1]);
    } else {
      HistoryStarts(worlds, events);
      StartIsSound(worlds[0].now);
    }
  }

  lemma HistoryStarts(worlds: seq<World>, events: seq<Event>)
    requires IsHistory(worlds, events)
    ensures worlds[0] == Start(worlds[0].now)
  {
    hide Enabled, Apply, Start;
  }

  lemma StartIsSound(now: int)
    ensures Inv(Start(now))
  {
  }

  // ---------------------------------------------------------------------------------------
  // What every history keeps.

  /** A stored row is neither removed nor changed while it has not expired. */
  lemma LiveRowStays(w: World, e: Event, key: (string, string))
    requires Inv(w) && Enabled(w, e)
    requires key in w.rows && w.rows[key].expiresAt > Apply(w, e).now
    ensures key in Apply(w, e).rows && Apply(w, e).rows[key] == w.rows[key]
  {
    hide Witnessed;
    if e.Delete? {
      assert PhaseIsSound(w, w.requests[e.who], w.phases[e.who]);
    }
  }

  lemma {:induction false} ClockIsMonotone(worlds: seq<World>, events: seq<Event>, i: nat, j: nat)
    requires IsHistory(worlds, events) && i <= j < |worlds|
    ensures worlds[i].now <= worlds[j].now
    decreases j
  {
    if i < j {
      ClockIsMonotone(worlds, events, i, j - 1);
      assert worlds[j] == Apply(worlds[j - 1], events[j - 1]);
    }
  }

  /** Every row, in every history, stands for a successful handler run of the very request it is keyed by:
      a run that failed is never stored. */
  lemma RowsAreHonest(worlds: seq<World>, events: seq<Event>, k: nat, key: (string, string)) returns (run: Run)
    requires IsHistory(worlds, events) && k < |worlds| && key in worlds[k].rows
    ensures run in worlds[k].runs && 200 <= run.statusCode < 300 && (run.request.user, run.request.key) == key
    ensures var row := worlds[k].rows[key];
            row.request == run.request && row.statusCode == run.statusCode && row.body == run.body
            && row.expiresAt == run.at + 86_400_000
  {
    hide Apply, Enabled, PhaseIsSound;
    InvHolds(worlds, events, k);
    var row := worlds[k].rows[key];
    assert Witnessed(worlds[k].runs, row);
    run :| && run in worlds[k].runs
           && run.request == row.request && run.statusCode == row.statusCode && run.body == row.body
           && IsSuccess(run.statusCode) && row.expiresAt == run.at + TTL_MS;
  }

  /** Over any stretch of any history, a row that is live at the end has been there unchanged. */
  lemma {:induction false} LiveRowIsKept(worlds: seq<World>, events: seq<Event>, i: nat, j: nat, key: (string, string))
    requires IsHistory(worlds, events) && i <= j < |worlds|
    requires key in worlds[i].rows && worlds[i].rows[key].expiresAt > worlds[j].now
    ensures key in worlds[j].rows && worlds[j].rows[key] == worlds[i].rows[key]
    decreases j
  {
    hide Apply, Inv, Enabled;
    if i < j {
      ClockIsMonotone(worlds, events, j - 1, j);
      LiveRowIsKept(worlds, events, i, j - 1, key);
      InvHolds(worlds, events, j - 1);
      assert worlds[j] == Apply(worlds[j - 1], events[j - 1]);
      LiveRowStays(worlds[j - 1], events[j - 1], key);
    }
  }

  /** Every replay, in every history, hands back the status and body of a successful handler run of
      the very same request (user, key, method, path and body fingerprint), less than a day old. */
  lemma ReplaysAreHonest(worlds: seq<World>, events: seq<Event>, k: nat, who: nat)
    returns (run: Run)
    requires IsHistory(worlds, events) && k < |worlds|
    requires InPhase(worlds[k], who) && worlds[k].phases[who].Replayed?
    ensures run in worlds[k].runs && 200 <= run.statusCode < 300
    ensures run.request == worlds[k].requests[who]
    ensures var answer := worlds[k].phases[who];
            answer.row.statusCode == run.statusCode && answer.row.body == run.body && answer.at < run.at + 86_400_000
  {
    hide Apply, Enabled, TableIsSound;
    InvHolds(worlds, events, k);
    var w := worlds[k];
    assert PhaseIsSound(w, w.requests[who], w.phases[who]);
    var row := w.phases[who].row;
    run :| run in w.runs && run.request == row.request && run.statusCode == row.statusCode && run.body == row.body
      && IsSuccess(run.statusCode) && row.expiresAt == run.at + TTL_MS;
  }

  /** How far a request has come: each of its own steps takes it strictly further. */
  function Rank(phase: Phase): nat {
    match phase
    case Arrived => 0
    case Looked(_) => 1
    case Deleting(_) => 2
    case Claimed => 3
    case Storing(_, _, _) => 4
    case _ => 5
  }

  lemma StepMovesOn(w: World, e: Event, who: nat)
    requires Enabled(w, e) && InPhase(w, who)
    ensures var w' := Apply(w, e);
            && InPhase(w', who) && w'.requests[who] == w.requests[who]
            && (w'.phases[who] == w.phases[who] || Rank(w.phases[who]) < Rank(w'.phases[who]))
  {
  }

  lemma {:induction false} PhasesMoveOn(worlds: seq<World>, events: seq<Event>, i: nat, j: nat, who: nat)
    requires IsHistory(worlds, events) && i <= j < |worlds| && InPhase(worlds[i], who)
    ensures InPhase(worlds[j], who) && worlds[j].requests[who] == worlds[i].requests[who]
    ensures worlds[j].phases[who] == worlds[i].phases[who] || Rank(worlds[i].phases[who]) < Rank(worlds[j].phases[who])
    decreases j
  {
    hide Apply, Enabled, Rank;
    if i < j {
      PhasesMoveOn(worlds, events, i, j - 1, who);
      assert worlds[j] == Apply(worlds[j - 1], events[j - 1]);
      StepMovesOn(worlds[j - 1], events[j - 1], who);
    }
  }

  /** The steps at which a request reads the table and decides. */
  ghost predicate LooksUp(worlds: seq<World>, events: seq<Event>, who: nat, r: nat, j: nat) {
    && IsHistory(worlds, events)
    && r < j < |events|
    && events[r] == Read(who) && events[j] == Decide(who)
  }

  /** What a request does is settled by what the table held for its key when it read it, and by the
      clock when it decides: it runs if and only if nothing was stored, clears the way if what was
      stored has expired, and otherwise replays or, for another request, refuses. */
  lemma LookupSettles(worlds: seq<World>, events: seq<Event>, who: nat, r: nat, j: nat)
    requires LooksUp(worlds, events, who, r, j)
    ensures InPhase(worlds[r], who) && InPhase(worlds[j + 1], who)
    ensures var request := worlds[r].requests[who];
            worlds[j + 1].phases[who] == DecisionOf(Lookup(worlds[r], KeyOf(request)), request, worlds[j].now)
  {
    hide DecisionOf, Lookup;
    assert worlds[r + 1] == Apply(worlds[r], events[r]);
    assert worlds[j + 1] == Apply(worlds[j], events[j]);
    assert Enabled(worlds[j], events[j]);
    assert worlds[r + 1].phases[who].Looked?;
    PhasesMoveOn(worlds, events, r + 1, j, who);
  }

  /** Once a row is stored, a request whose lookup follows and that decides before the row expires
      never runs its handler: it gets the stored response, or a refusal if it is another request. */
  lemma StoredRowAnswersLaterRequests(worlds: seq<World>, events: seq<Event>, s: nat, who: nat, r: nat, j: nat)
    requires LooksUp(worlds, events, who, r, j) && s <= r
    requires InPhase(worlds[r], who)
    requires var request := worlds[r].requests[who];
             var key := (request.user, request.key);
             key in worlds[s].rows && worlds[s].rows[key].expiresAt > worlds[j].now
    ensures InPhase(worlds[j + 1], who)
    ensures var request := worlds[r].requests[who];
            var row := worlds[s].rows[(request.user, request.key)];
            worlds[j + 1].phases[who] ==
              if row.request.verb == request.verb && row.request.path == request.path
                 && row.request.fingerprint == request.fingerprint
              then Replayed(row, worlds[j].now) else Refused
    ensures forall m | 0 <= m < |worlds| && InPhase(worlds[m], who) :: !worlds[m].phases[who].Claimed?
    ensures forall run | run in worlds[|worlds| - 1].runs :: run.who != who
  {
    hide Apply, Enabled, Rank, Inv;
    var key := KeyOf(worlds[r].requests[who]);
    ClockIsMonotone(worlds, events, r, j);
    LiveRowIsKept(worlds, events, s, r, key);
    LookupSettles(worlds, events, who, r, j);
    forall m: nat | m < |worlds| && InPhase(worlds[m], who)
      ensures !worlds[m].phases[who].Claimed?
    {
      NeverClaims(worlds, events, who, j, m);
    }
    OnlyClaimantsRun(worlds, events, |worlds| - 1, who);
  }

  lemma NeverClaims(worlds: seq<World>, events: seq<Event>, who: nat, j: nat, m: nat)
    requires IsHistory(worlds, events) && j < |events| && events[j] == Decide(who)
    requires InPhase(worlds[j + 1], who) && (worlds[j + 1].phases[who].Replayed? || worlds[j + 1].phases[who].Refused?)
    requires m < |worlds| && InPhase(worlds[m], who)
    ensures !worlds[m].phases[who].Claimed?
  {
    hide Apply;
    assert Enabled(worlds[j], events[j]);
    if m <= j {
      PhasesMoveOn(worlds, events, m, j, who);
    } else {
      PhasesMoveOn(worlds, events, j + 1, m, who);
    }
  }

  /** A run is recorded only for a request that had claimed its key. */
  lemma {:induction false} OnlyClaimantsRun(worlds: seq<World>, events: seq<Event>, k: nat, who: nat)
    requires IsHistory(worlds, events) && k < |worlds|
    requires forall m | 0 <= m < |worlds| && InPhase(worlds[m], who) :: !worlds[m].phases[who].Claimed?
    ensures forall run | run in worlds[k].runs :: run.who != who
    decreases k
  {
    if k > 0 {
      OnlyClaimantsRun(worlds, events, k - 1, who);
      assert worlds[k] == Apply(worlds[k - 1], events[k - 1]);
      assert Enabled(worlds[k - 1], events[k - 1]);
    } else {
      HistoryStarts(worlds, events);
    }
  }

  /** The row a successful `create` leaves behind, be it this request's or the one that won the race. */
  lemma CreateLeavesARow(worlds: seq<World>, events: seq<Event>, c: nat, who: nat)
    requires IsHistory(worlds, events) && c < |events| && events[c] == Create(who)
    ensures InPhase(worlds[c], who) && KeyOf(worlds[c].requests[who]) in worlds[c + 1].rows
  {
    assert Enabled(worlds[c], events[c]);
    assert worlds[c + 1] == Apply(worlds[c], events[c]);
  }

  /** At step `c` a `create` under this key leaves a row, its own or the one it lost to, that outlives `now`. */
  ghost predicate LeavesLiveRow(worlds: seq<World>, events: seq<Event>, key: (string, string), c: nat, now: int) {
    && c < |events| && c + 1 < |worlds|
    && events[c].Create?
    && InPhase(worlds[c], events[c].who) && KeyOf(worlds[c].requests[events[c].who]) == key
    && key in worlds[c + 1].rows && worlds[c + 1].rows[key].expiresAt > now
  }

  /** Every row goes back to the `create` that put it there. */
  lemma {:induction false} RowComesFromCreate(worlds: seq<World>, events: seq<Event>, k: nat, key: (string, string))
    returns (c: nat)
    requires IsHistory(worlds, events) && k < |worlds| && key in worlds[k].rows
    ensures c < k && LeavesLiveRow(worlds, events, key, c, worlds[k].rows[key].expiresAt - 1)
    ensures worlds[c + 1].rows[key] == worlds[k].rows[key]
    decreases k
  {
    hide Apply, Enabled, Start;
    if k == 0 {
      NoRowsAtFirst(worlds, events);
      assert false;
    } else if key in worlds[k - 1].rows && worlds[k - 1].rows[key] == worlds[k].rows[key] {
      c := RowComesFromCreate(worlds, events, k - 1, key);
    } else {
      c := k - 1;
      StepOf(worlds, events, c);
      NewRowIsCreated(worlds[c], events[c], key);
    }
  }

  lemma NoRowsAtFirst(worlds: seq<World>, events: seq<Event>)
    requires IsHistory(worlds, events)
    ensures worlds[0].rows == map[]
  {
  }

  lemma StepOf(worlds: seq<World>, events: seq<Event>, k: nat)
    requires IsHistory(worlds, events) && k < |events|
    ensures |worlds| == |events| + 1
    ensures Enabled(worlds[k], events[k]) && worlds[k + 1] == Apply(worlds[k], events[k])
  {
  }

  lemma NewRowIsCreated(w: World, e: Event, key: (string, string))
    requires Enabled(w, e) && key in Apply(w, e).rows
    requires !(key in w.rows && w.rows[key] == Apply(w, e).rows[key])
    ensures e.Create? && InPhase(w, e.who) && KeyOf(w.requests[e.who]) == key
  {
  }

  /** Exactly when a request is answered from the table rather than run: if and only if a `create` under
      its key, before its lookup, left a row that outlives its decision. */
  lemma AnsweredIffLiveRowWasLeft(worlds: seq<World>, events: seq<Event>, who: nat, r: nat, j: nat)
    requires LooksUp(worlds, events, who, r, j)
    ensures InPhase(worlds[r], who) && InPhase(worlds[j + 1], who)
    ensures var key := KeyOf(worlds[r].requests[who]);
            worlds[j + 1].phases[who].Replayed? || worlds[j + 1].phases[who].Refused?
            <==> exists c | 0 <= c < r :: LeavesLiveRow(worlds, events, key, c, worlds[j].now)
  {
    hide Apply, Enabled, Start;
    LookupSettles(worlds, events, who, r, j);
    var key, now := KeyOf(worlds[r].requests[who]), worlds[j].now;
    if key in worlds[r].rows && worlds[r].rows[key].expiresAt > now {
      RowWasLeft(worlds, events, key, r, r, now);
    }
    if exists c | 0 <= c < r :: LeavesLiveRow(worlds, events, key, c, now) {
      var c :| 0 <= c < r && LeavesLiveRow(worlds, events, key, c, now);
      ClockIsMonotone(worlds, events, r, j);
      LiveRowIsKept(worlds, events, c + 1, r, key);
    }
  }

  lemma RowWasLeft(worlds: seq<World>, events: seq<Event>, key: (string, string), k: nat, r: nat, now: int)
    requires IsHistory(worlds, events) && k <= r < |worlds|
    requires key in worlds[k].rows && worlds[k].rows[key].expiresAt > now
    ensures exists c | 0 <= c < r :: LeavesLiveRow(worlds, events, key, c, now)
  {
    hide IsHistory;
    var c := RowComesFromCreate(worlds, events, k, key);
    assert LeavesLiveRow(worlds, events, key, c, now);
  }

  function Later(i: nat, j: nat): nat {
    if i < j then j else i
  }

  /** While no row of their key has expired, two requests of one key both go on to run if and only if no
      `create` under it comes before the later of their lookups. */
  lemma BothClaimIffNoRowWasLeft(worlds: seq<World>, events: seq<Event>,
                                 a: nat, ra: nat, ja: nat, b: nat, rb: nat, jb: nat)
    requires LooksUp(worlds, events, a, ra, ja) && LooksUp(worlds, events, b, rb, jb) && ra <= rb
    requires InPhase(worlds[ra], a) && InPhase(worlds[rb], b)
    requires KeyOf(worlds[ra].requests[a]) == KeyOf(worlds[rb].requests[b])
    requires var key := KeyOf(worlds[rb].requests[b]);
             forall k | 0 <= k <= rb && key in worlds[k].rows ::
               worlds[k].rows[key].expiresAt > worlds[Later(ja, jb)].now
    ensures InPhase(worlds[ja + 1], a) && InPhase(worlds[jb + 1], b)
    ensures var key := KeyOf(worlds[rb].requests[b]);
            worlds[ja + 1].phases[a].Claimed? && worlds[jb + 1].phases[b].Claimed?
            <==> !exists c | 0 <= c < rb :: LeavesLiveRow(worlds, events, key, c, worlds[Later(ja, jb)].now)
  {
    hide Apply, Enabled, Start;
    var key, last := KeyOf(worlds[rb].requests[b]), Later(ja, jb);
    ClockIsMonotone(worlds, events, ja, last);
    ClockIsMonotone(worlds, events, jb, last);
    LookupSettles(worlds, events, a, ra, ja);
    LookupSettles(worlds, events, b, rb, jb);
    hide IsHistory;
    if key in worlds[ra].rows {
      RowWasLeft(worlds, events, key, ra, rb, worlds[last].now);
    }
    if key in worlds[rb].rows {
      RowWasLeft(worlds, events, key, rb, rb, worlds[last].now);
    }
    if exists c | 0 <= c < rb :: LeavesLiveRow(worlds, events, key, c, worlds[last].now) {
      var c :| 0 <= c < rb && LeavesLiveRow(worlds, events, key, c, worlds[last].now);
      assert LeavesLiveRow(worlds, events, key, c, worlds[jb].now);
      AnsweredIffLiveRowWasLeft(worlds, events, b, rb, jb);
    }
  }

  /** The step takes the row of this id away: somebody's `delete` of it, or a sweep. */
  predicate Takes(w: World, e: Event, id: nat) {
    && HasId(w.rows, id)
    && (|| (e.Delete? && e.who in w.phases && w.phases[e.who] == Deleting(id))
        || (e.Sweep? && exists k | k in w.rows :: w.rows[k].id == id && w.rows[k].expiresAt <= e.cutoff))
  }

  lemma TakenIffGone(w: World, e: Event, id: nat)
    requires Inv(w) && Enabled(w, e) && id < w.nextId
    ensures HasId(Apply(w, e).rows, id) <==> HasId(w.rows, id) && !Takes(w, e, id)
    ensures id < Apply(w, e).nextId
  {
    hide PhaseIsSound, Witnessed;
    var w' := Apply(w, e);
    if HasId(w.rows, id) {
      var k :| k in w.rows && w.rows[k].id == id;
      if !Takes(w, e, id) {
        assert k in w'.rows && w'.rows[k].id == id;
      }
    }
  }

  /** An id that is gone stays gone, and one that is there stays until a step takes it. */
  lemma {:induction false} StaysIffNotTaken(worlds: seq<World>, events: seq<Event>, i: nat, j: nat, id: nat)
    requires IsHistory(worlds, events) && i <= j < |worlds| && id < worlds[i].nextId
    ensures id < worlds[j].nextId
    ensures HasId(worlds[j].rows, id) <==>
            HasId(worlds[i].rows, id) && forall k | i <= k < j :: !Takes(worlds[k], events[k], id)
    decreases j
  {
    hide Apply, Enabled, Start, Inv, Takes, HasId;
    if i < j {
      StaysIffNotTaken(worlds, events, i, j - 1, id);
      StepOf(worlds, events, j - 1);
      InvHolds(worlds, events, j - 1);
      TakenIffGone(worlds[j - 1], events[j - 1], id);
    }
  }

  /** A request that saw an expired row goes on as new if and only if nobody took that row away between its
      lookup and its own `delete`; otherwise it fails. */
  lemma ClearsTheWayIffNotTaken(worlds: seq<World>, events: seq<Event>, who: nat, r: nat, j: nat, d: nat)
    requires LooksUp(worlds, events, who, r, j) && j < d < |events| && events[d] == Delete(who)
    ensures InPhase(worlds[d], who) && worlds[d].phases[who].Deleting? && InPhase(worlds[d + 1], who)
    ensures var id := worlds[d].phases[who].rowId;
            worlds[d + 1].phases[who] ==
              if forall k | r <= k < d :: !Takes(worlds[k], events[k], id) then Claimed else Failed
  {
    hide Inv, Rank, Takes;
    LookupSettles(worlds, events, who, r, j);
    StepOf(worlds, events, d);
    PhasesMoveOn(worlds, events, j + 1, d, who);
    assert worlds[j + 1].phases[who] == worlds[d].phases[who] by { DeletingIsFirst(worlds, events, who, r, j, d); }
    var key, id := KeyOf(worlds[r].requests[who]), worlds[d].phases[who].rowId;
    InvHolds(worlds, events, r);
    RowIdIsOld(worlds[r], key);
    StaysIffNotTaken(worlds, events, r, d, id);
    assert HasId(worlds[r].rows, id);
  }

  /** Only a decision leads to a `delete`. */
  lemma DeletingIsFirst(worlds: seq<World>, events: seq<Event>, who: nat, r: nat, j: nat, d: nat)
    requires LooksUp(worlds, events, who, r, j) && j < d < |events|
    requires InPhase(worlds[d], who) && worlds[d].phases[who].Deleting?
    ensures InPhase(worlds[j + 1], who) && worlds[j + 1].phases[who] == worlds[d].phases[who]
  {
    hide Apply, Enabled, Start;
    LookupSettles(worlds, events, who, r, j);
    PhasesMoveOn(worlds, events, j + 1, d, who);
  }

  lemma RowIdIsOld(w: World, key: (string, string))
    requires Inv(w)
    ensures key in w.rows ==> w.rows[key].id < w.nextId
  {
    hide PhaseIsSound, Witnessed;
  }

  /** A 2xx answer becomes the row of its key: who asked what, what was answered, and until a day after the
      answer. When the key has a row by then, that row stays as it is. */
  lemma SuccessBecomesTheRow(w: World, who: nat, statusCode: int, body: string)
    requires Enabled(w, Answer(who, statusCode, body)) && 200 <= statusCode < 300
    ensures var answered := Apply(w, Answer(who, statusCode, body));
            var request := w.requests[who];
            var key := (request.user, request.key);
            && answered.rows == w.rows
            && Enabled(answered, Create(who))
            && Apply(answered, Create(who)).rows ==
                 (if key in w.rows then w.rows
                  else w.rows[key := Row(w.nextId, request, statusCode, body, w.now + 86_400_000)])
            && Apply(answered, Create(who)).phases[who] == Answered(statusCode)
  {
    hide HasId, RowsWithout;
  }

  /** Any other answer, and a throw, ends the request there. */
  lemma FailureEndsThere(w: World, who: nat, statusCode: int, body: string)
    requires Enabled(w, Answer(who, statusCode, body))
    ensures !(200 <= statusCode < 300) ==>
              Apply(w, Answer(who, statusCode, body)).phases[who] == Answered(statusCode)
    ensures Apply(w, Throw(who)).phases[who] == Failed
  {
  }

  /** A request that failed leaves the table alone: whatever is stored stays, nothing is added. */
  lemma FailureStoresNothing(w: World, e: Event)
    requires Enabled(w, e)
    requires e.Throw? || (e.Answer? && !IsSuccess(e.statusCode))
    ensures Apply(w, e).rows == w.rows && Rank(Apply(w, e).phases[e.who]) == 5
  {
  }

  // ---------------------------------------------------------------------------------------
  // What is not promised.

  /** A history goes on with any event that is enabled in its last world. */
  lemma GoesOn(worlds: seq<World>, events: seq<Event>, e: Event, next: World)
    requires IsHistory(worlds, events)
    requires Enabled(worlds[|worlds| - 1], e) && next == Apply(worlds[|worlds| - 1], e)
    ensures IsHistory(worlds + [next], events + [e])
  {
    hide Enabled, Apply;
    var worlds', events' := worlds + [next], events + [e];
    forall k | 0 <= k < |events'|
      ensures Enabled(worlds'[k], events'[k]) && worlds'[k + 1] == Apply(worlds'[k], events'[k])
    {
      if k < |events| {
        assert worlds'[k] == worlds[k] && worlds'[k + 1] == worlds[k + 1] && events'[k] == events[k];
      }
    }
  }

  /** A history that gets to `w`. */
  ghost predicate Reaches(worlds: seq<World>, events: seq<Event>, w: World) {
    IsHistory(worlds, events) && worlds[|worlds| - 1] == w
  }

  lemma Goes(worlds: seq<World>, events: seq<Event>, w: World, e: Event, next: World)
    returns (worlds': seq<World>, events': seq<Event>)
    requires Reaches(worlds, events, w) && Enabled(w, e) && next == Apply(w, e)
    ensures Reaches(worlds', events', next)
  {
    hide Enabled, Apply;
    GoesOn(worlds, events, e, next);
    worlds', events' := worlds + [next], events + [e];
  }

  lemma Begins(now: int) returns (worlds: seq<World>, events: seq<Event>)
    ensures Reaches(worlds, events, Start(now))
  {
    worlds, events := [Start(now)], [];
  }

  function AfterBothClaim(request: Request, now: int): World {
    World(map[], 0, now, map[0 := request, 1 := request], map[0 := Claimed, 1 := Claimed], {})
  }

  /** Two requests that have both decided before either has stored. */
  lemma BothClaim(request: Request, now: int) returns (worlds: seq<World>, events: seq<Event>)
    ensures Reaches(worlds, events, AfterBothClaim(request, now))
  {
    hide Reaches;
    var asked := map[0 := request, 1 := request];
    var w0 := Start(now);
    worlds, events := Begins(now);
    var w1 := World(map[], 0, now, map[0 := request], map[0 := Arrived], {});
    worlds, events := Goes(worlds, events, w0, Arrive(0, request), w1);
    var w2 := World(map[], 0, now, asked, map[0 := Arrived, 1 := Arrived], {});
    worlds, events := Goes(worlds, events, w1, Arrive(1, request), w2);
    var w3 := World(map[], 0, now, asked, map[0 := Looked(None), 1 := Arrived], {});
    worlds, events := Goes(worlds, events, w2, Read(0), w3);
    var w4 := World(map[], 0, now, asked, map[0 := Looked(None), 1 := Looked(None)], {});
    worlds, events := Goes(worlds, events, w3, Read(1), w4);
    var w5 := World(map[], 0, now, asked, map[0 := Claimed, 1 := Looked(None)], {});
    worlds, events := Goes(worlds, events, w4, Decide(0), w5);
    var w6 := World(map[], 0, now, asked, map[0 := Claimed, 1 := Claimed], {});
    worlds, events := Goes(worlds, events, w5, Decide(1), w6);
  }

  function AfterBothAnswer(request: Request, now: int, body: string, body': string): World {
    World(map[], 0, now, map[0 := request, 1 := request],
          map[0 := Storing(200, body, now + TTL_MS), 1 := Storing(200, body', now + TTL_MS)],
          {Run(0, request, 200, body, now), Run(1, request, 200, body', now)})
  }

  /** Two runs that have both succeeded before either is stored. */
  lemma BothAnswer(request: Request, now: int, body: string, body': string)
    returns (worlds: seq<World>, events: seq<Event>)
    ensures Reaches(worlds, events, AfterBothAnswer(request, now, body, body'))
  {
    hide Reaches;
    var w0 := AfterBothClaim(request, now);
    worlds, events := BothClaim(request, now);
    var asked := map[0 := request, 1 := request];
    var first, second := Run(0, request, 200, body, now), Run(1, request, 200, body', now);
    var storing, storing' := Storing(200, body, now + TTL_MS), Storing(200, body', now + TTL_MS);
    var w1 := World(map[], 0, now, asked, map[0 := storing, 1 := Claimed], {first});
    worlds, events := Goes(worlds, events, w0, Answer(0, 200, body), w1);
    var w2 := World(map[], 0, now, asked, map[0 := storing, 1 := storing'], {first, second});
    worlds, events := Goes(worlds, events, w1, Answer(1, 200, body'), w2);
  }

  /** Two overlapping requests with one key both run: nothing is claimed before the handler runs, so
      both lookups can come before the first store. Only the first answer is kept for replays. */
  lemma OverlappingRequestsBothRun(request: Request, now: int, body: string, body': string)
    returns (worlds: seq<World>, events: seq<Event>)
    ensures IsHistory(worlds, events)
    ensures var last := worlds[|worlds| - 1];
            && last.runs == {Run(0, request, 200, body, now), Run(1, request, 200, body', now)}
            && last.phases == map[0 := Answered(200), 1 := Answered(200)]
            && last.rows == map[KeyOf(request) := Row(0, request, 200, body, now + TTL_MS)]
  {
    hide IsHistory;
    var w0 := AfterBothAnswer(request, now, body, body');
    worlds, events := BothAnswer(request, now, body, body');
    var asked := map[0 := request, 1 := request];
    var first, second := Run(0, request, 200, body, now), Run(1, request, 200, body', now);
    var storing' := Storing(200, body', now + TTL_MS);
    var rows := map[KeyOf(request) := Row(0, request, 200, body, now + TTL_MS)];
    var w1 := World(rows, 1, now, asked, map[0 := Answered(200), 1 := storing'], {first, second});
    worlds, events := Goes(worlds, events, w0, Create(0), w1);
    var w2 := World(rows, 1, now, asked, map[0 := Answered(200), 1 := Answered(200)], {first, second});
    worlds, events := Goes(worlds, events, w1, Create(1), w2);
  }

  function WithExpiredRow(request: Request, now: int, body: string): World {
    World(map[KeyOf(request) := Row(0, request, 200, body, now + TTL_MS)], 1, now + TTL_MS,
          map[2 := request], map[2 := Answered(200)], {Run(2, request, 200, body, now)})
  }

  function AfterClaim(request: Request, now: int): World {
    World(map[], 0, now, map[2 := request], map[2 := Claimed], {})
  }

  lemma OneClaims(request: Request, now: int) returns (worlds: seq<World>, events: seq<Event>)
    ensures Reaches(worlds, events, AfterClaim(request, now))
  {
    hide Reaches;
    var asked, w0 := map[2 := request], Start(now);
    worlds, events := Begins(now);
    var w1 := World(map[], 0, now, asked, map[2 := Arrived], {});
    worlds, events := Goes(worlds, events, w0, Arrive(2, request), w1);
    var w2 := World(map[], 0, now, asked, map[2 := Looked(None)], {});
    worlds, events := Goes(worlds, events, w1, Read(2), w2);
    worlds, events := Goes(worlds, events, w2, Decide(2), AfterClaim(request, now));
  }

  /** A row that has expired and that nobody has cleared away. */
  lemma RowExpires(request: Request, now: int, body: string) returns (worlds: seq<World>, events: seq<Event>)
    ensures Reaches(worlds, events, WithExpiredRow(request, now, body))
  {
    hide Reaches;
    var asked, runs := map[2 := request], {Run(2, request, 200, body, now)};
    worlds, events := OneClaims(request, now);
    var w1 := World(map[], 0, now, asked, map[2 := Storing(200, body, now + TTL_MS)], runs);
    worlds, events := Goes(worlds, events, AfterClaim(request, now), Answer(2, 200, body), w1);
    var rows := map[KeyOf(request) := Row(0, request, 200, body, now + TTL_MS)];
    var w2 := World(rows, 1, now, asked, map[2 := Answered(200)], runs);
    worlds, events := Goes(worlds, events, w1, Create(2), w2);
    worlds, events := Goes(worlds, events, w2, Tick(TTL_MS), WithExpiredRow(request, now, body));
  }

  /** The table with the expired row, and three requests. */
  function AtExpiredRow(request: Request, now: int, body: string, first: Phase, second: Phase): World {
    World(map[KeyOf(request) := Row(0, request, 200, body, now + TTL_MS)], 1, now + TTL_MS,
          map[0 := request, 1 := request, 2 := request], map[0 := first, 1 := second, 2 := Answered(200)],
          {Run(2, request, 200, body, now)})
  }

  lemma TwoMoreArrive(request: Request, now: int, body: string) returns (worlds: seq<World>, events: seq<Event>)
    ensures Reaches(worlds, events, AtExpiredRow(request, now, body, Arrived, Arrived))
  {
    hide Reaches;
    var w0, late := WithExpiredRow(request, now, body), now + TTL_MS;
    worlds, events := RowExpires(request, now, body);
    var w1 := World(map[KeyOf(request) := Row(0, request, 200, body, late)], 1, late,
                    map[0 := request, 2 := request], map[0 := Arrived, 2 := Answered(200)],
                    {Run(2, request, 200, body, now)});
    worlds, events := Goes(worlds, events, w0, Arrive(0, request), w1);
    worlds, events := Goes(worlds, events, w1, Arrive(1, request), AtExpiredRow(request, now, body, Arrived, Arrived));
  }

  lemma BothLook(request: Request, now: int, body: string) returns (worlds: seq<World>, events: seq<Event>)
    ensures var seen := Looked(Some(Row(0, request, 200, body, now + TTL_MS)));
            Reaches(worlds, events, AtExpiredRow(request, now, body, seen, seen))
  {
    hide Reaches;
    var seen := Looked(Some(Row(0, request, 200, body, now + TTL_MS)));
    var w0 := AtExpiredRow(request, now, body, Arrived, Arrived);
    worlds, events := TwoMoreArrive(request, now, body);
    var w1 := AtExpiredRow(request, now, body, seen, Arrived);
    worlds, events := Goes(worlds, events, w0, Read(0), w1);
    worlds, events := Goes(worlds, events, w1, Read(1), AtExpiredRow(request, now, body, seen, seen));
  }

  lemma OneDecides(request: Request, now: int, body: string) returns (worlds: seq<World>, events: seq<Event>)
    ensures var seen := Looked(Some(Row(0, request, 200, body, now + TTL_MS)));
            Reaches(worlds, events, AtExpiredRow(request, now, body, Deleting(0), seen))
  {
    hide Reaches;
    var seen := Looked(Some(Row(0, request, 200, body, now + TTL_MS)));
    worlds, events := BothLook(request, now, body);
    worlds, events := Goes(worlds, events, AtExpiredRow(request, now, body, seen, seen), Decide(0),
                           AtExpiredRow(request, now, body, Deleting(0), seen));
  }

  /** Two requests that have both seen the expired row. */
  lemma BothSeeExpired(request: Request, now: int, body: string) returns (worlds: seq<World>, events: seq<Event>)
    ensures Reaches(worlds, events, AtExpiredRow(request, now, body, Deleting(0), Deleting(0)))
  {
    hide Reaches;
    var seen := Looked(Some(Row(0, request, 200, body, now + TTL_MS)));
    worlds, events := OneDecides(request, now, body);
    worlds, events := Goes(worlds, events, AtExpiredRow(request, now, body, Deleting(0), seen), Decide(1),
                           AtExpiredRow(request, now, body, Deleting(0), Deleting(0)));
  }

  /** Of two requests that meet one expired row, the first clears it away and runs; the second finds
      nothing to delete and fails instead of going on as new. */
  lemma ExpiredRowFailsTheSecond(request: Request, now: int, body: string)
    returns (worlds: seq<World>, events: seq<Event>)
    ensures IsHistory(worlds, events)
    ensures var last := worlds[|worlds| - 1];
            last.rows == map[] && last.phases == map[0 := Claimed, 1 := Failed, 2 := Answered(200)]
  {
    hide IsHistory;
    var w0 := AtExpiredRow(request, now, body, Deleting(0), Deleting(0));
    worlds, events := BothSeeExpired(request, now, body);
    var late, runs := now + TTL_MS, {Run(2, request, 200, body, now)};
    var asked := map[0 := request, 1 := request, 2 := request];
    assert w0.rows[KeyOf(request)].id == 0;
    assert RowsWithout(w0.rows, 0) == map[];
    var w1 := World(map[], 1, late, asked, map[0 := Claimed, 1 := Deleting(0), 2 := Answered(200)], runs);
    worlds, events := Goes(worlds, events, w0, Delete(0), w1);
    var w2 := World(map[], 1, late, asked, map[0 := Claimed, 1 := Failed, 2 := Answered(200)], runs);
    worlds, events := Goes(worlds, events, w1, Delete(1), w2);
  }

  // ---------------------------------------------------------------------------------------
  // What a request brings along.

  const MAX_KEY := 200

  const MAX_PATH := 255

  datatype HeaderKey = NoKey | TooLong | Key(key: string)

  /** `keyOf`, on the first value of the header. */
  function HeaderKeyOf(header: Option<string>): HeaderKey {
    match header
    case None => NoKey
    case Some(value) =>
      var trimmed := Trim(value);
      if trimmed == "" then NoKey else if |trimmed| > MAX_KEY then TooLong else Key(trimmed)
  }

  /** `pathOf`: the query is no part of a request's identity. */
  function PathOf(url: string): string {
    var path := Split(url, '?')[0];
    if |path| > MAX_PATH then path[..MAX_PATH] else path
  }

  /** Two requests for one path are the same request to the table, whatever their queries say. */
  lemma QueryIsNoIdentity(path: string, query: string)
    requires '?' !in path
    ensures PathOf(path + "?" + query) == PathOf(path)
  {
    SplitFirst(path, '?', query);
    SplitPlain(path, '?');
    assert path + ['?'] + query == path + "?" + query;
  }

  /** A path that is short enough is compared as it is, a longer one by its first 255 characters. */
  lemma PathIsKept(path: string)
    requires '?' !in path
    ensures |PathOf(path)| == (if |path| < 255 then |path| else 255) && PathOf(path) <= path
  {
    SplitPlain(path, '?');
  }

  lemma {:induction false} TrimAroundInk(before: string, key: string, after: string)
    requires IsBlankText(before) && IsBlankText(after)
    requires key != "" && !IsSpace(key[0]) && !IsSpace(key[|key| - 1])
    ensures Trim(before + key + after) == key
    decreases |before| + |after|
  {
    hide IsSpace;
    if before != "" {
      TrimLead(before[0], before[1..] + key + after);
      assert before + key + after == [before[0]] + (before[1..] + key + after);
      TrimAroundInk(before[1..], key, after);
    } else if after != "" {
      var n := |after| - 1;
      TrimTrail(before + key + after[..n], after[n]);
      assert before + key + after == (before + key + after[..n]) + [after[n]];
      TrimAroundInk(before, key, after[..n]);
    } else {
      assert before + key + after == key;
    }
  }

  lemma {:induction false} TrimOfBlanks(s: string)
    requires IsBlankText(s)
    ensures Trim(s) == ""
  {
    hide IsSpace;
    if s != "" {
      TrimLead(s[0], s[1..]);
      assert s == [s[0]] + s[1..];
      TrimOfBlanks(s[1..]);
    }
  }

  /** What a header counts for: blanks around a key mean nothing, blanks alone are no key, and a key of more
      than 200 characters is not meant. */
  lemma HeaderReads(before: string, key: string, after: string)
    requires IsBlankText(before) && IsBlankText(after)
    requires key == "" || (!IsSpace(key[0]) && !IsSpace(key[|key| - 1]))
    ensures HeaderKeyOf(Some(before + key + after)) ==
            if key == "" then NoKey else if |key| <= 200 then Key(key) else TooLong
    ensures HeaderKeyOf(None) == NoKey
  {
    hide Trim, IsSpace;
    if key == "" {
      TrimOfBlanks(before + key + after);
    } else {
      TrimAroundInk(before, key, after);
    }
  }

  /** Whether a request goes round the table, is refused at once, or enters it. */
  datatype Route = Unguarded | Invalid | Guarded

  // ---------------------------------------------------------------------------------------
  // The table and the interceptor as the objects the steps update.

  /** The shared table, the clock and the requests in flight. */
  class Interceptor {
    var rows: map<(string, string), Row>
    var nextId: nat
    var now: int
    var requests: map<nat, Request>
    var phases: map<nat, Phase>
    ghost var runs: set<Run>

    ghost function Now(): World
      reads this
    {
      World(rows, nextId, now, requests, phases, runs)
    }

    constructor (clock: int)
      ensures Now() == Start(clock)
    {
      rows, nextId, now, requests, phases, runs := map[], 0, clock, map[], map[], {};
    }

    /** A key too long to be meant is refused; without a key, or without a user to scope it to, the
        request takes the path it took before there were keys. */
    method Intercept(who: nat, header: Option<string>, user: Option<string>,
                     verb: string, url: string, fingerprint: string)
      returns (route: Route)
      requires who !in phases && who !in requests
      modifies this
      ensures route.Invalid? <==> HeaderKeyOf(header).TooLong?
      ensures route.Guarded? <==> HeaderKeyOf(header).Key? && user.Some?
      ensures !route.Guarded? ==> Now() == old(Now())
      ensures route.Guarded? ==>
                var request := Request(user.value, HeaderKeyOf(header).key, verb, PathOf(url), fingerprint);
                Now() == Apply(old(Now()), Arrive(who, request))
    {
      var key := HeaderKeyOf(header);
      if key.TooLong? {
        return Invalid;
      }
      if key.NoKey? || user.None? {
        return Unguarded;
      }
      requests := requests[who := Request(user.value, key.key, verb, PathOf(url), fingerprint)];
      phases := phases[who := Arrived];
      return Guarded;
    }

    method FindUnique(who: nat)
      requires Enabled(Now(), Read(who))
      modifies this`phases
      ensures Now() == Apply(old(Now()), Read(who))
    {
      var key := KeyOf(requests[who]);
      var existing := None;
      if key in rows {
        existing := Some(rows[key]);
      }
      phases := phases[who := Looked(existing)];
    }

    method ReplayOrClaim(who: nat)
      requires Enabled(Now(), Decide(who))
      modifies this`phases
      ensures Now() == Apply(old(Now()), Decide(who))
    {
      var request := requests[who];
      match phases[who].found {
        case None =>
          phases := phases[who := Claimed];
        case Some(existing) =>
          if existing.expiresAt <= now {
            phases := phases[who := Deleting(existing.id)];
            return;
          }
          var sameRequest := existing.request.verb == request.verb
            && existing.request.path == request.path
            && existing.request.fingerprint == request.fingerprint;
          if !sameRequest {
            phases := phases[who := Refused];
            return;
          }
          phases := phases[who := Replayed(existing, now)];
      }
    }

    method DeleteExpired(who: nat)
      requires Enabled(Now(), Delete(who))
      modifies this`rows, this`phases
      ensures Now() == Apply(old(Now()), Delete(who))
    {
      var id := phases[who].rowId;
      if HasId(rows, id) {
        rows := RowsWithout(rows, id);
        phases := phases[who := Claimed];
      } else {
        phases := phases[who := Failed];
      }
    }

    method Store(who: nat, statusCode: int, body: string)
      requires Enabled(Now(), Answer(who, statusCode, body))
      modifies this`phases, this`runs
      ensures Now() == Apply(old(Now()), Answer(who, statusCode, body))
    {
      runs := runs + {Run(who, requests[who], statusCode, body, now)};
      if statusCode < 200 || statusCode >= 300 {
        phases := phases[who := Answered(statusCode)];
        return;
      }
      phases := phases[who := Storing(statusCode, body, now + TTL_MS)];
    }

    method CreateRow(who: nat)
      requires Enabled(Now(), Create(who))
      modifies this`rows, this`nextId, this`phases
      ensures Now() == Apply(old(Now()), Create(who))
    {
      var request, s := requests[who], phases[who];
      var key := KeyOf(request);
      if key !in rows {
        rows := rows[key := Row(nextId, request, s.statusCode, s.body, s.expiresAt)];
        nextId := nextId + 1;
      }
      phases := phases[who := Answered(s.statusCode)];
    }

    /** The retention job's `deleteMany`, with the cutoff it read from the clock when it began. */
    method SweepExpired(cutoff: int)
      requires Enabled(Now(), Sweep(cutoff))
      modifies this`rows
      ensures Now() == Apply(old(Now()), Sweep(cutoff))
    {
      rows := map k | k in rows && rows[k].expiresAt > cutoff :: rows[k];
    }
  }
}
