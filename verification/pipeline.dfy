/** The guarded request pipeline under interleaving. A request runs in segments that end where the
    handler code awaits; between two segments of one request any other request, the expiry sweep, a
    restart or an operator erasure may run. Within a segment everything is one step. */
module Pipeline {
  import opened Wrappers
  import opened Policy
  import opened Guards
  import opened Intents

  datatype Tool = DiscoverProducts | GetForecast | CheckAvailability | CreateIntent | RevokeIntent

  const READ_WINDOW_MS := 30_000
  const REVOKE_WINDOW_MS := 2_000

  function WindowOf(tool: Tool): int {
    if tool.RevokeIntent? then REVOKE_WINDOW_MS else READ_WINDOW_MS
  }

  function SurfaceOf(tool: Tool): string {
    match tool
    case DiscoverProducts => PRODUCT_DISCOVERY
    case GetForecast => FORECAST
    case CheckAvailability => FORECAST
    case CreateIntent => INTENT
    case RevokeIntent => INTENT
  }

  const SCOPE := "gam.readonly"
  const PHASE := "phase-1-readonly"

  /** The ledger entries the pipeline writes, with the fields the results below speak about. */
  datatype Event =
    | BuyerAuthentication(requestId: string, buyer: string, surface: string, allow: bool)
    | ScopeResolution(requestId: string, buyer: string, surface: string, decision: Decision)
    | ForecastRequest(requestId: string, buyer: string)
    | IntentCreated(requestId: string, buyer: string, intentId: string)
    | IntentRevoked(requestId: string, buyer: string, intentId: string)
    | IntentExpired(buyer: string, intentId: string)

  datatype Outcome = Success | AuthFailed | RateLimited | ReplayRejected | InvalidRequest | Unavailable

  /** What the caller asked for: the fields the handlers read. */
  datatype Args = Args(familyId: string, period: string, priceRef: real, intentId: string)

  /** `Validating` waits for the token check, `Authenticated` for the continuation after it, `Handling`
      for the forecast source. */
  datatype Stage =
    | Validating
    | Authenticated(buyer: string)
    | Handling(buyer: string)
    | Done(outcome: Outcome)

  datatype Inflight = Inflight(tool: Tool, args: Args, clientId: Option<string>, stage: Stage)

  datatype Settings = Settings(
    requireIdempotencyKey: bool, replayWindowMs: int, ttlMs: int, prices: map<string, FamilyPrice>)

  /** A request whose client id passed the replay gate: when it was looked up and when it was recorded. */
  datatype Pass = Pass(epoch: nat, requestId: string, clientId: string, checkedAt: int, recordedAt: int)

  /** A domain handler that started: for whom, under which grants, and how long the ledger was just before. */
  datatype HandlerRun = HandlerRun(
    epoch: nat, tool: Tool, buyer: string, requestId: string, at: int, ledgerLength: nat,
    grants: map<string, Entitlement>)

  /** What an intent was created under: its buyer, the price check, its own creation, the price's
      validity. */
  datatype Terms = Terms(buyer: string, pricedAt: int, createdAt: int, priceValidUntil: int)

  /** The replay guard and one limiter per tool, all in memory. */
  datatype Guard = Guard(seen: Seen, limits: map<Tool, LastAllowed>)

  /** The intent store, and what became of every intent ever created. */
  datatype Book = Book(
    live: seq<Intent>, created: map<string, Terms>, revoked: set<string>, expired: set<string>, purged: set<string>)

  /** What happened at the gates, in order. */
  datatype Trace = Trace(passes: seq<Pass>, runs: seq<HandlerRun>)

  /** `epoch` counts restarts. */
  datatype World = World(
    now: int, epoch: nat, grants: map<string, Entitlement>, guard: Guard, ledger: seq<Event>, book: Book,
    requests: map<string, Inflight>, trace: Trace)

  const NO_LIMITS: map<Tool, LastAllowed> :=
    map[DiscoverProducts := map[], GetForecast := map[], CheckAvailability := map[], CreateIntent := map[],
        RevokeIntent := map[]]

  const NO_GUARD := Guard(map[], NO_LIMITS)
  const EMPTY_BOOK := Book([], map[], {}, {}, {})

  function Boot(now: int, grants: map<string, Entitlement>): World {
    World(now, 0, grants, NO_GUARD, [], EMPTY_BOOK, map[], Trace([], []))
  }

  /** `requestId` and `intentId` are drawn at random: never used before. Times are clock readings. */
  datatype Action =
    | Arrive(requestId: string, tool: Tool, args: Args, clientId: Option<string>, hasToken: bool,
             checkedAt: int, recordedAt: int)
    | Validated(requestId: string, valid: bool, sub: string)
    | Authorize(requestId: string, at: int, pricedAt: int, createdAt: int, intentId: string)
    | Forecasted(requestId: string, ok: bool)
    | Prune(at: int)
    | Sweep(at: int)
    | Restart(at: int, grants: map<string, Entitlement>)
    | Purge(at: int, buyer: string)

  function LimitsFor(g: Guard, tool: Tool): LastAllowed {
    if tool in g.limits then g.limits[tool] else map[]
  }

  /** Clock readings never go back, and random ids are new. */
  predicate Enabled(w: World, a: Action) {
    match a
    case Arrive(id, _, _, _, _, checkedAt, recordedAt) => id !in w.requests && w.now <= checkedAt <= recordedAt
    case Validated(id, _, _) => id in w.requests && w.requests[id].stage.Validating?
    case Authorize(id, at, pricedAt, createdAt, intentId) =>
      && id in w.requests && w.requests[id].stage.Authenticated?
      && w.now <= at <= pricedAt <= createdAt && intentId !in w.book.created
    case Forecasted(id, _) => id in w.requests && w.requests[id].stage.Handling?
    case Prune(at) => w.now <= at
    case Sweep(at) => w.now <= at
    case Restart(at, _) => w.now <= at
    case Purge(at, _) => w.now <= at
  }

  // First segment: the idempotency key, the replay gate, and the token check is under way.

  predicate LacksKey(settings: Settings, a: Action)
    requires a.Arrive?
  {
    settings.requireIdempotencyKey && a.clientId.None?
  }

  predicate IsReplay(w: World, a: Action)
    requires a.Arrive?
  {
    a.clientId.Some? && Blocks(w.guard.seen, a.clientId.value, a.checkedAt)
  }

  /** The world after the replay gate: an id that is not blocked is remembered at once. */
  function Gate(settings: Settings, w: World, requestId: string, clientId: Option<string>, checkedAt: int,
                recordedAt: int)
    : World
  {
    if clientId.None? || Blocks(w.guard.seen, clientId.value, checkedAt) then w
    else
      var until := recordedAt + settings.replayWindowMs;
      var seen := AfterLookup(w.guard.seen, clientId.value, checkedAt)[clientId.value := until];
      var pass := Pass(w.epoch, requestId, clientId.value, checkedAt, recordedAt);
      w.(guard := Guard(seen, w.guard.limits), trace := Trace(w.trace.passes + [pass], w.trace.runs))
  }

  /** The request is where `req` says and the clock moves. */
  function MovedOn(w: World, now: int, requestId: string, req: Inflight): World {
    w.(now := now, requests := w.requests[requestId := req])
  }

  function ArriveStep(settings: Settings, w: World, a: Action): World
    requires a.Arrive?
  {
    var stage :=
      if LacksKey(settings, a) then Done(InvalidRequest)
      else if IsReplay(w, a) then Done(ReplayRejected)
      else if !a.hasToken then Done(AuthFailed)
      else Validating;
    MovedOn(Gate(settings, w, a.requestId, a.clientId, a.checkedAt, a.recordedAt), a.recordedAt, a.requestId,
            Inflight(a.tool, a.args, a.clientId, stage))
  }

  // Second segment: the token's verdict is logged; identity is the token's subject and nothing else.

  function ValidatedStep(w: World, a: Action): World
    requires a.Validated? && a.requestId in w.requests
  {
    var req := w.requests[a.requestId];
    var stage := if a.valid && a.sub != "" then Authenticated(a.sub) else Done(AuthFailed);
    World(w.now, w.epoch, w.grants, w.guard,
          w.ledger + [BuyerAuthentication(a.requestId, a.sub, SurfaceOf(req.tool), a.valid)], w.book,
          w.requests[a.requestId := req.(stage := stage)], w.trace)
  }

  // Third segment: policy, its log entry, the tool's rate limit, and the handler up to its await.

  function DecisionFor(w: World, buyer: string, tool: Tool): Decision {
    Decide(if buyer in w.grants then Some(w.grants[buyer]) else None, Request(buyer, SurfaceOf(tool), SCOPE, PHASE))
  }

  /** What a handler does to the intents and the ledger, and where it leaves its request. */
  datatype Effect = Effect(book: Book, events: seq<Event>, stage: Stage)

  function HandleCreate(settings: Settings, book: Book, a: Action, args: Args, buyer: string): Effect
    requires a.Authorize?
  {
    var price := PriceFor(settings.prices, args.familyId, a.pricedAt);
    if price.None? || price.value.listPrice != args.priceRef then Effect(book, [], Done(InvalidRequest))
    else
      var input := CreateInput(buyer, args.familyId, args.period, price.value.listPrice, price.value.currency,
          price.value.validUntil);
      var intent := NewIntent(input, a.intentId, a.createdAt, settings.ttlMs);
      var terms := Terms(buyer, a.pricedAt, a.createdAt, price.value.validUntil);
      Effect(Book(book.live + [intent], book.created[a.intentId := terms], book.revoked, book.expired, book.purged),
             [IntentCreated(a.requestId, buyer, a.intentId)], Done(Success))
  }

  function HandleRevoke(book: Book, a: Action, args: Args, buyer: string): Effect
    requires a.Authorize?
  {
    if Revocable(book.live, args.intentId, buyer, a.createdAt).None? then Effect(book, [], Done(InvalidRequest))
    else Effect(Book(Left(book.live, Named(args.intentId)), book.created, book.revoked + {args.intentId}, book.expired,
                     book.purged),
                [IntentRevoked(a.requestId, buyer, args.intentId)], Done(Success))
  }

  function Handle(settings: Settings, book: Book, a: Action, tool: Tool, args: Args, buyer: string): Effect
    requires a.Authorize?
  {
    match tool
    case DiscoverProducts => Effect(book, [], Done(Success))
    case GetForecast => Effect(book, [], Handling(buyer))
    case CheckAvailability => Effect(book, [], Handling(buyer))
    case CreateIntent => HandleCreate(settings, book, a, args, buyer)
    case RevokeIntent => HandleRevoke(book, a, args, buyer)
  }

  /** The policy decision is logged. */
  function Logged(w: World, requestId: string, tool: Tool, buyer: string): World {
    w.(ledger := w.ledger + [ScopeResolution(requestId, buyer, SurfaceOf(tool), DecisionFor(w, buyer, tool))])
  }

  /** The world after the rate limit: a request it lets through is a handler run. */
  function Limited(w: World, requestId: string, tool: Tool, buyer: string, at: int): World {
    var last := LimitsFor(w.guard, tool);
    if !Allows(last, buyer, at, WindowOf(tool)) then w
    else
      var run := HandlerRun(w.epoch, tool, buyer, requestId, at, |w.ledger|, w.grants);
      w.(guard := Guard(w.guard.seen, w.guard.limits[tool := AfterCheck(last, buyer, at, WindowOf(tool))]),
         trace := Trace(w.trace.passes, w.trace.runs + [run]))
  }

  /** What the code behind the policy leaves: the world but for clock and request, and the request's stage. */
  datatype Admission = Admission(w: World, stage: Stage)

  function Admit(settings: Settings, w: World, a: Action, tool: Tool, args: Args, buyer: string): Admission
    requires a.Authorize?
  {
    if !Allows(LimitsFor(w.guard, tool), buyer, a.at, WindowOf(tool)) then Admission(w, Done(RateLimited))
    else
      var limited := Limited(w, a.requestId, tool, buyer, a.at);
      var effect := Handle(settings, w.book, a, tool, args, buyer);
      Admission(limited.(ledger := w.ledger + effect.events, book := effect.book), effect.stage)
  }

  function AuthorizeStep(settings: Settings, w: World, a: Action): World
    requires a.Authorize? && a.requestId in w.requests && w.requests[a.requestId].stage.Authenticated?
  {
    var req := w.requests[a.requestId];
    var buyer := req.stage.buyer;
    var logged := Logged(w, a.requestId, req.tool, buyer);
    var admission :=
      if DecisionFor(w, buyer, req.tool).allow then Admit(settings, logged, a, req.tool, req.args, buyer)
      else Admission(logged, Done(AuthFailed));
    MovedOn(admission.w, a.createdAt, a.requestId, req.(stage := admission.stage))
  }

  // Last segment of the two forecast tools.

  function ForecastedStep(w: World, a: Action): World
    requires a.Forecasted? && a.requestId in w.requests && w.requests[a.requestId].stage.Handling?
  {
    var req := w.requests[a.requestId];
    World(w.now, w.epoch, w.grants, w.guard,
          if a.ok then w.ledger + [ForecastRequest(a.requestId, req.stage.buyer)] else w.ledger, w.book,
          w.requests[a.requestId := req.(stage := Done(if a.ok then Success else Unavailable))], w.trace)
  }

  // The node's own activities.

  function ExpiryEvents(expired: seq<Intent>): (r: seq<Event>)
    ensures |r| == |expired|
    ensures forall i :: 0 <= i < |r| ==> r[i] == IntentExpired(expired[i].buyerId, expired[i].intentId)
  {
    seq(|expired|, i requires 0 <= i < |expired| => IntentExpired(expired[i].buyerId, expired[i].intentId))
  }

  function SweptBook(book: Book, at: int): Book {
    Book(Left(book.live, LapsedBy(at)), book.created, book.revoked,
         book.expired + Ids(Picked(book.live, LapsedBy(at))), book.purged)
  }

  function PurgedBook(book: Book, buyer: string): Book {
    Book(Left(book.live, OwnedBy(buyer)), book.created, book.revoked, book.expired,
         book.purged + Ids(Picked(book.live, OwnedBy(buyer))))
  }

  function SweepStep(w: World, at: int): World {
    World(at, w.epoch, w.grants, w.guard, w.ledger + ExpiryEvents(Picked(w.book.live, LapsedBy(at))),
          SweptBook(w.book, at), w.requests, w.trace)
  }

  function Dropped(req: Inflight): Inflight {
    if req.stage.Done? then req else req.(stage := Done(Unavailable))
  }

  /** Guards and requests in flight are gone; ledger and intents come back as saved. */
  function RestartStep(w: World, at: int, grants: map<string, Entitlement>, book: Book): World {
    World(at, w.epoch + 1, grants, NO_GUARD, w.ledger, book,
          map id | id in w.requests :: Dropped(w.requests[id]), w.trace)
  }

  /** One step; an action that is not enabled does nothing. An operator erasure runs while the node is
      down, so it includes a restart. */
  function Step(settings: Settings, w: World, a: Action): World {
    if !Enabled(w, a) then w
    else
      match a
      case Arrive(_, _, _, _, _, _, _) => ArriveStep(settings, w, a)
      case Validated(_, _, _) => ValidatedStep(w, a)
      case Authorize(_, _, _, _, _) => AuthorizeStep(settings, w, a)
      case Forecasted(_, _) => ForecastedStep(w, a)
      case Prune(at) => w.(now := at, guard := Guard(Unexpired(w.guard.seen, at), w.guard.limits))
      case Sweep(at) => SweepStep(w, at)
      case Restart(at, grants) => RestartStep(w, at, grants, w.book)
      case Purge(at, buyer) => RestartStep(w, at, w.grants, PurgedBook(w.book, buyer))
  }

  function Execute(settings: Settings, w: World, actions: seq<Action>): World
    decreases |actions|
  {
    if |actions| == 0 then w else Execute(settings, Step(settings, w, actions[0]), actions[1..])
  }

  // ---------------------------------------------------------------------------------------------
  // Rate limit and replay gate
  // ---------------------------------------------------------------------------------------------

  predicate SameLane(x: HandlerRun, y: HandlerRun) {
    x.epoch == y.epoch && x.tool == y.tool && x.buyer == y.buyer
  }

  ghost predicate Spaced(runs: seq<HandlerRun>) {
    forall i, j :: 0 <= i < j < |runs| && SameLane(runs[i], runs[j]) ==>
        runs[j].at - runs[i].at >= WindowOf(runs[i].tool)
  }

  /** The limiter remembers a time not before any run of this process in its lane. */
  ghost predicate LimitsCover(w: World) {
    forall i :: 0 <= i < |w.trace.runs| && w.trace.runs[i].epoch == w.epoch ==>
      var last := LimitsFor(w.guard, w.trace.runs[i].tool);
      w.trace.runs[i].buyer in last && w.trace.runs[i].at <= last[w.trace.runs[i].buyer]
  }

  ghost predicate OncePerWindow(settings: Settings, passes: seq<Pass>) {
    forall i, j :: 0 <= i < j < |passes| && passes[i].epoch == passes[j].epoch &&
        passes[i].clientId == passes[j].clientId
      ==> passes[j].checkedAt >= passes[i].recordedAt + settings.replayWindowMs
  }

  /** A pass of this process is still remembered, or its window is over. */
  ghost predicate SeenCovers(settings: Settings, w: World) {
    forall i :: 0 <= i < |w.trace.passes| && w.trace.passes[i].epoch == w.epoch ==>
      var until := w.trace.passes[i].recordedAt + settings.replayWindowMs;
      w.now >= until || (w.trace.passes[i].clientId in w.guard.seen &&
          w.guard.seen[w.trace.passes[i].clientId] >= until)
  }

  /** Nothing was logged in a process run that is still to come. */
  ghost predicate EpochsPast(w: World) {
    && (forall i :: 0 <= i < |w.trace.runs| ==> w.trace.runs[i].epoch <= w.epoch)
    && (forall i :: 0 <= i < |w.trace.passes| ==> w.trace.passes[i].epoch <= w.epoch)
  }

  ghost predicate Guarded(settings: Settings, w: World) {
    && EpochsPast(w)
    && Spaced(w.trace.runs) && LimitsCover(w)
    && OncePerWindow(settings, w.trace.passes) && SeenCovers(settings, w)
  }

  /** Only guards, trace and process run matter, and time only passes. */
  lemma SameGuards(settings: Settings, w: World, after: World)
    requires Guarded(settings, w) && w.now <= after.now
    requires after.guard == w.guard && after.trace == w.trace && after.epoch == w.epoch
    ensures Guarded(settings, after)
  {
  }

  lemma GateKeepsGuarded(settings: Settings, w: World, requestId: string, clientId: Option<string>, checkedAt: int,
                         recordedAt: int)
    requires Guarded(settings, w) && w.now <= checkedAt <= recordedAt
    ensures Guarded(settings, Gate(settings, w, requestId, clientId, checkedAt, recordedAt).(now := recordedAt))
  {
  }

  lemma LimitKeepsGuarded(settings: Settings, w: World, requestId: string, tool: Tool, buyer: string, at: int)
    requires Guarded(settings, w) && w.now <= at
    ensures Guarded(settings, Limited(w, requestId, tool, buyer, at))
  {
    LimitKeepsSpaced(settings, w, requestId, tool, buyer, at);
    LimitKeepsCover(settings, w, requestId, tool, buyer, at);
  }

  lemma LimitKeepsSpaced(settings: Settings, w: World, requestId: string, tool: Tool, buyer: string, at: int)
    requires Spaced(w.trace.runs) && LimitsCover(w) && EpochsPast(w)
    ensures var after := Limited(w, requestId, tool, buyer, at);
            Spaced(after.trace.runs) && EpochsPast(after)
  {
  }

  lemma LimitKeepsCover(settings: Settings, w: World, requestId: string, tool: Tool, buyer: string, at: int)
    requires LimitsCover(w) && WindowOf(tool) >= 0
    ensures LimitsCover(Limited(w, requestId, tool, buyer, at))
  {
  }

  lemma ArriveKeepsGuarded(settings: Settings, w: World, a: Action)
    requires Guarded(settings, w) && a.Arrive? && Enabled(w, a)
    ensures Guarded(settings, Step(settings, w, a))
  {
    GateKeepsGuarded(settings, w, a.requestId, a.clientId, a.checkedAt, a.recordedAt);
    var gated := Gate(settings, w, a.requestId, a.clientId, a.checkedAt, a.recordedAt).(now := a.recordedAt);
    SameGuards(settings, gated, Step(settings, w, a));
  }

  lemma AuthorizeKeepsGuarded(settings: Settings, w: World, a: Action)
    requires Guarded(settings, w) && a.Authorize? && Enabled(w, a)
    ensures Guarded(settings, Step(settings, w, a))
  {
    var req := w.requests[a.requestId];
    var logged := Logged(w, a.requestId, req.tool, req.stage.buyer);
    SameGuards(settings, w, logged);
    LimitKeepsGuarded(settings, logged, a.requestId, req.tool, req.stage.buyer, a.at);
    SameGuards(settings, if DecisionFor(w, req.stage.buyer, req.tool).allow
                         then Limited(logged, a.requestId, req.tool, req.stage.buyer, a.at) else logged,
               Step(settings, w, a));
  }

  lemma StepKeepsGuarded(settings: Settings, w: World, a: Action)
    requires Guarded(settings, w)
    ensures Guarded(settings, Step(settings, w, a))
  {
    if !Enabled(w, a) {
    } else if a.Arrive? {
      ArriveKeepsGuarded(settings, w, a);
    } else if a.Authorize? {
      AuthorizeKeepsGuarded(settings, w, a);
    }
  }

  // ---------------------------------------------------------------------------------------------
  // Handlers run only behind the gates
  // ---------------------------------------------------------------------------------------------

  /** The first `length` ledger entries hold an accepted authentication of this request as this buyer. */
  ghost predicate WasAuthenticated(ledger: seq<Event>, length: nat, requestId: string, buyer: string, tool: Tool) {
    exists i :: 0 <= i < length && i < |ledger| &&
        ledger[i] == BuyerAuthentication(requestId, buyer, SurfaceOf(tool), true)
  }

  /** The first `length` ledger entries end in an allowing policy decision for this request and buyer. */
  ghost predicate WasAllowed(ledger: seq<Event>, length: nat, requestId: string, buyer: string, tool: Tool) {
    && 0 < length <= |ledger|
    && ledger[length - 1].ScopeResolution?
    && ledger[length - 1].requestId == requestId && ledger[length - 1].buyer == buyer
    && ledger[length - 1].surface == SurfaceOf(tool) && ledger[length - 1].decision.allow
  }

  ghost predicate Gated(w: World) {
    && (forall id :: id in w.requests && w.requests[id].stage.Authenticated? ==>
          WasAuthenticated(w.ledger, |w.ledger|, id, w.requests[id].stage.buyer, w.requests[id].tool))
    && (forall i :: 0 <= i < |w.trace.runs| ==> GatedRun(w.ledger, w.trace.runs[i]))
  }

  ghost predicate GatedRun(ledger: seq<Event>, r: HandlerRun) {
    && r.ledgerLength <= |ledger|
    && r.buyer != ""
    && WasAuthenticated(ledger, r.ledgerLength, r.requestId, r.buyer, r.tool)
    && WasAllowed(ledger, r.ledgerLength, r.requestId, r.buyer, r.tool)
  }

  ghost predicate NamedBuyers(w: World) {
    forall id :: id in w.requests && w.requests[id].stage.Authenticated? ==> w.requests[id].stage.buyer != ""
  }

  lemma LedgerOnlyGrows(settings: Settings, w: World, a: Action)
    ensures w.ledger <= Step(settings, w, a).ledger
  {
  }

  lemma GrowthKeepsEvidence(ledger: seq<Event>, longer: seq<Event>, length: nat, requestId: string, buyer: string,
                            tool: Tool)
    requires ledger <= longer && length <= |ledger|
    ensures WasAuthenticated(ledger, length, requestId, buyer, tool) ==>
              && WasAuthenticated(longer, |longer|, requestId, buyer, tool)
              && WasAuthenticated(longer, length, requestId, buyer, tool)
    ensures WasAllowed(ledger, length, requestId, buyer, tool) ==> WasAllowed(longer, length, requestId, buyer, tool)
  {
    if WasAuthenticated(ledger, length, requestId, buyer, tool) {
      var i :| 0 <= i < length && i < |ledger| &&
          ledger[i] == BuyerAuthentication(requestId, buyer, SurfaceOf(tool), true);
      assert longer[i] == ledger[i];
    }
  }

  lemma RequestsStayGated(settings: Settings, w: World, a: Action, id: string)
    requires Gated(w) && NamedBuyers(w)
    requires var after := Step(settings, w, a); id in after.requests && after.requests[id].stage.Authenticated?
    ensures var after := Step(settings, w, a);
            && WasAuthenticated(after.ledger, |after.ledger|, id, after.requests[id].stage.buyer,
                 after.requests[id].tool)
            && after.requests[id].stage.buyer != ""
  {
    var after := Step(settings, w, a);
    LedgerOnlyGrows(settings, w, a);
    if a.Validated? && Enabled(w, a) && a.requestId == id {
      assert after.ledger[|w.ledger|] == BuyerAuthentication(id, a.sub, SurfaceOf(after.requests[id].tool), true);
    } else {
      assert id in w.requests && w.requests[id].stage.Authenticated? && after.requests[id] == w.requests[id];
      GrowthKeepsEvidence(w.ledger, after.ledger, |w.ledger|, id, w.requests[id].stage.buyer, w.requests[id].tool);
    }
  }

  lemma NewRunIsGated(settings: Settings, w: World, a: Action)
    requires Gated(w) && NamedBuyers(w) && a.Authorize? && Enabled(w, a)
    requires |Step(settings, w, a).trace.runs| > |w.trace.runs|
    ensures var after := Step(settings, w, a);
            after.trace.runs[..|w.trace.runs|] == w.trace.runs && |after.trace.runs| == |w.trace.runs| + 1 &&
                GatedRun(after.ledger, after.trace.runs[|w.trace.runs|])
  {
    var req := w.requests[a.requestId];
    var buyer := req.stage.buyer;
    var after := Step(settings, w, a);
    LedgerOnlyGrows(settings, w, a);
    GrowthKeepsEvidence(w.ledger, after.ledger, |w.ledger|, a.requestId, buyer, req.tool);
    assert after.ledger[|w.ledger|] ==
        ScopeResolution(a.requestId, buyer, SurfaceOf(req.tool), DecisionFor(w, buyer, req.tool));
  }

  lemma StepKeepsGated(settings: Settings, w: World, a: Action)
    requires Gated(w) && NamedBuyers(w)
    ensures Gated(Step(settings, w, a)) && NamedBuyers(Step(settings, w, a))
  {
    var after := Step(settings, w, a);
    LedgerOnlyGrows(settings, w, a);
    forall id | id in after.requests && after.requests[id].stage.Authenticated?
      ensures WasAuthenticated(after.ledger, |after.ledger|, id, after.requests[id].stage.buyer,
                after.requests[id].tool)
           && after.requests[id].stage.buyer != ""
    {
      RequestsStayGated(settings, w, a, id);
    }
    if |after.trace.runs| > |w.trace.runs| {
      NewRunIsGated(settings, w, a);
    } else {
      RunsUnchanged(settings, w, a);
    }
    forall i | 0 <= i < |after.trace.runs|
      ensures GatedRun(after.ledger, after.trace.runs[i])
    {
      if i < |w.trace.runs| {
        var r := w.trace.runs[i];
        assert after.trace.runs[i] == r && GatedRun(w.ledger, r);
        GrowthKeepsEvidence(w.ledger, after.ledger, r.ledgerLength, r.requestId, r.buyer, r.tool);
      }
    }
  }

  lemma RunsUnchanged(settings: Settings, w: World, a: Action)
    requires |Step(settings, w, a).trace.runs| <= |w.trace.runs|
    ensures Step(settings, w, a).trace.runs == w.trace.runs
  {
  }

  // ---------------------------------------------------------------------------------------------
  // Intent conservation
  // ---------------------------------------------------------------------------------------------

  /** A live intent belongs to the buyer who created it and expires as its price and TTL allow. */
  predicate OnTerms(settings: Settings, book: Book, i: Intent) {
    && i.intentId in book.created
    && i.buyerId == book.created[i.intentId].buyer
    && i.expiresAt == Min(book.created[i.intentId].createdAt + settings.ttlMs, book.created[i.intentId].priceValidUntil)
    && book.created[i.intentId].pricedAt <= book.created[i.intentId].createdAt
    && book.created[i.intentId].pricedAt < book.created[i.intentId].priceValidUntil
  }

  /** Every id ever created is live, revoked, expired or purged, and only one of these. */
  ghost predicate Balanced(settings: Settings, book: Book) {
    && UniqueIds(book.live) && AllActive(book.live)
    && book.created.Keys == Ids(book.live) + book.revoked + book.expired + book.purged
    && Ids(book.live) !! book.revoked !! book.expired !! book.purged
    && (forall i :: i in book.live ==> OnTerms(settings, book, i))
  }

  /** What an event says about the intent `id`. */
  predicate Creates(e: Event, id: string) {
    e.IntentCreated? && e.intentId == id
  }

  predicate Terminates(e: Event, id: string) {
    (e.IntentRevoked? || e.IntentExpired?) && e.intentId == id
  }

  function Creations(ledger: seq<Event>, id: string): nat {
    if |ledger| == 0 then 0
    else Creations(ledger[..|ledger| - 1], id) + if Creates(ledger[|ledger| - 1], id) then 1 else 0
  }

  function Terminations(ledger: seq<Event>, id: string): nat {
    if |ledger| == 0 then 0
    else Terminations(ledger[..|ledger| - 1], id) + if Terminates(ledger[|ledger| - 1], id) then 1 else 0
  }

  lemma {:induction false} CountsAdd(ledger: seq<Event>, more: seq<Event>, id: string)
    ensures Creations(ledger + more, id) == Creations(ledger, id) + Creations(more, id)
    ensures Terminations(ledger + more, id) == Terminations(ledger, id) + Terminations(more, id)
  {
    if |more| == 0 {
      assert ledger + more == ledger;
    } else {
      CountsAdd(ledger, more[..|more| - 1], id);
      assert (ledger + more)[..|ledger + more| - 1] == ledger + more[..|more| - 1];
    }
  }

  lemma {:induction false} ExpiryCounts(expired: seq<Intent>, id: string)
    requires UniqueIds(expired)
    ensures Creations(ExpiryEvents(expired), id) == 0
    ensures Terminations(ExpiryEvents(expired), id) == if id in Ids(expired) then 1 else 0
  {
    if |expired| > 0 {
      var init := expired[..|expired| - 1];
      var last := expired[|expired| - 1];
      ExpiryCounts(init, id);
      assert ExpiryEvents(expired)[..|expired| - 1] == ExpiryEvents(init);
      assert forall i :: i in expired <==> i in init || i == last;
      assert forall i :: i in init ==> i.intentId != last.intentId;
    }
  }

  /** The ledger has one creation event for each created id and none for others, one terminal event for
      each revoked or expired id and none for others. */
  ghost predicate Accounted(w: World) {
    forall id: string ::
      && Creations(w.ledger, id) == (if id in w.book.created then 1 else 0)
      && Terminations(w.ledger, id) == (if id in w.book.revoked || id in w.book.expired then 1 else 0)
  }

  /** A revocation or expiry is logged for the buyer who created the intent. */
  predicate OwnEvent(book: Book, e: Event) {
    e.IntentRevoked? || e.IntentExpired? || e.IntentCreated? ==>
      e.intentId in book.created && book.created[e.intentId].buyer == e.buyer
  }

  ghost predicate OwnEvents(w: World) {
    forall i :: 0 <= i < |w.ledger| ==> OwnEvent(w.book, w.ledger[i])
  }

  /** A commitment honours the declared price, and only that: it succeeds if and only if the family has a
      price that is still valid and the caller named exactly that price; the one new intent then carries the
      declared price and currency and outlives neither the price nor the TTL. */
  lemma CommitsExactly(settings: Settings, book: Book, a: Action, args: Args, buyer: string)
    requires a.Authorize?
    ensures var effect := HandleCreate(settings, book, a, args, buyer);
            && (effect.stage == Done(Success) <==> PriceStands(settings, args, a.pricedAt))
            && (effect.stage != Done(Success) ==> effect == Effect(book, [], Done(InvalidRequest)))
            && (effect.stage == Done(Success) ==>
                  && |effect.book.live| == |book.live| + 1 && effect.book.live[..|book.live|] == book.live
                  && IsCommitment(settings, effect.book.live[|book.live|], a, args, buyer))
  {
  }

  predicate PriceStands(settings: Settings, args: Args, at: int) {
    && args.familyId in settings.prices
    && at < settings.prices[args.familyId].validUntil
    && settings.prices[args.familyId].listPrice == args.priceRef
  }

  predicate IsCommitment(settings: Settings, i: Intent, a: Action, args: Args, buyer: string)
    requires a.Authorize? && args.familyId in settings.prices
  {
    var price := settings.prices[args.familyId];
    && i.intentId == a.intentId && i.buyerId == buyer && i.familyId == args.familyId && i.period == args.period
    && i.status == Active && i.createdAt == a.createdAt
    && i.firmPrice == args.priceRef == price.listPrice && i.currency == price.currency
    && i.expiresAt <= price.validUntil && i.expiresAt <= a.createdAt + settings.ttlMs
    && (i.expiresAt == price.validUntil || i.expiresAt == a.createdAt + settings.ttlMs)
  }

  lemma CreateKeepsBalanced(settings: Settings, book: Book, a: Action, args: Args, buyer: string)
    requires Balanced(settings, book) && a.Authorize? && a.intentId !in book.created && a.pricedAt <= a.createdAt
    ensures Balanced(settings, HandleCreate(settings, book, a, args, buyer).book)
  {
    var after := HandleCreate(settings, book, a, args, buyer).book;
    if after != book {
      var added := after.live[|book.live|];
      assert after.live == book.live + [added];
      assert forall i :: i in after.live <==> i in book.live || i == added;
      assert Ids(after.live) == Ids(book.live) + {a.intentId};
      forall i | i in after.live
        ensures OnTerms(settings, after, i)
      {
        if i != added {
          assert OnTerms(settings, book, i);
        }
      }
    }
  }

  lemma SelectionKeepsTerms(settings: Settings, book: Book, sel: Selector, after: Book)
    requires Balanced(settings, book) && after.live == Left(book.live, sel) && after.created == book.created
    ensures UniqueIds(after.live) && AllActive(after.live)
    ensures Ids(book.live) == Ids(after.live) + Ids(Picked(book.live, sel)) &&
              Ids(after.live) !! Ids(Picked(book.live, sel))
    ensures forall i :: i in after.live ==> OnTerms(settings, after, i)
  {
    SelectionSplits(book.live, sel);
    SelectionKeepsUnique(book.live, sel);
    forall i | i in after.live
      ensures OnTerms(settings, after, i)
    {
      assert OnTerms(settings, book, i);
    }
  }

  /** Revoking picks exactly the one intent, the caller's own. */
  lemma RevokeKeepsBalanced(settings: Settings, book: Book, a: Action, args: Args, buyer: string)
    requires Balanced(settings, book) && a.Authorize?
    ensures var effect := HandleRevoke(book, a, args, buyer);
            && Balanced(settings, effect.book)
            && (effect.events != [] ==>
                  && args.intentId in Ids(book.live)
                  && args.intentId in book.created && book.created[args.intentId].buyer == buyer)
  {
    RevocableIsOwn(book.live, args.intentId, buyer, a.createdAt);
    var own := Revocable(book.live, args.intentId, buyer, a.createdAt);
    if own.Some? {
      SelectionSplits(book.live, Named(args.intentId));
      SelectionKeepsTerms(settings, book, Named(args.intentId), HandleRevoke(book, a, args, buyer).book);
      assert Ids(Picked(book.live, Named(args.intentId))) == {args.intentId};
      assert OnTerms(settings, book, own.value);
    }
  }

  lemma SweepKeepsBalanced(settings: Settings, book: Book, at: int)
    requires Balanced(settings, book)
    ensures Balanced(settings, SweptBook(book, at))
  {
    SelectionKeepsTerms(settings, book, LapsedBy(at), SweptBook(book, at));
  }

  lemma PurgeKeepsBalanced(settings: Settings, book: Book, buyer: string)
    requires Balanced(settings, book)
    ensures Balanced(settings, PurgedBook(book, buyer))
  {
    SelectionKeepsTerms(settings, book, OwnedBy(buyer), PurgedBook(book, buyer));
  }

  /** What the intent side of a step does, apart from everything else. */
  ghost predicate BookMoves(settings: Settings, book: Book, after: Book, events: seq<Event>) {
    && Balanced(settings, after)
    && (forall id :: id in book.created ==> id in after.created && after.created[id] == book.created[id])
    && (forall id: string ::
          && Creations(events, id) == (if id in after.created && id !in book.created then 1 else 0)
          && Terminations(events, id)
             == (if (id in after.revoked && id !in book.revoked) ||
                 (id in after.expired && id !in book.expired) then 1 else 0))
    && book.revoked <= after.revoked && book.expired <= after.expired
    && (forall i :: 0 <= i < |events| ==> OwnEvent(after, events[i]))
  }

  lemma {:induction false} SingleCounts(e: Event, id: string)
    ensures Creations([e], id) == if Creates(e, id) then 1 else 0
    ensures Terminations([e], id) == if Terminates(e, id) then 1 else 0
  {
    assert [e][..0] == [];
  }

  lemma CreateMovesBook(settings: Settings, book: Book, a: Action, args: Args, buyer: string)
    requires Balanced(settings, book) && a.Authorize? && a.intentId !in book.created && a.pricedAt <= a.createdAt
    ensures var effect := HandleCreate(settings, book, a, args, buyer);
            BookMoves(settings, book, effect.book, effect.events)
  {
    var effect := HandleCreate(settings, book, a, args, buyer);
    CreateKeepsBalanced(settings, book, a, args, buyer);
    if effect.book == book {
      QuietMovesBook(settings, book, []);
    } else {
      forall id: string
        ensures Creations(effect.events, id) == if id == a.intentId then 1 else 0
        ensures Terminations(effect.events, id) == 0
      {
        SingleCounts(effect.events[0], id);
      }
    }
  }

  lemma RevokeMovesBook(settings: Settings, book: Book, a: Action, args: Args, buyer: string)
    requires Balanced(settings, book) && a.Authorize?
    ensures var effect := HandleRevoke(book, a, args, buyer);
            BookMoves(settings, book, effect.book, effect.events)
  {
    var effect := HandleRevoke(book, a, args, buyer);
    RevokeKeepsBalanced(settings, book, a, args, buyer);
    if effect.events == [] {
      QuietMovesBook(settings, book, []);
    } else {
      forall id: string
        ensures Creations(effect.events, id) == 0
        ensures Terminations(effect.events, id) == if id == args.intentId then 1 else 0
      {
        SingleCounts(effect.events[0], id);
      }
    }
  }

  lemma HandleMovesBook(settings: Settings, book: Book, a: Action, tool: Tool, args: Args, buyer: string)
    requires Balanced(settings, book) && a.Authorize? && a.intentId !in book.created && a.pricedAt <= a.createdAt
    ensures var effect := Handle(settings, book, a, tool, args, buyer);
            BookMoves(settings, book, effect.book, effect.events)
  {
    match tool
    case CreateIntent => CreateMovesBook(settings, book, a, args, buyer);
    case RevokeIntent => RevokeMovesBook(settings, book, a, args, buyer);
    case DiscoverProducts => QuietMovesBook(settings, book, []);
    case GetForecast => QuietMovesBook(settings, book, []);
    case CheckAvailability => QuietMovesBook(settings, book, []);
  }

  /** Logging one more event first leaves the move a move. */
  lemma LoggedMove(settings: Settings, book: Book, after: Book, first: Event, events: seq<Event>)
    requires BookMoves(settings, book, after, events)
    requires !first.IntentCreated? && !first.IntentRevoked? && !first.IntentExpired?
    ensures BookMoves(settings, book, after, [first] + events)
  {
    forall id: string
      ensures Creations([first] + events, id) == Creations(events, id)
      ensures Terminations([first] + events, id) == Terminations(events, id)
    {
      CountsAdd([first], events, id);
      SingleCounts(first, id);
    }
  }

  lemma SweepMovesBook(settings: Settings, book: Book, at: int)
    requires Balanced(settings, book)
    ensures BookMoves(settings, book, SweptBook(book, at), ExpiryEvents(Picked(book.live, LapsedBy(at))))
  {
    var lapsed := Picked(book.live, LapsedBy(at));
    SweepKeepsBalanced(settings, book, at);
    SelectionSplits(book.live, LapsedBy(at));
    SelectionKeepsTerms(settings, book, LapsedBy(at), SweptBook(book, at));
    SelectionKeepsUnique(book.live, LapsedBy(at));
    forall id: string
      ensures Creations(ExpiryEvents(lapsed), id) == 0
      ensures Terminations(ExpiryEvents(lapsed), id) == if id in Ids(lapsed) then 1 else 0
    {
      ExpiryCounts(lapsed, id);
    }
    forall i | 0 <= i < |lapsed|
      ensures OwnEvent(SweptBook(book, at), ExpiryEvents(lapsed)[i])
    {
      assert lapsed[i] in lapsed;
      assert OnTerms(settings, book, lapsed[i]);
    }
  }

  lemma QuietMovesBook(settings: Settings, book: Book, events: seq<Event>)
    requires Balanced(settings, book)
    requires |events| <= 1 && forall i :: 0 <= i < |events| ==>
               !events[i].IntentCreated? && !events[i].IntentRevoked? && !events[i].IntentExpired?
    ensures BookMoves(settings, book, book, events)
  {
    if |events| == 1 {
      forall id: string
        ensures Creations(events, id) == 0 && Terminations(events, id) == 0
      {
        assert events == [events[0]];
        SingleCounts(events[0], id);
      }
    }
  }

  ghost predicate Sound(settings: Settings, w: World) {
    Guarded(settings, w) && Gated(w) && NamedBuyers(w) && Balanced(settings, w.book) && Accounted(w) && OwnEvents(w)
  }

  /** A step that moves the book and logs accordingly keeps the accounts. */
  lemma MovesKeepAccounts(settings: Settings, w: World, after: World, events: seq<Event>)
    requires Balanced(settings, w.book) && Accounted(w) && OwnEvents(w)
    requires BookMoves(settings, w.book, after.book, events) && after.ledger == w.ledger + events
    ensures Accounted(after) && OwnEvents(after)
  {
    forall id: string
      ensures Creations(after.ledger, id) == (if id in after.book.created then 1 else 0)
      ensures Terminations(after.ledger, id) == (if id in after.book.revoked || id in after.book.expired then 1 else 0)
    {
      CountsAdd(w.ledger, events, id);
    }
    forall i | 0 <= i < |after.ledger|
      ensures OwnEvent(after.book, after.ledger[i])
    {
      if i < |w.ledger| {
        assert OwnEvent(w.book, w.ledger[i]);
      }
    }
  }

  /** An operator erasure takes intents away without any event. */
  lemma PurgeKeepsAccounts(settings: Settings, w: World, after: World, buyer: string)
    requires Balanced(settings, w.book) && Accounted(w) && OwnEvents(w)
    requires after.book == PurgedBook(w.book, buyer) && after.ledger == w.ledger
    ensures Accounted(after) && OwnEvents(after)
  {
    forall i | 0 <= i < |after.ledger|
      ensures OwnEvent(after.book, after.ledger[i])
    {
      assert OwnEvent(w.book, w.ledger[i]);
    }
  }

  lemma StepKeepsAccounts(settings: Settings, w: World, a: Action)
    requires Balanced(settings, w.book) && Accounted(w) && OwnEvents(w)
    ensures var after := Step(settings, w, a); Balanced(settings, after.book) && Accounted(after) && OwnEvents(after)
  {
    var after := Step(settings, w, a);
    if !Enabled(w, a) {
    } else if a.Authorize? {
      AuthorizeKeepsAccounts(settings, w, a);
    } else if a.Sweep? {
      SweepMovesBook(settings, w.book, a.at);
      MovesKeepAccounts(settings, w, after, ExpiryEvents(Picked(w.book.live, LapsedBy(a.at))));
    } else if a.Purge? {
      PurgeKeepsBalanced(settings, w.book, a.buyer);
      PurgeKeepsAccounts(settings, w, after, a.buyer);
    } else {
      var events := after.ledger[|w.ledger|..];
      QuietMovesBook(settings, w.book, events);
      MovesKeepAccounts(settings, w, after, events);
    }
  }

  lemma AuthorizeKeepsAccounts(settings: Settings, w: World, a: Action)
    requires Balanced(settings, w.book) && Accounted(w) && OwnEvents(w) && a.Authorize? && Enabled(w, a)
    ensures var after := Step(settings, w, a); Balanced(settings, after.book) && Accounted(after) && OwnEvents(after)
  {
    var req := w.requests[a.requestId];
    var buyer := req.stage.buyer;
    var decision := DecisionFor(w, buyer, req.tool);
    var after := Step(settings, w, a);
    var first := ScopeResolution(a.requestId, buyer, SurfaceOf(req.tool), decision);
    if decision.allow && Allows(LimitsFor(w.guard, req.tool), buyer, a.at, WindowOf(req.tool)) {
      HandlerKeepsAccounts(settings, w, after, a, req.tool, req.args, buyer, first);
    } else {
      QuietMovesBook(settings, w.book, [first]);
      assert after.ledger == w.ledger + [first];
      MovesKeepAccounts(settings, w, after, [first]);
    }
  }

  lemma HandlerKeepsAccounts(settings: Settings, w: World, after: World, a: Action, tool: Tool, args: Args,
                             buyer: string, first: Event)
    requires Balanced(settings, w.book) && Accounted(w) && OwnEvents(w)
    requires a.Authorize? && a.intentId !in w.book.created && a.pricedAt <= a.createdAt && first.ScopeResolution?
    requires var effect := Handle(settings, w.book, a, tool, args, buyer);
             after.book == effect.book && after.ledger == w.ledger + [first] + effect.events
    ensures Balanced(settings, after.book) && Accounted(after) && OwnEvents(after)
  {
    var effect := Handle(settings, w.book, a, tool, args, buyer);
    HandleMovesBook(settings, w.book, a, tool, args, buyer);
    LoggedMove(settings, w.book, effect.book, first, effect.events);
    assert after.ledger == w.ledger + ([first] + effect.events);
    MovesKeepAccounts(settings, w, after, [first] + effect.events);
  }

  lemma {:induction false} RunKeepsSound(settings: Settings, w: World, actions: seq<Action>)
    requires Sound(settings, w)
    ensures Sound(settings, Execute(settings, w, actions))
    decreases |actions|
  {
    if |actions| > 0 {
      StepKeepsGuarded(settings, w, actions[0]);
      StepKeepsGated(settings, w, actions[0]);
      StepKeepsAccounts(settings, w, actions[0]);
      RunKeepsSound(settings, Step(settings, w, actions[0]), actions[1..]);
    }
  }

  // ---------------------------------------------------------------------------------------------
  // Main result over every run
  // ---------------------------------------------------------------------------------------------

  /** Intent conservation. In every interleaving: the created ids are the disjoint union of live,
      revoked, expired and purged; each created id has exactly one creation event, each revoked or
      expired one exactly one terminal event, nothing else has any; terminal events name the creating
      buyer; and a live intent expires no later than its TTL and its price, and after its price check. */
  lemma IntentConservation(settings: Settings, now: int, grants: map<string, Entitlement>, actions: seq<Action>)
    ensures var w := Execute(settings, Boot(now, grants), actions);
            && Balanced(settings, w.book) && Accounted(w) && OwnEvents(w)
            && forall i :: i in w.book.live ==>
                 && i.intentId in w.book.created
                 && var terms := w.book.created[i.intentId];
                    && i.expiresAt <= terms.createdAt + settings.ttlMs
                    && i.expiresAt <= terms.priceValidUntil
                    && (settings.ttlMs > 0 ==> terms.pricedAt < i.expiresAt)
  {
    RunKeepsSound(settings, Boot(now, grants), actions);
    var w := Execute(settings, Boot(now, grants), actions);
    forall i | i in w.book.live
      ensures OnTerms(settings, w.book, i)
    {
    }
  }
}
