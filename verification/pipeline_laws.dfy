/** The guarded request in the terms of its callers: what each step does to a request, the ledger and the
    intents, said in clock readings, earlier passes and runs, and the grants in force. */
module PipelineLaws {
  import opened Wrappers
  import opened Policy
  import opened Guards
  import opened Intents
  import opened Pipeline

  /** The surface a tool belongs to. */
  function OwnSurface(tool: Tool): string {
    if tool.DiscoverProducts? then "product_discovery"
    else if tool.CreateIntent? || tool.RevokeIntent? then "intent"
    else "forecast"
  }

  function WindowMs(tool: Tool): int {
    if tool.RevokeIntent? then 2_000 else 30_000
  }

  /** The grants cover the tool for the buyer: its own surface, the read-only scope, the first phase. */
  predicate Covers(grants: map<string, Entitlement>, buyer: string, tool: Tool) {
    && buyer in grants
    && OwnSurface(tool) in grants[buyer].surfaces
    && "gam.readonly" in grants[buyer].scopes
    && grants[buyer].phase == "phase-1-readonly"
  }

  /** In this process run the client id passed the gate, and its window is not over at `at`. */
  ghost predicate PassedRecently(settings: Settings, w: World, clientId: string, at: int) {
    exists i :: 0 <= i < |w.trace.passes| && w.trace.passes[i].epoch == w.epoch &&
        w.trace.passes[i].clientId == clientId && at < w.trace.passes[i].recordedAt + settings.replayWindowMs
  }

  /** In this process run the tool ran for the buyer less than its window before `at`. */
  ghost predicate RanRecently(w: World, tool: Tool, buyer: string, at: int) {
    exists i :: 0 <= i < |w.trace.runs| && w.trace.runs[i].epoch == w.epoch && w.trace.runs[i].tool == tool &&
        w.trace.runs[i].buyer == buyer && at - w.trace.runs[i].at < WindowMs(tool)
  }

  // ---------------------------------------------------------------------------------------------
  // The guards remember what passed, and nothing else
  // ---------------------------------------------------------------------------------------------

  ghost predicate IsSlotOf(settings: Settings, w: World, clientId: string, until: int) {
    exists i :: 0 <= i < |w.trace.passes| && w.trace.passes[i].epoch == w.epoch &&
        w.trace.passes[i].clientId == clientId && until == w.trace.passes[i].recordedAt + settings.replayWindowMs
  }

  ghost predicate IsRunAt(w: World, tool: Tool, buyer: string, at: int) {
    exists i :: 0 <= i < |w.trace.runs| && w.trace.runs[i].epoch == w.epoch && w.trace.runs[i].tool == tool &&
        w.trace.runs[i].buyer == buyer && at == w.trace.runs[i].at
  }

  /** Every slot is that of a pass of this process run. */
  ghost predicate SeenPassed(settings: Settings, w: World) {
    forall c :: c in w.guard.seen ==> IsSlotOf(settings, w, c, w.guard.seen[c])
  }

  /** Every limit is the time of a run of this process run. */
  ghost predicate LimitsRan(w: World) {
    forall tool, buyer :: buyer in LimitsFor(w.guard, tool) ==>
      IsRunAt(w, tool, buyer, LimitsFor(w.guard, tool)[buyer])
  }

  lemma BlocksExactly(settings: Settings, w: World, clientId: string, at: int)
    requires Guarded(settings, w) && SeenPassed(settings, w) && w.now <= at
    ensures Blocks(w.guard.seen, clientId, at) <==> PassedRecently(settings, w, clientId, at)
  {
    if Blocks(w.guard.seen, clientId, at) {
      assert IsSlotOf(settings, w, clientId, w.guard.seen[clientId]);
    }
  }

  lemma AllowsExactly(settings: Settings, w: World, tool: Tool, buyer: string, at: int)
    requires Guarded(settings, w) && LimitsRan(w)
    ensures Allows(LimitsFor(w.guard, tool), buyer, at, WindowOf(tool)) <==> !RanRecently(w, tool, buyer, at)
  {
    if !Allows(LimitsFor(w.guard, tool), buyer, at, WindowOf(tool)) {
      assert IsRunAt(w, tool, buyer, LimitsFor(w.guard, tool)[buyer]);
    }
  }

  lemma DecisionExactly(w: World, buyer: string, tool: Tool)
    ensures DecisionFor(w, buyer, tool).allow <==> Covers(w.grants, buyer, tool)
  {
  }

  // ---------------------------------------------------------------------------------------------
  // One step at a time
  // ---------------------------------------------------------------------------------------------

  /** Of the requests only `id` moves, to `stage`; nothing changes process run or grants. */
  ghost predicate OnlyMoves(w: World, after: World, id: string, stage: Stage) {
    && id in w.requests && after.requests == w.requests[id := w.requests[id].(stage := stage)]
    && after.epoch == w.epoch && after.grants == w.grants
  }

  /** What an arrival answers at once, and otherwise the token check. */
  ghost predicate ArrivalStage(settings: Settings, w: World, a: Action, stage: Stage)
    requires a.Arrive?
  {
    var replay := a.clientId.Some? && PassedRecently(settings, w, a.clientId.value, a.checkedAt);
    var keyless := settings.requireIdempotencyKey && a.clientId == None;
    && (stage == Done(InvalidRequest) <==> keyless)
    && (stage == Done(ReplayRejected) <==> replay)
    && (stage == Done(AuthFailed) <==> !keyless && !replay && !a.hasToken)
    && (stage == Validating <==> !keyless && !replay && a.hasToken)
  }

  /** The passes an arrival adds: its own, if it has a client id that did not pass recently. */
  ghost predicate ArrivalPasses(settings: Settings, w: World, a: Action, added: seq<Pass>)
    requires a.Arrive?
  {
    if a.clientId.Some? && !PassedRecently(settings, w, a.clientId.value, a.checkedAt)
    then added == [Pass(w.epoch, a.requestId, a.clientId.value, a.checkedAt, a.recordedAt)]
    else added == []
  }

  /** An arrival adds the request and its pass, and answers it as the gates say. */
  ghost predicate Arrived(settings: Settings, w: World, after: World, a: Action)
    requires a.Arrive?
  {
    && a.requestId !in w.requests && after.requests.Keys == w.requests.Keys + {a.requestId}
    && (forall id :: id in w.requests ==> after.requests[id] == w.requests[id])
    && after.requests[a.requestId] == Inflight(a.tool, a.args, a.clientId, after.requests[a.requestId].stage)
    && ArrivalStage(settings, w, a, after.requests[a.requestId].stage)
    && w.trace.passes <= after.trace.passes
    && ArrivalPasses(settings, w, a, after.trace.passes[|w.trace.passes|..])
    && after.trace.runs == w.trace.runs && after.ledger == w.ledger && after.book == w.book
    && after.epoch == w.epoch && after.grants == w.grants && after.now == a.recordedAt
  }

  lemma ArriveTable(settings: Settings, w: World, a: Action)
    requires Guarded(settings, w) && SeenPassed(settings, w) && a.Arrive? && Enabled(w, a)
    ensures Arrived(settings, w, Step(settings, w, a), a)
  {
    if a.clientId.Some? {
      BlocksExactly(settings, w, a.clientId.value, a.checkedAt);
    }
  }

  /** The token's verdict: a buyer is its subject, and only a token that is valid and names one gets on. */
  ghost predicate Judged(w: World, after: World, a: Action)
    requires a.Validated?
  {
    && a.requestId in w.requests && w.requests[a.requestId].stage == Validating
    && OnlyMoves(w, after, a.requestId, if a.valid && a.sub != "" then Authenticated(a.sub) else Done(AuthFailed))
    && after.ledger ==
         w.ledger + [BuyerAuthentication(a.requestId, a.sub, OwnSurface(w.requests[a.requestId].tool), a.valid)]
    && after.book == w.book && after.trace == w.trace && after.guard == w.guard && after.now == w.now
  }

  lemma VerdictTable(settings: Settings, w: World, a: Action)
    requires a.Validated? && Enabled(w, a)
    ensures Judged(w, Step(settings, w, a), a)
  {
  }

  predicate IsScopeEntry(e: Event, requestId: string, buyer: string, tool: Tool, allow: bool) {
    && e.ScopeResolution? && e.requestId == requestId && e.buyer == buyer && e.surface == OwnSurface(tool)
    && e.decision.allow == allow
  }

  /** The ledger grew by the policy decision and then `events`. */
  predicate GrewBy(w: World, after: World, a: Action, allow: bool, events: seq<Event>)
    requires a.Authorize? && a.requestId in w.requests && w.requests[a.requestId].stage.Authenticated?
  {
    var req := w.requests[a.requestId];
    && |after.ledger| == |w.ledger| + 1 + |events| && w.ledger <= after.ledger
    && IsScopeEntry(after.ledger[|w.ledger|], a.requestId, req.stage.buyer, req.tool, allow)
    && after.ledger[|w.ledger| + 1..] == events
  }

  /** A request that the policy or the limit turns away: the answer and the logged decision, nothing else. */
  ghost predicate TurnedAway(w: World, after: World, a: Action, allow: bool, outcome: Outcome)
    requires a.Authorize? && a.requestId in w.requests && w.requests[a.requestId].stage.Authenticated?
  {
    && OnlyMoves(w, after, a.requestId, Done(outcome)) && after.now == a.createdAt
    && GrewBy(w, after, a, allow, [])
    && after.book == w.book && after.trace == w.trace && after.guard == w.guard
  }

  /** A request that gets through: one more run, under the grants in force, and the handler's effect. */
  ghost predicate LetThrough(settings: Settings, w: World, after: World, a: Action, stage: Stage)
    requires a.Authorize? && a.requestId in w.requests && w.requests[a.requestId].stage.Authenticated?
  {
    var req := w.requests[a.requestId];
    var run := HandlerRun(w.epoch, req.tool, req.stage.buyer, a.requestId, a.at, |w.ledger| + 1, w.grants);
    && OnlyMoves(w, after, a.requestId, stage) && after.now == a.createdAt
    && after.trace == Trace(w.trace.passes, w.trace.runs + [run])
    && after.guard.seen == w.guard.seen
    && |after.ledger| > |w.ledger|
    && Handled(settings, w, after, a, req.tool, req.args, req.stage.buyer, stage,
         after.ledger[|w.ledger| + 1..])
    && GrewBy(w, after, a, true, after.ledger[|w.ledger| + 1..])
  }

  /** What each handler does with the intents, what it logs, and where it leaves the request. */
  ghost predicate Handled(settings: Settings, w: World, after: World, a: Action, tool: Tool, args: Args,
                          buyer: string, stage: Stage, events: seq<Event>)
    requires a.Authorize?
  {
    match tool
    case DiscoverProducts => stage == Done(Success) && Untouched(w, after, events)
    case GetForecast => stage == Handling(buyer) && Untouched(w, after, events)
    case CheckAvailability => stage == Handling(buyer) && Untouched(w, after, events)
    case CreateIntent =>
      if PriceStands(settings, args, a.pricedAt)
      then stage == Done(Success) && Committed(settings, w, after, a, args, buyer, events)
      else stage == Done(InvalidRequest) && Untouched(w, after, events)
    case RevokeIntent =>
      if Holds(w.book.live, args.intentId, buyer, a.createdAt)
      then stage == Done(Success) && Withdrawn(w, after, a, args, buyer, events)
      else stage == Done(InvalidRequest) && Untouched(w, after, events)
  }

  predicate Untouched(w: World, after: World, events: seq<Event>) {
    after.book == w.book && events == []
  }

  ghost predicate Committed(settings: Settings, w: World, after: World, a: Action, args: Args, buyer: string,
                            events: seq<Event>)
    requires a.Authorize? && args.familyId in settings.prices
  {
    && |after.book.live| == |w.book.live| + 1 && w.book.live <= after.book.live
    && IsCommitment(settings, after.book.live[|w.book.live|], a, args, buyer)
    && after.book.created.Keys == w.book.created.Keys + {a.intentId}
    && (forall id :: id in w.book.created && id != a.intentId ==> after.book.created[id] == w.book.created[id])
    && after.book.created[a.intentId].buyer == buyer
    && after.book.revoked == w.book.revoked && after.book.expired == w.book.expired
    && after.book.purged == w.book.purged
    && events == [IntentCreated(a.requestId, buyer, a.intentId)]
  }

  ghost predicate Withdrawn(w: World, after: World, a: Action, args: Args, buyer: string, events: seq<Event>)
    requires a.Authorize?
  {
    && (forall i :: i in after.book.live <==> i in w.book.live && i.intentId != args.intentId)
    && after.book.revoked == w.book.revoked + {args.intentId}
    && after.book.created == w.book.created && after.book.expired == w.book.expired
    && after.book.purged == w.book.purged
    && events == [IntentRevoked(a.requestId, buyer, args.intentId)]
  }

  lemma HandlerTable(settings: Settings, w: World, after: World, a: Action, tool: Tool, args: Args, buyer: string)
    requires Balanced(settings, w.book) && a.Authorize?
    requires after.book == Handle(settings, w.book, a, tool, args, buyer).book
    ensures var effect := Handle(settings, w.book, a, tool, args, buyer);
            Handled(settings, w, after, a, tool, args, buyer, effect.stage, effect.events)
  {
    match tool
    case DiscoverProducts =>
    case GetForecast =>
    case CheckAvailability =>
    case CreateIntent => CommitsExactly(settings, w.book, a, args, buyer);
    case RevokeIntent => WithdrawTable(settings, w, a, args, buyer);
  }

  lemma WithdrawTable(settings: Settings, w: World, a: Action, args: Args, buyer: string)
    requires Balanced(settings, w.book) && a.Authorize?
    ensures var effect := HandleRevoke(w.book, a, args, buyer);
            if Holds(w.book.live, args.intentId, buyer, a.createdAt)
            then effect.stage == Done(Success) && Withdrawn(w, w.(book := effect.book), a, args, buyer, effect.events)
            else effect == Effect(w.book, [], Done(InvalidRequest))
  {
    RevocableIsOwn(w.book.live, args.intentId, buyer, a.createdAt);
    SelectionSplits(w.book.live, Named(args.intentId));
  }

  /** The policy turns away exactly what the grants in force do not cover. */
  lemma DenialTable(settings: Settings, w: World, a: Action)
    requires a.Authorize? && Enabled(w, a)
    requires !Covers(w.grants, w.requests[a.requestId].stage.buyer, w.requests[a.requestId].tool)
    ensures TurnedAway(w, Step(settings, w, a), a, false, AuthFailed)
  {
    DecisionExactly(w, w.requests[a.requestId].stage.buyer, w.requests[a.requestId].tool);
  }

  /** The limit turns away exactly what comes within the window of a run of the same tool for the same buyer. */
  lemma ThrottleTable(settings: Settings, w: World, a: Action)
    requires Guarded(settings, w) && LimitsRan(w) && a.Authorize? && Enabled(w, a)
    requires var req := w.requests[a.requestId];
             Covers(w.grants, req.stage.buyer, req.tool) && RanRecently(w, req.tool, req.stage.buyer, a.at)
    ensures TurnedAway(w, Step(settings, w, a), a, true, RateLimited)
  {
    var req := w.requests[a.requestId];
    DecisionExactly(w, req.stage.buyer, req.tool);
    AllowsExactly(settings, w, req.tool, req.stage.buyer, a.at);
  }

  /** Everything else gets through. */
  lemma AdmissionTable(settings: Settings, w: World, a: Action)
    requires Guarded(settings, w) && LimitsRan(w) && Balanced(settings, w.book) && a.Authorize? && Enabled(w, a)
    requires var req := w.requests[a.requestId];
             Covers(w.grants, req.stage.buyer, req.tool) && !RanRecently(w, req.tool, req.stage.buyer, a.at)
    ensures var after := Step(settings, w, a);
            a.requestId in after.requests && LetThrough(settings, w, after, a, after.requests[a.requestId].stage)
  {
    var req := w.requests[a.requestId];
    var buyer, after := req.stage.buyer, Step(settings, w, a);
    DecisionExactly(w, buyer, req.tool);
    AllowsExactly(settings, w, req.tool, buyer, a.at);
    HandlerTable(settings, w, after, a, req.tool, req.args, buyer);
    var events := Handle(settings, w.book, a, req.tool, req.args, buyer).events;
    var scope := ScopeResolution(a.requestId, buyer, SurfaceOf(req.tool), DecisionFor(w, buyer, req.tool));
    assert after.ledger == w.ledger + [scope] + events;
    assert after.ledger[|w.ledger| + 1..] == events;
  }

  /** The forecast source's answer ends the request, and only a forecast that was given is logged. */
  ghost predicate Answered(w: World, after: World, a: Action)
    requires a.Forecasted?
  {
    && a.requestId in w.requests && w.requests[a.requestId].stage.Handling?
    && OnlyMoves(w, after, a.requestId, Done(if a.ok then Success else Unavailable))
    && after.ledger ==
         w.ledger + (if a.ok then [ForecastRequest(a.requestId, w.requests[a.requestId].stage.buyer)] else [])
    && after.book == w.book && after.trace == w.trace && after.guard == w.guard && after.now == w.now
  }

  lemma ForecastTable(settings: Settings, w: World, a: Action)
    requires a.Forecasted? && Enabled(w, a)
    ensures Answered(w, Step(settings, w, a), a)
  {
  }

  /** An intent of the store that is over at `at`, as its buyer and id. */
  ghost predicate IsExpiryOf(live: seq<Intent>, at: int, e: Event) {
    exists i :: i in live && i.expiresAt <= at && e == IntentExpired(i.buyerId, i.intentId)
  }

  lemma ExpiriesAre(live: seq<Intent>, at: int)
    requires AllActive(live)
    ensures var events := ExpiryEvents(Picked(live, LapsedBy(at)));
            && |events| == |live| - |Left(live, LapsedBy(at))|
            && (forall e :: e in events <==> IsExpiryOf(live, at, e))
  {
    var lapsed := Picked(live, LapsedBy(at));
    SelectionSplits(live, LapsedBy(at));
    forall e | e in ExpiryEvents(lapsed)
      ensures IsExpiryOf(live, at, e)
    {
      var k :| 0 <= k < |lapsed| && ExpiryEvents(lapsed)[k] == e;
      assert lapsed[k] in lapsed;
    }
    forall i | i in live && i.expiresAt <= at
      ensures IntentExpired(i.buyerId, i.intentId) in ExpiryEvents(lapsed)
    {
      var k :| 0 <= k < |lapsed| && lapsed[k] == i;
      assert ExpiryEvents(lapsed)[k] in ExpiryEvents(lapsed);
    }
  }

  /** The intents after a sweep at `at` are exactly those that expire after it; the others are expired. */
  lemma SweptBookTable(book: Book, at: int)
    requires AllActive(book.live)
    ensures var after := SweptBook(book, at);
            && (forall i :: i in after.live <==> i in book.live && at < i.expiresAt)
            && after.expired == book.expired + (set i | i in book.live && i.expiresAt <= at :: i.intentId)
            && after.created == book.created && after.revoked == book.revoked && after.purged == book.purged
  {
    SelectionSplits(book.live, LapsedBy(at));
  }

  /** A sweep logs one expiry, for the right buyer, for each intent that does not expire after it. */
  ghost predicate Swept(w: World, after: World, at: int) {
    && after.book == SweptBook(w.book, at)
    && w.ledger <= after.ledger
    && |after.ledger| - |w.ledger| == |w.book.live| - |after.book.live|
    && (forall e :: e in after.ledger[|w.ledger|..] <==> IsExpiryOf(w.book.live, at, e))
    && after.requests == w.requests && after.trace == w.trace && after.guard == w.guard
    && after.epoch == w.epoch && after.grants == w.grants && after.now == at
  }

  lemma SweepTable(settings: Settings, w: World, at: int)
    requires AllActive(w.book.live) && w.now <= at
    ensures Swept(w, Step(settings, w, Action.Sweep(at)), at)
  {
    ExpiriesAre(w.book.live, at);
    assert Step(settings, w, Action.Sweep(at)).ledger[|w.ledger|..] ==
        ExpiryEvents(Picked(w.book.live, LapsedBy(at)));
  }

  /** Pruning forgets what is over and does nothing else. */
  lemma PruneTable(settings: Settings, w: World, at: int)
    requires w.now <= at
    ensures var after := Step(settings, w, Action.Prune(at));
            && after == w.(now := at, guard := after.guard) && after.guard.limits == w.guard.limits
            && (forall c :: c in after.guard.seen <==> c in w.guard.seen && at < w.guard.seen[c])
            && (forall c :: c in after.guard.seen ==> after.guard.seen[c] == w.guard.seen[c])
  {
  }

  /** A process start ends what was in flight, and keeps ledger, intents and what is over. */
  ghost predicate Restarts(w: World, after: World, at: int) {
    && after.now == at && after.guard.seen == map[] && (forall tool :: LimitsFor(after.guard, tool) == map[])
    && after.epoch == w.epoch + 1 && after.ledger == w.ledger && after.trace == w.trace
    && after.requests.Keys == w.requests.Keys
    && (forall id :: id in w.requests ==>
          after.requests[id] ==
            if w.requests[id].stage.Done? then w.requests[id] else w.requests[id].(stage := Done(Unavailable)))
  }

  lemma RestartTable(settings: Settings, w: World, at: int, grants: map<string, Entitlement>)
    requires w.now <= at
    ensures var after := Step(settings, w, Action.Restart(at, grants));
            Restarts(w, after, at) && after.book == w.book && after.grants == grants
  {
  }

  /** An operator erasure takes exactly the buyer's intents. */
  lemma PurgeTable(settings: Settings, w: World, at: int, buyer: string)
    requires w.now <= at
    ensures var after := Step(settings, w, Action.Purge(at, buyer));
            && Restarts(w, after, at) && after.grants == w.grants
            && (forall i :: i in after.book.live <==> i in w.book.live && i.buyerId != buyer)
            && after.book.purged == w.book.purged + (set i | i in w.book.live && i.buyerId == buyer :: i.intentId)
            && after.book.created == w.book.created && after.book.revoked == w.book.revoked
            && after.book.expired == w.book.expired
  {
    SelectionSplits(w.book.live, OwnedBy(buyer));
  }
}
