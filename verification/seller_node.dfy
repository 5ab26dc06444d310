/** The handler code of one process as the objects it works on: replay guard, one rate limiter per tool,
    intent store and ledger. Each method is one segment of a request between two awaits, or one of the
    node's own activities, and is proved against the step that Pipeline reasons about. */
module SellerNode {
  import opened Wrappers
  import opened Policy
  import opened Guards
  import opened Intents
  import opened Pipeline
  import opened PipelineLaws

  const TOOLS: set<Tool> := {DiscoverProducts, GetForecast, CheckAvailability, CreateIntent, RevokeIntent}

  /** Every tool has a limiter of its own, with its own window. */
  ghost predicate OnePerTool(limiters: map<Tool, RateLimiter>) {
    && limiters.Keys == TOOLS
    && (forall t :: t in limiters ==> limiters[t].windowMs == WindowOf(t))
    && (forall s, t :: s in limiters && t in limiters && s != t ==> limiters[s] != limiters[t])
  }

  method NewLimiters() returns (limiters: map<Tool, RateLimiter>)
    ensures OnePerTool(limiters)
    ensures forall t :: t in limiters ==> fresh(limiters[t])
    ensures (map t | t in limiters :: limiters[t].lastAllowed) == NO_LIMITS
  {
    var discover := new RateLimiter(READ_WINDOW_MS);
    var forecast := new RateLimiter(READ_WINDOW_MS);
    var availability := new RateLimiter(READ_WINDOW_MS);
    var create := new RateLimiter(READ_WINDOW_MS);
    var revoke := new RateLimiter(REVOKE_WINDOW_MS);
    limiters := map[DiscoverProducts := discover, GetForecast := forecast, CheckAvailability := availability,
                    CreateIntent := create, RevokeIntent := revoke];
  }

  class Node {
    const settings: Settings
    const grants: map<string, Entitlement>
    const replay: ReplayGuard
    const limiters: map<Tool, RateLimiter>
    const intents: IntentStore
    var ledger: seq<Event>

    ghost var now: int
    ghost const epoch: nat
    ghost var requests: map<string, Inflight>   // where each handler stands
    ghost var trace: Trace
    ghost var created: map<string, Terms>
    ghost var revoked: set<string>
    ghost var expired: set<string>
    ghost const purged: set<string>

    ghost predicate Valid()
      reads this, replay, limiters.Values, intents
    {
      replay.windowMs == settings.replayWindowMs && OnePerTool(limiters) && IntentsKnown()
    }

    /** Every live intent is one that was created. */
    ghost predicate IntentsKnown()
      reads this`created, intents
    {
      intents.Valid() && intents.ttlMs == settings.ttlMs && Ids(intents.byId) <= created.Keys
    }

    ghost function Limits(): map<Tool, LastAllowed>
      reads limiters.Values
    {
      map t | t in limiters :: limiters[t].lastAllowed
    }

    ghost function IntentBook(): Book
      reads this`created, this`revoked, this`expired, intents
    {
      Book(intents.byId, created, revoked, expired, purged)
    }

    ghost function State(): World
      reads this, replay, limiters.Values, intents
    {
      World(now, epoch, grants, Guard(replay.seen, Limits()), ledger, IntentBook(), requests, trace)
    }

    /** A process start: empty guards, ledger and intents as saved, every request of the process before
        gone. */
    constructor (settings: Settings, grants: map<string, Entitlement>, ledger: seq<Event>, intentFile: seq<Intent>,
                 ghost before: World, ghost at: int)
      requires before.now <= at && Ids(before.book.live) <= before.book.created.Keys
      requires ledger == before.ledger && UniqueIds(intentFile) && Left(intentFile, Terminal) == before.book.live
      ensures Valid() && this.settings == settings
      ensures State() == RestartStep(before, at, grants, before.book)
    {
      var intents := new IntentStore(settings.ttlMs, intentFile);
      var replay := new ReplayGuard(settings.replayWindowMs);
      var limiters := NewLimiters();
      this.settings, this.grants, this.ledger := settings, grants, ledger;
      this.intents, this.replay, this.limiters := intents, replay, limiters;
      now, epoch := at, before.epoch + 1;
      requests := map id | id in before.requests :: Dropped(before.requests[id]);
      trace := before.trace;
      created, revoked, expired, purged := before.book.created, before.book.revoked, before.book.expired,
          before.book.purged;
      new;
      assert Limits() == NO_GUARD.limits;
      assert IntentBook() == before.book;
    }

    method RememberUnlessSeen(clientId: string, checkedAt: int, recordedAt: int) returns (isReplay: bool)
      modifies replay
      ensures isReplay == Blocks(old(replay.seen), clientId, checkedAt)
      ensures var until := recordedAt + replay.windowMs;
              replay.seen == if isReplay then old(replay.seen)
                             else AfterLookup(old(replay.seen), clientId, checkedAt)[clientId := until]
    {
      isReplay := replay.IsReplay(clientId, checkedAt);
      if !isReplay {
        replay.Record(clientId, recordedAt);
      }
    }

    ghost method Note(noted: Trace)
      requires Valid()
      modifies this`trace
      ensures Valid()
      ensures State() == old(State()).(trace := noted)
    {
      trace := noted;
    }

    /** The replay gate: an id that is not blocked is remembered at once. */
    method PassReplayGate(ghost requestId: string, clientId: string, checkedAt: int, recordedAt: int)
      returns (isReplay: bool)
      requires Valid()
      modifies this`trace, replay
      ensures Valid()
      ensures isReplay == Blocks(old(replay.seen), clientId, checkedAt)
      ensures State() == Gate(settings, old(State()), requestId, Some(clientId), checkedAt, recordedAt)
    {
      isReplay := RememberUnlessSeen(clientId, checkedAt, recordedAt);
      if !isReplay {
        Note(Trace(trace.passes + [Pass(epoch, requestId, clientId, checkedAt, recordedAt)], trace.runs));
      }
    }

    /** The idempotency key and the replay gate. */
    method PassGates(ghost requestId: string, clientId: Option<string>, checkedAt: int, recordedAt: int)
      returns (refusal: Option<Outcome>)
      requires Valid()
      modifies this`trace, replay
      ensures Valid()
      ensures State() == Gate(settings, old(State()), requestId, clientId, checkedAt, recordedAt)
      ensures refusal == if settings.requireIdempotencyKey && clientId.None? then Some(InvalidRequest)
                         else if clientId.Some? && Blocks(old(replay.seen), clientId.value, checkedAt)
                         then Some(ReplayRejected)
                         else None
    {
      if clientId.None? {
        return if settings.requireIdempotencyKey then Some(InvalidRequest) else None;
      }
      var isReplay := PassReplayGate(requestId, clientId.value, checkedAt, recordedAt);
      refusal := if isReplay then Some(ReplayRejected) else None;
    }

    /** First segment: idempotency key, replay gate, and whether the token check is to run. */
    method Arrive(requestId: string, ghost tool: Tool, ghost args: Args, clientId: Option<string>, hasToken: bool,
                  checkedAt: int, recordedAt: int)
      returns (stage: Stage)
      requires Valid() && requestId !in requests && now <= checkedAt <= recordedAt
      modifies this, replay
      ensures Valid()
      ensures State() == ArriveStep(settings, old(State()),
                Pipeline.Action.Arrive(requestId, tool, args, clientId, hasToken, checkedAt, recordedAt))
      ensures requests[requestId].stage == stage
      ensures var seen := old(replay.seen);
              var isReplay := clientId.Some? && clientId.value in seen && checkedAt < seen[clientId.value];
              stage == if settings.requireIdempotencyKey && clientId.None? then Done(InvalidRequest)
                       else if isReplay then Done(ReplayRejected)
                       else if hasToken then Validating else Done(AuthFailed)
    {
      var refusal := PassGates(requestId, clientId, checkedAt, recordedAt);
      stage := if refusal.Some? then Done(refusal.value) else if !hasToken then Done(AuthFailed) else Validating;
      MoveOn(requestId, Inflight(tool, args, clientId, stage), recordedAt);
    }

    /** Second segment: log the verdict and take the identity from the token. */
    method Validated(requestId: string, tool: Tool, valid: bool, sub: string) returns (buyer: Option<string>)
      requires Valid()
      requires requestId in requests && requests[requestId].stage.Validating? && requests[requestId].tool == tool
      modifies this
      ensures Valid()
      ensures State() == ValidatedStep(old(State()), Pipeline.Action.Validated(requestId, valid, sub))
      ensures buyer.Some? ==> requests[requestId].stage == Authenticated(buyer.value)
    {
      ledger := ledger + [BuyerAuthentication(requestId, sub, SurfaceOf(tool), valid)];
      buyer := if !valid || sub == "" then None else Some(sub);
      ghost var stage := if buyer.Some? then Authenticated(sub) else Done(AuthFailed);
      requests := requests[requestId := requests[requestId].(stage := stage)];
    }

    /** The commit handler: fail closed on a missing, expired or different price. */
    method CommitIntent(requestId: string, args: Args, buyer: string, at: int, pricedAt: int, createdAt: int,
                        intentId: string)
      returns (outcome: Outcome)
      requires Valid() && intentId !in created
      modifies this`ledger, this`created, intents
      ensures Valid()
      ensures var effect := HandleCreate(settings, old(IntentBook()),
                Pipeline.Action.Authorize(requestId, at, pricedAt, createdAt, intentId), args, buyer);
              IntentBook() == effect.book && ledger == old(ledger) + effect.events && effect.stage == Done(outcome)
    {
      var price := PriceFor(settings.prices, args.familyId, pricedAt);
      if price.None? || price.value.listPrice != args.priceRef {
        return InvalidRequest;
      }
      var input := CreateInput(buyer, args.familyId, args.period, price.value.listPrice, price.value.currency,
          price.value.validUntil);
      var intent := intents.Create(input, intentId, createdAt);
      created := created[intentId := Terms(buyer, pricedAt, createdAt, price.value.validUntil)];
      ledger := ledger + [IntentCreated(requestId, buyer, intentId)];
      outcome := Success;
    }

    /** The revoke handler: one refusal, whatever the reason. */
    method WithdrawIntent(requestId: string, args: Args, buyer: string, at: int, pricedAt: int, createdAt: int,
                          ghost intentId: string)
      returns (outcome: Outcome)
      requires Valid()
      modifies this`ledger, this`revoked, intents
      ensures Valid()
      ensures var effect := HandleRevoke(old(IntentBook()),
                Pipeline.Action.Authorize(requestId, at, pricedAt, createdAt, intentId), args, buyer);
              IntentBook() == effect.book && ledger == old(ledger) + effect.events && effect.stage == Done(outcome)
    {
      SelectionKeepsUnique(intents.byId, Named(args.intentId));
      var withdrawn := intents.Revoke(args.intentId, buyer, createdAt);
      if withdrawn.None? {
        return InvalidRequest;
      }
      RevocableIsOwn(old(intents.byId), args.intentId, buyer, createdAt);
      revoked := revoked + {args.intentId};
      ledger := ledger + [IntentRevoked(requestId, buyer, withdrawn.value.intentId)];
      outcome := Success;
    }

    /** The domain handler up to its first await. */
    method RunHandler(requestId: string, tool: Tool, args: Args, buyer: string, at: int, pricedAt: int,
                      createdAt: int, intentId: string)
      returns (stage: Stage)
      requires Valid() && intentId !in created
      modifies this`ledger, this`created, this`revoked, intents
      ensures Valid()
      ensures var action := Pipeline.Action.Authorize(requestId, at, pricedAt, createdAt, intentId);
              var effect := Handle(settings, old(IntentBook()), action, tool, args, buyer);
              State() == old(State()).(ledger := old(ledger) + effect.events, book := effect.book) &&
                  stage == effect.stage
    {
      match tool
      case DiscoverProducts => stage := Done(Success);
      case GetForecast => stage := Handling(buyer);
      case CheckAvailability => stage := Handling(buyer);
      case CreateIntent =>
        var outcome := CommitIntent(requestId, args, buyer, at, pricedAt, createdAt, intentId);
        stage := Done(outcome);
      case RevokeIntent =>
        var outcome := WithdrawIntent(requestId, args, buyer, at, pricedAt, createdAt, intentId);
        stage := Done(outcome);
    }

    /** Only the tool's own limiter is asked and moved; a request it lets through is a handler run. */
    method PassLimiter(requestId: string, tool: Tool, buyer: string, at: int) returns (allowed: bool)
      requires Valid()
      modifies this`trace, limiters.Values
      ensures Valid()
      ensures allowed == Allows(LimitsFor(old(State()).guard, tool), buyer, at, WindowOf(tool))
      ensures State() == Limited(old(State()), requestId, tool, buyer, at)
    {
      allowed := AskLimiter(tool, buyer, at);
      if allowed {
        Note(Trace(trace.passes, trace.runs + [HandlerRun(epoch, tool, buyer, requestId, at, |ledger|, grants)]));
      }
    }

    method AskLimiter(tool: Tool, buyer: string, at: int) returns (allowed: bool)
      requires Valid()
      modifies limiters.Values
      ensures Valid()
      ensures allowed == Allows(old(limiters[tool].lastAllowed), buyer, at, WindowOf(tool))
      ensures var moved := AfterCheck(old(limiters[tool].lastAllowed), buyer, at, WindowOf(tool));
              var limits := old(Limits());
              State() == old(State()).(guard := Guard(replay.seen, if allowed then limits[tool := moved] else limits))
    {
      allowed := CheckOne(tool, buyer, at);
    }

    method CheckOne(tool: Tool, buyer: string, at: int) returns (allowed: bool)
      requires OnePerTool(limiters)
      modifies limiters.Values
      ensures allowed == Allows(old(limiters[tool].lastAllowed), buyer, at, WindowOf(tool))
      ensures var moved := AfterCheck(old(limiters[tool].lastAllowed), buyer, at, WindowOf(tool));
              Limits() == if allowed then old(Limits())[tool := moved] else old(Limits())
    {
      allowed := limiters[tool].Check(buyer, at);
    }

    /** Behind the policy: the limiter, then the handler. */
    method RunIfAdmitted(requestId: string, tool: Tool, args: Args, buyer: string, at: int, pricedAt: int,
                         createdAt: int, intentId: string)
      returns (stage: Stage)
      requires Valid() && intentId !in created
      modifies this`ledger, this`trace, this`created, this`revoked, limiters.Values, intents
      ensures Valid()
      ensures var action := Pipeline.Action.Authorize(requestId, at, pricedAt, createdAt, intentId);
              Admission(State(), stage) == Admit(settings, old(State()), action, tool, args, buyer)
    {
      var allowed := PassLimiter(requestId, tool, buyer, at);
      if !allowed {
        return Done(RateLimited);
      }
      stage := RunHandler(requestId, tool, args, buyer, at, pricedAt, createdAt, intentId);
    }

    /** The request goes to its next stage. */
    ghost method MoveOn(requestId: string, req: Inflight, at: int)
      requires Valid()
      modifies this`now, this`requests
      ensures Valid()
      ensures State() == MovedOn(old(State()), at, requestId, req)
    {
      now := at;
      requests := requests[requestId := req];
    }

    /** The policy decision and its log entry. */
    method ResolveScope(requestId: string, tool: Tool, buyer: string) returns (allowed: bool)
      requires Valid()
      modifies this`ledger
      ensures Valid()
      ensures allowed == DecisionFor(old(State()), buyer, tool).allow
      ensures allowed <==> Covers(grants, buyer, tool)
      ensures State() == Logged(old(State()), requestId, tool, buyer)
    {
      var decision := AskPolicy(tool, buyer);
      ledger := ledger + [ScopeResolution(requestId, buyer, SurfaceOf(tool), decision)];
      allowed := decision.allow;
    }

    method AskPolicy(tool: Tool, buyer: string) returns (decision: Decision)
      requires Valid()
      ensures decision == DecisionFor(State(), buyer, tool)
      ensures decision.allow <==> Covers(grants, buyer, tool)
    {
      var entitlement := if buyer in grants then Some(grants[buyer]) else None;
      decision := Decide(entitlement, Request(buyer, SurfaceOf(tool), SCOPE, PHASE));
    }

    /** Third segment: policy and its log entry, then the tool's limit, then the handler. */
    method Authorize(requestId: string, tool: Tool, args: Args, buyer: string, at: int, pricedAt: int,
                     createdAt: int, intentId: string)
      returns (stage: Stage)
      requires Valid() && intentId !in created
      requires requestId in requests && requests[requestId].tool == tool && requests[requestId].args == args
      requires requests[requestId].stage == Authenticated(buyer)
      modifies this, limiters.Values, intents
      ensures Valid()
      ensures State() == AuthorizeStep(settings, old(State()),
                Pipeline.Action.Authorize(requestId, at, pricedAt, createdAt, intentId))
      ensures requests[requestId].stage == stage
    {
      var allowed := ResolveScope(requestId, tool, buyer);
      stage := Done(AuthFailed);
      if allowed {
        stage := RunIfAdmitted(requestId, tool, args, buyer, at, pricedAt, createdAt, intentId);
      }
      MoveOn(requestId, requests[requestId].(stage := stage), createdAt);
    }

    /** Last segment of the forecast tools. */
    method Forecasted(requestId: string, tool: Tool, buyer: string, ok: bool) returns (outcome: Outcome)
      requires Valid()
      requires requestId in requests && requests[requestId].tool == tool && requests[requestId].stage == Handling(buyer)
      modifies this
      ensures Valid()
      ensures State() == ForecastedStep(old(State()), Pipeline.Action.Forecasted(requestId, ok))
    {
      outcome := if ok then Success else Unavailable;
      if ok {
        ledger := ledger + [ForecastRequest(requestId, buyer)];
      }
      requests := requests[requestId := requests[requestId].(stage := Done(outcome))];
    }

    method LogExpired(gone: seq<Intent>)
      requires Valid()
      modifies this`ledger
      ensures Valid()
      ensures State() == old(State()).(ledger := old(ledger) + ExpiryEvents(gone))
    {
      for i := 0 to |gone|
        invariant ledger == old(ledger) + ExpiryEvents(gone)[..i]
      {
        ledger := ledger + [IntentExpired(gone[i].buyerId, gone[i].intentId)];
        assert ExpiryEvents(gone)[..i + 1] == ExpiryEvents(gone)[..i] + [ExpiryEvents(gone)[i]];
      }
      assert ExpiryEvents(gone)[..|gone|] == ExpiryEvents(gone);
    }

    method TakeLapsed(at: int) returns (gone: seq<Intent>)
      requires Valid()
      modifies this`expired, intents
      ensures Valid()
      ensures State() == old(State()).(book := SweptBook(old(IntentBook()), at))
      ensures ExpiryEvents(gone) == ExpiryEvents(Picked(old(intents.byId), LapsedBy(at)))
      ensures forall i :: i in intents.byId <==> i in old(intents.byId) && at < i.expiresAt
    {
      SelectionKeepsUnique(intents.byId, LapsedBy(at));
      expired := expired + Ids(Picked(intents.byId, LapsedBy(at)));
      gone := intents.SweepExpired(at);
    }

    /** The expiry timer: every lapsed intent leaves and is logged, in the order of the store. */
    method SweepExpiredIntents(at: int)
      requires Valid()
      modifies this, intents
      ensures Valid()
      ensures State() == SweepStep(old(State()), at)
      ensures forall i :: i in intents.byId <==> i in old(intents.byId) && at < i.expiresAt
    {
      var gone := TakeLapsed(at);
      LogExpired(gone);
      now := at;
    }
  }
}
