/** What holds at the end of every interleaving of guarded requests, the node's own activities and restarts. */
module PipelineRuns {
  import opened Wrappers
  import opened Policy
  import opened Guards
  import opened Intents
  import opened Pipeline
  import opened PipelineLaws

  /** One step, case by case as the tables say. */
  ghost predicate Next(settings: Settings, w: World, a: Action, after: World) {
    match a
    case Arrive(_, _, _, _, _, checkedAt, recordedAt) =>
      w.now <= checkedAt <= recordedAt && Arrived(settings, w, after, a)
    case Validated(_, _, _) => Judged(w, after, a)
    case Authorize(id, at, pricedAt, createdAt, _) =>
      && w.now <= at <= pricedAt <= createdAt
      && id in w.requests && w.requests[id].stage.Authenticated? && Authorized(settings, w, after, a)
    case Forecasted(_, _) => Answered(w, after, a)
    case Prune(at) => w.now <= at && Idle(w, after, at) && after.ledger == w.ledger && after.book == w.book
    case Sweep(at) => w.now <= at && Swept(w, after, at)
    case Restart(at, grants) => w.now <= at && Restarts(w, after, at) && after.book == w.book && after.grants == grants
    case Purge(at, buyer) =>
      w.now <= at && Restarts(w, after, at) && after.book == PurgedBook(w.book, buyer) && after.grants == w.grants
  }

  /** Turned away by the policy, turned away by the limit, or let through. */
  ghost predicate Authorized(settings: Settings, w: World, after: World, a: Action)
    requires a.Authorize? && a.requestId in w.requests && w.requests[a.requestId].stage.Authenticated?
  {
    var req := w.requests[a.requestId];
    if !Covers(w.grants, req.stage.buyer, req.tool) then TurnedAway(w, after, a, false, AuthFailed)
    else if RanRecently(w, req.tool, req.stage.buyer, a.at) then TurnedAway(w, after, a, true, RateLimited)
    else a.requestId in after.requests && LetThrough(settings, w, after, a, after.requests[a.requestId].stage)
  }

  predicate Idle(w: World, after: World, at: int) {
    && after.requests == w.requests && after.trace == w.trace && after.epoch == w.epoch && after.grants == w.grants
    && after.now == at
  }

  lemma StepIsNext(settings: Settings, w: World, a: Action)
    requires Guarded(settings, w) && SeenPassed(settings, w) && LimitsRan(w) && Balanced(settings, w.book)
    requires Enabled(w, a)
    ensures Next(settings, w, a, Step(settings, w, a))
  {
    match a
    case Arrive(_, _, _, _, _, _, _) => ArriveTable(settings, w, a);
    case Validated(_, _, _) => VerdictTable(settings, w, a);
    case Authorize(_, _, _, _, _) => AuthorizeIsNext(settings, w, a);
    case Forecasted(_, _) => ForecastTable(settings, w, a);
    case Prune(at) => PruneTable(settings, w, at);
    case Sweep(at) => SweepTable(settings, w, at);
    case Restart(at, grants) => RestartTable(settings, w, at, grants);
    case Purge(at, buyer) => PurgeTable(settings, w, at, buyer);
  }

  lemma AuthorizeIsNext(settings: Settings, w: World, a: Action)
    requires Guarded(settings, w) && LimitsRan(w) && Balanced(settings, w.book) && a.Authorize? && Enabled(w, a)
    ensures Authorized(settings, w, Step(settings, w, a), a)
  {
    var req := w.requests[a.requestId];
    if !Covers(w.grants, req.stage.buyer, req.tool) {
      DenialTable(settings, w, a);
    } else if RanRecently(w, req.tool, req.stage.buyer, a.at) {
      ThrottleTable(settings, w, a);
    } else {
      AdmissionTable(settings, w, a);
    }
  }

  /** Requests only go forward: an answer stands, a running handler answers, and what was asked is not rewritten. */
  predicate Forward(req: Inflight, later: Inflight) {
    && later.tool == req.tool && later.args == req.args && later.clientId == req.clientId
    && (req.stage.Done? ==> later.stage == req.stage)
    && (req.stage.Handling? ==> later.stage == req.stage || later.stage.Done?)
  }

  ghost predicate Advanced(w: World, after: World) {
    && (forall id :: id in w.requests ==> id in after.requests && Forward(w.requests[id], after.requests[id]))
    && w.trace.runs <= after.trace.runs && w.trace.passes <= after.trace.passes && w.ledger <= after.ledger
    && w.now <= after.now && w.epoch <= after.epoch
  }

  lemma NextAdvances(settings: Settings, w: World, a: Action, after: World)
    requires Next(settings, w, a, after)
    ensures Advanced(w, after)
  {
  }

  // ---------------------------------------------------------------------------------------------
  // Runs belong to requests that got through
  // ---------------------------------------------------------------------------------------------

  /** The request of a run has passed the limit: its handler is at work for the same buyer, or it is answered. */
  predicate RunOf(requests: map<string, Inflight>, r: HandlerRun) {
    && r.requestId in requests && requests[r.requestId].tool == r.tool
    && (requests[r.requestId].stage.Handling? || requests[r.requestId].stage.Done?)
    && (requests[r.requestId].stage.Handling? ==> requests[r.requestId].stage.buyer == r.buyer)
  }

  ghost predicate RunsAreOwn(w: World) {
    && (forall i :: 0 <= i < |w.trace.runs| ==> RunOf(w.requests, w.trace.runs[i]))
    && (forall i, j :: 0 <= i < j < |w.trace.runs| ==> w.trace.runs[i].requestId != w.trace.runs[j].requestId)
  }

  lemma RunsStayOwn(settings: Settings, w: World, a: Action, after: World)
    requires Next(settings, w, a, after) && RunsAreOwn(w)
    ensures RunsAreOwn(after)
  {
    NextAdvances(settings, w, a, after);
    forall i | 0 <= i < |w.trace.runs|
      ensures RunOf(after.requests, w.trace.runs[i])
    {
      assert RunOf(w.requests, w.trace.runs[i]);
    }
    RunsGrow(settings, w, a, after);
  }

  /** The runs change only by the run of a request that is let through. */
  lemma RunsGrow(settings: Settings, w: World, a: Action, after: World)
    requires Next(settings, w, a, after)
    ensures after.trace.runs == w.trace.runs ||
            (&& a.Authorize? && |after.trace.runs| == |w.trace.runs| + 1 && w.trace.runs <= after.trace.runs
             && after.trace.runs[|w.trace.runs|].requestId == a.requestId
             && w.requests[a.requestId].stage.Authenticated?
             && RunOf(after.requests, after.trace.runs[|w.trace.runs|]))
  {
  }

  ghost predicate RanFor(w: World, id: string, tool: Tool, buyer: string) {
    exists i :: 0 <= i < |w.trace.runs| && w.trace.runs[i].requestId == id && w.trace.runs[i].tool == tool &&
        w.trace.runs[i].buyer == buyer && w.trace.runs[i].ledgerLength <= |w.ledger|
  }

  /** No handler is at work, and no request succeeded, without a run of its own. */
  ghost predicate StageHasRun(w: World, id: string)
    requires id in w.requests
  {
    var req := w.requests[id];
    && (req.stage.Handling? ==> RanFor(w, id, req.tool, req.stage.buyer))
    && (req.stage.Handling? ==> req.tool.GetForecast? || req.tool.CheckAvailability?)
    && (req.stage == Done(Success) ==> exists buyer :: RanFor(w, id, req.tool, buyer))
  }

  ghost predicate StagesHaveRuns(w: World) {
    forall id :: id in w.requests ==> StageHasRun(w, id)
  }

  lemma RanForStays(w: World, after: World, id: string, tool: Tool, buyer: string)
    requires Advanced(w, after) && RanFor(w, id, tool, buyer)
    ensures RanFor(after, id, tool, buyer)
  {
    var i :| 0 <= i < |w.trace.runs| && w.trace.runs[i].requestId == id && w.trace.runs[i].tool == tool &&
        w.trace.runs[i].buyer == buyer && w.trace.runs[i].ledgerLength <= |w.ledger|;
    assert after.trace.runs[i] == w.trace.runs[i];
  }

  /** How a request comes to a running handler or to success: it was there, its forecast came, or it was let
      through. */
  lemma ReachesStage(settings: Settings, w: World, a: Action, after: World, id: string)
    requires Next(settings, w, a, after) && id in after.requests
    requires after.requests[id].stage.Handling? || after.requests[id].stage == Done(Success)
    ensures (id in w.requests && after.requests[id] == w.requests[id])
         || (a.Forecasted? && id in w.requests && w.requests[id].stage.Handling? &&
             after.requests[id] == w.requests[id].(stage := Done(Success)))
         || (a.Authorize? && id == a.requestId && id in w.requests && w.requests[id].stage.Authenticated? &&
             LetThrough(settings, w, after, a, after.requests[id].stage))
  {
  }

  lemma StagesStayRun(settings: Settings, w: World, a: Action, after: World)
    requires Next(settings, w, a, after) && StagesHaveRuns(w)
    ensures StagesHaveRuns(after)
  {
    NextAdvances(settings, w, a, after);
    forall id | id in after.requests
      ensures StageHasRun(after, id)
    {
      if after.requests[id].stage.Handling? || after.requests[id].stage == Done(Success) {
        StageStaysRun(settings, w, a, after, id);
      }
    }
  }

  lemma StageStaysRun(settings: Settings, w: World, a: Action, after: World, id: string)
    requires Next(settings, w, a, after) && StagesHaveRuns(w) && Advanced(w, after) && id in after.requests
    requires after.requests[id].stage.Handling? || after.requests[id].stage == Done(Success)
    ensures StageHasRun(after, id)
  {
    ReachesStage(settings, w, a, after, id);
    if id in w.requests && (after.requests[id] == w.requests[id] || w.requests[id].stage.Handling?) {
      var req := w.requests[id];
      assert StageHasRun(w, id);
      var buyer :| RanFor(w, id, req.tool, buyer) && (req.stage.Handling? ==> buyer == req.stage.buyer);
      RanForStays(w, after, id, req.tool, buyer);
    } else {
      assert after.trace.runs[|w.trace.runs|].requestId == id;
      assert RanFor(after, id, w.requests[id].tool, w.requests[id].stage.buyer);
    }
  }

  // ---------------------------------------------------------------------------------------------
  // Domain events belong to runs
  // ---------------------------------------------------------------------------------------------

  predicate IsDomain(e: Event) {
    e.ForecastRequest? || e.IntentCreated? || e.IntentRevoked?
  }

  /** Which tool writes which domain event. */
  predicate Writes(tool: Tool, e: Event) {
    || (e.ForecastRequest? && (tool.GetForecast? || tool.CheckAvailability?))
    || (e.IntentCreated? && tool.CreateIntent?)
    || (e.IntentRevoked? && tool.RevokeIntent?)
  }

  /** The event at `k` was written by a run that began before it, for the same request and buyer, of a tool that
      writes such events; and its request succeeded. */
  ghost predicate EventHasRun(w: World, k: nat)
    requires k < |w.ledger| && IsDomain(w.ledger[k])
  {
    var e := w.ledger[k];
    && e.requestId in w.requests && w.requests[e.requestId].stage == Done(Success)
    && exists i :: 0 <= i < |w.trace.runs| && w.trace.runs[i].requestId == e.requestId &&
         w.trace.runs[i].buyer == e.buyer && Writes(w.trace.runs[i].tool, e) && w.trace.runs[i].ledgerLength <= k
  }

  ghost predicate EventsHaveRuns(w: World) {
    forall k :: 0 <= k < |w.ledger| && IsDomain(w.ledger[k]) ==> EventHasRun(w, k)
  }

  /** No request writes two domain events. */
  ghost predicate OneEventEach(w: World) {
    forall j, k :: 0 <= j < k < |w.ledger| && IsDomain(w.ledger[j]) && IsDomain(w.ledger[k]) ==>
      w.ledger[j].requestId != w.ledger[k].requestId
  }

  ghost predicate IsLogged(w: World, id: string) {
    exists k :: 0 <= k < |w.ledger| && IsDomain(w.ledger[k]) && w.ledger[k].requestId == id
  }

  /** No success, but for a mere discovery, goes without its event. */
  ghost predicate SuccessIsLogged(w: World) {
    forall id :: id in w.requests && w.requests[id].stage == Done(Success) && !w.requests[id].tool.DiscoverProducts? ==>
      IsLogged(w, id)
  }

  /** A step adds at most one domain event, and that is of a request which it makes succeed. */
  lemma DomainEventsGrow(settings: Settings, w: World, a: Action, after: World, k: nat)
    requires Next(settings, w, a, after) && |w.ledger| <= k < |after.ledger| && IsDomain(after.ledger[k])
    ensures k == |after.ledger| - 1 && (a.Forecasted? || a.Authorize?)
    ensures var e := after.ledger[k];
            && e.requestId == a.requestId && e.requestId in w.requests && !w.requests[e.requestId].stage.Done?
            && after.requests[e.requestId].stage == Done(Success)
    ensures a.Forecasted? ==> after.ledger[k] == ForecastRequest(a.requestId, w.requests[a.requestId].stage.buyer) &&
                              w.requests[a.requestId].stage.Handling?
    ensures a.Authorize? ==>
              && k == |w.ledger| + 1 && LetThrough(settings, w, after, a, Done(Success))
              && after.ledger[k].buyer == w.requests[a.requestId].stage.buyer
              && Writes(w.requests[a.requestId].tool, after.ledger[k])
  {
    SweepWritesNoDomain(settings, w, a, after);
    if a.Authorize? {
      assert after.ledger[k] == after.ledger[|w.ledger|..][k - |w.ledger|];
      NewEventIsHandlers(settings, w, a, after, k);
    }
  }

  lemma SweepWritesNoDomain(settings: Settings, w: World, a: Action, after: World)
    requires Next(settings, w, a, after)
    ensures a.Sweep? ==> forall k :: |w.ledger| <= k < |after.ledger| ==> !IsDomain(after.ledger[k])
  {
    if a.Sweep? {
      forall k | |w.ledger| <= k < |after.ledger|
        ensures !IsDomain(after.ledger[k])
      {
        assert after.ledger[k] in after.ledger[|w.ledger|..];
        assert IsExpiryOf(w.book.live, a.at, after.ledger[k]);
      }
    }
  }

  lemma NewEventIsHandlers(settings: Settings, w: World, a: Action, after: World, k: nat)
    requires a.Authorize? && Next(settings, w, a, after) && |w.ledger| <= k < |after.ledger|
    requires IsDomain(after.ledger[k])
    ensures k == |w.ledger| + 1 == |after.ledger| - 1 && LetThrough(settings, w, after, a, Done(Success))
    ensures var e, req := after.ledger[k], w.requests[a.requestId];
            e.requestId == a.requestId && e.buyer == req.stage.buyer && Writes(req.tool, e)
  {
    var events := after.ledger[|w.ledger| + 1..];
    if k > |w.ledger| {
      assert after.ledger[k] == events[k - |w.ledger| - 1];
    }
  }

  lemma EventsStayRun(settings: Settings, w: World, a: Action, after: World)
    requires Next(settings, w, a, after) && EventsHaveRuns(w) && StagesHaveRuns(w) && Advanced(w, after)
    ensures EventsHaveRuns(after)
  {
    forall k | 0 <= k < |after.ledger| && IsDomain(after.ledger[k])
      ensures EventHasRun(after, k)
    {
      if k < |w.ledger| {
        OldEventHasRun(w, after, k);
      } else {
        NewEventHasRun(settings, w, a, after, k);
      }
    }
  }

  lemma OldEventHasRun(w: World, after: World, k: nat)
    requires Advanced(w, after) && k < |w.ledger| && IsDomain(w.ledger[k]) && EventHasRun(w, k)
    ensures EventHasRun(after, k)
  {
    var e := w.ledger[k];
    assert after.ledger[k] == e;
    var i :| 0 <= i < |w.trace.runs| && w.trace.runs[i].requestId == e.requestId &&
        w.trace.runs[i].buyer == e.buyer && Writes(w.trace.runs[i].tool, e) && w.trace.runs[i].ledgerLength <= k;
    assert after.trace.runs[i] == w.trace.runs[i];
  }

  lemma NewEventHasRun(settings: Settings, w: World, a: Action, after: World, k: nat)
    requires Next(settings, w, a, after) && StagesHaveRuns(w) && Advanced(w, after)
    requires |w.ledger| <= k < |after.ledger| && IsDomain(after.ledger[k])
    ensures EventHasRun(after, k)
  {
    DomainEventsGrow(settings, w, a, after, k);
    var req := w.requests[a.requestId];
    if a.Forecasted? {
      assert StageHasRun(w, a.requestId);
      var i :| 0 <= i < |w.trace.runs| && w.trace.runs[i].requestId == a.requestId &&
          w.trace.runs[i].tool == req.tool && w.trace.runs[i].buyer == req.stage.buyer &&
          w.trace.runs[i].ledgerLength <= |w.ledger|;
      assert after.trace.runs[i] == w.trace.runs[i];
    } else {
      assert after.trace.runs[|w.trace.runs|].requestId == a.requestId;
    }
  }

  lemma EventsStaySingle(settings: Settings, w: World, a: Action, after: World)
    requires Next(settings, w, a, after) && EventsHaveRuns(w) && OneEventEach(w) && Advanced(w, after)
    ensures OneEventEach(after)
  {
    forall j, k | 0 <= j < k < |after.ledger| && IsDomain(after.ledger[j]) && IsDomain(after.ledger[k])
      ensures after.ledger[j].requestId != after.ledger[k].requestId
    {
      if |w.ledger| <= k {
        DomainEventsGrow(settings, w, a, after, k);
        if |w.ledger| <= j {
          DomainEventsGrow(settings, w, a, after, j);
        } else {
          assert after.ledger[j] == w.ledger[j] && EventHasRun(w, j);
        }
      } else {
        assert after.ledger[j] == w.ledger[j] && after.ledger[k] == w.ledger[k];
      }
    }
  }

  lemma SuccessStaysLogged(settings: Settings, w: World, a: Action, after: World)
    requires Next(settings, w, a, after) && SuccessIsLogged(w) && StagesHaveRuns(w) && Advanced(w, after)
    ensures SuccessIsLogged(after)
  {
    forall id | id in after.requests && after.requests[id].stage == Done(Success) &&
                !after.requests[id].tool.DiscoverProducts?
      ensures IsLogged(after, id)
    {
      ReachesStage(settings, w, a, after, id);
      if id in w.requests && w.requests[id].stage == Done(Success) {
        var k :| 0 <= k < |w.ledger| && IsDomain(w.ledger[k]) && w.ledger[k].requestId == id;
        assert after.ledger[k] == w.ledger[k];
      } else if a.Forecasted? {
        assert IsDomain(after.ledger[|w.ledger|]);
      } else {
        NewSuccessIsLogged(settings, w, a, after);
      }
    }
  }

  lemma NewSuccessIsLogged(settings: Settings, w: World, a: Action, after: World)
    requires Next(settings, w, a, after) && a.Authorize? && a.requestId in after.requests
    requires LetThrough(settings, w, after, a, Done(Success)) && !w.requests[a.requestId].tool.DiscoverProducts?
    ensures IsLogged(after, a.requestId)
  {
    var events := after.ledger[|w.ledger| + 1..];
    assert |events| == 1 && IsDomain(events[0]) && events[0].requestId == a.requestId;
    assert after.ledger[|w.ledger| + 1] == events[0];
  }

  // ---------------------------------------------------------------------------------------------
  // Runs lie behind the replay gate
  // ---------------------------------------------------------------------------------------------

  predicate PassOf(requests: map<string, Inflight>, p: Pass) {
    p.requestId in requests && requests[p.requestId].clientId == Some(p.clientId)
  }

  ghost predicate PassesAreOwn(w: World) {
    && (forall i :: 0 <= i < |w.trace.passes| ==> PassOf(w.requests, w.trace.passes[i]))
    && (forall i, j :: 0 <= i < j < |w.trace.passes| ==> w.trace.passes[i].requestId != w.trace.passes[j].requestId)
  }

  lemma PassesStayOwn(settings: Settings, w: World, a: Action, after: World)
    requires Next(settings, w, a, after) && PassesAreOwn(w) && Advanced(w, after)
    ensures PassesAreOwn(after)
  {
    forall i | 0 <= i < |w.trace.passes|
      ensures PassOf(after.requests, w.trace.passes[i])
    {
      assert PassOf(w.requests, w.trace.passes[i]);
    }
    PassesGrow(settings, w, a, after);
  }

  /** The passes change only by the pass of an arriving request. */
  lemma PassesGrow(settings: Settings, w: World, a: Action, after: World)
    requires Next(settings, w, a, after)
    ensures after.trace.passes == w.trace.passes ||
            (&& a.Arrive? && a.requestId !in w.requests && w.trace.passes <= after.trace.passes
             && |after.trace.passes| == |w.trace.passes| + 1
             && after.trace.passes[|w.trace.passes|].requestId == a.requestId
             && PassOf(after.requests, after.trace.passes[|w.trace.passes|]))
  {
    if a.Arrive? {
      var added := after.trace.passes[|w.trace.passes|..];
      assert after.trace.passes == w.trace.passes + added;
    }
  }

  /** In the process run `epoch` the request passed the gate with its client id, not after `at`. */
  ghost predicate Passed(passes: seq<Pass>, epoch: nat, id: string, clientId: string, at: int) {
    exists i :: 0 <= i < |passes| && passes[i].epoch == epoch && passes[i].requestId == id &&
        passes[i].clientId == clientId && passes[i].recordedAt <= at
  }

  /** A request with a client id passed with it; under the option that demands one it has one. */
  ghost predicate Cleared(settings: Settings, w: World, epoch: nat, id: string, at: int) {
    id in w.requests ==>
      && (w.requests[id].clientId.Some? ==> Passed(w.trace.passes, epoch, id, w.requests[id].clientId.value, at))
      && (settings.requireIdempotencyKey ==> w.requests[id].clientId.Some?)
  }

  /** Whatever is still in flight is cleared in this process run, and every run was when it began. */
  ghost predicate AllCleared(settings: Settings, w: World) {
    && (forall id :: id in w.requests && !w.requests[id].stage.Done? ==> Cleared(settings, w, w.epoch, id, w.now))
    && (forall i :: 0 <= i < |w.trace.runs| ==>
          Cleared(settings, w, w.trace.runs[i].epoch, w.trace.runs[i].requestId, w.trace.runs[i].at))
  }

  lemma ClearedStays(settings: Settings, w: World, after: World, epoch: nat, id: string, at: int, later: int)
    requires Advanced(w, after) && Cleared(settings, w, epoch, id, at) && id in w.requests && at <= later
    ensures Cleared(settings, after, epoch, id, later)
  {
    if w.requests[id].clientId.Some? {
      var c := w.requests[id].clientId.value;
      var i :| 0 <= i < |w.trace.passes| && w.trace.passes[i].epoch == epoch && w.trace.passes[i].requestId == id &&
          w.trace.passes[i].clientId == c && w.trace.passes[i].recordedAt <= at;
      assert after.trace.passes[i] == w.trace.passes[i];
    }
  }

  lemma ArrivalIsCleared(settings: Settings, w: World, a: Action, after: World)
    requires a.Arrive? && Next(settings, w, a, after)
    requires !after.requests[a.requestId].stage.Done?
    ensures Cleared(settings, after, after.epoch, a.requestId, after.now)
  {
    if a.clientId.Some? {
      assert after.trace.passes[|w.trace.passes|..][0] == after.trace.passes[|w.trace.passes|];
    }
  }

  lemma AllStayCleared(settings: Settings, w: World, a: Action, after: World)
    requires Next(settings, w, a, after) && AllCleared(settings, w) && RunsAreOwn(w) && Advanced(w, after)
    ensures AllCleared(settings, after)
  {
    forall id | id in after.requests && !after.requests[id].stage.Done?
      ensures Cleared(settings, after, after.epoch, id, after.now)
    {
      if id in w.requests {
        ClearedStays(settings, w, after, w.epoch, id, w.now, after.now);
      } else {
        ArrivalIsCleared(settings, w, a, after);
      }
    }
    forall i | 0 <= i < |after.trace.runs|
      ensures var r := after.trace.runs[i]; Cleared(settings, after, r.epoch, r.requestId, r.at)
    {
      RunStaysCleared(settings, w, a, after, i);
    }
  }

  lemma RunStaysCleared(settings: Settings, w: World, a: Action, after: World, i: nat)
    requires Next(settings, w, a, after) && AllCleared(settings, w) && RunsAreOwn(w) && Advanced(w, after)
    requires i < |after.trace.runs|
    ensures var r := after.trace.runs[i]; Cleared(settings, after, r.epoch, r.requestId, r.at)
  {
    if i < |w.trace.runs| {
      var r := w.trace.runs[i];
      assert after.trace.runs[i] == r && RunOf(w.requests, r);
      ClearedStays(settings, w, after, r.epoch, r.requestId, r.at, r.at);
    } else {
      ClearedStays(settings, w, after, w.epoch, a.requestId, w.now, a.at);
    }
  }

  // ---------------------------------------------------------------------------------------------
  // The grants in force covered every run
  // ---------------------------------------------------------------------------------------------

  ghost predicate GrantsCover(w: World) {
    && (forall i :: 0 <= i < |w.trace.runs| ==>
          && Covers(w.trace.runs[i].grants, w.trace.runs[i].buyer, w.trace.runs[i].tool)
          && w.trace.runs[i].epoch <= w.epoch
          && (w.trace.runs[i].epoch == w.epoch ==> w.trace.runs[i].grants == w.grants))
    && (forall i, j :: 0 <= i < j < |w.trace.runs| && w.trace.runs[i].epoch == w.trace.runs[j].epoch ==>
          w.trace.runs[i].grants == w.trace.runs[j].grants)
  }

  lemma GrantsStayCovering(settings: Settings, w: World, a: Action, after: World)
    requires Next(settings, w, a, after) && GrantsCover(w)
    ensures GrantsCover(after)
  {
  }

  // ---------------------------------------------------------------------------------------------
  // No intent comes or goes without its event
  // ---------------------------------------------------------------------------------------------

  ghost predicate LoggedFor(w: World, id: string, e: Event) {
    && (e.IntentCreated? || e.IntentRevoked? || e.IntentExpired?)
    && e.intentId == id && e in w.ledger
  }

  ghost predicate CreationLogged(w: World, id: string) {
    exists e :: LoggedFor(w, id, e) && e.IntentCreated?
  }

  ghost predicate RevocationLogged(w: World, id: string) {
    exists e :: LoggedFor(w, id, e) && e.IntentRevoked?
  }

  ghost predicate ExpiryLogged(w: World, id: string) {
    exists e :: LoggedFor(w, id, e) && e.IntentExpired?
  }

  ghost predicate BookLogged(w: World) {
    && (forall id :: id in w.book.created ==> CreationLogged(w, id))
    && (forall id :: id in w.book.revoked ==> RevocationLogged(w, id))
    && (forall id :: id in w.book.expired ==> ExpiryLogged(w, id))
  }

  lemma LoggedStays(w: World, after: World, id: string)
    requires w.ledger <= after.ledger
    ensures CreationLogged(w, id) ==> CreationLogged(after, id)
    ensures RevocationLogged(w, id) ==> RevocationLogged(after, id)
    ensures ExpiryLogged(w, id) ==> ExpiryLogged(after, id)
  {
    forall e | LoggedFor(w, id, e)
      ensures LoggedFor(after, id, e)
    {
      var k :| 0 <= k < |w.ledger| && w.ledger[k] == e;
      assert after.ledger[k] == e;
    }
  }

  lemma BookStaysLogged(settings: Settings, w: World, a: Action, after: World)
    requires Next(settings, w, a, after) && BookLogged(w) && Advanced(w, after) && Balanced(settings, w.book)
    ensures BookLogged(after)
  {
    forall id: string
      ensures CreationLogged(w, id) ==> CreationLogged(after, id)
      ensures RevocationLogged(w, id) ==> RevocationLogged(after, id)
      ensures ExpiryLogged(w, id) ==> ExpiryLogged(after, id)
    {
      LoggedStays(w, after, id);
    }
    if a.Authorize? {
      HandlersLog(settings, w, a, after);
    } else if a.Sweep? {
      SweepsLog(w, after, a.at);
    }
  }

  lemma HandlersLog(settings: Settings, w: World, a: Action, after: World)
    requires a.Authorize? && Next(settings, w, a, after)
    ensures forall id :: id in after.book.created && id !in w.book.created ==> CreationLogged(after, id)
    ensures forall id :: id in after.book.revoked && id !in w.book.revoked ==> RevocationLogged(after, id)
    ensures after.book.expired == w.book.expired
  {
    if after.book != w.book {
      var e := after.ledger[|w.ledger| + 1..][0];
      assert after.ledger[|w.ledger| + 1] == e;
      assert LoggedFor(after, e.intentId, e);
    }
  }

  lemma SweepsLog(w: World, after: World, at: int)
    requires Swept(w, after, at) && AllActive(w.book.live)
    ensures forall id :: id in after.book.expired && id !in w.book.expired ==> ExpiryLogged(after, id)
    ensures after.book.created == w.book.created && after.book.revoked == w.book.revoked
  {
    SweptBookTable(w.book, at);
    forall id | id in after.book.expired && id !in w.book.expired
      ensures ExpiryLogged(after, id)
    {
      var i :| i in w.book.live && i.expiresAt <= at && i.intentId == id;
      var e := IntentExpired(i.buyerId, id);
      assert IsExpiryOf(w.book.live, at, e);
      assert e in after.ledger[|w.ledger|..];
      assert LoggedFor(after, id, e);
    }
  }

  // ---------------------------------------------------------------------------------------------
  // Every run
  // ---------------------------------------------------------------------------------------------

  /** Replay memory and limits are those of this process run. */
  ghost predicate Remembers(settings: Settings, w: World) {
    SeenPassed(settings, w) && LimitsRan(w)
  }

  ghost predicate Tied(settings: Settings, w: World) {
    && RunsAreOwn(w) && StagesHaveRuns(w) && EventsHaveRuns(w) && OneEventEach(w) && SuccessIsLogged(w)
    && PassesAreOwn(w) && AllCleared(settings, w) && GrantsCover(w) && BookLogged(w)
  }

  ghost predicate Kept(settings: Settings, w: World) {
    Sound(settings, w) && Remembers(settings, w) && Tied(settings, w)
  }

  lemma NextKeepsTied(settings: Settings, w: World, a: Action, after: World)
    requires Next(settings, w, a, after) && Tied(settings, w) && Balanced(settings, w.book)
    ensures Tied(settings, after)
  {
    NextAdvances(settings, w, a, after);
    RunsStayOwn(settings, w, a, after);
    StagesStayRun(settings, w, a, after);
    EventsStayRun(settings, w, a, after);
    EventsStaySingle(settings, w, a, after);
    SuccessStaysLogged(settings, w, a, after);
    PassesStayOwn(settings, w, a, after);
    AllStayCleared(settings, w, a, after);
    GrantsStayCovering(settings, w, a, after);
    BookStaysLogged(settings, w, a, after);
  }

  lemma SlotStays(settings: Settings, w: World, after: World, clientId: string, until: int)
    requires IsSlotOf(settings, w, clientId, until) && w.trace.passes <= after.trace.passes && after.epoch == w.epoch
    ensures IsSlotOf(settings, after, clientId, until)
  {
    var i :| 0 <= i < |w.trace.passes| && w.trace.passes[i].epoch == w.epoch &&
        w.trace.passes[i].clientId == clientId && until == w.trace.passes[i].recordedAt + settings.replayWindowMs;
    assert after.trace.passes[i] == w.trace.passes[i];
  }

  lemma RunStays(w: World, after: World, tool: Tool, buyer: string, at: int)
    requires IsRunAt(w, tool, buyer, at) && w.trace.runs <= after.trace.runs && after.epoch == w.epoch
    ensures IsRunAt(after, tool, buyer, at)
  {
    var i :| 0 <= i < |w.trace.runs| && w.trace.runs[i].epoch == w.epoch && w.trace.runs[i].tool == tool &&
        w.trace.runs[i].buyer == buyer && at == w.trace.runs[i].at;
    assert after.trace.runs[i] == w.trace.runs[i];
  }

  lemma GateRemembers(settings: Settings, w: World, id: string, clientId: Option<string>, checkedAt: int,
                      recordedAt: int)
    requires SeenPassed(settings, w)
    ensures SeenPassed(settings, Gate(settings, w, id, clientId, checkedAt, recordedAt))
  {
    var after := Gate(settings, w, id, clientId, checkedAt, recordedAt);
    forall c | c in after.guard.seen
      ensures IsSlotOf(settings, after, c, after.guard.seen[c])
    {
      if c in w.guard.seen && after.guard.seen[c] == w.guard.seen[c] {
        SlotStays(settings, w, after, c, w.guard.seen[c]);
      } else {
        assert after.trace.passes[|w.trace.passes|].clientId == c;
      }
    }
  }

  lemma LimiterRemembers(w: World, id: string, tool: Tool, buyer: string, at: int)
    requires LimitsRan(w)
    ensures LimitsRan(Limited(w, id, tool, buyer, at))
  {
    var after := Limited(w, id, tool, buyer, at);
    forall t, b | b in LimitsFor(after.guard, t)
      ensures IsRunAt(after, t, b, LimitsFor(after.guard, t)[b])
    {
      if b in LimitsFor(w.guard, t) && LimitsFor(after.guard, t)[b] == LimitsFor(w.guard, t)[b] {
        RunStays(w, after, t, b, LimitsFor(w.guard, t)[b]);
      } else {
        assert after.trace.runs[|w.trace.runs|].buyer == b;
      }
    }
  }

  /** Only guard, trace and process run matter. */
  lemma SameMemory(settings: Settings, w: World, after: World)
    requires after.guard == w.guard && after.trace == w.trace && after.epoch == w.epoch && Remembers(settings, w)
    ensures Remembers(settings, after)
  {
    forall c | c in after.guard.seen
      ensures IsSlotOf(settings, after, c, after.guard.seen[c])
    {
      SlotStays(settings, w, after, c, w.guard.seen[c]);
    }
    forall t, b | b in LimitsFor(after.guard, t)
      ensures IsRunAt(after, t, b, LimitsFor(after.guard, t)[b])
    {
      RunStays(w, after, t, b, LimitsFor(w.guard, t)[b]);
    }
  }

  lemma ArriveRemembers(settings: Settings, w: World, a: Action)
    requires Remembers(settings, w) && a.Arrive? && Enabled(w, a)
    ensures Remembers(settings, Step(settings, w, a))
  {
    var gated := Gate(settings, w, a.requestId, a.clientId, a.checkedAt, a.recordedAt);
    GateRemembers(settings, w, a.requestId, a.clientId, a.checkedAt, a.recordedAt);
    GateKeepsLimits(settings, w, a.requestId, a.clientId, a.checkedAt, a.recordedAt);
    SameMemory(settings, gated, Step(settings, w, a));
  }

  lemma GateKeepsLimits(settings: Settings, w: World, id: string, clientId: Option<string>, checkedAt: int,
                        recordedAt: int)
    requires LimitsRan(w)
    ensures LimitsRan(Gate(settings, w, id, clientId, checkedAt, recordedAt))
  {
    var after := Gate(settings, w, id, clientId, checkedAt, recordedAt);
    forall t, b | b in LimitsFor(after.guard, t)
      ensures IsRunAt(after, t, b, LimitsFor(after.guard, t)[b])
    {
      RunStays(w, after, t, b, LimitsFor(w.guard, t)[b]);
    }
  }

  lemma LimiterKeepsSeen(settings: Settings, w: World, id: string, tool: Tool, buyer: string, at: int)
    requires SeenPassed(settings, w)
    ensures SeenPassed(settings, Limited(w, id, tool, buyer, at))
  {
    var after := Limited(w, id, tool, buyer, at);
    forall c | c in after.guard.seen
      ensures IsSlotOf(settings, after, c, after.guard.seen[c])
    {
      SlotStays(settings, w, after, c, w.guard.seen[c]);
    }
  }

  lemma AuthorizeRemembers(settings: Settings, w: World, a: Action)
    requires Remembers(settings, w) && a.Authorize? && Enabled(w, a)
    ensures Remembers(settings, Step(settings, w, a))
  {
    var req := w.requests[a.requestId];
    var logged := Logged(w, a.requestId, req.tool, req.stage.buyer);
    SameMemory(settings, w, logged);
    LimiterRemembers(logged, a.requestId, req.tool, req.stage.buyer, a.at);
    LimiterKeepsSeen(settings, logged, a.requestId, req.tool, req.stage.buyer, a.at);
    SameMemory(settings, if DecisionFor(w, req.stage.buyer, req.tool).allow
                         then Limited(logged, a.requestId, req.tool, req.stage.buyer, a.at) else logged,
               Step(settings, w, a));
  }

  lemma StepKeepsKept(settings: Settings, w: World, a: Action)
    requires Kept(settings, w)
    ensures Kept(settings, Step(settings, w, a))
  {
    if Enabled(w, a) {
      StepIsNext(settings, w, a);
      NextKeepsTied(settings, w, a, Step(settings, w, a));
      StepRemembers(settings, w, a);
      StepKeepsGuarded(settings, w, a);
      StepKeepsGated(settings, w, a);
      StepKeepsAccounts(settings, w, a);
    }
  }

  lemma StepRemembers(settings: Settings, w: World, a: Action)
    requires Remembers(settings, w) && Enabled(w, a)
    ensures Remembers(settings, Step(settings, w, a))
  {
    if a.Arrive? {
      ArriveRemembers(settings, w, a);
    } else if a.Authorize? {
      AuthorizeRemembers(settings, w, a);
    } else if a.Prune? {
      PruneRemembers(settings, w, a.at);
    } else if !a.Restart? && !a.Purge? {
      SameMemory(settings, w, Step(settings, w, a));
    }
  }

  lemma PruneRemembers(settings: Settings, w: World, at: int)
    requires Remembers(settings, w) && w.now <= at
    ensures Remembers(settings, Step(settings, w, Action.Prune(at)))
  {
    var after := Step(settings, w, Action.Prune(at));
    PruneTable(settings, w, at);
    SameMemory(settings, w, after.(guard := w.guard));
    forall c | c in after.guard.seen
      ensures IsSlotOf(settings, after, c, after.guard.seen[c])
    {
      SlotStays(settings, w, after, c, w.guard.seen[c]);
    }
    forall t, b | b in LimitsFor(after.guard, t)
      ensures IsRunAt(after, t, b, LimitsFor(after.guard, t)[b])
    {
      RunStays(w, after, t, b, LimitsFor(w.guard, t)[b]);
    }
  }

  lemma {:induction false} RunKeepsKept(settings: Settings, w: World, actions: seq<Action>)
    requires Kept(settings, w)
    ensures Kept(settings, Execute(settings, w, actions))
    decreases |actions|
  {
    if |actions| > 0 {
      StepKeepsKept(settings, w, actions[0]);
      RunKeepsKept(settings, Step(settings, w, actions[0]), actions[1..]);
    }
  }

  // ---------------------------------------------------------------------------------------------
  // Main results
  // ---------------------------------------------------------------------------------------------

  /** After any run, an arrival is refused for a missing key exactly if one is demanded, as a replay exactly if
      its client id passed within the window before, and for a missing token exactly if it gets that far; it goes
      on to the token check otherwise; and it passes the gate exactly if it has a client id that did not. */
  lemma ArrivalExactly(settings: Settings, now: int, grants: map<string, Entitlement>, actions: seq<Action>,
                       a: Action)
    requires a.Arrive? && Enabled(Execute(settings, Boot(now, grants), actions), a)
    ensures var w := Execute(settings, Boot(now, grants), actions);
            Arrived(settings, w, Step(settings, w, a), a)
  {
    RunKeepsKept(settings, Boot(now, grants), actions);
    ArriveTable(settings, Execute(settings, Boot(now, grants), actions), a);
  }

  /** After any run, an authenticated request is turned away by the policy exactly if the grants in force do not
      cover its tool's own surface, by the limit exactly if its tool ran for the buyer within the window before,
      and is handled otherwise: a commitment and a withdrawal exactly as far as price and ownership allow. */
  lemma AuthorizationExactly(settings: Settings, now: int, grants: map<string, Entitlement>,
                             actions: seq<Action>, a: Action)
    requires a.Authorize? && Enabled(Execute(settings, Boot(now, grants), actions), a)
    ensures var w := Execute(settings, Boot(now, grants), actions);
            Authorized(settings, w, Step(settings, w, a), a)
  {
    RunKeepsKept(settings, Boot(now, grants), actions);
    AuthorizeIsNext(settings, Execute(settings, Boot(now, grants), actions), a);
  }

  /** After any run, a sweep at `at` leaves exactly the intents that expire after `at`, and logs one expiry for the
      right buyer for each of the others. */
  lemma SweepExactly(settings: Settings, now: int, grants: map<string, Entitlement>, actions: seq<Action>, at: int)
    requires Execute(settings, Boot(now, grants), actions).now <= at
    ensures var w := Execute(settings, Boot(now, grants), actions);
            var after := Step(settings, w, Action.Sweep(at));
            && (forall i :: i in after.book.live <==> i in w.book.live && at < i.expiresAt)
            && w.ledger <= after.ledger
            && |after.ledger| - |w.ledger| == |w.book.live| - |after.book.live|
            && (forall e :: e in after.ledger[|w.ledger|..] <==> IsExpiryOf(w.book.live, at, e))
  {
    var w := Execute(settings, Boot(now, grants), actions);
    RunKeepsKept(settings, Boot(now, grants), actions);
    SweepTable(settings, w, at);
    SweptBookTable(w.book, at);
  }

  /** The ledger shows, before the run, an accepted authentication of the run's request as its buyer for the
      tool's surface, and just before it an allowing decision for the same. */
  ghost predicate Evidenced(ledger: seq<Event>, r: HandlerRun) {
    && r.buyer != "" && 0 < r.ledgerLength <= |ledger|
    && IsScopeEntry(ledger[r.ledgerLength - 1], r.requestId, r.buyer, r.tool, true)
    && exists i :: 0 <= i < r.ledgerLength &&
         ledger[i] == BuyerAuthentication(r.requestId, r.buyer, OwnSurface(r.tool), true)
  }

  /** Within one process run, two runs of one tool for one buyer are its window apart. */
  ghost predicate RunsAreSpaced(runs: seq<HandlerRun>) {
    forall i, j :: 0 <= i < j < |runs| && runs[i].epoch == runs[j].epoch && runs[i].tool == runs[j].tool &&
        runs[i].buyer == runs[j].buyer
      ==> runs[j].at - runs[i].at >= WindowMs(runs[i].tool)
  }

  ghost predicate Safe(settings: Settings, w: World) {
    && RunsAreSpaced(w.trace.runs)
    && OncePerWindow(settings, w.trace.passes)
    && (forall i :: 0 <= i < |w.trace.runs| ==> Evidenced(w.ledger, w.trace.runs[i]))
    && GrantsCover(w)
    && RunsAreOwn(w) && StagesHaveRuns(w) && EventsHaveRuns(w) && OneEventEach(w) && SuccessIsLogged(w)
    && PassesAreOwn(w) && AllCleared(settings, w)
    && BookLogged(w)
  }

  lemma KeptIsSafe(settings: Settings, w: World)
    requires Kept(settings, w)
    ensures Safe(settings, w)
  {
    forall i | 0 <= i < |w.trace.runs|
      ensures Evidenced(w.ledger, w.trace.runs[i])
    {
      assert GatedRun(w.ledger, w.trace.runs[i]);
    }
  }

  /** Pipeline safety. In every interleaving: within one process run, two handler runs of one tool for one buyer
      are at least the tool's window apart, and one client request id passes the replay gate at most once per
      window, whatever the tool; every handler run has, earlier in the ledger, an accepted authentication of its
      request as its buyer and an allowing decision, and the grants then in force covered it; each request in a
      handler or answered with success, and each domain event, has a run of its own, and each run of a request
      with a client id a pass of its own; and no intent was created, revoked or expired without its event. */
  lemma PipelineSafety(settings: Settings, now: int, grants: map<string, Entitlement>, actions: seq<Action>)
    ensures Safe(settings, Execute(settings, Boot(now, grants), actions))
  {
    RunKeepsKept(settings, Boot(now, grants), actions);
    KeptIsSafe(settings, Execute(settings, Boot(now, grants), actions));
  }
}
