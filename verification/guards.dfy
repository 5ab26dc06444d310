/** The two in-memory request guards: replay detection by client request id, and the per-buyer rate
    limit. Both live as long as the process. */
module Guards {
  /** request id to the time its slot expires */
  type Seen = map<string, int>

  /** buyer to the time of its last allowed request */
  type LastAllowed = map<string, int>

  predicate Blocks(seen: Seen, id: string, now: int) {
    id in seen && now < seen[id]
  }

  /** A lookup drops the slot it finds expired. */
  function AfterLookup(seen: Seen, id: string, now: int): Seen {
    if id in seen && now >= seen[id] then seen - {id} else seen
  }

  function Unexpired(seen: Seen, now: int): Seen {
    map id | id in seen && now < seen[id] :: seen[id]
  }

  predicate Allows(last: LastAllowed, buyer: string, now: int, windowMs: int) {
    !(buyer in last && now - last[buyer] < windowMs)
  }

  function AfterCheck(last: LastAllowed, buyer: string, now: int, windowMs: int): LastAllowed {
    if Allows(last, buyer, now, windowMs) then last[buyer := now] else last
  }

  class ReplayGuard {
    const windowMs: int
    var seen: Seen

    constructor (windowMs: int)
      ensures this.windowMs == windowMs && seen == map[]
    {
      this.windowMs, seen := windowMs, map[];
    }

    method IsReplay(id: string, now: int) returns (replay: bool)
      modifies this
      ensures replay == Blocks(old(seen), id, now)
      ensures seen == AfterLookup(old(seen), id, now)
    {
      if id !in seen {
        return false;
      }
      if now >= seen[id] {
        seen := seen - {id};
        return false;
      }
      replay := true;
    }

    method Record(id: string, now: int)
      modifies this
      ensures seen == old(seen)[id := now + windowMs]
    {
      seen := seen[id := now + windowMs];
    }

    method Prune(now: int) returns (removed: nat)
      modifies this
      ensures seen == Unexpired(old(seen), now)
      ensures removed == |old(seen)| - |seen|
    {
      removed := 0;
      ghost var before := seen;
      var todo := seen.Keys;
      while todo != {}
        invariant todo <= before.Keys
        invariant seen == map id | id in before && (id in todo || now < before[id]) :: before[id]
        invariant removed + |seen| == |before|
        decreases todo
      {
        var id :| id in todo;
        todo := todo - {id};
        if now >= seen[id] {
          ghost var was := seen;
          seen := seen - {id};
          assert was.Keys == seen.Keys + {id};
          assert |was| == |was.Keys| && |seen| == |seen.Keys|;
          removed := removed + 1;
        }
      }
    }
  }

  class RateLimiter {
    const windowMs: int
    var lastAllowed: LastAllowed

    constructor (windowMs: int)
      ensures this.windowMs == windowMs && lastAllowed == map[]
    {
      this.windowMs, lastAllowed := windowMs, map[];
    }

    method Check(buyer: string, now: int) returns (allowed: bool)
      modifies this
      ensures allowed == Allows(old(lastAllowed), buyer, now, windowMs)
      ensures lastAllowed == AfterCheck(old(lastAllowed), buyer, now, windowMs)
    {
      if buyer in lastAllowed && now - lastAllowed[buyer] < windowMs {
        return false;
      }
      lastAllowed := lastAllowed[buyer := now];
      allowed := true;
    }
  }
}
