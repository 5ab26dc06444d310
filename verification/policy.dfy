/** The Default-Deny policy decision. */
module Policy {
  import opened Wrappers

  datatype Entitlement = Entitlement(buyerId: string, surfaces: seq<string>, scopes: seq<string>, phase: string)

  datatype Request = Request(buyerId: string, surface: string, scope: string, phase: string)

  datatype Reason =
    | SurfaceInDenylist
    | NoEntitlementForBuyer
    | SurfaceNotInEntitlement
    | ScopeNotInEntitlement
    | PhaseMismatch
    | EntitlementMatch

  datatype Decision = Decision(allow: bool, reason: Reason)

  const DENIED_SURFACES: set<string> := {
    "order_create", "deal_create", "media_buy", "inventory_reserve", "deal_mutate", "raw_avails", "gam_ids",
    "gam_objects", "exact_pricing", "cross_buyer_state", "gam_admin", "soap_faults", "credential_internals",
    "soft_lock_state"
  }

  const PRODUCT_DISCOVERY := "product_discovery"
  const FORECAST := "forecast"
  const INTENT := "intent"

  /** A request is allowed exactly when the surface is not denied and one entitlement covers surface,
      scope and phase at once; the denylist prevails over any entitlement, and no entitlement means
      no. A refusal names the first check that failed. */
  function Decide(entitlement: Option<Entitlement>, req: Request): (d: Decision)
    ensures d.allow <==>
              && req.surface !in DENIED_SURFACES
              && entitlement.Some?
              && req.surface in entitlement.value.surfaces
              && req.scope in entitlement.value.scopes
              && entitlement.value.phase == req.phase
    ensures d.allow <==> d.reason == EntitlementMatch
    ensures d.reason == SurfaceInDenylist <==> req.surface in DENIED_SURFACES
  {
    if req.surface in DENIED_SURFACES then Decision(false, SurfaceInDenylist)
    else if entitlement.None? then Decision(false, NoEntitlementForBuyer)
    else if req.surface !in entitlement.value.surfaces then Decision(false, SurfaceNotInEntitlement)
    else if req.scope !in entitlement.value.scopes then Decision(false, ScopeNotInEntitlement)
    else if entitlement.value.phase != req.phase then Decision(false, PhaseMismatch)
    else Decision(true, EntitlementMatch)
  }
}
