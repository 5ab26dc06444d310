/** Entitlements with the durable data-subject overlay: erasure (kept as hashes) and restriction (kept
    as raw ids), applied on top of whatever the configuration grants. */
module Entitlements {
  import opened Wrappers
  import opened Policy

  /** SHA-256 of a buyer_id, left arbitrary. */
  type BuyerHash = string -> string

  const SCHEMA_VERSION := 1

  /** The overlay file. Without a version, `suppressed` holds raw ids; with version 1, hashes. */
  datatype Overlay = Overlay(schemaVersion: Option<int>, suppressed: set<string>, restricted: set<string>)

  type Config = seq<Entitlement>

  datatype Store = Store(
    index: map<string, Entitlement>, suspended: map<string, Entitlement>, erased: set<string>, file: Overlay)

  /** Granted entitlements by buyer; of two entries for one buyer the later wins. */
  function Granted(config: Config): map<string, Entitlement> {
    if |config| == 0 then map[]
    else Granted(config[..|config| - 1])[config[|config| - 1].buyerId := config[|config| - 1]]
  }

  predicate IsLegacy(file: Overlay) {
    file.schemaVersion != Some(SCHEMA_VERSION)
  }

  function ErasedIn(hash: BuyerHash, file: Overlay): set<string> {
    if IsLegacy(file) then set id | id in file.suppressed :: hash(id) else file.suppressed
  }

  /** Restricted buyers that the configuration grants and that are not erased. */
  function Restricted(hash: BuyerHash, granted: map<string, Entitlement>, file: Overlay): set<string> {
    set b | b in file.restricted && hash(b) !in ErasedIn(hash, file) && b in granted
  }

  function Persisted(s: Store): Store {
    s.(file := Overlay(Some(SCHEMA_VERSION), s.erased, s.suspended.Keys))
  }

  function Boot(hash: BuyerHash, config: Config, file: Overlay): Store {
    var granted := Granted(config);
    var restricted := Restricted(hash, granted, file);
    var s := Store(granted - restricted, map b | b in restricted :: granted[b], ErasedIn(hash, file), file);
    if IsLegacy(file) && file.suppressed != {} then Persisted(s) else s
  }

  function Get(hash: BuyerHash, s: Store, buyer: string): Option<Entitlement> {
    if hash(buyer) in s.erased || buyer !in s.index then None else Some(s.index[buyer])
  }

  function Suspend(s: Store, buyer: string): Store {
    if buyer !in s.index then s
    else Persisted(s.(index := s.index - {buyer}, suspended := s.suspended[buyer := s.index[buyer]]))
  }

  function Reinstate(s: Store, buyer: string): Store {
    if buyer !in s.suspended then s
    else Persisted(s.(suspended := s.suspended - {buyer}, index := s.index[buyer := s.suspended[buyer]]))
  }

  /** The active entry goes, or else the suspended one. */
  function Remove(hash: BuyerHash, s: Store, buyer: string): Store {
    var dropped := if buyer in s.index then s.(index := s.index - {buyer}) else s.(suspended := s.suspended - {buyer});
    Persisted(dropped.(erased := s.erased + {hash(buyer)}))
  }

  function Those(granted: map<string, Entitlement>, buyers: set<string>): map<string, Entitlement>
    requires buyers <= granted.Keys
  {
    map b | b in buyers :: granted[b]
  }

  lemma RestrictOne(hash: BuyerHash, granted: map<string, Entitlement>, file: Overlay, todo: set<string>, buyer: string)
    requires buyer in todo && todo <= file.restricted
    ensures var restricted := Restricted(hash, granted, file);
            var done, next := restricted - todo, restricted - (todo - {buyer});
            if hash(buyer) !in ErasedIn(hash, file) && buyer in granted then
              && buyer in granted - done && next == done + {buyer}
              && granted - next == (granted - done) - {buyer}
              && Those(granted, next) == Those(granted, done)[buyer := granted[buyer]]
            else next == done
  {
  }

  class EntitlementStore {
    const hash: BuyerHash
    var index: map<string, Entitlement>
    var suspended: map<string, Entitlement>
    var erased: set<string>
    var file: Overlay

    ghost function State(): Store
      reads this
    {
      Store(index, suspended, erased, file)
    }

    constructor (hash: BuyerHash, config: Config, overlay: Overlay)
      ensures this.hash == hash
      ensures State() == Boot(hash, config, overlay)
    {
      this.hash := hash;
      index := map[];
      suspended := map[];
      erased := {};
      file := overlay;
      new;
      for i := 0 to |config|
        invariant index == Granted(config[..i]) && suspended == map[] && erased == {} && file == overlay
      {
        assert config[..i + 1][..i] == config[..i];
        index := index[config[i].buyerId := config[i]];
      }
      assert config[..|config|] == config;
      var migrated := ApplyOverlay(overlay, Granted(config));
      if migrated {
        Persist();
      }
    }

    method ApplyOverlay(overlay: Overlay, ghost granted: map<string, Entitlement>) returns (migrated: bool)
      requires index == granted && suspended == map[] && erased == {}
      modifies this
      ensures file == old(file)
      ensures erased == ErasedIn(hash, overlay)
      ensures var restricted := Restricted(hash, granted, overlay);
              index == granted - restricted && suspended == map b | b in restricted :: granted[b]
      ensures migrated == (IsLegacy(overlay) && overlay.suppressed != {})
    {
      var legacy := overlay.schemaVersion != Some(SCHEMA_VERSION);
      var todo := overlay.suppressed;
      while todo != {}
        invariant todo <= overlay.suppressed && file == old(file) && index == granted && suspended == map[]
        invariant erased == set e | e in overlay.suppressed && e !in todo :: if legacy then hash(e) else e
        decreases todo
      {
        var entry :| entry in todo;
        todo := todo - {entry};
        erased := erased + {if legacy then hash(entry) else entry};
      }
      assert erased == ErasedIn(hash, overlay);
      todo := overlay.restricted;
      while todo != {}
        invariant todo <= overlay.restricted && file == old(file) && erased == ErasedIn(hash, overlay)
        invariant index == granted - (Restricted(hash, granted, overlay) - todo)
        invariant suspended == Those(granted, Restricted(hash, granted, overlay) - todo)
        decreases todo
      {
        var buyer :| buyer in todo;
        RestrictOne(hash, granted, overlay, todo, buyer);
        todo := todo - {buyer};
        if hash(buyer) !in erased && buyer in index {
          suspended := suspended[buyer := index[buyer]];
          index := index - {buyer};
        }
      }
      migrated := legacy && overlay.suppressed != {};
    }

    method Persist()
      modifies this`file
      ensures State() == Persisted(old(State()))
    {
      file := Overlay(Some(SCHEMA_VERSION), erased, suspended.Keys);
    }

    method SuspendBuyer(buyer: string) returns (done: bool)
      modifies this
      ensures State() == Suspend(old(State()), buyer) && done == (buyer in old(index))
    {
      if buyer !in index {
        return false;
      }
      suspended := suspended[buyer := index[buyer]];
      index := index - {buyer};
      Persist();
      done := true;
    }

    method ReinstateBuyer(buyer: string) returns (done: bool)
      modifies this
      ensures State() == Reinstate(old(State()), buyer) && done == (buyer in old(suspended))
    {
      if buyer !in suspended {
        return false;
      }
      index := index[buyer := suspended[buyer]];
      suspended := suspended - {buyer};
      Persist();
      done := true;
    }

    method RemoveBuyer(buyer: string) returns (removed: bool)
      modifies this
      ensures State() == Remove(hash, old(State()), buyer)
      ensures removed == (buyer in old(index) || buyer in old(suspended))
    {
      removed := buyer in index;
      index := index - {buyer};
      if !removed {
        removed := buyer in suspended;
        suspended := suspended - {buyer};
      }
      erased := erased + {hash(buyer)};
      Persist();
    }

    method Lookup(buyer: string) returns (e: Option<Entitlement>)
      ensures e == Get(hash, State(), buyer)
    {
      if hash(buyer) in erased {
        return None;
      }
      e := if buyer in index then Some(index[buyer]) else None;
    }
  }

  // ---------------------------------------------------------------------------------------------
  // Every sequence of operations and restarts
  // ---------------------------------------------------------------------------------------------

  datatype Action =
    | Restrict(buyer: string)
    | Unrestrict(buyer: string)
    | Erase(buyer: string)
    | Restart(config: Config)

  function Step(hash: BuyerHash, s: Store, a: Action): Store {
    match a
    case Restrict(buyer) => Suspend(s, buyer)
    case Unrestrict(buyer) => Reinstate(s, buyer)
    case Erase(buyer) => Remove(hash, s, buyer)
    case Restart(config) => Boot(hash, config, s.file)
  }

  function Execute(hash: BuyerHash, s: Store, actions: seq<Action>): Store
    decreases |actions|
  {
    if |actions| == 0 then s else Execute(hash, Step(hash, s, actions[0]), actions[1..])
  }

  /** What is erased in memory is erased in the file, and no buyer is both active and suspended. */
  ghost predicate Sound(hash: BuyerHash, s: Store) {
    s.erased == ErasedIn(hash, s.file) && s.index.Keys !! s.suspended.Keys
  }

  lemma BootIsSound(hash: BuyerHash, config: Config, file: Overlay)
    ensures Sound(hash, Boot(hash, config, file))
  {
  }

  lemma StepKeepsSound(hash: BuyerHash, s: Store, a: Action)
    requires Sound(hash, s)
    ensures Sound(hash, Step(hash, s, a)) && s.erased <= Step(hash, s, a).erased
  {
    if a.Restart? {
      BootIsSound(hash, a.config, s.file);
    }
  }

  lemma {:induction false} RunKeepsSound(hash: BuyerHash, s: Store, actions: seq<Action>)
    requires Sound(hash, s)
    ensures Sound(hash, Execute(hash, s, actions)) && s.erased <= Execute(hash, s, actions).erased
    decreases |actions|
  {
    if |actions| > 0 {
      StepKeepsSound(hash, s, actions[0]);
      RunKeepsSound(hash, Step(hash, s, actions[0]), actions[1..]);
    }
  }

  /** Erasure is permanent: whatever overlay the node booted with and whatever happened before, once a
      buyer is erased every later decision about that buyer is a refusal, through any further
      restrictions, reinstatements and erasures and any restarts under any configurations. */
  lemma ErasureIsPermanent(hash: BuyerHash, config: Config, file: Overlay, before: seq<Action>, buyer: string,
                           after: seq<Action>, req: Request)
    requires req.buyerId == buyer
    ensures var erased := Remove(hash, Execute(hash, Boot(hash, config, file), before), buyer);
            !Decide(Get(hash, Execute(hash, erased, after), buyer), req).allow
  {
    BootIsSound(hash, config, file);
    RunKeepsSound(hash, Boot(hash, config, file), before);
    var s := Execute(hash, Boot(hash, config, file), before);
    StepKeepsSound(hash, s, Erase(buyer));
    RunKeepsSound(hash, Remove(hash, s, buyer), after);
  }

  // ---------------------------------------------------------------------------------------------
  // Refinement of a per-buyer machine
  // ---------------------------------------------------------------------------------------------

  datatype Standing = Unknown | Active | Suspended | Erased

  function StandingOf(hash: BuyerHash, s: Store, buyer: string): Standing {
    if hash(buyer) in s.erased then Erased
    else if buyer in s.suspended then Suspended
    else if buyer in s.index then Active
    else Unknown
  }

  /** The machine one buyer sees. Restarts and operations on other buyers do not move it. */
  function Machine(st: Standing, a: Action, buyer: string): Standing {
    match a
    case Restrict(b) => if b == buyer && st == Active then Suspended else st
    case Unrestrict(b) => if b == buyer && st == Suspended then Active else st
    case Erase(b) => if b == buyer then Erased else st
    case Restart(_) => st
  }

  function MachineRun(st: Standing, actions: seq<Action>, buyer: string): Standing
    decreases |actions|
  {
    if |actions| == 0 then st else MachineRun(Machine(st, actions[0], buyer), actions[1..], buyer)
  }

  /** An unerased buyer has exactly the entitlement the configuration grants, active or suspended, and
      is suspended exactly when the file says restricted. */
  ghost predicate FollowsConfig(hash: BuyerHash, s: Store, config: Config, buyer: string) {
    hash(buyer) !in s.erased ==>
      && (buyer in Granted(config) <==> buyer in s.index || buyer in s.suspended)
      && (buyer in s.index ==> s.index[buyer] == Granted(config)[buyer])
      && (buyer in s.suspended ==> s.suspended[buyer] == Granted(config)[buyer])
      && (buyer in Granted(config) ==> (buyer in s.suspended <==> buyer in s.file.restricted))
  }

  /** No other buyer erased by the action shares this buyer's hash. */
  predicate NoCollision(hash: BuyerHash, a: Action, buyer: string) {
    a.Erase? && hash(a.buyer) == hash(buyer) ==> a.buyer == buyer
  }

  lemma StepRefinesMachine(hash: BuyerHash, s: Store, config: Config, a: Action, buyer: string)
    requires Sound(hash, s) && FollowsConfig(hash, s, config, buyer)
    requires NoCollision(hash, a, buyer) && (a.Restart? ==> a.config == config)
    ensures FollowsConfig(hash, Step(hash, s, a), config, buyer)
    ensures StandingOf(hash, Step(hash, s, a), buyer) == Machine(StandingOf(hash, s, buyer), a, buyer)
  {
  }

  /** Restriction is exact: under one configuration, through any operations and restarts, a buyer's
      standing is what the machine says, and an unerased active buyer is served exactly the granted
      entitlement while a restricted one is served nothing. The only exception would be the erasure
      of another buyer with the same hash. */
  lemma {:induction false} StoreRefinesMachine(hash: BuyerHash, s: Store, config: Config, actions: seq<Action>,
                                               buyer: string)
    requires Sound(hash, s) && FollowsConfig(hash, s, config, buyer)
    requires forall i :: 0 <= i < |actions| ==>
               NoCollision(hash, actions[i], buyer) && (actions[i].Restart? ==> actions[i].config == config)
    ensures var after := Execute(hash, s, actions);
            && StandingOf(hash, after, buyer) == MachineRun(StandingOf(hash, s, buyer), actions, buyer)
            && (StandingOf(hash, after, buyer) == Active ==>
                  buyer in Granted(config) && Get(hash, after, buyer) == Some(Granted(config)[buyer]))
            && (StandingOf(hash, after, buyer) != Active ==> Get(hash, after, buyer) == None)
    decreases |actions|
  {
    if |actions| > 0 {
      StepKeepsSound(hash, s, actions[0]);
      StepRefinesMachine(hash, s, config, actions[0], buyer);
      StoreRefinesMachine(hash, Step(hash, s, actions[0]), config, actions[1..], buyer);
    }
  }

  /** Every boot is a state the refinement starts from. */
  lemma BootFollowsConfig(hash: BuyerHash, config: Config, file: Overlay, buyer: string)
    ensures FollowsConfig(hash, Boot(hash, config, file), config, buyer)
  {
  }

  // ---------------------------------------------------------------------------------------------
  // Restrictions under changing configurations
  // ---------------------------------------------------------------------------------------------

  function ConfigAfter(config: Config, a: Action): Config {
    if a.Restart? then a.config else config
  }

  function ConfigAtEnd(config: Config, actions: seq<Action>): Config
    decreases |actions|
  {
    if |actions| == 0 then config else ConfigAtEnd(ConfigAfter(config, actions[0]), actions[1..])
  }

  /** The action rewrites the overlay file. */
  predicate Saves(s: Store, a: Action) {
    match a
    case Restrict(b) => b in s.index
    case Unrestrict(b) => b in s.suspended
    case Erase(_) => true
    case Restart(_) => IsLegacy(s.file) && s.file.suppressed != {}
  }

  /** The action saves while the configuration in force does not grant the buyer; at a restart that is the
      new one. */
  predicate Forgets(s: Store, config: Config, a: Action, buyer: string) {
    Saves(s, a) && buyer !in Granted(ConfigAfter(config, a))
  }

  /** Some action of the run does. */
  predicate ForgetsDuring(hash: BuyerHash, s: Store, config: Config, actions: seq<Action>, buyer: string)
    decreases |actions|
  {
    |actions| > 0 &&
    (Forgets(s, config, actions[0], buyer)
     || ForgetsDuring(hash, Step(hash, s, actions[0]), ConfigAfter(config, actions[0]), actions[1..], buyer))
  }

  /** The action restricts, reinstates or erases somebody else. */
  predicate NotAbout(hash: BuyerHash, a: Action, buyer: string) {
    match a
    case Restrict(b) => b != buyer
    case Unrestrict(b) => b != buyer
    case Erase(b) => hash(b) != hash(buyer)
    case Restart(_) => true
  }

  lemma StepKeepsFollowing(hash: BuyerHash, s: Store, config: Config, a: Action, buyer: string)
    requires Sound(hash, s) && FollowsConfig(hash, s, config, buyer) && hash(buyer) !in s.erased &&
               NotAbout(hash, a, buyer)
    ensures var after := Step(hash, s, a);
            && FollowsConfig(hash, after, ConfigAfter(config, a), buyer)
            && hash(buyer) !in after.erased
            && (buyer in after.file.restricted <==> buyer in s.file.restricted && !Forgets(s, config, a, buyer))
  {
    if a.Restart? {
      BootFollowsConfig(hash, a.config, s.file, buyer);
    }
  }

  /** Restriction under any configurations, exactly. Start from any state of a node with the buyer unerased,
      and let anything happen to other buyers, with restarts under any configurations. A restriction of the
      buyer is still in the file if and only if no action saved the overlay while the configuration in
      force did not grant the buyer. The buyer's standing follows from that and the last configuration. */
  lemma {:induction false} RestrictionEndures(hash: BuyerHash, s: Store, config: Config, actions: seq<Action>,
                                              buyer: string)
    requires Sound(hash, s) && FollowsConfig(hash, s, config, buyer) && hash(buyer) !in s.erased
    requires forall i :: 0 <= i < |actions| ==> NotAbout(hash, actions[i], buyer)
    ensures var after := Execute(hash, s, actions);
            var kept := buyer in s.file.restricted && !ForgetsDuring(hash, s, config, actions, buyer);
            && (buyer in after.file.restricted <==> kept)
            && StandingOf(hash, after, buyer)
               == if buyer !in Granted(ConfigAtEnd(config, actions)) then Unknown
                  else if kept then Suspended else Active
    decreases |actions|
  {
    if |actions| > 0 {
      StepKeepsSound(hash, s, actions[0]);
      StepKeepsFollowing(hash, s, config, actions[0], buyer);
      RestrictionEndures(hash, Step(hash, s, actions[0]), ConfigAfter(config, actions[0]), actions[1..], buyer);
    }
  }

  /** From a first boot on: a restriction put on a granted, unerased buyer. */
  lemma RestrictionEnduresFromBoot(hash: BuyerHash, config: Config, file: Overlay, buyer: string, actions: seq<Action>)
    requires StandingOf(hash, Boot(hash, config, file), buyer) == Active
    requires forall i :: 0 <= i < |actions| ==> NotAbout(hash, actions[i], buyer)
    ensures var restricted := Suspend(Boot(hash, config, file), buyer);
            var forgotten := ForgetsDuring(hash, restricted, config, actions, buyer);
            StandingOf(hash, Execute(hash, restricted, actions), buyer)
            == if buyer !in Granted(ConfigAtEnd(config, actions)) then Unknown
               else if forgotten then Active else Suspended
  {
    var booted := Boot(hash, config, file);
    BootIsSound(hash, config, file);
    BootFollowsConfig(hash, config, file, buyer);
    StepKeepsSound(hash, booted, Restrict(buyer));
    StepRefinesMachine(hash, booted, config, Restrict(buyer), buyer);
    RestrictionEndures(hash, Suspend(booted, buyer), config, actions, buyer);
  }

  /** For example: one restart. */
  lemma RestrictionSurvivesExactly(hash: BuyerHash, s: Store, config: Config, next: Config, buyer: string)
    requires Sound(hash, s) && FollowsConfig(hash, s, config, buyer)
    requires StandingOf(hash, s, buyer) == Suspended
    ensures StandingOf(hash, Boot(hash, next, s.file), buyer) == if buyer in Granted(next) then Suspended else Unknown
  {
  }

  /** And the shortest way to lose one: the configuration drops the buyer, somebody else is restricted, the
      configuration grants the buyer again. */
  lemma UngrantedRestrictionIsForgotten(hash: BuyerHash, s: Store, config: Config, without: Config, buyer: string,
                                        other: string)
    requires Sound(hash, s) && FollowsConfig(hash, s, config, buyer)
    requires StandingOf(hash, s, buyer) == Suspended
    requires buyer !in Granted(without) && other in Boot(hash, without, s.file).index
    ensures var actions := [Restart(without), Restrict(other), Restart(config)];
            StandingOf(hash, Execute(hash, s, actions), buyer) == Active
  {
    var actions := [Restart(without), Restrict(other), Restart(config)];
    var s1 := Step(hash, s, actions[0]);
    BootIsSound(hash, without, s.file);
    assert other != buyer && Forgets(s1, without, Restrict(other), buyer);
    assert actions[1..][0] == actions[1] && actions[1..][1..] == [actions[2]];
    assert ForgetsDuring(hash, s1, without, actions[1..], buyer);
    assert ConfigAtEnd(config, actions) == config by {
      assert ConfigAtEnd(without, actions[1..]) == ConfigAtEnd(without, actions[1..][1..]);
      assert ConfigAtEnd(without, [actions[2]]) == config;
    }
    RestrictionEndures(hash, s, config, actions, buyer);
  }
}
