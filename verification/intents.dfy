/** Buyer commitments and the price they pin. The store's map is kept as its entries in insertion
    order, which is the order its loops visit. */
module Intents {
  import opened Wrappers

  datatype Status = Active | Expired | Revoked

  datatype Intent = Intent(
    intentId: string, buyerId: string, familyId: string, period: string, firmPrice: real, currency: string,
    status: Status, createdAt: int, expiresAt: int)

  datatype FamilyPrice = FamilyPrice(familyId: string, currency: string, listPrice: real, validUntil: int)

  /** The firm price, unless undeclared or expired. */
  function PriceFor(prices: map<string, FamilyPrice>, familyId: string, now: int): (p: Option<FamilyPrice>)
    ensures p.Some? ==> familyId in prices && p.value == prices[familyId] && now < p.value.validUntil
    ensures p.None? ==> familyId !in prices || prices[familyId].validUntil <= now
  {
    if familyId !in prices || prices[familyId].validUntil <= now then None else Some(prices[familyId])
  }

  datatype CreateInput = CreateInput(
    buyerId: string, familyId: string, period: string, firmPrice: real, currency: string, priceValidUntil: int)

  function Min(a: int, b: int): int {
    if a <= b then a else b
  }

  function NewIntent(input: CreateInput, intentId: string, now: int, ttlMs: int): Intent {
    Intent(intentId, input.buyerId, input.familyId, input.period, input.firmPrice, input.currency, Active, now,
           Min(now + ttlMs, input.priceValidUntil))
  }

  /** Which intents an operation takes out of the store. */
  datatype Selector = LapsedBy(now: int) | OwnedBy(buyerId: string) | Named(intentId: string) | Terminal

  predicate Picks(sel: Selector, i: Intent) {
    match sel
    case LapsedBy(now) => i.status == Active && i.expiresAt <= now
    case OwnedBy(buyerId) => i.buyerId == buyerId
    case Named(intentId) => i.intentId == intentId
    case Terminal => i.status != Active
  }

  function Picked(intents: seq<Intent>, sel: Selector): seq<Intent> {
    if |intents| == 0 then []
    else (if Picks(sel, intents[0]) then [intents[0]] else []) + Picked(intents[1..], sel)
  }

  function Left(intents: seq<Intent>, sel: Selector): seq<Intent> {
    if |intents| == 0 then []
    else (if Picks(sel, intents[0]) then [] else [intents[0]]) + Left(intents[1..], sel)
  }

  function Ids(intents: seq<Intent>): set<string> {
    set i | i in intents :: i.intentId
  }

  ghost predicate UniqueIds(intents: seq<Intent>) {
    forall i, j :: 0 <= i < j < |intents| ==> intents[i].intentId != intents[j].intentId
  }

  ghost predicate AllActive(intents: seq<Intent>) {
    forall i :: i in intents ==> i.status == Active
  }

  /** The intent a buyer may revoke now: its own, active, not lapsed. */
  function Revocable(intents: seq<Intent>, intentId: string, buyerId: string, now: int): Option<Intent> {
    if |intents| == 0 then None
    else if intents[0].intentId == intentId then
      if intents[0].buyerId == buyerId && intents[0].status == Active && now < intents[0].expiresAt
      then Some(intents[0])
      else None
    else Revocable(intents[1..], intentId, buyerId, now)
  }

  /** Selecting splits the store: each intent is taken or left, in order, and never both. */
  lemma {:induction false} SelectionSplits(intents: seq<Intent>, sel: Selector)
    ensures forall i :: i in Picked(intents, sel) <==> i in intents && Picks(sel, i)
    ensures forall i :: i in Left(intents, sel) <==> i in intents && !Picks(sel, i)
    ensures |Picked(intents, sel)| + |Left(intents, sel)| == |intents|
  {
    if |intents| > 0 {
      SelectionSplits(intents[1..], sel);
      assert forall i :: i in intents <==> i == intents[0] || i in intents[1..];
    }
  }

  lemma {:induction false} SelectionKeepsUnique(intents: seq<Intent>, sel: Selector)
    requires UniqueIds(intents)
    ensures UniqueIds(Picked(intents, sel)) && UniqueIds(Left(intents, sel))
    ensures Ids(intents) == Ids(Picked(intents, sel)) + Ids(Left(intents, sel))
    ensures Ids(Picked(intents, sel)) !! Ids(Left(intents, sel))
  {
    SelectionSplits(intents, sel);
    if |intents| > 0 {
      SelectionKeepsUnique(intents[1..], sel);
      SelectionSplits(intents[1..], sel);
      assert forall i :: i in intents[1..] ==> i.intentId != intents[0].intentId;
      UniqueInFront(intents[0], Picked(intents[1..], sel));
      UniqueInFront(intents[0], Left(intents[1..], sel));
    }
  }

  lemma UniqueInFront(i: Intent, rest: seq<Intent>)
    requires UniqueIds(rest) && forall x :: x in rest ==> x.intentId != i.intentId
    ensures UniqueIds([i] + rest)
    ensures Ids([i] + rest) == {i.intentId} + Ids(rest)
  {
    assert forall x :: x in [i] + rest <==> x == i || x in rest;
  }

  lemma {:induction false} RevocableIsOwn(intents: seq<Intent>, intentId: string, buyerId: string, now: int)
    requires UniqueIds(intents)
    ensures var r := Revocable(intents, intentId, buyerId, now);
            && (r.Some? ==> r.value in intents && r.value.intentId == intentId && r.value.buyerId == buyerId
                            && r.value.status == Active && now < r.value.expiresAt)
            && (r.None? ==> forall i :: i in intents && i.intentId == intentId ==>
                  i.buyerId != buyerId || i.status != Active || i.expiresAt <= now)
  {
    if |intents| > 0 {
      RevocableIsOwn(intents[1..], intentId, buyerId, now);
      assert forall i :: i in intents <==> i == intents[0] || i in intents[1..];
      assert forall i :: i in intents[1..] ==> i.intentId != intents[0].intentId;
    }
  }

  lemma Associative(a: seq<Intent>, b: seq<Intent>, c: seq<Intent>)
    ensures a + (b + c) == a + b + c
  {
  }

  lemma {:induction false} PickedAppends(a: seq<Intent>, b: seq<Intent>, sel: Selector)
    ensures Picked(a + b, sel) == Picked(a, sel) + Picked(b, sel)
  {
    if |a| == 0 {
      assert a + b == b;
    } else {
      var first := if Picks(sel, a[0]) then [a[0]] else [];
      PickedAppends(a[1..], b, sel);
      PickedUnfolds(a, sel);
      PickedUnfolds(a + b, sel);
      assert (a + b)[0] == a[0] && (a + b)[1..] == a[1..] + b;
      Associative(first, Picked(a[1..], sel), Picked(b, sel));
    }
  }

  lemma PickedUnfolds(s: seq<Intent>, sel: Selector)
    requires |s| > 0
    ensures Picked(s, sel) == (if Picks(sel, s[0]) then [s[0]] else []) + Picked(s[1..], sel)
  {
  }

  lemma {:induction false} LeftAppends(a: seq<Intent>, b: seq<Intent>, sel: Selector)
    ensures Left(a + b, sel) == Left(a, sel) + Left(b, sel)
  {
    if |a| == 0 {
      assert a + b == b;
    } else {
      var first := if Picks(sel, a[0]) then [] else [a[0]];
      LeftAppends(a[1..], b, sel);
      LeftUnfolds(a, sel);
      LeftUnfolds(a + b, sel);
      assert (a + b)[0] == a[0] && (a + b)[1..] == a[1..] + b;
      Associative(first, Left(a[1..], sel), Left(b, sel));
    }
  }

  lemma LeftUnfolds(s: seq<Intent>, sel: Selector)
    requires |s| > 0
    ensures Left(s, sel) == (if Picks(sel, s[0]) then [] else [s[0]]) + Left(s[1..], sel)
  {
  }

  lemma SelectionOfOne(i: Intent, sel: Selector)
    ensures Picked([i], sel) == if Picks(sel, i) then [i] else []
    ensures Left([i], sel) == if Picks(sel, i) then [] else [i]
  {
    assert [i][1..] == [];
  }

  lemma SelectOne(intents: seq<Intent>, k: nat, sel: Selector)
    requires k < |intents|
    ensures Picked(intents[..k + 1], sel) ==
              Picked(intents[..k], sel) + if Picks(sel, intents[k]) then [intents[k]] else []
    ensures Left(intents[..k + 1], sel) == Left(intents[..k], sel) + if Picks(sel, intents[k]) then [] else [intents[k]]
  {
    PickedAppends(intents[..k], [intents[k]], sel);
    LeftAppends(intents[..k], [intents[k]], sel);
    SelectionOfOne(intents[k], sel);
    assert intents[..k + 1] == intents[..k] + [intents[k]];
  }

  function WithStatus(intents: seq<Intent>, status: Status): (r: seq<Intent>)
    ensures |r| == |intents| && forall i :: 0 <= i < |r| ==> r[i] == intents[i].(status := status)
  {
    seq(|intents|, i requires 0 <= i < |intents| => intents[i].(status := status))
  }

  /** A buyer holds the intent: it is in the store, the buyer's own, and not lapsed. */
  ghost predicate Holds(intents: seq<Intent>, intentId: string, buyerId: string, now: int) {
    exists i :: i in intents && i.intentId == intentId && i.buyerId == buyerId && now < i.expiresAt
  }

  /** What a sweep hands back, in the fields of the store: every intent whose expiry is not after `now`, with
      its new status, and nothing else. */
  lemma LapsedAreExpired(intents: seq<Intent>, now: int)
    requires AllActive(intents)
    ensures var expired := WithStatus(Picked(intents, LapsedBy(now)), Expired);
            forall x :: x in expired <==> x.status == Expired && x.expiresAt <= now && x.(status := Active) in intents
  {
    var picked := Picked(intents, LapsedBy(now));
    var expired := WithStatus(picked, Expired);
    SelectionSplits(intents, LapsedBy(now));
    forall x | x in expired
      ensures x.status == Expired && x.expiresAt <= now && x.(status := Active) in intents
    {
      var k :| 0 <= k < |expired| && expired[k] == x;
      assert picked[k] in picked && x.(status := Active) == picked[k];
    }
    forall x: Intent | x.status == Expired && x.(status := Active) in picked
      ensures x in expired
    {
      var k :| 0 <= k < |picked| && picked[k] == x.(status := Active);
      assert expired[k] == x;
    }
  }

  /** Both parts of a selection are in the store's order. */
  lemma {:induction false} SelectionKeepsOrder(intents: seq<Intent>, sel: Selector)
    ensures InOrder(Picked(intents, sel), intents) && InOrder(Left(intents, sel), intents)
  {
    if |intents| > 0 {
      SelectionKeepsOrder(intents[1..], sel);
      var picked, left := Picked(intents, sel), Left(intents, sel);
      if Picks(sel, intents[0]) {
        assert picked[1..] == Picked(intents[1..], sel) && left == Left(intents[1..], sel);
      } else {
        assert left[1..] == Left(intents[1..], sel) && picked == Picked(intents[1..], sel);
      }
    }
  }

  /** `part` is what remains of `whole` after leaving some out. */
  predicate InOrder(part: seq<Intent>, whole: seq<Intent>) {
    if |whole| == 0 then part == []
    else InOrder(part, whole[1..]) || (|part| > 0 && part[0] == whole[0] && InOrder(part[1..], whole[1..]))
  }

  /** One pass over the entries: the selected ones, with their new status, and the others. */
  method Split(entries: seq<Intent>, sel: Selector, status: Status) returns (taken: seq<Intent>, kept: seq<Intent>)
    ensures taken == WithStatus(Picked(entries, sel), status)
    ensures kept == Left(entries, sel)
  {
    taken, kept := [], [];
    for k := 0 to |entries|
      invariant taken == WithStatus(Picked(entries[..k], sel), status)
      invariant kept == Left(entries[..k], sel)
    {
      SelectOne(entries, k, sel);
      if Picks(sel, entries[k]) {
        taken := taken + [entries[k].(status := status)];
      } else {
        kept := kept + [entries[k]];
      }
    }
    assert entries[..|entries|] == entries;
  }

  class IntentStore {
    const ttlMs: int
    var byId: seq<Intent>
    var file: seq<Intent>

    /** Ids are unique, only active intents are held, and a restart restores exactly these. */
    ghost predicate Valid()
      reads this
    {
      UniqueIds(byId) && AllActive(byId) && Left(file, Terminal) == byId
    }

    /** Loading keeps the active intents as they are, lapsed or not. */
    constructor (ttlMs: int, saved: seq<Intent>)
      requires UniqueIds(saved)
      ensures Valid() && byId == Left(saved, Terminal) && this.ttlMs == ttlMs
      ensures forall i :: i in byId <==> i in saved && i.status == Active
    {
      var terminal, active := Split(saved, Terminal, Active);
      SelectionSplits(saved, Terminal);
      SelectionKeepsUnique(saved, Terminal);
      this.ttlMs, byId, file := ttlMs, active, saved;
    }

    method Save()
      requires UniqueIds(byId) && AllActive(byId)
      modifies this`file
      ensures Valid()
    {
      file := byId;
      SelectionSplits(byId, Terminal);
      NothingPicked(byId, Terminal);
    }

    method Create(input: CreateInput, intentId: string, now: int) returns (intent: Intent)
      requires Valid() && intentId !in Ids(byId)
      modifies this
      ensures Valid()
      ensures intent == NewIntent(input, intentId, now, ttlMs) && byId == old(byId) + [intent]
      ensures intent.intentId == intentId && intent.buyerId == input.buyerId && intent.createdAt == now
      ensures intent.familyId == input.familyId && intent.period == input.period
      ensures intent.firmPrice == input.firmPrice && intent.currency == input.currency && intent.status == Active
      ensures intent.expiresAt <= now + ttlMs && intent.expiresAt <= input.priceValidUntil
      ensures intent.expiresAt == now + ttlMs || intent.expiresAt == input.priceValidUntil
    {
      var ttlExpiry := now + ttlMs;
      var expiresAt := if ttlExpiry <= input.priceValidUntil then ttlExpiry else input.priceValidUntil;
      intent := Intent(intentId, input.buyerId, input.familyId, input.period, input.firmPrice, input.currency,
                       Active, now, expiresAt);
      byId := byId + [intent];
      Save();
    }

    method Revoke(intentId: string, buyerId: string, now: int) returns (revoked: Option<Intent>)
      requires Valid()
      modifies this
      ensures Valid()
      ensures var own := Revocable(old(byId), intentId, buyerId, now);
              && (own.None? ==> revoked == None && byId == old(byId))
              && (own.Some? ==>
                    revoked == Some(own.value.(status := Revoked)) && byId == Left(old(byId), Named(intentId)))
      ensures revoked.Some? <==> Holds(old(byId), intentId, buyerId, now)
      ensures revoked.Some? ==> revoked.value.status == Revoked && revoked.value.(status := Active) in old(byId)
      ensures revoked.Some? ==> revoked.value.intentId == intentId
      ensures forall i :: i in byId <==> i in old(byId) && (revoked.None? || i.intentId != intentId)
    {
      var entries := byId;
      RevocableIsOwn(entries, intentId, buyerId, now);
      var k := Position(entries, intentId, buyerId, now);
      if k == |entries| || entries[k].buyerId != buyerId || entries[k].status != Active || entries[k].expiresAt <= now {
        return None;
      }
      RemovalOfOne(entries, k);
      SelectionKeepsUnique(entries, Named(intentId));
      SelectionSplits(entries, Named(intentId));
      byId := entries[..k] + entries[k + 1..];
      Save();
      revoked := Some(entries[k].(status := Revoked));
    }

    /** Where the map's entry for an id is. */
    static method Position(entries: seq<Intent>, intentId: string, ghost buyerId: string,
                           ghost now: int) returns (k: nat)
      ensures k <= |entries| && (k < |entries| ==> entries[k].intentId == intentId)
      ensures Revocable(entries, intentId, buyerId, now) == Revocable(entries[k..], intentId, buyerId, now)
    {
      k := 0;
      while k < |entries| && entries[k].intentId != intentId
        invariant k <= |entries| &&
                    Revocable(entries, intentId, buyerId, now) == Revocable(entries[k..], intentId, buyerId, now)
      {
        assert entries[k..][1..] == entries[k + 1..];
        k := k + 1;
      }
    }

    method SweepExpired(now: int) returns (expired: seq<Intent>)
      requires Valid()
      modifies this
      ensures Valid()
      ensures expired == WithStatus(Picked(old(byId), LapsedBy(now)), Expired)
      ensures byId == Left(old(byId), LapsedBy(now))
      ensures forall i :: i in byId <==> i in old(byId) && now < i.expiresAt
      ensures forall x :: x in expired <==>
                x.status == Expired && x.expiresAt <= now && x.(status := Active) in old(byId)
      ensures |expired| + |byId| == |old(byId)|
    {
      var entries, sel := byId, LapsedBy(now);
      var kept: seq<Intent>;
      expired, kept := Split(entries, sel, Expired);
      SelectionSplits(entries, sel);
      SelectionKeepsUnique(entries, sel);
      LapsedAreExpired(entries, now);
      byId := kept;
      if |expired| > 0 {
        Save();
      } else {
        NothingPicked(entries, sel);
      }
    }

    method ByBuyer(buyerId: string) returns (own: seq<Intent>)
      ensures own == Picked(byId, OwnedBy(buyerId))
      ensures forall i :: i in own <==> i in byId && i.buyerId == buyerId
    {
      own := [];
      for k := 0 to |byId|
        invariant own == Picked(byId[..k], OwnedBy(buyerId))
      {
        SelectOne(byId, k, OwnedBy(buyerId));
        if byId[k].buyerId == buyerId {
          own := own + [byId[k]];
        }
      }
      assert byId[..|byId|] == byId;
      SelectionSplits(byId, OwnedBy(buyerId));
    }

    method PurgeBuyer(buyerId: string) returns (purged: nat)
      requires Valid()
      modifies this
      ensures Valid()
      ensures byId == Left(old(byId), OwnedBy(buyerId)) && purged == |Picked(old(byId), OwnedBy(buyerId))|
      ensures forall i :: i in byId <==> i in old(byId) && i.buyerId != buyerId
      ensures purged == |old(byId)| - |byId|
    {
      var entries, sel := byId, OwnedBy(buyerId);
      var gone, kept := Split(entries, sel, Active);
      purged := |gone|;
      SelectionSplits(entries, sel);
      SelectionKeepsUnique(entries, sel);
      byId := kept;
      if purged > 0 {
        Save();
      } else {
        NothingPicked(entries, sel);
      }
    }
  }

  lemma {:induction false} NothingPicked(intents: seq<Intent>, sel: Selector)
    requires forall i :: i in intents ==> !Picks(sel, i)
    ensures Left(intents, sel) == intents
  {
    if |intents| > 0 {
      NothingPicked(intents[1..], sel);
    }
  }

  lemma {:induction false} RemovalOfOne(intents: seq<Intent>, k: nat)
    requires UniqueIds(intents) && k < |intents|
    ensures Left(intents, Named(intents[k].intentId)) == intents[..k] + intents[k + 1..]
    ensures Picked(intents, Named(intents[k].intentId)) == [intents[k]]
  {
    var sel := Named(intents[k].intentId);
    if k > 0 {
      assert intents[0].intentId != intents[k].intentId;
      RemovalOfOne(intents[1..], k - 1);
      assert intents[..k] + intents[k + 1..] == [intents[0]] + (intents[1..][..k - 1] + intents[1..][k..]);
    } else {
      NoneNamed(intents[1..], intents[0].intentId);
      assert Left(intents, sel) == Left(intents[1..], sel);
    }
  }

  lemma {:induction false} NoneNamed(intents: seq<Intent>, intentId: string)
    requires forall i :: 0 <= i < |intents| ==> intents[i].intentId != intentId
    ensures Left(intents, Named(intentId)) == intents && Picked(intents, Named(intentId)) == []
  {
    if |intents| > 0 {
      NoneNamed(intents[1..], intentId);
    }
  }
}
