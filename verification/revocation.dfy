/** The revocation window: the durable denylist of token ids and the validator that asks it. Times are
    whole milliseconds; a token's expiry is in seconds and may have a fraction, as a NumericDate of
    RFC 7519 may. Signature, issuer and audience checks are one given answer. The validator awaits the
    verification, which reads the clock for the expiry, and the denylist reads the clock again when it is
    asked: the two readings are kept apart, and anything may happen between them. */
module Revocation {
  import opened Wrappers

  /** token id to the millisecond after which the token is expired anyway */
  type Entries = map<string, real>

  datatype Token = Token(verified: bool, exp: real, jti: Option<string>)

  datatype Verdict = Accepted | JwtInvalid | JtiMissing | JtiRevoked

  /** The expiry check of section 4.1.4 of RFC 7519 at a clock of whole seconds. */
  predicate ExpiredAt(exp: real, now: int) {
    exp <= (now / 1000) as real
  }

  predicate Listed(mem: Entries, jti: string, now: int) {
    jti in mem && now as real < mem[jti]
  }

  /** A lookup drops the entry it finds over. */
  function AfterLookup(mem: Entries, jti: string, now: int): Entries {
    if jti in mem && now as real >= mem[jti] then mem - {jti} else mem
  }

  function Current(entries: Entries, now: int): Entries {
    map j | j in entries && now as real < entries[j] :: entries[j]
  }

  /** The denylist is only asked about tokens that pass everything before it. */
  function Judge(mem: Entries, t: Token, verifiedAt: int, askedAt: int): Verdict {
    if !t.verified || ExpiredAt(t.exp, verifiedAt) then JwtInvalid
    else if t.jti.None? || t.jti.value == "" then JtiMissing
    else if Listed(mem, t.jti.value, askedAt) then JtiRevoked
    else Accepted
  }

  function MemAfterJudge(mem: Entries, t: Token, verifiedAt: int, askedAt: int): Entries {
    if !t.verified || ExpiredAt(t.exp, verifiedAt) || t.jti.None? || t.jti.value == "" then mem
    else AfterLookup(mem, t.jti.value, askedAt)
  }

  class Denylist {
    var mem: Entries
    var file: Entries

    /** Loading keeps the entries that are not over. */
    constructor (file: Entries, now: int)
      ensures mem == Current(file, now) && this.file == file
      ensures forall j :: j in mem <==> j in file && now as real < file[j]
    {
      mem := map[];
      this.file := file;
      new;
      var todo := file.Keys;
      while todo != {}
        invariant todo <= file.Keys && this.file == file
        invariant mem == map j | j in file && j !in todo && now as real < file[j] :: file[j]
        decreases todo
      {
        var j :| j in todo;
        todo := todo - {j};
        if file[j] > now as real {
          mem := mem[j := file[j]];
        }
      }
    }

    method Add(jti: string, tokenExpiresAt: real)
      modifies this
      ensures mem == old(mem)[jti := tokenExpiresAt] && file == mem
    {
      mem := mem[jti := tokenExpiresAt];
      file := mem;
    }

    method Has(jti: string, now: int) returns (listed: bool)
      modifies this
      ensures listed == Listed(old(mem), jti, now)
      ensures mem == AfterLookup(old(mem), jti, now) && file == old(file)
    {
      if jti !in mem {
        return false;
      }
      if now as real < mem[jti] {
        return true;
      }
      mem := mem - {jti};
      listed := false;
    }

    method Prune(now: int) returns (removed: nat)
      modifies this
      ensures mem == Current(old(mem), now) && removed == |old(mem)| - |mem|
      ensures forall j :: j in mem <==> j in old(mem) && now as real < old(mem)[j]
      ensures forall j :: j in mem ==> mem[j] == old(mem)[j]
      ensures file == if removed > 0 then mem else old(file)
    {
      removed := 0;
      ghost var before := mem;
      var todo := mem.Keys;
      while todo != {}
        invariant todo <= before.Keys && file == old(file)
        invariant mem == map j | j in before && (j in todo || now as real < before[j]) :: before[j]
        invariant removed + |mem| == |before|
        decreases todo
      {
        var j :| j in todo;
        todo := todo - {j};
        if now as real >= mem[j] {
          ghost var was := mem;
          mem := mem - {j};
          assert was.Keys == mem.Keys + {j};
          assert |was| == |was.Keys| && |mem| == |mem.Keys|;
          removed := removed + 1;
        }
      }
      if removed > 0 {
        file := mem;
      }
    }

    method Validate(t: Token, verifiedAt: int, askedAt: int) returns (v: Verdict)
      modifies this
      ensures v == Judge(old(mem), t, verifiedAt, askedAt)
      ensures mem == MemAfterJudge(old(mem), t, verifiedAt, askedAt) && file == old(file)
    {
      if !t.verified || t.exp <= (verifiedAt / 1000) as real {
        return JwtInvalid;
      }
      if t.jti.None? || t.jti.value == "" {
        return JtiMissing;
      }
      var revoked := Has(t.jti.value, askedAt);
      v := if revoked then JtiRevoked else Accepted;
    }
  }

  // ---------------------------------------------------------------------------------------------
  // Every later history
  // ---------------------------------------------------------------------------------------------

  datatype State = State(mem: Entries, file: Entries)

  /** `Validate` is the lookup at the end of a validation whose verification read the clock earlier. */
  datatype Action =
    | Add(jti: string, expiresAt: real)
    | Validate(token: Token, verifiedAt: int)
    | Prune
    | Reload

  function Step(s: State, a: Action, now: int): State {
    match a
    case Add(jti, expiresAt) => State(s.mem[jti := expiresAt], s.mem[jti := expiresAt])
    case Validate(t, verifiedAt) => State(MemAfterJudge(s.mem, t, verifiedAt, now), s.file)
    case Prune => if Current(s.mem, now) != s.mem then State(Current(s.mem, now), Current(s.mem, now)) else s
    case Reload => State(Current(s.file, now), s.file)
  }

  /** A later action and its clock reading. */
  datatype Event = Event(action: Action, at: int)

  /** The clock never goes back. */
  predicate Later(now: int, events: seq<Event>)
    decreases |events|
  {
    |events| == 0 || (now <= events[0].at && Later(events[0].at, events[1..]))
  }

  function Execute(s: State, events: seq<Event>): State
    decreases |events|
  {
    if |events| == 0 then s else Execute(Step(s, events[0].action, events[0].at), events[1..])
  }

  function EndOf(now: int, events: seq<Event>): int
    decreases |events|
  {
    if |events| == 0 then now else EndOf(events[0].at, events[1..])
  }

  /** The bound that the last revocation of `jti` put on its entry. */
  function BoundAfter(bound: real, events: seq<Event>, jti: string): real
    decreases |events|
  {
    if |events| == 0 then bound
    else
      var a := events[0].action;
      BoundAfter(if a.Add? && a.jti == jti then a.expiresAt else bound, events[1..], jti)
  }

  predicate Entered(entries: Entries, jti: string, bound: real) {
    jti in entries && entries[jti] == bound
  }

  /** Memory and file hold the entry with exactly this bound, or the bound is past and they may have dropped
      it. */
  ghost predicate Holds(s: State, jti: string, bound: real, now: int) {
    && (Entered(s.mem, jti, bound) || (now as real >= bound && jti !in s.mem))
    && (Entered(s.file, jti, bound) || (now as real >= bound && jti !in s.file))
  }

  lemma {:induction false} EntryHolds(s: State, now: int, events: seq<Event>, jti: string, bound: real)
    requires Holds(s, jti, bound, now) && Later(now, events)
    ensures Holds(Execute(s, events), jti, BoundAfter(bound, events, jti), EndOf(now, events))
    decreases |events|
  {
    if |events| > 0 {
      var a := events[0].action;
      EntryHolds(Step(s, a, events[0].at), events[0].at, events[1..], jti,
                 if a.Add? && a.jti == jti then a.expiresAt else bound);
    }
  }

  /** A revoked token, exactly. Whatever bound the revocation gave, and after any lookups, prunings, restarts
      and further revocations: a token that verifies is accepted if and only if it was not expired when it
      was verified and the bound of its last revocation is past when the denylist is asked. */
  lemma RevokedIsAcceptedExactly(s: State, revokedAt: int, bound: real, events: seq<Event>, t: Token,
                                 verifiedAt: int, askedAt: int)
    requires t.verified && t.jti.Some? && t.jti.value != ""
    requires Later(revokedAt, events) && EndOf(revokedAt, events) <= askedAt
    ensures var after := Execute(Step(s, Add(t.jti.value, bound), revokedAt), events);
            Judge(after.mem, t, verifiedAt, askedAt) == Accepted
            <==> !ExpiredAt(t.exp, verifiedAt) && askedAt as real >= BoundAfter(bound, events, t.jti.value)
  {
    EntryHolds(Step(s, Add(t.jti.value, bound), revokedAt), revokedAt, events, t.jti.value, bound);
  }

  /** The bound of the last revocation of `jti` among the events, or the one before them. */
  function LastBound(before: Option<real>, events: seq<Event>, jti: string): Option<real>
    decreases |events|
  {
    if |events| == 0 then before
    else
      var a := events[0].action;
      LastBound(if a.Add? && a.jti == jti then Some(a.expiresAt) else before, events[1..], jti)
  }

  /** Never revoked means not on the list. */
  ghost predicate Mirrors(s: State, jti: string, bound: Option<real>, now: int) {
    match bound
    case None => jti !in s.mem && jti !in s.file
    case Some(b) => Holds(s, jti, b, now)
  }

  lemma {:induction false} ListMirrors(s: State, now: int, events: seq<Event>, jti: string, bound: Option<real>)
    requires Mirrors(s, jti, bound, now) && Later(now, events)
    ensures Mirrors(Execute(s, events), jti, LastBound(bound, events, jti), EndOf(now, events))
    decreases |events|
  {
    if |events| > 0 {
      var a := events[0].action;
      ListMirrors(Step(s, a, events[0].at), events[0].at, events[1..], jti,
                  if a.Add? && a.jti == jti then Some(a.expiresAt) else bound);
    }
  }

  predicate Revokes(e: Event, jti: string) {
    e.action.Add? && e.action.jti == jti
  }

  /** The last revocation of `jti` among the events gave the bound. */
  ghost predicate RevokedLastWith(events: seq<Event>, jti: string, bound: real) {
    exists i :: 0 <= i < |events| && Revokes(events[i], jti) && events[i].action.expiresAt == bound &&
        forall k :: i < k < |events| ==> !Revokes(events[k], jti)
  }

  lemma {:induction false} LastBoundIs(before: Option<real>, events: seq<Event>, jti: string)
    ensures var last := LastBound(before, events, jti);
            if exists i :: 0 <= i < |events| && Revokes(events[i], jti)
            then last.Some? && RevokedLastWith(events, jti, last.value)
            else last == before
    decreases |events|
  {
    if |events| > 0 {
      var rest := events[1..];
      var next := if Revokes(events[0], jti) then Some(events[0].action.expiresAt) else before;
      LastBoundIs(next, rest, jti);
      if i :| 0 <= i < |rest| && Revokes(rest[i], jti) {
        var k :| 0 <= k < |rest| && Revokes(rest[k], jti) &&
            Some(rest[k].action.expiresAt) == LastBound(next, rest, jti) &&
            forall m :: k < m < |rest| ==> !Revokes(rest[m], jti);
        assert events[k + 1] == rest[k];
        assert forall m :: k + 1 < m < |events| ==> events[m] == rest[m - 1];
      } else {
        assert forall m :: 1 <= m < |events| ==> events[m] == rest[m - 1];
        if Revokes(events[0], jti) {
          assert RevokedLastWith(events, jti, events[0].action.expiresAt);
        }
      }
    }
  }

  /** The verdict on any token after any history of a denylist that began empty, restarts included: invalid
      exactly if it does not verify or has expired when verified; without its id exactly if it is valid and has
      none; revoked exactly if it has one and the last revocation of that gave a bound that is not past when the
      denylist is asked; and accepted otherwise. */
  lemma VerdictExactly(start: int, events: seq<Event>, t: Token, verifiedAt: int, askedAt: int)
    requires Later(start, events) && EndOf(start, events) <= askedAt
    ensures var v := Judge(Execute(State(map[], map[]), events).mem, t, verifiedAt, askedAt);
            var valid := t.verified && (verifiedAt / 1000) as real < t.exp;
            var named := t.jti.Some? && t.jti.value != "";
            && (v == JwtInvalid <==> !valid)
            && (v == JtiMissing <==> valid && !named)
            && (v == JtiRevoked <==> valid && named && StillRevoked(events, t.jti.value, askedAt))
            && (v == Accepted <==> valid && named && !StillRevoked(events, t.jti.value, askedAt))
  {
    if t.jti.Some? {
      ListMirrors(State(map[], map[]), start, events, t.jti.value, None);
      LastBoundIs(None, events, t.jti.value);
      LastIsUnique(events, t.jti.value);
    }
  }

  ghost predicate StillRevoked(events: seq<Event>, jti: string, at: int) {
    exists bound :: RevokedLastWith(events, jti, bound) && at as real < bound
  }

  lemma LastIsUnique(events: seq<Event>, jti: string)
    ensures forall a, b :: RevokedLastWith(events, jti, a) && RevokedLastWith(events, jti, b) ==> a == b
  {
    forall a, b | RevokedLastWith(events, jti, a) && RevokedLastWith(events, jti, b)
      ensures a == b
    {
      var i :| 0 <= i < |events| && Revokes(events[i], jti) && events[i].action.expiresAt == a &&
          forall k :: i < k < |events| ==> !Revokes(events[k], jti);
      var j :| 0 <= j < |events| && Revokes(events[j], jti) && events[j].action.expiresAt == b &&
          forall k :: j < k < |events| ==> !Revokes(events[k], jti);
    }
  }

  // ---------------------------------------------------------------------------------------------
  // Where the two bounds meet
  // ---------------------------------------------------------------------------------------------

  /** The bound put on an entry when the token itself is revoked. */
  function BoundFor(exp: real): real {
    exp * 1000.0
  }

  /** A validation with these readings does not slip through. */
  predicate Covered(exp: real, bound: real, verifiedAt: int, askedAt: int) {
    ExpiredAt(exp, verifiedAt) || askedAt as real < bound
  }

  /** No validation slips through that asks the denylist at most `delay` milliseconds after it verified. */
  ghost predicate NoGap(exp: real, bound: real, delay: nat) {
    forall verifiedAt: int, askedAt: int ::
      verifiedAt <= askedAt <= verifiedAt + delay ==> Covered(exp, bound, verifiedAt, askedAt)
  }

  /** The first whole millisecond not before `x`. */
  function Ceiling(x: real): int {
    if x == x.Floor as real then x.Floor else x.Floor + 1
  }

  lemma CeilingIsLeast(x: real, n: int)
    ensures n as real >= x <==> n >= Ceiling(x)
  {
  }

  lemma ExpiryIsMonotone(exp: real, a: int, b: int)
    requires a <= b && ExpiredAt(exp, a)
    ensures ExpiredAt(exp, b)
  {
    assert a / 1000 <= b / 1000;
  }

  /** For any bound an operator may give and any delay between the two readings: there is no gap if and only
      if the token has expired `delay` before the bound ends. */
  lemma BoundsMeetExactly(exp: real, bound: real, delay: nat)
    ensures NoGap(exp, bound, delay) <==> ExpiredAt(exp, Ceiling(bound) - delay)
  {
    var last := Ceiling(bound);
    if ExpiredAt(exp, last - delay) {
      forall verifiedAt: int, askedAt: int | verifiedAt <= askedAt <= verifiedAt + delay
        ensures Covered(exp, bound, verifiedAt, askedAt)
      {
        CeilingIsLeast(bound, askedAt);
        if askedAt >= last {
          ExpiryIsMonotone(exp, last - delay, verifiedAt);
        }
      }
    } else {
      CeilingIsLeast(bound, last);
      assert !Covered(exp, bound, last - delay, last);
    }
  }

  /** An expiry on a whole second, or so close before one that no millisecond lies between. */
  predicate Seamless(exp: real) {
    exp == exp.Floor as real || BoundFor(exp) > (exp.Floor * 1000 + 999) as real
  }

  lemma SeamlessExpiry(exp: real)
    ensures Seamless(exp) <==> ExpiredAt(exp, Ceiling(BoundFor(exp)))
  {
    var whole := exp.Floor;
    var last := Ceiling(BoundFor(exp));
    CeilingIsLeast(BoundFor(exp), whole * 1000);
    CeilingIsLeast(BoundFor(exp), whole * 1000 + 999);
    CeilingIsLeast(BoundFor(exp), whole * 1000 + 1000);
    if exp == whole as real {
      assert last / 1000 == whole;
    } else if Seamless(exp) {
      assert last == whole * 1000 + 1000 && last / 1000 == whole + 1;
    } else {
      assert last / 1000 == whole;
    }
  }

  /** Revoking the token itself leaves no gap between readings of one instant exactly for seamless expiries,
      which every token the node issues has. Between readings apart it leaves one for every expiry on a
      whole second; a bound of a second more than the delay closes it. */
  lemma OwnBoundMeetsExactly(exp: real, delay: nat)
    ensures NoGap(exp, BoundFor(exp), 0) <==> Seamless(exp)
    ensures exp == exp.Floor as real && delay > 0 ==> !NoGap(exp, BoundFor(exp), delay)
    ensures NoGap(exp, BoundFor(exp) + (delay + 1000) as real, delay)
  {
    var whole := exp.Floor;
    SeamlessExpiry(exp);
    BoundsMeetExactly(exp, BoundFor(exp), 0);
    BoundsMeetExactly(exp, BoundFor(exp), delay);
    if exp == whole as real && delay > 0 {
      assert Ceiling(BoundFor(exp)) == whole * 1000;
      assert (whole * 1000 - delay) / 1000 < whole;
    }
    var padded := BoundFor(exp) + (delay + 1000) as real;
    BoundsMeetExactly(exp, padded, delay);
    CeilingIsLeast(padded, whole * 1000 + delay + 1000);
    CeilingIsLeast(padded, Ceiling(padded));
    PaddedIsExpired(exp, Ceiling(padded) - delay);
  }

  lemma PaddedIsExpired(exp: real, now: int)
    requires now as real >= BoundFor(exp) + 1000.0
    ensures ExpiredAt(exp, now)
  {
    assert now as real < (now / 1000 * 1000 + 1000) as real;
  }

  /** Revocation without a gap, for a caller: with the token's own bound or a later one and a seamless
      expiry, a revoked token is rejected whenever both readings are on one side of the bound. */
  lemma RevocationLeavesNoGap(s: State, revokedAt: int, events: seq<Event>, t: Token, verifiedAt: int, askedAt: int)
    requires t.jti.Some? && Seamless(t.exp) && verifiedAt <= askedAt
    requires Later(revokedAt, events) && EndOf(revokedAt, events) <= askedAt
    requires BoundAfter(BoundFor(t.exp), events, t.jti.value) >= BoundFor(t.exp)
    requires verifiedAt as real >= BoundFor(t.exp) || (askedAt as real) < BoundFor(t.exp)
    ensures var after := Execute(Step(s, Add(t.jti.value, BoundFor(t.exp)), revokedAt), events);
            Judge(after.mem, t, verifiedAt, askedAt) != Accepted
  {
    if t.verified && t.jti.value != "" {
      RevokedIsAcceptedExactly(s, revokedAt, BoundFor(t.exp), events, t, verifiedAt, askedAt);
      if verifiedAt as real >= BoundFor(t.exp) {
        SeamlessExpiry(t.exp);
        CeilingIsLeast(BoundFor(t.exp), verifiedAt);
        ExpiryIsMonotone(t.exp, Ceiling(BoundFor(t.exp)), verifiedAt);
      }
    }
  }

  /** It happens at the bound: a token that expires at second 1 and was revoked with bound 1000 is accepted
      when it was verified at 999 and the denylist is asked at 1000. */
  lemma AcceptedAcrossTheBound(s: State, jti: string)
    requires jti != ""
    ensures var t := Token(true, 1.0, Some(jti));
            Judge(Step(s, Add(jti, BoundFor(1.0)), 0).mem, t, 999, 1000) == Accepted
  {
    RevokedIsAcceptedExactly(s, 0, BoundFor(1.0), [], Token(true, 1.0, Some(jti)), 999, 1000);
  }

  /** And with both readings at once for an expiry of one and a half seconds. */
  lemma AcceptedAfterAFraction(s: State, jti: string)
    requires jti != ""
    ensures var t := Token(true, 1.5, Some(jti));
            Judge(Step(s, Add(jti, BoundFor(1.5)), 0).mem, t, 1500, 1500) == Accepted
  {
    RevokedIsAcceptedExactly(s, 0, BoundFor(1.5), [], Token(true, 1.5, Some(jti)), 1500, 1500);
  }
}
