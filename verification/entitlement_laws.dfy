/** Entitlements and their overlay in the operator's terms: the last grant of the configuration, the ids and
    hashes in the overlay file, and what each operation leaves in memory and on file. */
module EntitlementLaws {
  import opened Wrappers
  import opened Policy
  import opened Entitlements

  /** The configuration's last entry for the buyer. */
  ghost predicate IsGrant(config: Config, buyer: string, e: Entitlement) {
    exists i :: 0 <= i < |config| && config[i] == e && e.buyerId == buyer &&
        forall k :: i < k < |config| ==> config[k].buyerId != buyer
  }

  ghost predicate IsGranted(config: Config, buyer: string) {
    exists i :: 0 <= i < |config| && config[i].buyerId == buyer
  }

  lemma {:induction false} GrantedIsLast(config: Config, buyer: string)
    ensures buyer in Granted(config) <==> IsGranted(config, buyer)
    ensures forall e :: buyer in Granted(config) && Granted(config)[buyer] == e <==> IsGrant(config, buyer, e)
  {
    if |config| > 0 {
      var init, last := config[..|config| - 1], config[|config| - 1];
      GrantedIsLast(init, buyer);
      assert config == init + [last];
      if last.buyerId == buyer {
        assert IsGrant(config, buyer, last);
      } else {
        forall e
          ensures IsGrant(config, buyer, e) <==> IsGrant(init, buyer, e)
        {
          GrantStays(init, last, buyer, e);
        }
        assert IsGranted(config, buyer) <==> IsGranted(init, buyer);
      }
    }
  }

  lemma GrantStays(init: Config, last: Entitlement, buyer: string, e: Entitlement)
    requires last.buyerId != buyer
    ensures IsGrant(init + [last], buyer, e) <==> IsGrant(init, buyer, e)
  {
    var config := init + [last];
    if IsGrant(init, buyer, e) {
      var i :| 0 <= i < |init| && init[i] == e && e.buyerId == buyer &&
          forall k :: i < k < |init| ==> init[k].buyerId != buyer;
      assert config[i] == e;
    }
    if IsGrant(config, buyer, e) {
      var i :| 0 <= i < |config| && config[i] == e && e.buyerId == buyer &&
          forall k :: i < k < |config| ==> config[k].buyerId != buyer;
      assert init[i] == e;
      assert forall k :: i < k < |init| ==> init[k] == config[k];
    }
  }

  /** A file of version 1 lists hashes of erased buyers, any other file their ids. */
  ghost predicate ListsErased(hash: BuyerHash, file: Overlay, buyer: string) {
    if file.schemaVersion == Some(1) then hash(buyer) in file.suppressed
    else exists id :: id in file.suppressed && hash(id) == hash(buyer)
  }

  /** A boot, for any buyer: erased exactly if the file lists it; otherwise restricted exactly if the file says
      so and the configuration grants it, active exactly if it is granted and not restricted, each with the
      configuration's last entry. The file is rewritten, as version 1, exactly if it lists erased buyers
      and is of another version. */
  lemma BootExactly(hash: BuyerHash, config: Config, file: Overlay, buyer: string)
    ensures var s := Boot(hash, config, file);
            && (hash(buyer) in s.erased <==> ListsErased(hash, file, buyer))
            && (hash(buyer) in s.erased ==> Get(hash, s, buyer) == None)
            && (hash(buyer) !in s.erased ==>
                  && (buyer in s.suspended <==> buyer in file.restricted && IsGranted(config, buyer))
                  && (buyer in s.index <==> buyer !in file.restricted && IsGranted(config, buyer))
                  && (buyer in s.index ==>
                        IsGrant(config, buyer, s.index[buyer]) && Get(hash, s, buyer) == Some(s.index[buyer]))
                  && (buyer in s.suspended ==>
                        IsGrant(config, buyer, s.suspended[buyer]) && Get(hash, s, buyer) == None))
            && s.file == (if file.schemaVersion != Some(1) && file.suppressed != {}
                          then Overlay(Some(1), s.erased, s.suspended.Keys) else file)
  {
    GrantedIsLast(config, buyer);
  }

  /** After the rewriting no id of an erased buyer is left among the erased: each entry is the hash of one. */
  lemma LegacyIdsAreHashed(hash: BuyerHash, config: Config, file: Overlay)
    requires file.schemaVersion != Some(1) && file.suppressed != {}
    ensures Boot(hash, config, file).file.suppressed == set id | id in file.suppressed :: hash(id)
  {
  }

  /** Everybody but the buyer is as before. */
  ghost predicate OthersAsBefore(s: Store, after: Store, buyer: string) {
    && (forall b :: b != buyer ==> (b in after.index <==> b in s.index) && (b in after.suspended <==> b in s.suspended))
    && (forall b :: b != buyer && b in s.index ==> after.index[b] == s.index[b])
    && (forall b :: b != buyer && b in s.suspended ==> after.suspended[b] == s.suspended[b])
  }

  /** A restriction moves an active entry aside and saves that; it changes nothing for anybody else. */
  lemma RestrictExactly(hash: BuyerHash, s: Store, buyer: string)
    requires Sound(hash, s)
    ensures var after := Step(hash, s, Restrict(buyer));
            if buyer in s.index then
              && buyer !in after.index && buyer in after.suspended && after.suspended[buyer] == s.index[buyer]
              && OthersAsBefore(s, after, buyer) && after.erased == s.erased
              && after.file == Overlay(Some(1), s.erased, s.suspended.Keys + {buyer})
            else after == s
  {
  }

  /** A reinstatement undoes a restriction. */
  lemma ReinstateExactly(hash: BuyerHash, s: Store, buyer: string)
    requires Sound(hash, s)
    ensures var after := Step(hash, s, Unrestrict(buyer));
            if buyer in s.suspended then
              && buyer !in after.suspended && buyer in after.index && after.index[buyer] == s.suspended[buyer]
              && OthersAsBefore(s, after, buyer) && after.erased == s.erased
              && after.file == Overlay(Some(1), s.erased, s.suspended.Keys - {buyer})
            else after == s
    ensures buyer in s.index ==>
              var back := Step(hash, Step(hash, s, Restrict(buyer)), Unrestrict(buyer));
              back.index == s.index && back.suspended == s.suspended && back.erased == s.erased
  {
    if buyer in s.index {
      var restricted := Step(hash, s, Restrict(buyer));
      var back := Step(hash, restricted, Unrestrict(buyer));
      RestrictExactly(hash, s, buyer);
      assert back.index == s.index;
      assert back.suspended == s.suspended;
    }
  }

  /** An erasure leaves of the buyer its hash and nothing else, in memory and on file. */
  lemma EraseExactly(hash: BuyerHash, s: Store, buyer: string)
    requires Sound(hash, s)
    ensures var after := Step(hash, s, Erase(buyer));
            && buyer !in after.index && buyer !in after.suspended
            && OthersAsBefore(s, after, buyer)
            && after.erased == s.erased + {hash(buyer)}
            && after.file == Overlay(Some(1), after.erased, s.suspended.Keys - {buyer})
  {
  }
}
