/** One HMAC key per buyer: pseudonyms, crypto-shredding, and retirement of inactive keys. */
module Pseudonyms {
  import opened Wrappers
  import opened AuditChain

  datatype KeyRecord = KeyRecord(key: string, createdAt: int, lastUsedAt: int)

  /** buyer_id to key record */
  type Keys = map<string, KeyRecord>

  /** HMAC-SHA256 of (key, buyer_id), left arbitrary. */
  type Mac = (string, string) -> string

  const PREFIX := "psn_"
  const BUYER_FIELD := "buyer_id"

  /** The key store after the buyer's key was used at `now`; `newKey` is the random key drawn when the
      buyer has none. */
  function Touched(keys: Keys, buyer: string, now: int, newKey: string): Keys {
    if buyer in keys then keys[buyer := keys[buyer].(lastUsedAt := now)]
    else keys[buyer := KeyRecord(newKey, now, now)]
  }

  function PseudonymOf(mac: Mac, keys: Keys, buyer: string): string
    requires buyer in keys
  {
    PREFIX + mac(keys[buyer].key, buyer)
  }

  function FieldOf(p: Payload, name: string): Option<Value> {
    if |p| == 0 then None
    else if p[0].0 == name then Some(p[0].1)
    else FieldOf(p[1..], name)
  }

  function WithField(p: Payload, name: string, v: Value): Payload {
    if |p| == 0 then []
    else if p[0].0 == name then [(name, v)] + p[1..]
    else [p[0]] + WithField(p[1..], name, v)
  }

  /** The raw buyer_id inside a payload: a non-empty string that is not already a pseudonym. */
  function RawBuyer(p: Payload): Option<string> {
    match FieldOf(p, BUYER_FIELD)
    case Some(Text(raw)) => if raw == "" || PREFIX <= raw then None else Some(raw)
    case _ => None
  }

  /** What `shredInactive` keeps. */
  function Retained(keys: Keys, cutoffMs: int): Keys {
    map b | b in keys && keys[b].lastUsedAt >= cutoffMs :: keys[b]
  }

  // The saved key store after each operation: it is written when a key is made or destroyed, and not
  // when an existing key is used.

  function SavedAfterTouch(keys: Keys, file: Keys, buyer: string, now: int, newKey: string): Keys {
    if buyer in keys then file else Touched(keys, buyer, now, newKey)
  }

  function SavedAfterShred(keys: Keys, file: Keys, buyer: string): Keys {
    if buyer in keys then keys - {buyer} else file
  }

  function SavedAfterRetiring(keys: Keys, file: Keys, cutoffMs: int): Keys {
    if Retained(keys, cutoffMs) == keys then file else Retained(keys, cutoffMs)
  }

  /** The keys after all buyers but `todo` were looked at. */
  ghost function Sifted(keys: Keys, todo: set<string>, cutoffMs: int): Keys {
    map b | b in keys && (b in todo || keys[b].lastUsedAt >= cutoffMs) :: keys[b]
  }

  lemma SiftOne(keys: Keys, todo: set<string>, buyer: string, cutoffMs: int)
    requires buyer in todo && todo <= keys.Keys
    ensures var sifted := Sifted(keys, todo, cutoffMs);
            && buyer in sifted && sifted[buyer] == keys[buyer]
            && Sifted(keys, todo - {buyer}, cutoffMs)
               == if keys[buyer].lastUsedAt < cutoffMs then sifted - {buyer} else sifted
  {
  }

  lemma OneFewer(keys: Keys, buyer: string)
    requires buyer in keys
    ensures |keys| == |keys - {buyer}| + 1
  {
    assert keys.Keys == (keys - {buyer}).Keys + {buyer};
    assert |keys| == |keys.Keys| && |keys - {buyer}| == |(keys - {buyer}).Keys|;
  }

  lemma {:induction false} AbsentField(p: Payload, name: string)
    requires forall i :: 0 <= i < |p| ==> p[i].0 != name
    ensures FieldOf(p, name).None?
  {
    if |p| > 0 {
      AbsentField(p[1..], name);
    }
  }

  /** After pseudonymization the payload holds no raw buyer_id, whatever it held before. */
  lemma {:induction false} PayloadIsSafe(p: Payload, pseudonym: string)
    requires RawBuyer(p).Some?
    ensures RawBuyer(WithField(p, BUYER_FIELD, Text(PREFIX + pseudonym))).None?
  {
    FieldAfterWrite(p, BUYER_FIELD, Text(PREFIX + pseudonym));
    assert PREFIX <= PREFIX + pseudonym;
  }

  lemma {:induction false} FieldAfterWrite(p: Payload, name: string, v: Value)
    ensures FieldOf(WithField(p, name, v), name) == if FieldOf(p, name).Some? then Some(v) else None
    ensures forall other :: other != name ==> FieldOf(WithField(p, name, v), other) == FieldOf(p, other)
  {
    if |p| > 0 && p[0].0 != name {
      FieldAfterWrite(p[1..], name, v);
      assert WithField(p, name, v)[1..] == WithField(p[1..], name, v);
    } else if |p| > 0 {
      assert WithField(p, name, v)[1..] == p[1..];
    }
  }

  class PseudonymService {
    const mac: Mac
    var keys: Keys
    var file: Keys   // the key store as last saved; `last_used_at` is written lazily

    /** Every creation and every destruction of a key was saved. */
    ghost predicate Saved()
      reads this
    {
      file.Keys == keys.Keys
    }

    constructor (mac: Mac, file: Keys)
      ensures Saved() && this.mac == mac && keys == file && this.file == file
    {
      this.mac := mac;
      keys := file;
      this.file := file;
    }

    method KeyFor(buyer: string, now: int, newKey: string) returns (key: string)
      modifies this
      ensures old(Saved()) ==> Saved()
      ensures keys == Touched(old(keys), buyer, now, newKey)
      ensures key == keys[buyer].key
      ensures file == SavedAfterTouch(old(keys), old(file), buyer, now, newKey)
    {
      if buyer in keys {
        keys := keys[buyer := keys[buyer].(lastUsedAt := now)];
        return keys[buyer].key;
      }
      keys := keys[buyer := KeyRecord(newKey, now, now)];
      file := keys;
      key := newKey;
    }

    method Pseudonymize(buyer: string, now: int, newKey: string) returns (pseudonym: string)
      modifies this
      ensures old(Saved()) ==> Saved()
      ensures keys == Touched(old(keys), buyer, now, newKey)
      ensures pseudonym == PseudonymOf(mac, keys, buyer)
      ensures file == SavedAfterTouch(old(keys), old(file), buyer, now, newKey)
    {
      var key := KeyFor(buyer, now, newKey);
      pseudonym := PREFIX + mac(key, buyer);
    }

    method PseudonymizePayload(p: Payload, now: int, newKey: string) returns (safe: Payload)
      modifies this
      ensures old(Saved()) ==> Saved()
      ensures RawBuyer(p).None? ==> keys == old(keys) && file == old(file) && safe == p
      ensures RawBuyer(p).Some? ==>
                var raw := RawBuyer(p).value;
                && keys == Touched(old(keys), raw, now, newKey)
                && file == SavedAfterTouch(old(keys), old(file), raw, now, newKey)
                && safe == WithField(p, BUYER_FIELD, Text(PseudonymOf(mac, keys, raw)))
      ensures RawBuyer(safe).None?
    {
      var raw := RawBuyer(p);
      if raw.None? {
        return p;
      }
      var pseudonym := Pseudonymize(raw.value, now, newKey);
      safe := WithField(p, BUYER_FIELD, Text(pseudonym));
      PayloadIsSafe(p, mac(keys[raw.value].key, raw.value));
    }

    method Shred(buyer: string) returns (existed: bool)
      modifies this
      ensures old(Saved()) ==> Saved()
      ensures existed == (buyer in old(keys))
      ensures keys == old(keys) - {buyer}
      ensures file == SavedAfterShred(old(keys), old(file), buyer)
    {
      existed := buyer in keys;
      keys := keys - {buyer};
      if existed {
        file := keys;
      }
    }

    method ShredInactive(cutoffMs: int) returns (shredded: nat)
      modifies this
      ensures old(Saved()) ==> Saved()
      ensures keys == Retained(old(keys), cutoffMs)
      ensures shredded == |old(keys)| - |keys|
      ensures file == SavedAfterRetiring(old(keys), old(file), cutoffMs)
    {
      shredded := 0;
      ghost var before := keys;
      var todo := keys.Keys;
      while todo != {}
        invariant todo <= before.Keys
        invariant keys == Sifted(before, todo, cutoffMs)
        invariant file == old(file)
        invariant shredded + |keys| == |before| && (shredded == 0 ==> keys == before)
        decreases todo
      {
        var buyer :| buyer in todo;
        SiftOne(before, todo, buyer, cutoffMs);
        todo := todo - {buyer};
        if keys[buyer].lastUsedAt < cutoffMs {
          OneFewer(keys, buyer);
          keys := keys - {buyer};
          shredded := shredded + 1;
        }
      }
      assert Sifted(before, {}, cutoffMs) == Retained(before, cutoffMs);
      assert shredded > 0 <==> keys != before;
      if shredded > 0 {
        file := keys;
      }
    }
  }
}
