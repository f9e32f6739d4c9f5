/**
 * The provider-side offering service: it composes offers for a requested
 * trip, remembers every offer it hands out in a verification cache keyed by
 * the offer's expiry second, and later co-signs only transactions whose
 * every visible component is a confirmation, signed by the provider, of an
 * offer the cache still holds. The node-specific configuration file name is
 * derived from the node's X.500 name.
 */
module OfferingService {
  import opened Wrappers
  import opened Time
  import opened Collections
  import opened Commitments
  import opened MonetaryStates
  import TripOffers
  import Schedules

  // ---------------------------------------------------------------------
  // The verification cache as a value
  // ---------------------------------------------------------------------

  /** The bucket an offer is filed under: its expiry time rounded down to the second. */
  function ExpiryKey(o: Offer): (k: int)
    ensures k <= o.validBefore < k + SECOND
  {
    TruncToSecond(o.validBefore)
  }

  /** The buckets that survive purging at the (already truncated) instant `now`. */
  function Purged(m: map<int, set<int>>, now: int): (r: map<int, set<int>>)
    ensures r.Keys <= m.Keys
    ensures forall k :: k in r ==> now <= k && r[k] == m[k]
    ensures forall k :: k in m && now <= k ==> k in r
  {
    map k | k in m && now <= k :: m[k]
  }

  /** The buckets after `hash` was added to bucket `key`, creating it if absent. */
  function Insert(m: map<int, set<int>>, key: int, hash: int): (r: map<int, set<int>>)
    ensures r.Keys == m.Keys + {key}
    ensures hash in r[key]
    ensures forall k, h :: k in m && h in m[k] ==> k in r && h in r[k]
    ensures forall k, h :: k in r && h in r[k] ==> (k in m && h in m[k]) || (k == key && h == hash)
  {
    if key in m then m[key := m[key] + {hash}] else m[key := {hash}]
  }

  /** The buckets after the hash of each of `offers` was filed under its expiry key, in order. */
  function Inserted(m: map<int, set<int>>, offers: seq<Offer>, hash: Offer -> int): map<int, set<int>>
  {
    if offers == [] then m
    else
      var o := offers[|offers| - 1];
      Insert(Inserted(m, offers[..|offers| - 1], hash), ExpiryKey(o), hash(o))
  }

  /** Whether bucket `key` exists and holds `h`. */
  predicate Holds(m: map<int, set<int>>, key: int, h: int) {
    key in m && h in m[key]
  }

  /**
   * What `contains` answers for `offer` at `now` on the buckets `m`: after the
   * purge at `now` rounded down to the second, the offer's bucket holds its hash.
   */
  predicate Accepts(m: map<int, set<int>>, offer: Offer, hash: Offer -> int, now: int) {
    Holds(Purged(m, TruncToSecond(now)), ExpiryKey(offer), hash(offer))
  }

  /**
   * The purge loop as written: it walks the key-set view in ascending order
   * and removes expired keys through the map. After a removal, the view's
   * iterator throws when asked for a further key (the map was modified
   * behind it), so the purge fails as soon as it has removed the oldest key
   * while other keys remain.
   */
  function PurgeAsWritten(m: map<int, set<int>>, now: int): (r: (Outcome<CacheError>, map<int, set<int>>))
    ensures r.0.Pass? ==> r.1 == Purged(m, now)
    ensures r.0.Fail? ==> m != map[] && r.1 == m - {MinOf(m.Keys)}
  {
    if m == map[] then (Pass, m)
    else
      var first := MinOf(m.Keys);
      if now <= first then
        PurgedNothing(m, now);
        (Pass, m)
      else if m.Keys == {first} then
        assert Purged(m, now) == map[];
        (Pass, map[])
      else (Fail(ConcurrentModification), m - {first})
  }

  datatype CacheError = ConcurrentModification

  /** When no key precedes `now`, the purge keeps every bucket. */
  lemma PurgedNothing(m: map<int, set<int>>, now: int)
    requires m != map[] && now <= MinOf(m.Keys)
    ensures Purged(m, now) == m
  {
  }

  // ---------------------------------------------------------------------
  // The verification cache as an object
  // ---------------------------------------------------------------------

  /**
   * The cache of offer hashes grouped by expiry second, kept in a sorted map.
   * `hash` is the offers' `hashCode`.
   */
  class VerificationCache {
    var hashesByExpTime: map<int, set<int>>
    const hash: Offer -> int

    constructor (hash: Offer -> int)
      ensures hashesByExpTime == map[] && this.hash == hash
    {
      hashesByExpTime := map[];
      this.hash := hash;
    }

    /**
     * Removes the buckets that expired before `now` rounded down to the
     * second, oldest first, stopping at the first bucket that has not expired.
     */
    method PurgeExpiredEntries(now: int)
      modifies this
      ensures hashesByExpTime == Purged(old(hashesByExpTime), TruncToSecond(now))
    {
      var cutoff := TruncToSecond(now);
      var done := false;
      while !done && hashesByExpTime != map[]
        invariant Purged(hashesByExpTime, cutoff) == Purged(old(hashesByExpTime), cutoff)
        invariant done ==> hashesByExpTime == Purged(hashesByExpTime, cutoff)
        decreases !done, |hashesByExpTime.Keys|
      {
        var key := MinOf(hashesByExpTime.Keys);
        if key < cutoff {
          DropExpired(hashesByExpTime, key, cutoff);
          hashesByExpTime := hashesByExpTime - {key};
        } else {
          PurgedNothing(hashesByExpTime, cutoff);
          done := true;
        }
      }
    }

    /**
     * The purge exactly as written: removing a key while iterating the map's
     * key set makes the iterator fail on its next step.
     */
    method PurgeExpiredEntriesAsWritten(now: int) returns (outcome: Outcome<CacheError>)
      modifies this
      ensures (outcome, hashesByExpTime) == PurgeAsWritten(old(hashesByExpTime), TruncToSecond(now))
    {
      var cutoff := TruncToSecond(now);
      var keys := hashesByExpTime.Keys;
      var modified := false;
      outcome := Pass;
      while keys != {}
        invariant !modified ==> keys == hashesByExpTime.Keys && hashesByExpTime == old(hashesByExpTime)
        invariant modified ==> (old(hashesByExpTime) != map[] && MinOf(old(hashesByExpTime).Keys) < cutoff &&
                                hashesByExpTime == old(hashesByExpTime) - {MinOf(old(hashesByExpTime).Keys)} &&
                                keys == hashesByExpTime.Keys)
        decreases |keys|
      {
        if modified {
          outcome := Fail(ConcurrentModification);
          return;
        }
        var key := MinOf(keys);
        keys := keys - {key};
        if key < cutoff {
          hashesByExpTime := hashesByExpTime - {key};
          modified := true;
        } else {
          PurgedNothing(hashesByExpTime, cutoff);
          return;
        }
      }
      if modified {
        assert old(hashesByExpTime).Keys == {MinOf(old(hashesByExpTime).Keys)};
      }
    }

    /** `updateWith`: purges, then files the hash of every offer under its expiry key; returns the offers. */
    method UpdateWith(offers: seq<Offer>, now: int) returns (result: seq<Offer>)
      modifies this
      ensures result == offers
      ensures hashesByExpTime == Inserted(Purged(old(hashesByExpTime), TruncToSecond(now)), offers, hash)
    {
      PurgeExpiredEntries(now);
      for i := 0 to |offers|
        invariant hashesByExpTime == Inserted(Purged(old(hashesByExpTime), TruncToSecond(now)), offers[..i], hash)
      {
        var key := ExpiryKey(offers[i]);
        var h := hash(offers[i]);
        assert offers[..i + 1][..i] == offers[..i];
        hashesByExpTime := Insert(hashesByExpTime, key, h);
      }
      assert offers[..|offers|] == offers;
      result := offers;
    }

    /** `contains`: purges, then looks the offer's hash up in its expiry bucket. */
    method Contains(offer: Offer, now: int) returns (found: bool)
      modifies this
      ensures hashesByExpTime == Purged(old(hashesByExpTime), TruncToSecond(now))
      ensures found == Accepts(old(hashesByExpTime), offer, hash, now)
    {
      PurgeExpiredEntries(now);
      var key := ExpiryKey(offer);
      found := key in hashesByExpTime && hash(offer) in hashesByExpTime[key];
    }
  }

  /** Removing the oldest bucket when it has expired does not change what the purge keeps. */
  lemma DropExpired(m: map<int, set<int>>, key: int, cutoff: int)
    requires key in m && key < cutoff
    ensures Purged(m - {key}, cutoff) == Purged(m, cutoff)
  {
  }

  // ---------------------------------------------------------------------
  // Properties of the cache
  // ---------------------------------------------------------------------

  /** Purging twice at the same instant is purging once. */
  lemma PurgeIdempotent(m: map<int, set<int>>, now: int)
    ensures Purged(Purged(m, now), now) == Purged(m, now)
  {
  }

  /** Purging at `a` and then at a later `b` is purging at `b`. */
  lemma PurgeLater(m: map<int, set<int>>, a: int, b: int)
    requires a <= b
    ensures Purged(Purged(m, a), b) == Purged(m, b)
  {
  }

  /** An offer is accepted exactly when its expiry second is not before `now`'s and its hash is in that bucket. */
  lemma AcceptsIff(m: map<int, set<int>>, o: Offer, hash: Offer -> int, now: int)
    ensures Accepts(m, o, hash, now) <==> TruncToSecond(now) <= ExpiryKey(o) && Holds(m, ExpiryKey(o), hash(o))
  {
  }

  /** An offer whose expiry second has passed is refused whatever the cache holds. */
  lemma ExpiredRefused(m: map<int, set<int>>, o: Offer, hash: Offer -> int, now: int)
    requires ExpiryKey(o) < TruncToSecond(now)
    ensures !Accepts(m, o, hash, now)
  {
  }

  /**
   * The "one last chance": an offer whose `validBefore` has just passed is
   * still accepted while `now` is in the same second.
   */
  lemma OneLastChance(m: map<int, set<int>>, o: Offer, hash: Offer -> int, now: int)
    requires o.validBefore < now && TruncToSecond(now) == ExpiryKey(o)
    requires Holds(m, ExpiryKey(o), hash(o))
    ensures Accepts(m, o, hash, now)
  {
  }

  /** Asking twice at the same instant gives the same answer: the first call's purge changes nothing the second sees. */
  lemma RepeatedContains(m: map<int, set<int>>, o: Offer, hash: Offer -> int, now: int)
    ensures Accepts(Purged(m, TruncToSecond(now)), o, hash, now) == Accepts(m, o, hash, now)
  {
    PurgeIdempotent(m, TruncToSecond(now));
  }

  /** A bucket holds a hash after filing `offers` exactly when it held it before or one of the offers has that key and hash. */
  lemma {:induction false} InsertedHolds(m: map<int, set<int>>, offers: seq<Offer>, hash: Offer -> int, k: int, h: int)
    ensures Holds(Inserted(m, offers, hash), k, h) <==>
            Holds(m, k, h) || exists i :: 0 <= i < |offers| && ExpiryKey(offers[i]) == k && hash(offers[i]) == h
  {
    if offers != [] {
      var n := |offers| - 1;
      var init := offers[..n];
      InsertedHolds(m, init, hash, k, h);
      if Holds(Inserted(m, offers, hash), k, h) && !Holds(m, k, h) {
        if !(ExpiryKey(offers[n]) == k && hash(offers[n]) == h) {
          var i :| 0 <= i < |init| && ExpiryKey(init[i]) == k && hash(init[i]) == h;
          assert offers[i] == init[i];
        }
      }
      if exists i :: 0 <= i < |offers| && ExpiryKey(offers[i]) == k && hash(offers[i]) == h {
        var i :| 0 <= i < |offers| && ExpiryKey(offers[i]) == k && hash(offers[i]) == h;
        if i < n {
          assert init[i] == offers[i];
        }
      }
    }
  }

  /**
   * Every offer handed out by `updateWith` at `issued` is accepted by a later
   * `contains` at `now` as long as its expiry second has not passed.
   */
  lemma IssuedOfferAccepted(m: map<int, set<int>>, offers: seq<Offer>, hash: Offer -> int, issued: int, now: int, i: nat)
    requires i < |offers| && TruncToSecond(now) <= ExpiryKey(offers[i])
    ensures Accepts(Inserted(Purged(m, TruncToSecond(issued)), offers, hash), offers[i], hash, now)
  {
    InsertedHolds(Purged(m, TruncToSecond(issued)), offers, hash, ExpiryKey(offers[i]), hash(offers[i]));
  }

  /**
   * Starting from an empty cache, an accepted offer shares its expiry second
   * and hash with an issued one; when no issued offer collides with it on
   * both, it is one of the issued offers.
   */
  lemma AcceptedOnlyIfIssued(offers: seq<Offer>, hash: Offer -> int, o: Offer, now: int)
    requires Accepts(Inserted(map[], offers, hash), o, hash, now)
    requires forall i :: 0 <= i < |offers| && ExpiryKey(offers[i]) == ExpiryKey(o) && hash(offers[i]) == hash(o) ==> offers[i] == o
    ensures o in offers
  {
    InsertedHolds(map[], offers, hash, ExpiryKey(o), hash(o));
    var i :| 0 <= i < |offers| && ExpiryKey(offers[i]) == ExpiryKey(o) && hash(offers[i]) == hash(o);
    assert offers[i] == o;
  }

  /** Filing offers never removes an entry. */
  lemma InsertedKeeps(m: map<int, set<int>>, offers: seq<Offer>, hash: Offer -> int, k: int, h: int)
    requires Holds(m, k, h)
    ensures Holds(Inserted(m, offers, hash), k, h)
  {
    InsertedHolds(m, offers, hash, k, h);
  }

  /** The written purge fails exactly when the oldest bucket has expired and another bucket remains. */
  lemma PurgeAsWrittenFailsIff(m: map<int, set<int>>, now: int)
    ensures PurgeAsWritten(m, now).0.Fail? <==>
            m != map[] && MinOf(m.Keys) < now && m.Keys != {MinOf(m.Keys)}
  {
  }

  /**
   * Two buckets, both expired: the written purge fails after dropping only
   * the first, while the intended purge empties the cache.
   */
  lemma PurgeAsWrittenExample()
    ensures PurgeAsWritten(map[1000 := {7}, 2000 := {8}], 3000) == (Fail(ConcurrentModification), map[2000 := {8}])
    ensures Purged(map[1000 := {7}, 2000 := {8}], 3000) == map[]
  {
    var m := map[1000 := {7}, 2000 := {8}];
    assert MinOf(m.Keys) == 1000 by {
      assert 1000 in m.Keys;
    }
    assert m.Keys != {1000} by {
      assert 2000 in m.Keys;
    }
    assert m - {1000} == map[2000 := {8}];
  }

  // ---------------------------------------------------------------------
  // Signing confirmations
  // ---------------------------------------------------------------------

  /** A component visible in a filtered transaction: a command with its signers, or anything else. */
  datatype Component = CommandComponent(value: CommandData, signers: set<Party>) | OtherComponent

  datatype SignError = InvalidTransaction

  /** The provider's signature over a filtered transaction. */
  datatype Signature = Signature(signer: Party, components: seq<Component>)

  /** The check `sign` applies to one component, against the cache as it was before the call. */
  predicate Confirms(c: Component, myKey: Party, m: map<int, set<int>>, hash: Offer -> int, now: int) {
    c.CommandComponent? && c.value.ConfirmOfferCommand? && myKey in c.signers && Accepts(m, c.value.offer, hash, now)
  }

  /**
   * The provider's offering service: its identity key, its verification
   * cache and the configuration of its trip data source.
   */
  class ProvisionOfferingService {
    const myKey: Party
    const verificationCache: VerificationCache
    const transportType: TransportType
    const schedule: Schedules.Schedule
    const trustedGuarantors: set<Party>
    const validityMinutes: int

    constructor (myKey: Party, hash: Offer -> int, transportType: TransportType, schedule: Schedules.Schedule,
                 trustedGuarantors: set<Party>, validityMinutes: int)
      ensures this.myKey == myKey && this.transportType == transportType && this.schedule == schedule
      ensures this.trustedGuarantors == trustedGuarantors && this.validityMinutes == validityMinutes
      ensures fresh(verificationCache) && verificationCache.hashesByExpTime == map[] && verificationCache.hash == hash
    {
      this.myKey := myKey;
      this.transportType := transportType;
      this.schedule := schedule;
      this.trustedGuarantors := trustedGuarantors;
      this.validityMinutes := validityMinutes;
      verificationCache := new VerificationCache(hash);
    }

    /** `query`: composes the offers for the requested trip and remembers them all before returning them. */
    method Query(requested: Commitment, distance: nat, now: int) returns (offers: seq<Offer>)
      requires requested.Provision? && Schedules.ValidSchedule(schedule)
      modifies verificationCache
      ensures offers == TripOffers.Offers(requested, transportType, schedule, distance, trustedGuarantors, now, validityMinutes)
      ensures verificationCache.hashesByExpTime ==
              Inserted(Purged(old(verificationCache.hashesByExpTime), TruncToSecond(now)), offers, verificationCache.hash)
    {
      var composed := TripOffers.ComposeOffers(requested, transportType, schedule, distance, trustedGuarantors, now, validityMinutes);
      offers := verificationCache.UpdateWith(composed, now);
    }

    /**
     * `sign`: co-signs the filtered transaction when it shows at least one
     * component and every component is a confirmation, signed by the
     * provider, of an offer the cache accepts; otherwise it refuses.
     */
    method Sign(components: seq<Component>, now: int) returns (signature: Result<Signature, SignError>)
      modifies verificationCache
      ensures signature.Success? <==>
              |components| > 0 &&
              forall i :: 0 <= i < |components| ==>
                Confirms(components[i], myKey, old(verificationCache.hashesByExpTime), verificationCache.hash, now)
      ensures signature.Success? ==> signature.value == Signature(myKey, components)
      ensures Purged(verificationCache.hashesByExpTime, TruncToSecond(now)) ==
              Purged(old(verificationCache.hashesByExpTime), TruncToSecond(now))
    {
      var okay := true;
      for i := 0 to |components|
        invariant okay <==> forall j :: 0 <= j < i ==>
                    Confirms(components[j], myKey, old(verificationCache.hashesByExpTime), verificationCache.hash, now)
        invariant Purged(verificationCache.hashesByExpTime, TruncToSecond(now)) ==
                  Purged(old(verificationCache.hashesByExpTime), TruncToSecond(now))
      {
        var c := components[i];
        var passes := false;
        if c.CommandComponent? && c.value.ConfirmOfferCommand? && myKey in c.signers {
          passes := verificationCache.Contains(c.value.offer, now);
          PurgeIdempotent(old(verificationCache.hashesByExpTime), TruncToSecond(now));
        }
        okay := okay && passes;
      }
      if |components| > 0 && okay {
        signature := Success(Signature(myKey, components));
      } else {
        signature := Failure(InvalidTransaction);
      }
    }
  }

  /**
   * An offer handed out by `query` at `issued` and confirmed by a command the
   * provider signs passes the provider's check at a later `now` while its
   * expiry second has not passed.
   */
  lemma QueriedOfferConfirmed(m: map<int, set<int>>, offers: seq<Offer>, hash: Offer -> int, issued: int, now: int,
                              i: nat, myKey: Party, signers: set<Party>)
    requires i < |offers| && TruncToSecond(now) <= ExpiryKey(offers[i]) && myKey in signers
    ensures Confirms(CommandComponent(ConfirmOfferCommand(offers[i]), signers), myKey,
                     Inserted(Purged(m, TruncToSecond(issued)), offers, hash), hash, now)
  {
    IssuedOfferAccepted(m, offers, hash, issued, now, i);
  }

  // ---------------------------------------------------------------------
  // The node-specific configuration file name
  // ---------------------------------------------------------------------

  /** An X.500 name: common name and organisational unit are optional. */
  datatype X500Name = X500Name(commonName: Option<string>, organisationUnit: Option<string>,
                               organisation: string, locality: string, country: string)

  /** A character matched by `\w`: an ASCII letter, digit or underscore. */
  predicate IsWordChar(c: char) {
    ('a' <= c <= 'z') || ('A' <= c <= 'Z') || ('0' <= c <= '9') || c == '_'
  }

  /** `replace("\\W".toRegex(), "_")`: every character that is not a word character becomes an underscore. */
  function Sanitize(s: string): (r: string)
    ensures |r| == |s|
    ensures forall i :: 0 <= i < |s| ==> r[i] == (if IsWordChar(s[i]) then s[i] else '_')
  {
    seq(|s|, i requires 0 <= i < |s| => if IsWordChar(s[i]) then s[i] else '_')
  }

  /** The component of an optional name part: empty when absent. */
  function Part(p: Option<string>): string {
    if p.Some? then Sanitize(p.value) else ""
  }

  /**
   * The base name of the node-specific configuration file: common name,
   * organisational unit, organisation, locality and country, separated by
   * dashes, with non-word characters of the first four replaced by underscores.
   */
  function ConfigFileName(name: X500Name): (r: string)
    ensures |r| == |Part(name.commonName)| + |Part(name.organisationUnit)| + |name.organisation|
                   + |name.locality| + |name.country| + 4
  {
    Part(name.commonName) + "-" + Part(name.organisationUnit) + "-" + Sanitize(name.organisation)
      + "-" + Sanitize(name.locality) + "-" + name.country
  }

  /** The full configuration file name. */
  function ConfigFile(name: X500Name): (r: string)
    ensures |r| >= 11 && r[..|r| - 11] == ConfigFileName(name) && r[|r| - 11..] == ".properties"
  {
    ConfigFileName(name) + ".properties"
  }

  predicate WordOnly(s: string) {
    forall i :: 0 <= i < |s| ==> IsWordChar(s[i])
  }

  predicate NoDash(s: string) {
    forall i :: 0 <= i < |s| ==> s[i] != '-'
  }

  /** Sanitized text consists of word characters only, and word-only text is left alone. */
  lemma SanitizeFacts(s: string)
    ensures WordOnly(Sanitize(s)) && NoDash(Sanitize(s))
    ensures WordOnly(s) ==> Sanitize(s) == s
    ensures Sanitize(Sanitize(s)) == Sanitize(s)
  {
  }

  /** The fields of `s` between dashes, from left to right. */
  function SplitAtDashes(s: string): (fields: seq<string>)
    ensures |fields| >= 1
  {
    if s == [] then [""]
    else
      var rest := SplitAtDashes(s[1..]);
      if s[0] == '-' then [""] + rest
      else [[s[0]] + rest[0]] + rest[1..]
  }

  /** A field without dashes splits to itself. */
  lemma {:induction false} SplitNoDash(s: string)
    requires NoDash(s)
    ensures SplitAtDashes(s) == [s]
  {
    if s != [] {
      SplitNoDash(s[1..]);
      assert [s[0]] + s[1..] == s;
    }
  }

  /** A dash-free field followed by a dash splits off as the first field. */
  lemma {:induction false} SplitAfterField(a: string, b: string)
    requires NoDash(a)
    ensures SplitAtDashes(a + "-" + b) == [a] + SplitAtDashes(b)
  {
    if a == [] {
      assert a + "-" + b == ['-'] + b;
      assert (['-'] + b)[1..] == b;
    } else {
      SplitAfterField(a[1..], b);
      var s := a + "-" + b;
      assert s[0] == a[0];
      assert s[1..] == a[1..] + "-" + b;
      assert [a[0]] + a[1..] == a;
    }
  }

  /** Five dash-free fields joined by dashes split back into themselves. */
  lemma SplitFiveFields(a: string, b: string, c: string, d: string, e: string)
    requires NoDash(a) && NoDash(b) && NoDash(c) && NoDash(d) && NoDash(e)
    ensures SplitAtDashes(a + "-" + b + "-" + c + "-" + d + "-" + e) == [a, b, c, d, e]
  {
    var de := d + "-" + e;
    var cde := c + "-" + de;
    var bcde := b + "-" + cde;
    DashAssoc(a + "-" + b + "-" + c, d, e);
    DashAssoc(a + "-" + b, c, de);
    DashAssoc(a, b, cde);
    SplitNoDash(e);
    SplitAfterField(d, e);
    assert SplitAtDashes(de) == [d, e];
    SplitAfterField(c, de);
    assert SplitAtDashes(cde) == [c, d, e];
    SplitAfterField(b, cde);
    assert SplitAtDashes(bcde) == [b, c, d, e];
    SplitAfterField(a, bcde);
  }

  lemma DashAssoc(x: string, y: string, z: string)
    ensures x + "-" + y + "-" + z == x + "-" + (y + "-" + z)
  {
  }

  /**
   * The naming convention: the configuration file name splits at its dashes
   * into exactly the five sanitized name components, provided the country
   * code has no dash.
   */
  lemma ConfigFileNameFields(name: X500Name)
    requires NoDash(name.country)
    ensures SplitAtDashes(ConfigFileName(name)) ==
            [Part(name.commonName), Part(name.organisationUnit), Sanitize(name.organisation),
             Sanitize(name.locality), name.country]
  {
    if name.commonName.Some? { SanitizeFacts(name.commonName.value); }
    if name.organisationUnit.Some? { SanitizeFacts(name.organisationUnit.value); }
    SanitizeFacts(name.organisation);
    SanitizeFacts(name.locality);
    SplitFiveFields(Part(name.commonName), Part(name.organisationUnit), Sanitize(name.organisation),
                    Sanitize(name.locality), name.country);
  }

  /** The car provider's organisation name, sanitized. */
  lemma OrganisationSanitized()
    ensures Sanitize("Karl Friedrich Michael Benz") == "Karl_Friedrich_Michael_Benz"
  {
  }

  lemma LocalitySanitized()
    ensures Sanitize("Karlsruhe/Baden-Baden") == "Karlsruhe_Baden_Baden"
  {
  }

  /**
   * The car provider's name: the spaces of the organisation and the slash
   * and dash of the locality become underscores, and the absent common name
   * and unit leave two leading dashes.
   */
  lemma CarProviderFileName()
    ensures ConfigFileName(X500Name(None, None, "Karl Friedrich Michael Benz", "Karlsruhe/Baden-Baden", "DE"))
            == "--" + "Karl_Friedrich_Michael_Benz" + "-" + "Karlsruhe_Baden_Baden" + "-" + "DE"
  {
    OrganisationSanitized();
    LocalitySanitized();
    assert "" + "-" + "" + "-" == "--";
  }

  /** The consumer's name needs no replacement. */
  lemma ConsumerFileName()
    ensures ConfigFile(X500Name(None, None, "ArkS", "SPB", "RU")) == "--" + "ArkS" + "-" + "SPB" + "-" + "RU" + ".properties"
  {
    assert Sanitize("ArkS") == "ArkS";
    assert Sanitize("SPB") == "SPB";
    assert "" + "-" + "" + "-" == "--";
  }
}
