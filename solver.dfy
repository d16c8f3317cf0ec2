/**
  The webhook's solver (otcdns/solver.go): the string helpers that turn a challenge into
  an owner name and a TXT value, and the Present and CleanUp entry points that publish
  and retract the challenge value through the client.
 */
module Solver {
  import opened Wrappers
  import opened Dns
  import opened Provider
  import opened Client
  import opened Reconcile

  /** The part of a challenge request the solver uses. */
  datatype ChallengeRequest = ChallengeRequest(resolvedZone: string, resolvedFQDN: string, key: string)

  /** `s` ends with `suffix`. */
  predicate HasSuffix(s: string, suffix: string) {
    |suffix| <= |s| && s[|s| - |suffix|..] == suffix
  }

  /** `s` without `suffix` when it ends with it, and `s` unchanged otherwise (Go's strings.TrimSuffix). */
  function TrimSuffix(s: string, suffix: string): (r: string)
    ensures HasSuffix(s, suffix) ==> r + suffix == s
    ensures !HasSuffix(s, suffix) ==> r == s
  {
    if HasSuffix(s, suffix) then s[..|s| - |suffix|] else s
  }

  /** The challenge key as a TXT value: the key between double quotes. */
  function SafeTxtValue(key: string): (r: string)
    ensures |r| == |key| + 2
    ensures r[0] == '"' && r[|r| - 1] == '"'
    ensures r[1..|r| - 1] == key
  {
    "\"" + key + "\""
  }

  /** Trimming "." + zone in two steps, first the zone and then the dot, leaves the labels before it. */
  lemma TrimZoneThenDot(fqdn: string, zone: string)
    ensures HasSuffix(fqdn, "." + zone) ==> TrimSuffix(TrimSuffix(fqdn, zone), ".") + "." + zone == fqdn
  {
    if HasSuffix(fqdn, "." + zone) {
      var n := |fqdn| - |zone|;
      assert fqdn[n..] == ("." + zone)[1..] == zone;
      assert HasSuffix(fqdn, zone);
      var once := fqdn[..n];
      assert TrimSuffix(fqdn, zone) == once;
      assert once[n - 1..] == fqdn[n - 1..n] == ".";
      assert HasSuffix(once, ".");
      assert TrimSuffix(once, ".") == fqdn[..n - 1];
      assert fqdn[..n - 1] + "." + zone == fqdn[..n - 1] + fqdn[n - 1..];
    }
  }

  /**
    Splits a challenge into the subdomain (the resolved FQDN without the zone and
    without one trailing dot) and the domain (the zone without its trailing dot).
   */
  function ExtractDomainAndSubdomain(ch: ChallengeRequest): (r: (string, string))
    ensures HasSuffix(ch.resolvedFQDN, "." + ch.resolvedZone) ==> r.0 + "." + ch.resolvedZone == ch.resolvedFQDN
    ensures !HasSuffix(ch.resolvedFQDN, ch.resolvedZone) && HasSuffix(ch.resolvedFQDN, ".") ==> r.0 + "." == ch.resolvedFQDN
    ensures !HasSuffix(ch.resolvedFQDN, ch.resolvedZone) && !HasSuffix(ch.resolvedFQDN, ".") ==> r.0 == ch.resolvedFQDN
    ensures HasSuffix(ch.resolvedZone, ".") ==> r.1 + "." == ch.resolvedZone
    ensures !HasSuffix(ch.resolvedZone, ".") ==> r.1 == ch.resolvedZone
  {
    TrimZoneThenDot(ch.resolvedFQDN, ch.resolvedZone);
    var subDomain := TrimSuffix(TrimSuffix(ch.resolvedFQDN, ch.resolvedZone), ".");
    var domain := TrimSuffix(ch.resolvedZone, ".");
    (subDomain, domain)
  }

  /**
    The owner name under which the solver publishes the challenge value. It always lies
    in the zone, and for a challenge name strictly below the zone it is that name.
   */
  function OwnerName(ch: ChallengeRequest): (r: string)
    ensures |r| > |ch.resolvedZone| && r[|r| - |ch.resolvedZone| - 1..] == "." + ch.resolvedZone
    ensures HasSuffix(ch.resolvedFQDN, "." + ch.resolvedZone) && |ch.resolvedFQDN| > |ch.resolvedZone| + 1 ==>
      r == ch.resolvedFQDN
  {
    DnsName(ExtractDomainAndSubdomain(ch).0, ch.resolvedZone)
  }

  /**
    For a challenge name below the zone, the subdomain is the labels before the zone,
    and the owner name written is the resolved FQDN itself.
   */
  lemma OwnerNameOfChild(labels: string, zone: string)
    requires labels != ""
    ensures var ch := ChallengeRequest(zone, labels + "." + zone, "");
      ExtractDomainAndSubdomain(ch).0 == labels && OwnerName(ch) == labels + "." + zone
  {
    var fqdn := labels + "." + zone;
    assert HasSuffix(fqdn, zone) by { assert fqdn[|fqdn| - |zone|..] == zone; }
    var trimmed := TrimSuffix(fqdn, zone);
    assert trimmed == labels + "." by { assert trimmed + zone == (labels + ".") + zone; }
    assert HasSuffix(trimmed, ".");
    assert TrimSuffix(trimmed, ".") == labels;
  }

  /** For a challenge at the zone apex, the default "_acme-challenge." owner name is used. */
  lemma OwnerNameOfApex(zone: string)
    ensures var ch := ChallengeRequest(zone, zone, "");
      ExtractDomainAndSubdomain(ch).0 == "" && OwnerName(ch) == AcmeChallengePrefix + zone
  {
    assert HasSuffix(zone, zone) by { assert zone[|zone| - |zone|..] == zone; }
    assert TrimSuffix(zone, zone) == "";
  }

  /** The split of the usual challenge name: "_acme-challenge.example.com." in zone "example.com.". */
  lemma ExtractExample()
    ensures ExtractDomainAndSubdomain(ChallengeRequest("example.com.", "_acme-challenge.example.com.", ""))
         == ("_acme-challenge", "example.com")
  {
    assert "_acme-challenge" + "." + "example.com." == "_acme-challenge.example.com.";
    OwnerNameOfChild("_acme-challenge", "example.com.");
    assert HasSuffix("example.com.", ".");
    assert TrimSuffix("example.com.", ".") == "example.com";
  }

  /** A challenge name outside the zone is kept whole, and the zone is appended to it. */
  lemma ForeignNameExample()
    ensures var ch := ChallengeRequest("example.com.", "foo.other.", "");
      ExtractDomainAndSubdomain(ch).0 == "foo.other" && OwnerName(ch) == "foo.other.example.com."
  {
    assert !HasSuffix("foo.other.", "example.com.");
    assert HasSuffix("foo.other.", ".");
    assert "foo.other" + "." == "foo.other.";
  }

  /** A successful TXT lookup rests on at most one matching recordset, and yields it. */
  lemma LookupSelects(failing: set<Endpoint>, sets: seq<RecordSet>, zoneId: nat, name: string)
    requires TxtLookup(failing, sets, zoneId, name).Ok?
    ensures var found := Select(sets, zoneId, Txt, name);
      && |found| <= 1
      && (TxtLookup(failing, sets, zoneId, name).value.None? <==> found == [])
      && (TxtLookup(failing, sets, zoneId, name).value.Some? ==> found == [TxtLookup(failing, sets, zoneId, name).value.value])
  {
  }

  /** The client for a challenge: provider credentials are given, the subdomain comes from the split. */
  method ClientFromChallenge(sc: DnsService, ch: ChallengeRequest) returns (client: OtcDnsClient)
    ensures fresh(client) && client.sc == sc
    ensures client.subdomain == ExtractDomainAndSubdomain(ch).0
  {
    client := new OtcDnsClient(sc);
    var (subdomain, _) := ExtractDomainAndSubdomain(ch);
    client.subdomain := subdomain;
  }

  /**
    Publishes the quoted challenge key under the owner name. Nothing is written when the
    key is already published; otherwise the recordset is created holding only the key,
    or the key is appended to the existing recordset's values. Every failure leaves the
    provider's table as it was.
   */
  method Present(sc: DnsService, ch: ChallengeRequest) returns (r: Result<(), Error>)
    requires sc.Valid()
    modifies sc
    ensures sc.Valid()
    ensures sc.nextId == old(sc.nextId) + (|sc.recordSets| - |old(sc.recordSets)|)
    ensures r.Err? ==> sc.recordSets == old(sc.recordSets) && sc.nextId == old(sc.nextId)
    ensures var zone := ZoneLookup(sc.failing, sc.zones, ch.resolvedZone);
      zone.Err? ==> r == Err(zone.error)
    ensures var zone := ZoneLookup(sc.failing, sc.zones, ch.resolvedZone);
      zone.Ok? ==>
        var fetched := TxtLookup(sc.failing, old(sc.recordSets), zone.value.id, OwnerName(ch));
        && (fetched.Err? ==> r == Err(fetched.error))
        && (fetched.Ok? ==>
              var call := PresentCall(fetched.value, SafeTxtValue(ch.key));
              && (call.Some? && call.value in sc.failing ==> r == Err(Unreachable(call.value)))
              && (call.None? || call.value !in sc.failing ==>
                    r == Ok(()) && sc.recordSets == Presented(old(sc.recordSets), zone.value.id, OwnerName(ch), SafeTxtValue(ch.key), old(sc.nextId))))
  {
    var client := ClientFromChallenge(sc, ch);
    var zoneFound := client.GetHostedZone(ch.resolvedZone);
    if zoneFound.Err? {
      return Err(zoneFound.error);
    }
    var zone := zoneFound.value;
    assert zone in ZonesNamed(sc.zones, ch.resolvedZone);
    assert DnsName(client.subdomain, zone.name) == OwnerName(ch);
    var safeKey := SafeTxtValue(ch.key);
    var lookup := client.HasTxtRecordValue(zone, safeKey);
    if lookup.Err? {
      return Err(lookup.error);
    }
    LookupSelects(sc.failing, sc.recordSets, zone.id, OwnerName(ch));
    var ValueLookup(challengeExists, existing) := lookup.value;
    if challengeExists {
      // The value is already published.
    } else if existing.None? {
      var created := client.NewTxtRecordSet(zone, safeKey);
      if created.Err? {
        return Err(created.error);
      }
    } else {
      var changedRecords := existing.value.records + [safeKey];
      assert existing.value in sc.recordSets;
      FindMember(sc.recordSets, existing.value);
      var changed := client.UpdateTxtRecordValues(zone, existing.value, changedRecords);
      if changed.Err? {
        return Err(changed.error);
      }
    }
    return Ok(());
  }

  /**
    Retracts the quoted challenge key from the owner name. Nothing is written when the
    key is not published, whether or not the recordset exists; otherwise only this key's
    value is removed, and the recordset is deleted when it held no other value. Every
    failure leaves the provider's table as it was.
   */
  method CleanUp(sc: DnsService, ch: ChallengeRequest) returns (r: Result<(), Error>)
    requires sc.Valid()
    modifies sc
    ensures sc.Valid() && sc.nextId == old(sc.nextId)
    ensures r.Err? ==> sc.recordSets == old(sc.recordSets)
    ensures var zone := ZoneLookup(sc.failing, sc.zones, ch.resolvedZone);
      zone.Err? ==> r == Err(zone.error)
    ensures var zone := ZoneLookup(sc.failing, sc.zones, ch.resolvedZone);
      zone.Ok? ==>
        var fetched := TxtLookup(sc.failing, old(sc.recordSets), zone.value.id, OwnerName(ch));
        && (fetched.Err? ==> r == Err(fetched.error))
        && (fetched.Ok? ==>
              var call := CleanUpCall(fetched.value, SafeTxtValue(ch.key));
              && (call.Some? && call.value in sc.failing ==> r == Err(Unreachable(call.value)))
              && (call.None? || call.value !in sc.failing ==>
                    r == Ok(()) && sc.recordSets == CleanedUp(old(sc.recordSets), zone.value.id, OwnerName(ch), SafeTxtValue(ch.key))))
  {
    var client := ClientFromChallenge(sc, ch);
    var zoneFound := client.GetHostedZone(ch.resolvedZone);
    if zoneFound.Err? {
      return Err(zoneFound.error);
    }
    var zone := zoneFound.value;
    assert zone in ZonesNamed(sc.zones, ch.resolvedZone);
    assert DnsName(client.subdomain, zone.name) == OwnerName(ch);
    var safeKey := SafeTxtValue(ch.key);
    var lookup := client.HasTxtRecordValue(zone, safeKey);
    if lookup.Err? {
      return Err(lookup.error);
    }
    LookupSelects(sc.failing, sc.recordSets, zone.id, OwnerName(ch));
    var ValueLookup(challengeValueExists, existing) := lookup.value;
    if challengeValueExists {
      RemoveFirstEmpties(existing.value.records, safeKey);
      var changed := client.DeleteTxtRecordValue(zone, safeKey, true);
      if changed.Err? {
        return Err(changed.error);
      }
    } else if existing.None? {
      // No recordset under the owner name: nothing to retract.
    } else {
      // The recordset does not hold this key: nothing to retract.
    }
    return Ok(());
  }
}
