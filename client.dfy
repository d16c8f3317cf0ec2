/**
  The DNS client of the webhook (otcdns/client.go): zone lookup, lookup of the one TXT
  recordset under the challenge owner name, and the create / replace-values / delete
  calls on it, including the removal of a single value.
 */
module Client {
  import opened Wrappers
  import opened Dns
  import opened Provider

  /**
    The challenge owner name inside a zone: the configured subdomain, or
    "_acme-challenge" when none is configured, as the first label(s) before the zone name.
   */
  function DnsName(subdomain: string, zoneName: string): (r: string)
    ensures |r| > |zoneName|
    ensures r[|r| - |zoneName| - 1..] == "." + zoneName
    ensures r[..|r| - |zoneName| - 1] == if subdomain == "" then "_acme-challenge" else subdomain
  {
    if subdomain == "" then AcmeChallengePrefix + zoneName else subdomain + "." + zoneName
  }

  /** What a zone lookup by name yields against the account's zones. */
  function ZoneLookup(failing: set<Endpoint>, zones: seq<Zone>, name: string): (r: Result<Zone, Error>)
    ensures r.Ok? <==> ZoneList !in failing && |ZonesNamed(zones, name)| == 1
    ensures r.Ok? ==> r.value in zones && r.value.name == name
    ensures r.Err? ==> r.error == Unreachable(ZoneList) || r.error.ZoneCount?
  {
    if ZoneList in failing then Err(Unreachable(ZoneList))
    else
      var found := ZonesNamed(zones, name);
      if |found| != 1 then Err(ZoneCount(name, |found|)) else Ok(found[0])
  }

  /** What a lookup of the TXT recordset under `dnsName` in a zone yields against the table. */
  function TxtLookup(failing: set<Endpoint>, sets: seq<RecordSet>, zoneId: nat, dnsName: string)
    : (r: Result<Option<RecordSet>, Error>)
    ensures r.Ok? <==> RecordSetList !in failing && |Select(sets, zoneId, Txt, dnsName)| <= 1
    ensures r.Ok? && r.value.Some? ==> r.value.value in sets && Matches(r.value.value, zoneId, Txt, dnsName)
    ensures r.Err? ==> r.error == Unreachable(RecordSetList) || r.error.AmbiguousRecordSet?
  {
    if RecordSetList in failing then Err(Unreachable(RecordSetList))
    else
      var found := Select(sets, zoneId, Txt, dnsName);
      if |found| == 1 then Ok(Some(found[0]))
      else if |found| == 0 then Ok(None)
      else Err(AmbiguousRecordSet(dnsName, |found|))
  }

  /** Position `i` holds the only zone of the account named `name`. */
  ghost predicate OnlyZoneNamed(zones: seq<Zone>, name: string, i: int) {
    0 <= i < |zones| && zones[i].name == name &&
    forall j :: 0 <= j < |zones| && zones[j].name == name ==> j == i
  }

  /** Position `i` holds the only recordset of the table that answers the TXT query. */
  ghost predicate OnlyMatch(sets: seq<RecordSet>, zoneId: nat, dnsName: string, i: int) {
    0 <= i < |sets| && Matches(sets[i], zoneId, Txt, dnsName) &&
    forall j :: 0 <= j < |sets| && Matches(sets[j], zoneId, Txt, dnsName) ==> j == i
  }

  /** A zone lookup with no zone of that name fails, and so does one with two or more. */
  lemma ZoneLookupFails(failing: set<Endpoint>, zones: seq<Zone>, name: string)
    requires ZoneList !in failing
    ensures (forall i :: 0 <= i < |zones| ==> zones[i].name != name) ==>
      ZoneLookup(failing, zones, name) == Err(ZoneCount(name, 0))
    ensures (exists i, j :: 0 <= i < j < |zones| && zones[i].name == name && zones[j].name == name) ==>
      ZoneLookup(failing, zones, name).Err? && ZoneLookup(failing, zones, name).error.ZoneCount?
  {
    ZonesNamedNonEmpty(zones, name);
    ZonesNamedTwo(zones, name);
  }

  /** A zone lookup with exactly one zone of that name yields that zone. */
  lemma ZoneLookupFindsOnly(failing: set<Endpoint>, zones: seq<Zone>, name: string, i: int)
    requires ZoneList !in failing && OnlyZoneNamed(zones, name, i)
    ensures ZoneLookup(failing, zones, name) == Ok(zones[i])
  {
    ZonesNamedNonEmpty(zones, name);
    ZonesNamedTwo(zones, name);
    var found := ZonesNamed(zones, name);
    assert |found| == 1;
    assert found[0] in zones;
    var k :| 0 <= k < |zones| && zones[k] == found[0];
  }

  /**
    A TXT lookup yields no recordset exactly when none matches, and fails, as
    ambiguous, exactly when two positions of the table match.
   */
  lemma TxtLookupCases(failing: set<Endpoint>, sets: seq<RecordSet>, zoneId: nat, dnsName: string)
    requires RecordSetList !in failing
    ensures TxtLookup(failing, sets, zoneId, dnsName) == Ok(None) <==>
      forall i :: 0 <= i < |sets| ==> !Matches(sets[i], zoneId, Txt, dnsName)
    ensures TxtLookup(failing, sets, zoneId, dnsName).Err? <==>
      exists i, j :: 0 <= i < j < |sets| && Matches(sets[i], zoneId, Txt, dnsName) && Matches(sets[j], zoneId, Txt, dnsName)
    ensures TxtLookup(failing, sets, zoneId, dnsName).Err? ==>
      TxtLookup(failing, sets, zoneId, dnsName).error.AmbiguousRecordSet?
  {
    SelectNonEmpty(sets, zoneId, Txt, dnsName);
    SelectTwo(sets, zoneId, Txt, dnsName);
  }

  /** A TXT lookup with exactly one matching recordset yields that recordset. */
  lemma TxtLookupFindsOnly(failing: set<Endpoint>, sets: seq<RecordSet>, zoneId: nat, dnsName: string, i: int)
    requires RecordSetList !in failing && OnlyMatch(sets, zoneId, dnsName, i)
    ensures TxtLookup(failing, sets, zoneId, dnsName) == Ok(Some(sets[i]))
  {
    SelectNonEmpty(sets, zoneId, Txt, dnsName);
    SelectTwo(sets, zoneId, Txt, dnsName);
    var found := Select(sets, zoneId, Txt, dnsName);
    assert |found| == 1;
    assert found[0] in sets;
    var k :| 0 <= k < |sets| && sets[k] == found[0];
  }

  /** Whether the challenge value is among the recordset's values, and the recordset if it exists. */
  datatype ValueLookup = ValueLookup(found: bool, recordSet: Option<RecordSet>)

  class OtcDnsClient {
    /** The provider the client talks to. */
    const sc: DnsService
    /** Optional subdomain placed before the zone name in the owner name. */
    var subdomain: string

    constructor (sc: DnsService)
      ensures this.sc == sc && subdomain == ""
    {
      this.sc := sc;
      subdomain := "";
    }

    /** Looks up the one hosted zone named `zoneName`. */
    method GetHostedZone(zoneName: string) returns (r: Result<Zone, Error>)
      ensures r == ZoneLookup(sc.failing, sc.zones, zoneName)
    {
      var listed := sc.ListZonesByName(zoneName);
      if listed.Err? {
        return Err(listed.error);
      }
      var all := listed.value;
      if |all| != 1 {
        return Err(ZoneCount(zoneName, |all|));
      }
      return Ok(all[0]);
    }

    /** Creates the challenge recordset in `zone` holding exactly `challengeValue`. */
    method NewTxtRecordSet(zone: Zone, challengeValue: string) returns (r: Result<RecordSet, Error>)
      requires sc.Valid()
      modifies sc
      ensures sc.Valid()
      ensures RecordSetCreate in sc.failing ==>
        r == Err(Unreachable(RecordSetCreate)) && sc.recordSets == old(sc.recordSets) && sc.nextId == old(sc.nextId)
      ensures RecordSetCreate !in sc.failing ==>
        var made := RecordSet(old(sc.nextId), zone.id, DnsName(subdomain, zone.name), Txt, ChallengeTtl,
                              ChallengeDescription, [challengeValue]);
        r == Ok(made) && sc.recordSets == old(sc.recordSets) + [made] && sc.nextId == old(sc.nextId) + 1
    {
      var dnsName := DnsName(subdomain, zone.name);
      r := sc.Create(zone.id, dnsName, Txt, ChallengeTtl, ChallengeDescription, [challengeValue]);
    }

    /** Reads the TXT recordset under the owner name: none, one, or an error when ambiguous. */
    method GetTxtRecordSet(zone: Zone) returns (r: Result<Option<RecordSet>, Error>)
      ensures r == TxtLookup(sc.failing, sc.recordSets, zone.id, DnsName(subdomain, zone.name))
    {
      var dnsName := DnsName(subdomain, zone.name);
      var listed := sc.ListByZone(zone.id, Txt, dnsName);
      if listed.Err? {
        return Err(listed.error);
      }
      var all := listed.value;
      if |all| == 1 {
        return Ok(Some(all[0]));
      } else if |all| == 0 {
        return Ok(None);
      } else {
        return Err(AmbiguousRecordSet(dnsName, |all|));
      }
    }

    /** Tests whether the TXT recordset under the owner name exists. */
    method HasTxtRecordSet(zone: Zone) returns (r: Result<bool, Error>)
      ensures var fetched := TxtLookup(sc.failing, sc.recordSets, zone.id, DnsName(subdomain, zone.name));
        (fetched.Err? ==> r == Err(fetched.error)) && (fetched.Ok? ==> r == Ok(fetched.value.Some?))
    {
      var dnsName := DnsName(subdomain, zone.name);
      var listed := sc.ListByZone(zone.id, Txt, dnsName);
      if listed.Err? {
        return Err(listed.error);
      }
      var all := listed.value;
      if |all| == 1 {
        return Ok(true);
      } else if |all| == 0 {
        return Ok(false);
      } else {
        return Err(AmbiguousRecordSet(dnsName, |all|));
      }
    }

    /** Deletes the given recordset of `zone`. */
    method DeleteRecordSet(zone: Zone, recordSet: RecordSet) returns (r: Result<(), Error>)
      requires sc.Valid()
      modifies sc
      ensures sc.Valid() && sc.nextId == old(sc.nextId)
      ensures RecordSetDelete in sc.failing ==> r == Err(Unreachable(RecordSetDelete)) && sc.recordSets == old(sc.recordSets)
      ensures RecordSetDelete !in sc.failing && Find(old(sc.recordSets), zone.id, recordSet.id).None? ==>
        r == Err(NoSuchRecordSet(recordSet.id)) && sc.recordSets == old(sc.recordSets)
      ensures RecordSetDelete !in sc.failing && Find(old(sc.recordSets), zone.id, recordSet.id).Some? ==>
        r == Ok(()) && sc.recordSets == Remove(old(sc.recordSets), zone.id, recordSet.id)
    {
      r := sc.Delete(zone.id, recordSet.id);
    }

    /**
      Tests whether `challengeValue` is one of the values of the TXT recordset under the
      owner name; the recordset is returned whenever it exists.
     */
    method HasTxtRecordValue(zone: Zone, challengeValue: string) returns (r: Result<ValueLookup, Error>)
      ensures var fetched := TxtLookup(sc.failing, sc.recordSets, zone.id, DnsName(subdomain, zone.name));
        && (fetched.Err? ==> r == Err(fetched.error))
        && (fetched.Ok? ==> r.Ok? && r.value.recordSet == fetched.value)
        && (r.Ok? ==> (r.value.found <==> r.value.recordSet.Some? && challengeValue in r.value.recordSet.value.records))
    {
      var fetched := GetTxtRecordSet(zone);
      if fetched.Err? {
        return Err(fetched.error);
      }
      if fetched.value.None? {
        return Ok(ValueLookup(false, None));
      }
      var records := fetched.value.value.records;
      var found := false;
      var i := 0;
      while i < |records|
        invariant 0 <= i <= |records|
        invariant !found && challengeValue !in records[..i]
      {
        if challengeValue == records[i] {
          found := true;
          break;
        }
        i := i + 1;
      }
      assert !found ==> records[..i] == records;
      return Ok(ValueLookup(found, fetched.value));
    }

    /**
      Replaces the values of `recordSet` by `challengeValues`, which must not be empty:
      the provider would leave the values in place for an empty list.
     */
    method UpdateTxtRecordValues(zone: Zone, recordSet: RecordSet, challengeValues: seq<string>)
      returns (r: Result<RecordSet, Error>)
      requires sc.Valid()
      modifies sc
      ensures sc.Valid() && sc.nextId == old(sc.nextId)
      ensures r.Err? ==> sc.recordSets == old(sc.recordSets)
      ensures challengeValues == [] ==> r == Err(EmptyUpdate)
      ensures challengeValues != [] && RecordSetUpdate in sc.failing ==> r == Err(Unreachable(RecordSetUpdate))
      ensures challengeValues != [] && RecordSetUpdate !in sc.failing && Find(old(sc.recordSets), zone.id, recordSet.id).None? ==>
        r == Err(NoSuchRecordSet(recordSet.id))
      ensures challengeValues != [] && RecordSetUpdate !in sc.failing && Find(old(sc.recordSets), zone.id, recordSet.id).Some? ==>
        r == Ok(Find(old(sc.recordSets), zone.id, recordSet.id).value.(records := challengeValues))
        && sc.recordSets == SetRecords(old(sc.recordSets), zone.id, recordSet.id, challengeValues)
    {
      if |challengeValues| == 0 {
        return Err(EmptyUpdate);
      }
      r := sc.Update(zone.id, recordSet.id, challengeValues);
    }

    /**
      Removes the first occurrence of `challengeValue` from the TXT recordset under the
      owner name. When that was the last value, the whole recordset is deleted if
      `deleteRecordSetIfEmpty` holds, and the call fails otherwise; the provider cannot
      hold an empty value list.
     */
    method DeleteTxtRecordValue(zone: Zone, challengeValue: string, deleteRecordSetIfEmpty: bool)
      returns (r: Result<Option<RecordSet>, Error>)
      requires sc.Valid()
      modifies sc
      ensures sc.Valid() && sc.nextId == old(sc.nextId)
      ensures r.Err? ==> sc.recordSets == old(sc.recordSets)
      ensures var fetched := TxtLookup(sc.failing, old(sc.recordSets), zone.id, DnsName(subdomain, zone.name));
        && (fetched.Err? ==> r == Err(fetched.error))
        && (fetched == Ok(None) ==> r == Err(RecordSetNotFound))
        && (fetched.Ok? && fetched.value.Some? && challengeValue !in fetched.value.value.records ==> r == Err(ValueNotFound))
      ensures var fetched := TxtLookup(sc.failing, old(sc.recordSets), zone.id, DnsName(subdomain, zone.name));
        fetched.Ok? && fetched.value.Some? && challengeValue in fetched.value.value.records ==>
        var rs := fetched.value.value;
        var rest := RemoveFirst(rs.records, challengeValue);
        && (rest == [] && !deleteRecordSetIfEmpty ==> r == Err(LastValue))
        && (rest == [] && deleteRecordSetIfEmpty && RecordSetDelete in sc.failing ==> r == Err(Unreachable(RecordSetDelete)))
        && (rest == [] && deleteRecordSetIfEmpty && RecordSetDelete !in sc.failing ==>
              r == Ok(None) && sc.recordSets == Remove(old(sc.recordSets), zone.id, rs.id))
        && (rest != [] && RecordSetUpdate in sc.failing ==> r == Err(Unreachable(RecordSetUpdate)))
        && (rest != [] && RecordSetUpdate !in sc.failing ==>
              r == Ok(Some(rs.(records := rest))) && sc.recordSets == SetRecords(old(sc.recordSets), zone.id, rs.id, rest))
    {
      var lookup := HasTxtRecordValue(zone, challengeValue);
      if lookup.Err? {
        return Err(lookup.error);
      }
      var existing := lookup.value.recordSet;
      if lookup.value.found {
        var records := existing.value.records;
        var deleteIndex := -1;
        var i := 0;
        while i < |records|
          invariant 0 <= i <= |records|
          invariant deleteIndex == -1 && challengeValue !in records[..i]
        {
          if challengeValue == records[i] {
            deleteIndex := i;
            break;
          }
          i := i + 1;
        }
        if deleteIndex >= 0 {
          var changedRecords := records[..deleteIndex] + records[deleteIndex + 1..];
          RemoveFirstIsSplice(records, challengeValue, deleteIndex);
          assert existing.value in old(sc.recordSets);
          FindMember(sc.recordSets, existing.value);
          if |changedRecords| == 0 {
            if deleteRecordSetIfEmpty {
              var deleted := DeleteRecordSet(zone, existing.value);
              if deleted.Err? {
                return Err(deleted.error);
              }
              return Ok(None);
            } else {
              return Err(LastValue);
            }
          } else {
            var changed := UpdateTxtRecordValues(zone, existing.value, changedRecords);
            if changed.Err? {
              return Err(changed.error);
            }
            return Ok(Some(changed.value));
          }
        } else {
          return Err(ValueNotFound);
        }
      } else if existing.None? {
        return Err(RecordSetNotFound);
      } else {
        return Err(ValueNotFound);
      }
    }
  }
}
