/**
  The DNS provider's API as an in-memory store: the account's hosted zones and its
  recordset table. Each call either fails in transport and changes nothing, or acts on
  the table. Which calls fail is the `failing` set of endpoints, fixed for a store.
 */
module Provider {
  import opened Wrappers
  import opened Dns

  class DnsService {
    /** The account's hosted zones; the webhook never creates or deletes a zone. */
    const zones: seq<Zone>
    /** The endpoints whose calls fail in transport. */
    const failing: set<Endpoint>
    /** The recordset table, in creation order. */
    var recordSets: seq<RecordSet>
    /** The id the next created recordset receives. */
    var nextId: nat

    ghost predicate Valid()
      reads this
    {
      WellFormed(recordSets, nextId)
    }

    constructor (zones: seq<Zone>, failing: set<Endpoint>, recordSets: seq<RecordSet>, nextId: nat)
      requires WellFormed(recordSets, nextId)
      ensures Valid()
      ensures this.zones == zones && this.failing == failing
      ensures this.recordSets == recordSets && this.nextId == nextId
    {
      this.zones := zones;
      this.failing := failing;
      this.recordSets := recordSets;
      this.nextId := nextId;
    }

    /** Lists the zones whose name is `name`. */
    method ListZonesByName(name: string) returns (r: Result<seq<Zone>, Error>)
      ensures ZoneList in failing ==> r == Err(Unreachable(ZoneList))
      ensures ZoneList !in failing ==> r == Ok(ZonesNamed(zones, name))
    {
      if ZoneList in failing {
        return Err(Unreachable(ZoneList));
      }
      return Ok(ZonesNamed(zones, name));
    }

    /** Lists the recordsets of one zone with the given type and name. */
    method ListByZone(zoneId: nat, rtype: string, name: string) returns (r: Result<seq<RecordSet>, Error>)
      ensures RecordSetList in failing ==> r == Err(Unreachable(RecordSetList))
      ensures RecordSetList !in failing ==> r == Ok(Select(recordSets, zoneId, rtype, name))
    {
      if RecordSetList in failing {
        return Err(Unreachable(RecordSetList));
      }
      return Ok(Select(recordSets, zoneId, rtype, name));
    }

    /**
      Creates a recordset in a zone and returns it; the provider allocates its id.
      The API takes at least one record.
     */
    method Create(zoneId: nat, name: string, rtype: string, ttl: nat, description: string, records: seq<string>)
      returns (r: Result<RecordSet, Error>)
      requires Valid() && records != []
      modifies this
      ensures Valid()
      ensures RecordSetCreate in failing ==>
        r == Err(Unreachable(RecordSetCreate)) && recordSets == old(recordSets) && nextId == old(nextId)
      ensures RecordSetCreate !in failing ==>
        var made := RecordSet(old(nextId), zoneId, name, rtype, ttl, description, records);
        r == Ok(made) && recordSets == old(recordSets) + [made] && nextId == old(nextId) + 1
    {
      if RecordSetCreate in failing {
        return Err(Unreachable(RecordSetCreate));
      }
      var made := RecordSet(nextId, zoneId, name, rtype, ttl, description, records);
      WellFormedAppend(recordSets, nextId, made);
      recordSets := recordSets + [made];
      nextId := nextId + 1;
      return Ok(made);
    }

    /**
      Replaces the value list of the recordset addressed by (zone, id) and returns the
      stored recordset. An empty list is accepted but leaves the values as they were.
     */
    method Update(zoneId: nat, id: nat, records: seq<string>) returns (r: Result<RecordSet, Error>)
      requires Valid()
      modifies this
      ensures Valid() && nextId == old(nextId)
      ensures RecordSetUpdate in failing ==> r == Err(Unreachable(RecordSetUpdate)) && recordSets == old(recordSets)
      ensures RecordSetUpdate !in failing && Find(old(recordSets), zoneId, id).None? ==>
        r == Err(NoSuchRecordSet(id)) && recordSets == old(recordSets)
      ensures RecordSetUpdate !in failing && Find(old(recordSets), zoneId, id).Some? && records == [] ==>
        r == Ok(Find(old(recordSets), zoneId, id).value) && recordSets == old(recordSets)
      ensures RecordSetUpdate !in failing && Find(old(recordSets), zoneId, id).Some? && records != [] ==>
        r == Ok(Find(old(recordSets), zoneId, id).value.(records := records))
        && recordSets == SetRecords(old(recordSets), zoneId, id, records)
    {
      if RecordSetUpdate in failing {
        return Err(Unreachable(RecordSetUpdate));
      }
      var found := Find(recordSets, zoneId, id);
      if found.None? {
        return Err(NoSuchRecordSet(id));
      }
      if records == [] {
        return Ok(found.value);
      }
      WellFormedSetRecords(recordSets, nextId, zoneId, id, records);
      recordSets := SetRecords(recordSets, zoneId, id, records);
      return Ok(found.value.(records := records));
    }

    /** Deletes the recordset addressed by (zone, id). */
    method Delete(zoneId: nat, id: nat) returns (r: Result<(), Error>)
      requires Valid()
      modifies this
      ensures Valid() && nextId == old(nextId)
      ensures RecordSetDelete in failing ==> r == Err(Unreachable(RecordSetDelete)) && recordSets == old(recordSets)
      ensures RecordSetDelete !in failing && Find(old(recordSets), zoneId, id).None? ==>
        r == Err(NoSuchRecordSet(id)) && recordSets == old(recordSets)
      ensures RecordSetDelete !in failing && Find(old(recordSets), zoneId, id).Some? ==>
        r == Ok(()) && recordSets == Remove(old(recordSets), zoneId, id)
    {
      if RecordSetDelete in failing {
        return Err(Unreachable(RecordSetDelete));
      }
      if Find(recordSets, zoneId, id).None? {
        return Err(NoSuchRecordSet(id));
      }
      WellFormedRemove(recordSets, nextId, zoneId, id);
      recordSets := Remove(recordSets, zoneId, id);
      return Ok(());
    }
  }
}
