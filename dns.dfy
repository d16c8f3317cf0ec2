/**
  The data the webhook reads and writes at the DNS provider: hosted zones and TXT
  recordsets, the errors its operations report, and the value-level algebra of the
  provider's recordset table (list queries, update by id, delete by id) together with
  the removal of one value from a recordset's value list.
 */
module Dns {
  import opened Wrappers

  /** The only record type the webhook manages. */
  const Txt: string := "TXT"
  /** Description attached to every recordset the webhook creates. */
  const ChallengeDescription: string := "ACME Challenge"
  /** Time-to-live, in seconds, of every recordset the webhook creates. */
  const ChallengeTtl: nat := 300
  /** Owner-name prefix used when no subdomain is configured. */
  const AcmeChallengePrefix: string := "_acme-challenge."

  /** The calls of the provider's API. */
  datatype Endpoint = ZoneList | RecordSetList | RecordSetCreate | RecordSetUpdate | RecordSetDelete

  /** A hosted zone; `name` is fully qualified, with its trailing dot. */
  datatype Zone = Zone(id: nat, name: string)

  /** A recordset as the provider stores it; `records` is the ordered TXT value list. */
  datatype RecordSet = RecordSet(
    id: nat,
    zoneId: nat,
    name: string,
    rtype: string,
    ttl: nat,
    description: string,
    records: seq<string>)

  datatype Error =
    | Unreachable(endpoint: Endpoint)             // a provider call failed in transport
    | NoSuchRecordSet(recordSetId: nat)           // update or delete of an id the zone does not hold
    | ZoneCount(zoneName: string, count: nat)     // zone query did not return exactly one zone
    | AmbiguousRecordSet(dnsName: string, count: nat)  // more than one TXT recordset under the name
    | EmptyUpdate                                 // update with an empty value list refused
    | LastValue                                   // removing the last value without permission to delete
    | ValueNotFound
    | RecordSetNotFound

  /** `s` is an answer to the list query (zone, type, name). */
  predicate Matches(s: RecordSet, zoneId: nat, rtype: string, name: string) {
    s.zoneId == zoneId && s.rtype == rtype && s.name == name
  }

  /** `s` is the recordset addressed by (zone id, recordset id) in an update or delete call. */
  predicate Identifies(s: RecordSet, zoneId: nat, id: nat) {
    s.zoneId == zoneId && s.id == id
  }

  /** The zones a query by exact name returns, in table order. */
  function ZonesNamed(zones: seq<Zone>, name: string): (r: seq<Zone>)
    ensures forall z :: z in r ==> z in zones && z.name == name
    ensures forall z :: z in zones && z.name == name ==> z in r
  {
    if zones == [] then []
    else if zones[0].name == name then [zones[0]] + ZonesNamed(zones[1..], name)
    else ZonesNamed(zones[1..], name)
  }

  /** The recordsets a list query by zone, type and exact name returns, in table order. */
  function Select(sets: seq<RecordSet>, zoneId: nat, rtype: string, name: string): (r: seq<RecordSet>)
    ensures |r| <= |sets|
    ensures forall s :: s in r ==> s in sets && Matches(s, zoneId, rtype, name)
    ensures forall s :: s in sets && Matches(s, zoneId, rtype, name) ==> s in r
  {
    if sets == [] then []
    else if Matches(sets[0], zoneId, rtype, name) then [sets[0]] + Select(sets[1..], zoneId, rtype, name)
    else Select(sets[1..], zoneId, rtype, name)
  }

  /** The recordset an update or delete call by (zone id, recordset id) addresses, if any. */
  function Find(sets: seq<RecordSet>, zoneId: nat, id: nat): (r: Option<RecordSet>)
    ensures r.Some? ==> r.value in sets && Identifies(r.value, zoneId, id)
    ensures r.None? ==> forall s :: s in sets ==> !Identifies(s, zoneId, id)
  {
    if sets == [] then None
    else if Identifies(sets[0], zoneId, id) then Some(sets[0])
    else Find(sets[1..], zoneId, id)
  }

  /** The table after the value list of the addressed recordset is replaced. */
  function SetRecords(sets: seq<RecordSet>, zoneId: nat, id: nat, records: seq<string>): (r: seq<RecordSet>)
    ensures |r| == |sets|
    ensures forall i :: 0 <= i < |sets| ==>
      r[i] == if Identifies(sets[i], zoneId, id) then sets[i].(records := records) else sets[i]
  {
    if sets == [] then []
    else
      var head := if Identifies(sets[0], zoneId, id) then sets[0].(records := records) else sets[0];
      [head] + SetRecords(sets[1..], zoneId, id, records)
  }

  /** The table after the addressed recordset is deleted. */
  function Remove(sets: seq<RecordSet>, zoneId: nat, id: nat): (r: seq<RecordSet>)
    ensures |r| <= |sets|
    ensures forall s :: s in r <==> s in sets && !Identifies(s, zoneId, id)
  {
    if sets == [] then []
    else if Identifies(sets[0], zoneId, id) then Remove(sets[1..], zoneId, id)
    else [sets[0]] + Remove(sets[1..], zoneId, id)
  }

  /** A value list without the first occurrence of `value`. */
  function RemoveFirst(values: seq<string>, value: string): (r: seq<string>)
    ensures value !in values ==> r == values
    ensures value in values ==> |r| == |values| - 1
    ensures value in values ==> multiset(r) == multiset(values) - multiset{value}
  {
    if values == [] then []
    else if values[0] == value then
      assert values == [values[0]] + values[1..];
      values[1..]
    else
      assert values == [values[0]] + values[1..];
      [values[0]] + RemoveFirst(values[1..], value)
  }

  /** No two recordsets of the table share an id. */
  ghost predicate UniqueIds(sets: seq<RecordSet>) {
    forall i, j :: 0 <= i < j < |sets| ==> sets[i].id != sets[j].id
  }

  /**
    The provider's table invariant: ids are unique and all below the next id to be
    allocated, and no recordset has an empty value list.
   */
  ghost predicate WellFormed(sets: seq<RecordSet>, nextId: nat) {
    UniqueIds(sets) && forall s :: s in sets ==> s.id < nextId && s.records != []
  }

  // ---------------------------------------------------------------------------
  // Value lists
  // ---------------------------------------------------------------------------

  /** Removing the first occurrence is the splice around the first index that holds the value. */
  lemma {:induction false} RemoveFirstIsSplice(values: seq<string>, value: string, i: nat)
    requires i < |values| && values[i] == value && value !in values[..i]
    ensures RemoveFirst(values, value) == values[..i] + values[i + 1..]
  {
    if i > 0 {
      assert values[0] != value by { assert values[0] == values[..i][0]; }
      assert values[1..][..i - 1] == values[..i][1..];
      RemoveFirstIsSplice(values[1..], value, i - 1);
      assert values[1..][i..] == values[i + 1..];
      assert values[..i] == [values[0]] + values[1..][..i - 1];
    }
  }

  /** Removing a value that was appended to a list not holding it gives the list back. */
  lemma {:induction false} RemoveFirstOfAppended(values: seq<string>, value: string)
    requires value !in values
    ensures RemoveFirst(values + [value], value) == values
  {
    if values != [] {
      assert (values + [value])[1..] == values[1..] + [value];
      RemoveFirstOfAppended(values[1..], value);
    }
  }

  /** Removing a value empties the list exactly when it was the list's only value. */
  lemma RemoveFirstEmpties(values: seq<string>, value: string)
    requires value in values
    ensures RemoveFirst(values, value) == [] <==> values == [value]
  {
  }

  // ---------------------------------------------------------------------------
  // List queries against updated tables
  // ---------------------------------------------------------------------------

  /** A list query after one recordset is appended sees it at the end, if it answers the query. */
  lemma {:induction false} SelectAppend(sets: seq<RecordSet>, s: RecordSet, zoneId: nat, rtype: string, name: string)
    ensures Select(sets + [s], zoneId, rtype, name)
         == Select(sets, zoneId, rtype, name) + (if Matches(s, zoneId, rtype, name) then [s] else [])
  {
    if sets != [] {
      assert (sets + [s])[1..] == sets[1..] + [s];
      SelectAppend(sets[1..], s, zoneId, rtype, name);
    }
  }

  /** Replacing a value list keeps names and types, so it commutes with a list query. */
  lemma {:induction false} SelectSetRecords(
    sets: seq<RecordSet>, zoneId: nat, id: nat, records: seq<string>, qZone: nat, qType: string, qName: string)
    ensures Select(SetRecords(sets, zoneId, id, records), qZone, qType, qName)
         == SetRecords(Select(sets, qZone, qType, qName), zoneId, id, records)
  {
    if sets != [] {
      var t := SetRecords(sets, zoneId, id, records);
      assert t[1..] == SetRecords(sets[1..], zoneId, id, records);
      SelectSetRecords(sets[1..], zoneId, id, records, qZone, qType, qName);
    }
  }

  /** Deleting by id commutes with a list query. */
  lemma {:induction false} SelectRemove(sets: seq<RecordSet>, zoneId: nat, id: nat, qZone: nat, qType: string, qName: string)
    ensures Select(Remove(sets, zoneId, id), qZone, qType, qName)
         == Remove(Select(sets, qZone, qType, qName), zoneId, id)
  {
    if sets != [] {
      SelectRemove(sets[1..], zoneId, id, qZone, qType, qName);
    }
  }

  /** A list query returns something exactly when some recordset of the table answers it. */
  lemma SelectNonEmpty(sets: seq<RecordSet>, zoneId: nat, rtype: string, name: string)
    ensures Select(sets, zoneId, rtype, name) != [] <==>
      exists i :: 0 <= i < |sets| && Matches(sets[i], zoneId, rtype, name)
  {
    var r := Select(sets, zoneId, rtype, name);
    if r != [] {
      assert r[0] in sets;
      var i :| 0 <= i < |sets| && sets[i] == r[0];
      assert Matches(sets[i], zoneId, rtype, name);
    }
    if exists i :: 0 <= i < |sets| && Matches(sets[i], zoneId, rtype, name) {
      var i :| 0 <= i < |sets| && Matches(sets[i], zoneId, rtype, name);
      assert sets[i] in sets;
      assert sets[i] in r;
    }
  }

  /** Two positions of the table that answer a list query give it two or more answers. */
  lemma {:induction false} SelectTwoFromPositions(sets: seq<RecordSet>, zoneId: nat, rtype: string, name: string, i: nat, j: nat)
    requires i < j < |sets| && Matches(sets[i], zoneId, rtype, name) && Matches(sets[j], zoneId, rtype, name)
    ensures |Select(sets, zoneId, rtype, name)| >= 2
  {
    var tail := sets[1..];
    if i == 0 {
      assert tail[j - 1] in tail;
      assert Select(tail, zoneId, rtype, name) != [];
    } else {
      SelectTwoFromPositions(tail, zoneId, rtype, name, i - 1, j - 1);
    }
  }

  /** Two or more answers to a list query come from two positions of the table. */
  lemma {:induction false} SelectTwoToPositions(sets: seq<RecordSet>, zoneId: nat, rtype: string, name: string)
    returns (i: nat, j: nat)
    requires |Select(sets, zoneId, rtype, name)| >= 2
    ensures i < j < |sets| && Matches(sets[i], zoneId, rtype, name) && Matches(sets[j], zoneId, rtype, name)
  {
    var tail := sets[1..];
    if Matches(sets[0], zoneId, rtype, name) {
      var r := Select(tail, zoneId, rtype, name);
      assert r[0] in tail;
      var k :| 0 <= k < |tail| && tail[k] == r[0];
      i, j := 0, k + 1;
    } else {
      var i', j' := SelectTwoToPositions(tail, zoneId, rtype, name);
      i, j := i' + 1, j' + 1;
    }
  }

  /** A list query returns two or more recordsets exactly when two positions of the table answer it. */
  lemma SelectTwo(sets: seq<RecordSet>, zoneId: nat, rtype: string, name: string)
    ensures |Select(sets, zoneId, rtype, name)| >= 2 <==>
      exists i, j :: 0 <= i < j < |sets| && Matches(sets[i], zoneId, rtype, name) && Matches(sets[j], zoneId, rtype, name)
  {
    if |Select(sets, zoneId, rtype, name)| >= 2 {
      var i, j := SelectTwoToPositions(sets, zoneId, rtype, name);
    }
    if exists i, j :: 0 <= i < j < |sets| && Matches(sets[i], zoneId, rtype, name) && Matches(sets[j], zoneId, rtype, name) {
      var i, j :| 0 <= i < j < |sets| && Matches(sets[i], zoneId, rtype, name) && Matches(sets[j], zoneId, rtype, name);
      SelectTwoFromPositions(sets, zoneId, rtype, name, i, j);
    }
  }

  /** A zone query returns something exactly when some zone of the account has the name. */
  lemma ZonesNamedNonEmpty(zones: seq<Zone>, name: string)
    ensures ZonesNamed(zones, name) != [] <==> exists i :: 0 <= i < |zones| && zones[i].name == name
  {
    var r := ZonesNamed(zones, name);
    if r != [] {
      assert r[0] in zones;
      var i :| 0 <= i < |zones| && zones[i] == r[0];
    }
    if exists i :: 0 <= i < |zones| && zones[i].name == name {
      var i :| 0 <= i < |zones| && zones[i].name == name;
      assert zones[i] in zones;
    }
  }

  lemma {:induction false} ZonesNamedTwoFromPositions(zones: seq<Zone>, name: string, i: nat, j: nat)
    requires i < j < |zones| && zones[i].name == name && zones[j].name == name
    ensures |ZonesNamed(zones, name)| >= 2
  {
    var tail := zones[1..];
    if i == 0 {
      assert tail[j - 1] in tail;
      assert ZonesNamed(tail, name) != [];
    } else {
      ZonesNamedTwoFromPositions(tail, name, i - 1, j - 1);
    }
  }

  lemma {:induction false} ZonesNamedTwoToPositions(zones: seq<Zone>, name: string) returns (i: nat, j: nat)
    requires |ZonesNamed(zones, name)| >= 2
    ensures i < j < |zones| && zones[i].name == name && zones[j].name == name
  {
    var tail := zones[1..];
    if zones[0].name == name {
      var r := ZonesNamed(tail, name);
      assert r[0] in tail;
      var k :| 0 <= k < |tail| && tail[k] == r[0];
      i, j := 0, k + 1;
    } else {
      var i', j' := ZonesNamedTwoToPositions(tail, name);
      i, j := i' + 1, j' + 1;
    }
  }

  /** A zone query returns two or more zones exactly when two zones of the account have the name. */
  lemma ZonesNamedTwo(zones: seq<Zone>, name: string)
    ensures |ZonesNamed(zones, name)| >= 2 <==>
      exists i, j :: 0 <= i < j < |zones| && zones[i].name == name && zones[j].name == name
  {
    if |ZonesNamed(zones, name)| >= 2 {
      var i, j := ZonesNamedTwoToPositions(zones, name);
    }
    if exists i, j :: 0 <= i < j < |zones| && zones[i].name == name && zones[j].name == name {
      var i, j :| 0 <= i < j < |zones| && zones[i].name == name && zones[j].name == name;
      ZonesNamedTwoFromPositions(zones, name, i, j);
    }
  }

  // ---------------------------------------------------------------------------
  // Updates and deletes by id
  // ---------------------------------------------------------------------------

  /** With unique ids, the call addressed to a member's ids finds that member. */
  lemma {:induction false} FindMember(sets: seq<RecordSet>, s: RecordSet)
    requires UniqueIds(sets) && s in sets
    ensures Find(sets, s.zoneId, s.id) == Some(s)
  {
    if sets[0] != s {
      assert s in sets[1..];
      var k :| 0 <= k < |sets| - 1 && sets[1..][k] == s;
      assert sets[0].id != sets[k + 1].id;
      FindMember(sets[1..], s);
    }
  }

  /** A replacement that every addressed recordset already has changes nothing. */
  lemma {:induction false} SetRecordsNoop(sets: seq<RecordSet>, zoneId: nat, id: nat, records: seq<string>)
    requires forall s :: s in sets && Identifies(s, zoneId, id) ==> s.records == records
    ensures SetRecords(sets, zoneId, id, records) == sets
  {
    if sets != [] {
      SetRecordsNoop(sets[1..], zoneId, id, records);
    }
  }

  /** The second of two replacements of the same recordset's values wins. */
  lemma SetRecordsTwice(sets: seq<RecordSet>, zoneId: nat, id: nat, first: seq<string>, second: seq<string>)
    ensures SetRecords(SetRecords(sets, zoneId, id, first), zoneId, id, second) == SetRecords(sets, zoneId, id, second)
  {
  }

  /** Deleting an id the table does not hold changes nothing. */
  lemma {:induction false} RemoveAbsent(sets: seq<RecordSet>, zoneId: nat, id: nat)
    requires forall s :: s in sets ==> !Identifies(s, zoneId, id)
    ensures Remove(sets, zoneId, id) == sets
  {
    if sets != [] {
      RemoveAbsent(sets[1..], zoneId, id);
    }
  }

  /** Deleting a recordset the table appended last gives the table back. */
  lemma RemoveAppended(sets: seq<RecordSet>, s: RecordSet)
    requires forall t :: t in sets ==> t.id != s.id
    ensures Remove(sets + [s], s.zoneId, s.id) == sets
  {
    RemoveAppendedAux(sets, s);
    RemoveAbsent(sets, s.zoneId, s.id);
  }

  lemma {:induction false} RemoveAppendedAux(sets: seq<RecordSet>, s: RecordSet)
    ensures Remove(sets + [s], s.zoneId, s.id) == Remove(sets, s.zoneId, s.id)
  {
    if sets != [] {
      assert (sets + [s])[1..] == sets[1..] + [s];
      RemoveAppendedAux(sets[1..], s);
    }
  }

  // ---------------------------------------------------------------------------
  // The table invariant
  // ---------------------------------------------------------------------------

  lemma UniqueIdsCons(s: RecordSet, sets: seq<RecordSet>)
    requires UniqueIds(sets) && forall t :: t in sets ==> t.id != s.id
    ensures UniqueIds([s] + sets)
  {
    var all := [s] + sets;
    forall i, j | 0 <= i < j < |all| ensures all[i].id != all[j].id {
      if i == 0 {
        assert all[j] == sets[j - 1];
        assert sets[j - 1] in sets;
      } else {
        assert all[i] == sets[i - 1] && all[j] == sets[j - 1];
      }
    }
  }

  /** A recordset with a fresh id and at least one value keeps the table well formed. */
  lemma WellFormedAppend(sets: seq<RecordSet>, nextId: nat, s: RecordSet)
    requires WellFormed(sets, nextId) && s.id == nextId && s.records != []
    ensures WellFormed(sets + [s], nextId + 1)
  {
    var all := sets + [s];
    forall i, j | 0 <= i < j < |all| ensures all[i].id != all[j].id {
      if j == |sets| {
        assert all[i] == sets[i];
        assert sets[i] in sets;
      } else {
        assert all[i] == sets[i] && all[j] == sets[j];
      }
    }
  }

  /** Replacing a value list by a non-empty one keeps the table well formed. */
  lemma WellFormedSetRecords(sets: seq<RecordSet>, nextId: nat, zoneId: nat, id: nat, records: seq<string>)
    requires WellFormed(sets, nextId) && records != []
    ensures WellFormed(SetRecords(sets, zoneId, id, records), nextId)
  {
    var r := SetRecords(sets, zoneId, id, records);
    forall t | t in r ensures t.id < nextId && t.records != [] {
      var i :| 0 <= i < |r| && r[i] == t;
      assert sets[i] in sets;
    }
  }

  /** Deleting a recordset keeps the table well formed. */
  lemma {:induction false} WellFormedRemove(sets: seq<RecordSet>, nextId: nat, zoneId: nat, id: nat)
    requires WellFormed(sets, nextId)
    ensures WellFormed(Remove(sets, zoneId, id), nextId)
  {
    if sets != [] {
      var tail := sets[1..];
      assert UniqueIds(tail) by {
        forall i, j | 0 <= i < j < |tail| ensures tail[i].id != tail[j].id {
          assert tail[i] == sets[i + 1] && tail[j] == sets[j + 1];
        }
      }
      WellFormedRemove(tail, nextId, zoneId, id);
      if !Identifies(sets[0], zoneId, id) {
        forall t | t in Remove(tail, zoneId, id) ensures t.id != sets[0].id {
          var k :| 0 <= k < |tail| && tail[k] == t;
          assert sets[k + 1] == t;
        }
        UniqueIdsCons(sets[0], Remove(tail, zoneId, id));
      }
    }
  }
}
