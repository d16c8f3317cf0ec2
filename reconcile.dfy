/**
  What Present and CleanUp (otcdns/solver.go) do to the provider's recordset table once
  the zone is resolved, the owner name computed and the lookup found at most one
  recordset, and the properties that make them safe to repeat and to share one owner
  name between several challenges.
 */
module Reconcile {
  import opened Wrappers
  import opened Dns

  /** The recordset Present creates when none exists under the owner name. */
  function ChallengeRecordSet(id: nat, zoneId: nat, name: string, value: string): RecordSet {
    RecordSet(id, zoneId, name, Txt, ChallengeTtl, ChallengeDescription, [value])
  }

  /** The table after Present of `value` under `name`; a created recordset gets id `freshId`. */
  function Presented(sets: seq<RecordSet>, zoneId: nat, name: string, value: string, freshId: nat): (r: seq<RecordSet>)
    requires |Select(sets, zoneId, Txt, name)| <= 1
    ensures |r| == |sets| + (if Select(sets, zoneId, Txt, name) == [] then 1 else 0)
    ensures forall i :: 0 <= i < |sets| ==>
      r[i].id == sets[i].id && r[i].zoneId == sets[i].zoneId && r[i].name == sets[i].name && r[i].rtype == sets[i].rtype
    ensures forall s :: s in r && s !in sets ==> value in s.records
  {
    var found := Select(sets, zoneId, Txt, name);
    if found == [] then sets + [ChallengeRecordSet(freshId, zoneId, name, value)]
    else if value in found[0].records then sets
    else SetRecords(sets, zoneId, found[0].id, found[0].records + [value])
  }

  /** The table after CleanUp of `value` under `name`. */
  function CleanedUp(sets: seq<RecordSet>, zoneId: nat, name: string, value: string): (r: seq<RecordSet>)
    requires |Select(sets, zoneId, Txt, name)| <= 1
    ensures |r| <= |sets|
    ensures forall s :: s in r && s !in sets ==>
      Select(sets, zoneId, Txt, name) != [] && s.records == RemoveFirst(Select(sets, zoneId, Txt, name)[0].records, value)
  {
    var found := Select(sets, zoneId, Txt, name);
    if found == [] || value !in found[0].records then sets
    else
      var rest := RemoveFirst(found[0].records, value);
      if rest == [] then Remove(sets, zoneId, found[0].id)
      else SetRecords(sets, zoneId, found[0].id, rest)
  }

  /** The write Present issues after its lookup found `current`, if any. */
  function PresentCall(current: Option<RecordSet>, value: string): (r: Option<Endpoint>)
    ensures r == Some(RecordSetCreate) <==> current.None?
    ensures r.None? <==> current.Some? && value in current.value.records
    ensures current.Some? && value !in current.value.records ==> r == Some(RecordSetUpdate)
    ensures r != Some(RecordSetDelete)
  {
    if current.None? then Some(RecordSetCreate)
    else if value in current.value.records then None
    else Some(RecordSetUpdate)
  }

  /** The write CleanUp issues after its lookup found `current`, if any. */
  function CleanUpCall(current: Option<RecordSet>, value: string): (r: Option<Endpoint>)
    ensures r.None? <==> current.None? || value !in current.value.records
    ensures r == Some(RecordSetDelete) <==> current.Some? && current.value.records == [value]
    ensures current.Some? && value in current.value.records && current.value.records != [value] ==>
      r == Some(RecordSetUpdate)
    ensures r != Some(RecordSetCreate)
  {
    if current.None? || value !in current.value.records then None
    else if RemoveFirst(current.value.records, value) == [] then Some(RecordSetDelete)
    else Some(RecordSetUpdate)
  }

  // ---------------------------------------------------------------------------
  // Helpers about the table
  // ---------------------------------------------------------------------------

  /** In a table with unique ids, two members with the same id are the same recordset. */
  lemma SameId(sets: seq<RecordSet>, x: RecordSet, y: RecordSet)
    requires UniqueIds(sets) && x in sets && y in sets && x.id == y.id
    ensures x == y
  {
    var i :| 0 <= i < |sets| && sets[i] == x;
    var j :| 0 <= j < |sets| && sets[j] == y;
    assert !(i < j) && !(j < i);
  }

  /** The answer to a query after one recordset's values were replaced. */
  lemma SelectAfterSetRecords(sets: seq<RecordSet>, zoneId: nat, name: string, rs: RecordSet, records: seq<string>)
    requires Select(sets, zoneId, Txt, name) == [rs]
    ensures Select(SetRecords(sets, zoneId, rs.id, records), zoneId, Txt, name) == [rs.(records := records)]
  {
    SelectSetRecords(sets, zoneId, rs.id, records, zoneId, Txt, name);
    assert SetRecords([rs], zoneId, rs.id, records)[0] == rs.(records := records);
  }

  /** The answer to a query after the one recordset answering it was deleted. */
  lemma SelectAfterRemove(sets: seq<RecordSet>, zoneId: nat, name: string, rs: RecordSet)
    requires Select(sets, zoneId, Txt, name) == [rs]
    ensures Select(Remove(sets, zoneId, rs.id), zoneId, Txt, name) == []
  {
    SelectRemove(sets, zoneId, rs.id, zoneId, Txt, name);
    assert Remove([rs], zoneId, rs.id) == Remove([rs][1..], zoneId, rs.id);
  }

  /**
    Replacing or deleting the one recordset that answers the challenge query leaves the
    answer to every other query as it was.
   */
  lemma OtherQueriesUnaffected(
    sets: seq<RecordSet>, zoneId: nat, name: string, rs: RecordSet, records: seq<string>,
    qZone: nat, qType: string, qName: string)
    requires UniqueIds(sets) && Select(sets, zoneId, Txt, name) == [rs]
    requires (qZone, qType, qName) != (zoneId, Txt, name)
    ensures Select(SetRecords(sets, zoneId, rs.id, records), qZone, qType, qName) == Select(sets, qZone, qType, qName)
    ensures Select(Remove(sets, zoneId, rs.id), qZone, qType, qName) == Select(sets, qZone, qType, qName)
  {
    var other := Select(sets, qZone, qType, qName);
    assert rs in Select(sets, zoneId, Txt, name);
    forall x | x in other ensures !Identifies(x, zoneId, rs.id) {
      if Identifies(x, zoneId, rs.id) {
        SameId(sets, x, rs);
        assert false;
      }
    }
    SelectSetRecords(sets, zoneId, rs.id, records, qZone, qType, qName);
    SetRecordsNoop(other, zoneId, rs.id, records);
    SelectRemove(sets, zoneId, rs.id, qZone, qType, qName);
    RemoveAbsent(other, zoneId, rs.id);
  }

  /** Removing a value from just after a prefix that lacks it removes that occurrence. */
  lemma RemoveFirstAfterPrefix(prefix: seq<string>, value: string, suffix: seq<string>)
    requires value !in prefix
    ensures RemoveFirst(prefix + [value] + suffix, value) == prefix + suffix
  {
    var whole := prefix + [value] + suffix;
    assert whole[..|prefix|] == prefix && whole[|prefix|] == value;
    RemoveFirstIsSplice(whole, value, |prefix|);
    assert whole[|prefix| + 1..] == suffix;
  }

  // ---------------------------------------------------------------------------
  // Present
  // ---------------------------------------------------------------------------

  /**
    After Present the owner name holds exactly one recordset and it carries the value:
    a new one holding only the value, the existing one unchanged when it already held
    it, or the existing one with the value appended after its old values.
   */
  lemma PresentedPublishes(sets: seq<RecordSet>, zoneId: nat, name: string, value: string, freshId: nat)
    requires |Select(sets, zoneId, Txt, name)| <= 1
    ensures var before := Select(sets, zoneId, Txt, name);
      var after := Select(Presented(sets, zoneId, name, value, freshId), zoneId, Txt, name);
      && |after| == 1 && value in after[0].records
      && (before == [] ==> after[0] == ChallengeRecordSet(freshId, zoneId, name, value))
      && (before != [] && value in before[0].records ==> Presented(sets, zoneId, name, value, freshId) == sets)
      && (before != [] && value !in before[0].records ==>
            after[0] == before[0].(records := before[0].records + [value]))
  {
    var before := Select(sets, zoneId, Txt, name);
    if before == [] {
      SelectAppend(sets, ChallengeRecordSet(freshId, zoneId, name, value), zoneId, Txt, name);
    } else if value !in before[0].records {
      assert before == [before[0]];
      SelectAfterSetRecords(sets, zoneId, name, before[0], before[0].records + [value]);
    }
  }

  /** Present changes the answer to no query other than the challenge's own. */
  lemma PresentedElsewhere(
    sets: seq<RecordSet>, nextId: nat, zoneId: nat, name: string, value: string,
    qZone: nat, qType: string, qName: string)
    requires WellFormed(sets, nextId) && |Select(sets, zoneId, Txt, name)| <= 1
    requires (qZone, qType, qName) != (zoneId, Txt, name)
    ensures Select(Presented(sets, zoneId, name, value, nextId), qZone, qType, qName) == Select(sets, qZone, qType, qName)
  {
    var before := Select(sets, zoneId, Txt, name);
    if before == [] {
      SelectAppend(sets, ChallengeRecordSet(nextId, zoneId, name, value), qZone, qType, qName);
    } else if value !in before[0].records {
      assert before == [before[0]];
      OtherQueriesUnaffected(sets, zoneId, name, before[0], before[0].records + [value], qZone, qType, qName);
    }
  }

  /** A second Present of the same value changes nothing: no duplicate value, no second recordset. */
  lemma PresentIdempotent(sets: seq<RecordSet>, zoneId: nat, name: string, value: string, freshId: nat, laterId: nat)
    requires |Select(sets, zoneId, Txt, name)| <= 1
    ensures var once := Presented(sets, zoneId, name, value, freshId);
      |Select(once, zoneId, Txt, name)| <= 1 && Presented(once, zoneId, name, value, laterId) == once
  {
    PresentedPublishes(sets, zoneId, name, value, freshId);
  }

  // ---------------------------------------------------------------------------
  // CleanUp
  // ---------------------------------------------------------------------------

  /**
    CleanUp does nothing when the value is not published; otherwise it removes one
    occurrence of the value, keeps every other value of the recordset in order, and
    deletes the recordset when the value was its last one.
   */
  lemma CleanedUpRetracts(sets: seq<RecordSet>, zoneId: nat, name: string, value: string)
    requires |Select(sets, zoneId, Txt, name)| <= 1
    ensures var before := Select(sets, zoneId, Txt, name);
      var after := Select(CleanedUp(sets, zoneId, name, value), zoneId, Txt, name);
      && (before == [] || value !in before[0].records ==> CleanedUp(sets, zoneId, name, value) == sets)
      && (before != [] && before[0].records == [value] ==> after == [])
      && (before != [] && value in before[0].records && before[0].records != [value] ==>
            && after == [before[0].(records := RemoveFirst(before[0].records, value))]
            && multiset(after[0].records) == multiset(before[0].records) - multiset{value})
  {
    var before := Select(sets, zoneId, Txt, name);
    if before != [] && value in before[0].records {
      assert before == [before[0]];
      RemoveFirstEmpties(before[0].records, value);
      var rest := RemoveFirst(before[0].records, value);
      if rest == [] {
        SelectAfterRemove(sets, zoneId, name, before[0]);
      } else {
        SelectAfterSetRecords(sets, zoneId, name, before[0], rest);
      }
    }
  }

  /** CleanUp changes the answer to no query other than the challenge's own. */
  lemma CleanedUpElsewhere(
    sets: seq<RecordSet>, nextId: nat, zoneId: nat, name: string, value: string,
    qZone: nat, qType: string, qName: string)
    requires WellFormed(sets, nextId) && |Select(sets, zoneId, Txt, name)| <= 1
    requires (qZone, qType, qName) != (zoneId, Txt, name)
    ensures Select(CleanedUp(sets, zoneId, name, value), qZone, qType, qName) == Select(sets, qZone, qType, qName)
  {
    var before := Select(sets, zoneId, Txt, name);
    if before != [] && value in before[0].records {
      assert before == [before[0]];
      var rest := RemoveFirst(before[0].records, value);
      OtherQueriesUnaffected(sets, zoneId, name, before[0], rest, qZone, qType, qName);
    }
  }

  /**
    A second CleanUp of the same value changes nothing, provided the value occurred at
    most once (Present never adds it twice).
   */
  lemma CleanUpIdempotent(sets: seq<RecordSet>, zoneId: nat, name: string, value: string)
    requires |Select(sets, zoneId, Txt, name)| <= 1
    requires Select(sets, zoneId, Txt, name) != [] ==> multiset(Select(sets, zoneId, Txt, name)[0].records)[value] <= 1
    ensures var once := CleanedUp(sets, zoneId, name, value);
      |Select(once, zoneId, Txt, name)| <= 1 && CleanedUp(once, zoneId, name, value) == once
  {
    CleanedUpRetracts(sets, zoneId, name, value);
    var before := Select(sets, zoneId, Txt, name);
    if before != [] && value in before[0].records && before[0].records != [value] {
      var after := Select(CleanedUp(sets, zoneId, name, value), zoneId, Txt, name);
      assert multiset(after[0].records)[value] == 0;
    }
  }

  // ---------------------------------------------------------------------------
  // Present and CleanUp together
  // ---------------------------------------------------------------------------

  /**
    CleanUp of a value just published by Present restores the table Present started
    from: the created recordset is deleted again, or the appended value is removed again.
   */
  lemma PresentThenCleanUp(sets: seq<RecordSet>, nextId: nat, zoneId: nat, name: string, value: string)
    requires WellFormed(sets, nextId) && |Select(sets, zoneId, Txt, name)| <= 1
    requires Select(sets, zoneId, Txt, name) != [] ==> value !in Select(sets, zoneId, Txt, name)[0].records
    ensures var published := Presented(sets, zoneId, name, value, nextId);
      |Select(published, zoneId, Txt, name)| <= 1 && CleanedUp(published, zoneId, name, value) == sets
  {
    PresentedPublishes(sets, zoneId, name, value, nextId);
    var before := Select(sets, zoneId, Txt, name);
    var published := Presented(sets, zoneId, name, value, nextId);
    var after := Select(published, zoneId, Txt, name);
    if before == [] {
      var made := ChallengeRecordSet(nextId, zoneId, name, value);
      assert after[0] == made;
      assert RemoveFirst([value], value) == [];
      RemoveAppended(sets, made);
    } else {
      var rs := before[0];
      assert rs in sets;
      RemoveFirstOfAppended(rs.records, value);
      SetRecordsTwice(sets, zoneId, rs.id, rs.records + [value], rs.records);
      forall s | s in sets && Identifies(s, zoneId, rs.id) ensures s.records == rs.records {
        SameId(sets, s, rs);
      }
      SetRecordsNoop(sets, zoneId, rs.id, rs.records);
    }
  }

  /**
    Two challenges sharing one owner name: Present of `a`, Present of `b`, then CleanUp
    of `a` leaves the recordset with its earlier values followed by `b` alone; from no
    recordset at all, that is exactly `[b]`.
   */
  lemma SharedOwnerName(
    sets: seq<RecordSet>, nextId: nat, laterId: nat, zoneId: nat, name: string, a: string, b: string)
    requires WellFormed(sets, nextId) && |Select(sets, zoneId, Txt, name)| <= 1 && a != b
    requires Select(sets, zoneId, Txt, name) != [] ==>
      a !in Select(sets, zoneId, Txt, name)[0].records && b !in Select(sets, zoneId, Txt, name)[0].records
    ensures var withA := Presented(sets, zoneId, name, a, nextId);
      |Select(withA, zoneId, Txt, name)| <= 1 &&
      var withAB := Presented(withA, zoneId, name, b, laterId);
      |Select(withAB, zoneId, Txt, name)| <= 1 &&
      var earlier := if Select(sets, zoneId, Txt, name) == [] then [] else Select(sets, zoneId, Txt, name)[0].records;
      var after := Select(CleanedUp(withAB, zoneId, name, a), zoneId, Txt, name);
      |after| == 1 && after[0].records == earlier + [b]
  {
    var before := Select(sets, zoneId, Txt, name);
    var earlier := if before == [] then [] else before[0].records;
    PresentedPublishes(sets, zoneId, name, a, nextId);
    var withA := Presented(sets, zoneId, name, a, nextId);
    var rsA := Select(withA, zoneId, Txt, name)[0];
    assert rsA.records == earlier + [a];
    PresentedPublishes(withA, zoneId, name, b, laterId);
    var withAB := Presented(withA, zoneId, name, b, laterId);
    var rsAB := Select(withAB, zoneId, Txt, name)[0];
    assert b !in rsA.records;
    assert rsAB.records == earlier + [a] + [b];
    assert a !in earlier;
    RemoveFirstAfterPrefix(earlier, a, [b]);
    CleanedUpRetracts(withAB, zoneId, name, a);
  }
}
