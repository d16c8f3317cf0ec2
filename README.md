# OTC DNS ACME webhook: TXT recordset reconciliation

This project models the core of a cert-manager ACME DNS-01 webhook for the Open Telekom
Cloud (OTC) DNS service. The webhook publishes and retracts TXT challenge records, following
the challenge-record flow of section 8.4 of RFC 8555. The core has two layers:

- The client (`otcdns/client.go`) does the following:
  - looks up the single hosted zone of a name;
  - looks up the zero or one TXT recordset under the challenge owner name, where two or more is an error;
  - builds that owner name from an optional subdomain;
  - creates a recordset, replaces its value list, or deletes it;
  - tests whether a value is present;
  - removes one value. If that value was the last one, it deletes the whole recordset or refuses.
- The solver (`otcdns/solver.go`) does the following:
  - quotes the challenge key;
  - splits the challenge FQDN and zone into a subdomain and a domain;
  - builds the client with that subdomain;
  - `Present` publishes the quoted key. It does nothing when the key is already there. When no recordset exists it creates one. Otherwise it appends the key.
  - `CleanUp` retracts the key. It does nothing when the key is absent, and it removes only this key, so other challenges that share the owner name keep their values.

The DNS provider is an in-memory store, the class `Provider.DnsService`:

- The account's zones are a `seq<Zone>`.
- The recordset table is a `seq<RecordSet>`. It is a sequence, not a map, so that the "more than one recordset matches" error can happen.
- A transport failure of an endpoint is a member of the store's `failing` set of endpoints. A call to a failing endpoint returns `Unreachable` and changes nothing.
- The store allocates recordset ids.
- The store keeps a table invariant (`Dns.WellFormed`): ids are unique, ids lie below the next free id, and no value list is empty.

The files:

- `wrappers.dfy`: `Option` and `Result`.
- `dns.dfy`: the entities, the list queries as filters, and the edits of the recordset table, with their algebra.
- `provider.dfy`: the provider's API as a class.
- `client.dfy`: the client as a class holding the provider and its subdomain.
- `solver.dfy`: the solver's string helpers and its `Present` and `CleanUp` methods.
- `reconcile.dfy`: what `Present` and `CleanUp` do to the table, written as functions. It also holds the lemmas about repeating them and about sharing an owner name.

The solver's methods are proved against the functions `Reconcile.Presented` and `Reconcile.CleanedUp`. Those functions carry the idempotence, round-trip and non-interference lemmas.

## Model

| member | source | states |
|---|---|---|
| Dns.ZonesNamed | otcdns/client.go:88-103 | the zone list query by name answers exactly the account's zones with that name |
| Dns.Select | otcdns/client.go:149-163 | the recordset list query answers exactly the recordsets of the zone with that type and name, no more than the table holds |
| Dns.Find | otcdns/client.go:224-231 | the recordset addressed by zone and id, when one exists; absent exactly when none has that address |
| Dns.SetRecords | otcdns/client.go:272-286 | replacing a recordset's values keeps the table's length and every other recordset, and changes only the value list of the addressed one |
| Dns.Remove | otcdns/client.go:224-231 | deleting a recordset keeps exactly the recordsets with another address |
| Dns.RemoveFirst | otcdns/client.go:303-312 | removing a value leaves a list without the value unchanged; otherwise the list is one shorter and has one occurrence fewer of the value |
| Dns.RemoveFirstIsSplice | otcdns/client.go:303-312 | removing a value equals splicing out its first position, so the other values keep their order |
| Dns.RemoveFirstEmpties | otcdns/client.go:313-314 | removing a present value empties the list exactly when the value was the only one |
| Dns.RemoveFirstOfAppended | otcdns/solver.go:108 | removing a value that was appended to a list without it gives the list back |
| Dns.SelectTwo | otcdns/client.go:175-179 | two or more recordsets answer a query exactly when two positions of the table match |
| Dns.ZonesNamedTwo | otcdns/client.go:109-112 | two or more zones answer a name exactly when two positions of the zone list carry it |
| Dns.FindMember | otcdns/client.go:224-231 | in a table with unique ids, a recordset is found again by its own zone and id |
| Dns.WellFormedSetRecords | otcdns/client.go:266-274 | replacing a value list by a non-empty one keeps the table invariant |
| Dns.WellFormedRemove | otcdns/client.go:224-231 | deleting a recordset keeps the table invariant |
| Provider.DnsService.ListZonesByName | otcdns/client.go:90-103 | the zone list endpoint fails in transport, or answers the zones with that name |
| Provider.DnsService.ListByZone | otcdns/client.go:150-163 | the recordset list endpoint fails in transport, or answers the matching recordsets |
| Provider.DnsService.Create | otcdns/client.go:136 | creation appends one recordset with the next id and the given fields, or fails and changes nothing |
| Provider.DnsService.Update | otcdns/client.go:266-281 | the update replaces the values of the addressed recordset; with an empty list it leaves them as they were; an unknown address or a transport failure changes nothing |
| Provider.DnsService.Delete | otcdns/client.go:225 | the delete removes the addressed recordset; an unknown address or a transport failure changes nothing |
| Client.DnsName | otcdns/client.go:346-354 | the owner name ends with "." and the zone name; before that comes "_acme-challenge" when the subdomain is empty, and the subdomain otherwise |
| Client.ZoneLookup | otcdns/client.go:94-114 | the zone lookup succeeds exactly when the zone list endpoint answers and exactly one zone carries the name, and then yields a zone of the account with that name; its only errors are the transport error and the zone-count error |
| Client.TxtLookup | otcdns/client.go:156-180 | the TXT lookup succeeds exactly when the recordset list endpoint answers and at most one recordset matches; a recordset it yields is in the table and matches the zone, TXT and the owner name; its only errors are the transport error and the ambiguity error |
| Client.ZoneLookupFails | otcdns/client.go:109-112 | a zone lookup fails with a zone-count error when no zone, or two or more zones, carry the name |
| Client.ZoneLookupFindsOnly | otcdns/client.go:109-114 | a zone lookup with exactly one zone of the name yields that zone |
| Client.TxtLookupCases | otcdns/client.go:171-180 | a TXT lookup yields absent exactly when no recordset matches, and fails as ambiguous exactly when two do |
| Client.TxtLookupFindsOnly | otcdns/client.go:171-173 | a TXT lookup with exactly one matching recordset yields it |
| Client.OtcDnsClient.constructor | otcdns/client.go:25-32 | a new client talks to the given provider and has an empty subdomain |
| Client.OtcDnsClient.GetHostedZone | otcdns/client.go:88-115 | the zone lookup: transport failure, zone-count error unless exactly one zone carries the name, else that zone |
| Client.OtcDnsClient.NewTxtRecordSet | otcdns/client.go:126-141 | one recordset is appended under the owner name with type TXT, TTL 300, description "ACME Challenge" and exactly the one given value, and nothing else changes; on failure nothing changes |
| Client.OtcDnsClient.GetTxtRecordSet | otcdns/client.go:149-181 | the TXT lookup under the owner name: one match is returned, none is absent without error, two or more is an error |
| Client.OtcDnsClient.HasTxtRecordSet | otcdns/client.go:186-218 | true exactly when the TXT lookup finds a recordset; the lookup's errors are the call's errors |
| Client.OtcDnsClient.DeleteRecordSet | otcdns/client.go:224-231 | the recordset is deleted, or the call fails and nothing changes |
| Client.OtcDnsClient.HasTxtRecordValue | otcdns/client.go:240-264 | found exactly when the recordset exists and one of its values is the given string; the recordset is returned whenever it exists |
| Client.OtcDnsClient.UpdateTxtRecordValues | otcdns/client.go:272-287 | an empty value list fails with no write; otherwise the addressed recordset's values become the list and every other recordset stays; any failure changes nothing |
| Client.OtcDnsClient.DeleteTxtRecordValue | otcdns/client.go:296-341 | the first occurrence of the value is removed and the other values keep their order; a last value deletes the recordset when the flag is set and fails otherwise; a missing recordset, a missing value or a failed lookup is an error; any error changes nothing |
| Solver.TrimSuffix | otcdns/solver.go:229-233 | a string ending with the suffix is the result followed by the suffix; any other string is unchanged |
| Solver.SafeTxtValue | otcdns/solver.go:219-222 | the quoted key is two longer than the key, starts and ends with a double quote, and holds the key in between |
| Solver.ExtractDomainAndSubdomain | otcdns/solver.go:227-235 | for a challenge name ending in "." and the zone, the subdomain followed by "." and the zone is the challenge name; for a name not ending in the zone, the subdomain is the name without one trailing dot; the domain is the zone without one trailing dot |
| Solver.OwnerNameOfChild | otcdns/solver.go:227-235 | for a challenge name below the zone, the subdomain is the labels before the zone and the owner name is the challenge name itself |
| Solver.OwnerNameOfApex | otcdns/solver.go:227-235 | for a challenge name equal to the zone, the subdomain is empty and the owner name is "_acme-challenge." followed by the zone |
| Solver.OwnerName | otcdns/solver.go:210-211 | the owner name written for a challenge always ends with "." and the zone, so it lies in the zone; for a challenge name strictly below the zone it is the challenge name itself |
| Solver.ForeignNameExample | otcdns/solver.go:229-231 | a challenge name outside the zone, "foo.other." in zone "example.com.", is kept whole as the subdomain "foo.other", giving the owner name "foo.other.example.com." |
| Solver.ExtractExample | otcdns/solver.go:228 | "_acme-challenge.example.com." in zone "example.com." splits into "_acme-challenge" and "example.com" |
| Solver.ClientFromChallenge | otcdns/solver.go:210-213 | the client talks to the given provider and its subdomain comes from the challenge's split |
| Solver.Present | otcdns/solver.go:75-118 | a zone or lookup error is returned before any write; a failed create or update changes nothing; otherwise the table becomes `Reconcile.Presented` of the old table; the next free id advances by the number of recordsets created |
| Solver.CleanUp | otcdns/solver.go:124-165 | a zone or lookup error is returned before any write; a failed delete or update changes nothing; otherwise the table becomes `Reconcile.CleanedUp` of the old table |
| Reconcile.Presented | otcdns/solver.go:95-114 | Present adds one recordset exactly when none answers the owner name, keeps every existing recordset's id, zone, name and type, and every recordset it writes holds the key |
| Reconcile.CleanedUp | otcdns/solver.go:144-161 | CleanUp never adds a recordset, and every recordset it writes holds the values of the owner name's recordset with one occurrence of the key removed |
| Reconcile.PresentCall | otcdns/solver.go:95-109 | Present creates exactly when no recordset exists, writes nothing exactly when the key is already a value, updates when the recordset lacks the key, and never deletes |
| Reconcile.CleanUpCall | otcdns/solver.go:144-161 | CleanUp writes nothing exactly when there is no recordset or the key is not a value, deletes exactly when the key is the only value, updates when the key is one of several values, and never creates |
| Reconcile.PresentedPublishes | otcdns/solver.go:95-114 | after Present exactly one recordset answers the owner name and holds the key: a new one holding only the key, the old one unchanged when it held the key, or the old values with the key appended at the end |
| Reconcile.PresentedElsewhere | otcdns/solver.go:95-114 | Present changes the answer to no other query |
| Reconcile.PresentIdempotent | otcdns/solver.go:67-69 | a second Present of the same key changes nothing |
| Reconcile.CleanedUpRetracts | otcdns/solver.go:144-161 | CleanUp does nothing when the key is absent, with or without a recordset; a recordset whose only value is the key is deleted; otherwise exactly one occurrence of the key is removed |
| Reconcile.CleanedUpElsewhere | otcdns/solver.go:120-123 | CleanUp changes the answer to no other query, so other owner names are left alone |
| Reconcile.CleanUpIdempotent | otcdns/solver.go:155-161 | a second CleanUp of the same key changes nothing when the key occurred at most once |
| Reconcile.OtherQueriesUnaffected | otcdns/client.go:272-286 | replacing or deleting the one recordset of the owner name leaves every other query's answer as it was |
| Reconcile.PresentThenCleanUp | otcdns/solver.go:95-154 | CleanUp of a key just published restores the table that Present started from: with no recordset before, none is left |
| Reconcile.SharedOwnerName | otcdns/solver.go:120-154 | Present of a, Present of b, then CleanUp of a leaves the earlier values followed by b, which is exactly b alone when no recordset existed before |

## Left out

- `otcdns/config.go` (decoding the solver configuration, cloud profiles, building the authenticated provider client) is not part of this model. Neither is `main.go`, the webhook server start-up. The provider is instead a parameter of `Present` and `CleanUp`.
- `Initialize`, `Name`, `getOtcDnsClientFromChallengeRequest`'s secret fetching, `getReferencedSecret` and `getOtcDnsSecrets` are left out. They are Kubernetes and authentication I/O. The only rule there is that a non-empty key written inline in the configuration wins over the referenced secret (otcdns/solver.go:244-264), and the model has no credentials.
- Logging is not modelled. Neither are the error messages: each error is a constructor of `Dns.Error`, and the client and solver pass it on unwrapped.
- Pagination and HTTP are not modelled. A list query is an exact-name filter over the in-memory sequence, in table order. A transport or decoding failure is a call to an endpoint in the store's `failing` set. Such a call returns `Unreachable` and changes nothing.
- Provider ids are opaque strings; the model uses `nat`, since only equality between ids is ever used.
- Concurrency is not modelled, including the read-modify-write race between two simultaneous `Present` calls on one owner name. Every call is single-threaded.
- Provider.DnsService.Create: requires a non-empty value list, the only kind the client ever sends. The provider's own rejection of an empty create is not modelled.
- Solver.ExtractDomainAndSubdomain: the contract does not state the split of a challenge name that ends with the zone without a dot before it (such as "xexample.com." in zone "example.com."), apart from the name equal to the zone (`Solver.OwnerNameOfApex`). cert-manager resolves the challenge name below the zone at a label boundary, so that case does not arise from it.
- Solver.CleanUp: a transport failure is fixed per endpoint for a whole call, as the store's `failing` set. CleanUp lists the recordsets twice: once itself, and once more inside `DeleteTxtRecordValue`. So in the model the second listing never fails once the first has succeeded, whereas a transient failure there makes the real call return an error. Even in that case the real call writes nothing, which the model's "every error leaves the table as it was" also states.
- Reconcile.CleanUpIdempotent: requires that the key occur at most once in the recordset. CleanUp removes one occurrence only, so a key published twice by other means needs two CleanUps. Present itself never adds a key that is already there.
- Go's `append(records[:i], records[i+1:]...)` in `DeleteTxtRecordValue` overwrites the fetched slice in place. That slice is a local copy of the provider's data, so the model splices a sequence instead.
