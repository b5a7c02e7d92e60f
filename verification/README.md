# Routing and JSON mapping of the gateway

This project models two parts of the gateway and proves what they promise. A third, small part fills
request messages from key-value parameters.

**Service discovery and routing.** Announcements of services arrive (online or offline, with version and
weight). `RegisterCenter` hands each to the client of its service. `UnifiedClient` records it and turns it
into virtual nodes `ip:port:idx` in the resolver's table. `ServiceBalancer` builds look-up maps and a
consistent-hash ring from the ready connections and routes each request.

- `HashRing` defines the ring as a value and what each operation makes of it; `Preference` defines the
  clockwise preference list of a key without positions or loops; `RingWalk` follows the walk of `GetN`
  turn by turn. `ConsistentHash` is the ring object, with its binary search and its walks, proved against
  those definitions. `Ordered` holds ascending lists and sorting, for hashes and map keys alike.
- `NodeTable` defines the virtual-node table as a function of the event history; `ServiceResolver` and
  `UnifiedClient` are the objects that keep it.
- `ServiceBalancer` is the picker. `Routing` puts the pieces together: minimal movement, independence of
  the build order, conservation of weights.

The hash is an arbitrary function to 32-bit numbers. That no two elements share a point is an explicit
condition (`HashRing.Separate`), and not a harmless one: a replica key is the index written in front of the
element, so `1.0.0.1:80:0` and `11.0.0.1:80:0` share one under every hash once there are twelve replicas.

**Protobuf JSON mapping.** `Encode` and `Decode` define the mapping between messages and JSON values,
`JsonText` and `JsonReader` the text of JSON values and its reading. `JsonWriter` and `JsonUnmarshaler` are the
objects that write into a buffer and read into a fresh message, proved equal to those definitions.
`RoundTrip` proves the law. A message is *good* (`GoodMessages.Good`) when its descriptor describes it,
spellings are disjoint, oneofs stand together, every `google.protobuf.Value` has its kind set and every
duration can be written and read. Every good message comes back *settled* (`GoodMessages.Settled`), and a good
message comes back as it was exactly when it is *kept* (`GoodMessages.Kept`). The code loses three things: a
`Value` field that is unset but shown by EmitDefaults reads back as the null value; a number in a `Value` that is
not finite reads back as a string; the number of a null in a `Value` reads back as 0. `Losses` has a message for
each, and one that is kept.

That writer and reader agree does not yet say what is written and what is read. `Depiction` says what a written
text shows of its message, `WriterErrors` which messages are refused, and `Layout`, `WellFormed` and `Indentation`
where white space stands. `JsonGrammar`, `ReaderForms` and `ReaderObjects` say exactly which texts the reader takes
and for what; `ReaderFields`, `MapEntries` and `ReaderOrder` what it makes of unknown names and of the order of
members.

**Key-value parameters.** `KvMap` fills a request message field by field, `KvText` holds the text functions it uses, and
`KvLaws` says what lists are read as and when one parameter affects the fields of others.

Findings about the code, each with its lemma:

- `GetN` and `GetTwo` never return when they start at position 0 and there are fewer distinct owners than
  the limit says (`RingWalk.LoopLeft`, `RingWalk.OtherLoopLeft`). The count keeps `GetN` from it only as long as it
  is the number of distinct owners. One repeated add, one stray remove or one full collision breaks that
  (`RingWalk.RepeatedAddHangs`, `RingWalk.StrayRemoveHangs`, `RingWalk.CollisionHangs`).
- A weight that shrinks while its address is listed leaves nodes behind that the next offline event
  does not remove (`NodeTable.ShrinkLeaves`).
- Picking an address that is not ready gives the nil connection and no error
  (`ServiceBalancer.Picker.PickSpecifyAddr`).
- 64-bit integers are written as bare digits (`Common/jsonpb/encode.go:547-550`), not as the strings that the
  specification cited at `Common/jsonpb/encode.go:57-58` asks for (`ScalarTrip.IntIsBare`); they are read
  back all the same (`ScalarTrip.IntTrip`).
- In a map field two names can be spellings of one key, and then the order of the entries decides
  (`MapEntries.SpellingsMatter`).
- One bad piece in the list of a field that must exist keeps every later field of a request from being set
  (`KvLaws.BadListStops`, and exactly when in `KvLaws.ListReachesOthers`). The request type of the gateway has
  no such list (`KvLaws.ExpListUnmoved`).
- Announcements recorded before the resolver is built never reach it (`UnifiedClient.Client.Build`).
- When two keys of ready connections collide, the ring depends on the order in which Go's map hands them out
  (`Routing.BuildOrderMatters`).

## Model

| member | source | states |
|---|---|---|
| HashRing.RunOwned | Common/ConsistentHash/ConsistentHash.go:64-114 | After every run of adds, removes and sets, collisions, repeated adds and stray removes included, each point of the circle belongs to a member that has it among its replica hashes |
| HashRing.StepKeepsOwned | Common/ConsistentHash/ConsistentHash.go:64-114 | The same invariant for one operation on any ring that has it |
| HashRing.HistoryIndependence | Common/ConsistentHash/ConsistentHash.go:64-114 | Two collision-free runs that end with the same members end with the same circle and count |
| HashRing.RunCanonical | Common/ConsistentHash/ConsistentHash.go:64-114 | A collision-free run always leaves the circle that its members determine: every member owns all its points, there are no others, and the count is the number of members |
| HashRing.StepKeepsCanonical | Common/ConsistentHash/ConsistentHash.go:64-114 | The same for one operation |
| HashRing.CanonicalUnique | Common/ConsistentHash/ConsistentHash.go:64-88 | The members of a canonical ring determine its circle and its count |
| HashRing.SetForgetsHistory | Common/ConsistentHash/ConsistentHash.go:92-114 | `Set(elts)` on any canonical ring gives the ring of the elements added to an empty one, duplicates dropped |
| HashRing.RemoveUndoesAdd | Common/ConsistentHash/ConsistentHash.go:64-88 | Removing an element right after adding it restores the ring if and only if it was no member and none of its points was taken |
| HashRing.AddsCommute | Common/ConsistentHash/ConsistentHash.go:64-71 | Adds of two different elements may be swapped if and only if the elements share no point |
| HashRing.MemberOwnsItsPoints | Common/ConsistentHash/ConsistentHash.go:64-71 | In a canonical ring each replica point of a member is its own |
| HashRing.CanonicalOwners | Common/ConsistentHash/ConsistentHash.go:64-88 | In a canonical ring the distinct owners on the circle are the members, and the count is their number |
| HashRing.EltKeyInjectiveInIndex | Common/ConsistentHash/ConsistentHash.go:51-54 | One element never repeats a replica key |
| HashRing.EltKeyCollision | Common/ConsistentHash/ConsistentHash.go:51-54 | Two elements share a replica key exactly when the longer is the shorter behind extra decimal digits that complete one index to the other |
| HashRing.CollisionForEveryHash | Common/ConsistentHash/ConsistentHash.go:51-54 | With twelve or more replicas (the default is 20) two ordinary slot keys collide under every hash function |
| HashRing.SeparateInstance | Common/ConsistentHash/ConsistentHash.go:51-54 | The no-collision condition can be met |
| HashRing.ListsUnique | Common/ConsistentHash/ConsistentHash.go:243-254 | A set of points has one ascending list |
| Ordered.ListsUnique | Common/ConsistentHash/ConsistentHash.go:243-254 | For every strict order a set has one ascending list |
| Ordered.Sort | Common/ConsistentHash/ConsistentHash.go:252 | For every strict order the sort gives the ascending list of different inputs |
| ConsistentHash.SortHashes | Common/ConsistentHash/ConsistentHash.go:243-254 | The sort gives the strictly ascending list of its inputs |
| ConsistentHash.Consistent.constructor | Common/ConsistentHash/ConsistentHash.go:42-48 | A new ring is empty |
| ConsistentHash.Consistent.UpdateSortedHashes | Common/ConsistentHash/ConsistentHash.go:243-254 | The sorted list becomes the ascending list of the circle's points |
| ConsistentHash.Consistent.ClaimPoints | Common/ConsistentHash/ConsistentHash.go:65-67 | The element takes over exactly its replica points |
| ConsistentHash.Consistent.Add | Common/ConsistentHash/ConsistentHash.go:64-71 | The new ring is the old one with the element's points claimed, the element a member and the count one higher, and its sorted list matches |
| ConsistentHash.Consistent.DropPoints | Common/ConsistentHash/ConsistentHash.go:82-84 | Exactly the element's replica points leave the circle |
| ConsistentHash.Consistent.Remove | Common/ConsistentHash/ConsistentHash.go:81-88 | The new ring is the old one without the element's points, the element no member and the count one lower, and its sorted list matches |
| ConsistentHash.Consistent.RemoveOthers | Common/ConsistentHash/ConsistentHash.go:95-106 | Whatever the order in which members are met, those not asked for are gone together with their points |
| ConsistentHash.Consistent.Set | Common/ConsistentHash/ConsistentHash.go:92-114 | The new ring is the old one reduced to the given elements and then extended by the missing ones in order |
| ConsistentHash.Consistent.Search | Common/ConsistentHash/ConsistentHash.go:138-147 | Binary search finds the first point above the key, or 0 when there is none |
| ConsistentHash.Consistent.Get | Common/ConsistentHash/ConsistentHash.go:127-136 | The owner of the least point above the key, or of the least point overall; a member whenever the circle is not empty; the head of the preference list |
| ConsistentHash.Consistent.WalkRound | Common/ConsistentHash/ConsistentHash.go:205-216 | The loop stops after at most one round, with the owners met so far, each once and in clockwise order |
| ConsistentHash.Consistent.GetN | Common/ConsistentHash/ConsistentHash.go:179-219 | An error on an empty circle; otherwise the first min(n, count) distinct owners clockwise from the key |
| ConsistentHash.Consistent.OtherRound | Common/ConsistentHash/ConsistentHash.go:164-174 | The loop of `GetTwo` ends with the next distinct owner, or the same one when there is no other |
| ConsistentHash.Consistent.GetTwo | Common/ConsistentHash/ConsistentHash.go:150-176 | An error on an empty circle; the two nearest distinct owners; the second is empty when the count is 1 |
| Preference.PreferredOwnsLanding | Common/ConsistentHash/ConsistentHash.go:127-147 | The preference list, defined without positions or loops, starts with the owner of the point the key lands on |
| Preference.PreferredOwnsFirst | Common/ConsistentHash/ConsistentHash.go:127-147 | The same without lists: exactly the head of the preference list owns the first point above the key, or the first of all when there is none above |
| Preference.LandingUnique | Common/ConsistentHash/ConsistentHash.go:138-147 | A key lands on one point |
| Preference.RotationIsClockwise | Common/ConsistentHash/ConsistentHash.go:138-147 | Reading the sorted list from the position found round to it again is reading the circle clockwise from the key |
| Preference.PreferenceMembers | Common/ConsistentHash/ConsistentHash.go:179-219 | The preference list holds every owner on the circle |
| Preference.PreferenceOnce | Common/ConsistentHash/ConsistentHash.go:210-212 | It holds each owner once |
| Preference.RingFailover | Common/ConsistentHash/ConsistentHash.go:81-88 | Routing over a subset of the members: the preference list is the old one with the others struck out |
| RingWalk.LoopLeft | Common/ConsistentHash/ConsistentHash.go:205-216 | The walk of `GetN` ends if and only if it does not start at position 0 or the limit is between 2 and the number of distinct owners: from position 0 the guard `i != start` never fails |
| RingWalk.NeverLeft | Common/ConsistentHash/ConsistentHash.go:205-216 | From position 0, asked for more owners than there are, the walk never ends |
| RingWalk.WalkEndsExactly | Common/ConsistentHash/ConsistentHash.go:187-218 | The condition under which `GetN` may be called is exact: for every limit that enters the loop it holds if and only if the loop is ever left |
| RingWalk.OtherIsWalkForTwo | Common/ConsistentHash/ConsistentHash.go:164-174 | The loop of `GetTwo` is, turn by turn, the walk of `GetN` for two elements |
| RingWalk.OtherLoopLeft | Common/ConsistentHash/ConsistentHash.go:164-174 | The loop of `GetTwo` is left if and only if it does not start at position 0 or there are two distinct owners |
| RingWalk.TwoEndsExactly | Common/ConsistentHash/ConsistentHash.go:150-176 | The condition under which `GetTwo` may be called is exact too |
| RingWalk.TopLandsOnLeast | Common/ConsistentHash/ConsistentHash.go:138-147 | Every ring has a key whose search ends at position 0 |
| RingWalk.RepeatedAddHangs | Common/ConsistentHash/ConsistentHash.go:64-71 | After adding one element twice the count is 2 and there is one owner, and both walks for two go round for ever on exactly the keys that land on the least point |
| RingWalk.StrayRemoveHangs | Common/ConsistentHash/ConsistentHash.go:81-88 | The same after removing an element that was never added; the count is 0 |
| RingWalk.CollisionHangs | Common/ConsistentHash/ConsistentHash.go:64-71 | The same when the later of two elements takes all points of the earlier |
| RingWalk.AfterTurns | Common/ConsistentHash/ConsistentHash.go:205-216 | What the walk has met after any number of turns |
| RingWalk.CountedWalkEnds | Common/ConsistentHash/ConsistentHash.go:187-218 | When the count is the number of distinct owners and n >= 1 the walk ends, and gives the first min(n, count) of the preference list |
| RingWalk.CanonicalWalkEnds | Common/ConsistentHash/ConsistentHash.go:187-218 | The same for every collision-free ring |
| RingWalk.NearestFailover | Common/ConsistentHash/ConsistentHash.go:81-88 | Failover: `GetN(name, n)` after `Remove(e)` is the earlier `GetN(name, n+1)` with e struck out, cut to n |
| RingWalk.RemoveFailover | Common/ConsistentHash/ConsistentHash.go:81-88 | Removing a member strikes it from every preference list and changes nothing else |
| NodeTable.SlotHistory | Common/RegisterCenter/UnifiedClient.go:142-157 | Exact account over every event history: slot j of an address is present iff some online, compatible event had weight above j and the next event for the address after the last such one, if any, is again online and compatible; it then carries that event's node |
| NodeTable.AddrsHistory | Common/RegisterCenter/UnifiedClient.go:142-157 | An address is listed exactly when its last event is online and compatible, with that event's weight |
| NodeTable.ApplyMeans | Common/RegisterCenter/UnifiedClient.go:142-157 | What one event does, said of the announcement itself: with status 2 and an accepted version its weight, or 32 when that is not positive, is listed and exactly so many slots `addr:j` carry its address, version and status; otherwise the address is no longer listed and exactly the slots below its count are gone |
| NodeTable.LatestDecides | Common/RegisterCenter/UnifiedClient.go:142-157 | The same over every history: the latest announcement of an address decides whether it is listed, with which count, and what its slots hold |
| NodeTable.CleanHistory | Common/RegisterCenter/UnifiedClient.go:142-157 | When no weight shrinks while its address is listed, the slots are exactly 0 .. weight-1 of the last event and carry its node |
| NodeTable.CleanStep | Common/RegisterCenter/ServiceResolver.go:22-59 | One event keeps a table clean if and only if it does not shrink a listed weight |
| NodeTable.ReplayClean | Common/RegisterCenter/ServiceResolver.go:22-59 | A history without shrinking keeps the table clean |
| NodeTable.ShrinkLeaves | Common/RegisterCenter/ServiceResolver.go:45-59 | A weight that shrinks leaves slots behind: after the address has gone offline those between the two weights are still there |
| NodeTable.NodeKeyInjective | Common/RegisterCenter/ServiceResolver.go:35 | `addr:idx` determines address and index although addresses contain colons |
| NodeTable.ReplayKeyed | Common/RegisterCenter/ServiceResolver.go:35-42 | Over every history each entry is filed under its node's own key, a slot key of its own address |
| NodeTable.StepKeepsKeyed | Common/RegisterCenter/ServiceResolver.go:35-42 | The same for one event on any such table |
| NodeTable.StepKeepsIndex | Common/RegisterCenter/UnifiedClient.go:131-157 | The listed counts stay those of the latest announcements on record that are online and compatible |
| NodeTable.SlotTotal | Common/RegisterCenter/ServiceResolver.go:45-59 | A clean table has as many slots as the listed weights add up to |
| ServiceResolver.Resolver.SetAddr | Common/RegisterCenter/ServiceResolver.go:18-20 | Records the count of an address |
| ServiceResolver.Resolver.AddNodes | Common/RegisterCenter/ServiceResolver.go:22-43 | Stores the slot when the address is listed with a higher count, and otherwise changes nothing |
| ServiceResolver.Resolver.DelAddr | Common/RegisterCenter/ServiceResolver.go:45-59 | Deletes the slots below the current count and the address; an address not listed changes nothing |
| ServiceResolver.Resolver.GetAddress | Common/RegisterCenter/ServiceResolver.go:65-72 | Hands out every node exactly once, with pairwise different keys |
| ServiceResolver.Resolver.Update | Common/RegisterCenter/ServiceResolver.go:61-63 | The connection layer is given the current nodes |
| UnifiedClient.Client.constructor | Common/RegisterCenter/UnifiedClient.go:70-73 | A new client has nothing on record |
| UnifiedClient.Client.Build | Common/RegisterCenter/UnifiedClient.go:206-218 | A fresh, empty resolver; it agrees with the record if and only if no announcement on record is online and compatible, because those never reach it |
| UnifiedClient.Client.Refresh | Common/RegisterCenter/UnifiedClient.go:142-157 | One announcement acts on the resolver as one event on the node table |
| UnifiedClient.VersionAccepted | Common/RegisterCenter/UnifiedClient.go:163-192 | A version is accepted if and only if, with a leading `v`, it is valid, of the same major version as the one relied on and not older |
| UnifiedClient.Client.UpdateAddr | Common/RegisterCenter/UnifiedClient.go:117-160 | The announcement is on record; without a resolver an error; with one the table takes the event, the index stays in agreement with the record, and the current nodes are pushed; what the table becomes is also said of the announcement itself, weight, status and slots |
| UnifiedClient.Client.GetWatchServiceInfo | Common/RegisterCenter/UnifiedClient.go:194-204 | The announcements on record, one per address, all of them and no others |
| RegisterCenter.Center.UpdateClient | Common/RegisterCenter/RegisterCenter.go:142-164 | An announcement goes on record with the client of its service and no other, and its resolver sees it if it has been built; a missing announcement, an unwatched service and a resolver not built are errors |
| RegisterCenter.RecordHistory | Common/RegisterCenter/RegisterCenter.go:142-164 | After any announcements a client has on record, for each address, the last one for its own service and that address, or what it had when there is none |
| RegisterCenter.Center.UpdateList | Common/RegisterCenter/RegisterCenter.go:209-211 | The inner loop: every client gets the announcements of its own service, in order, on record and in its resolver |
| RegisterCenter.Center.UpdateAll | Common/RegisterCenter/RegisterCenter.go:348-354 | The loops over the received lists: every client ends with the latest announcement of each address of its own service on record, and its resolver, if built, has seen exactly those announcements in the order received |
| ServiceBalancer.Build | Common/RegisterCenter/ServiceBalancer.go:22-48 | No ready connection is an error; otherwise a picker over exactly the ready connections |
| ServiceBalancer.Picker.IndexAll | Common/RegisterCenter/ServiceBalancer.go:34-43 | Whatever order the connections come in, the maps are the indexes of the ready connections, and the ring is that of their keys added in some order |
| ServiceBalancer.Picker.constructor | Common/RegisterCenter/ServiceBalancer.go:27-43 | Whatever order the connections come in, the look-up maps and the ring are those of the ready connections |
| ServiceBalancer.Picker.PickConsistentHash | Common/RegisterCenter/ServiceBalancer.go:79-104 | The connection of the node the ring prefers, or the error for a missing parameter |
| ServiceBalancer.Picker.Candidates | Common/RegisterCenter/ServiceBalancer.go:110-116 | The candidates are the connections of the nodes, each once |
| ServiceBalancer.Picker.PickRandWeight | Common/RegisterCenter/ServiceBalancer.go:106-124 | Some ready connection |
| ServiceBalancer.Picker.PickSpecifyAddr | Common/RegisterCenter/ServiceBalancer.go:126-135 | A ready connection to the address; the nil connection without error when the address is not ready |
| ServiceBalancer.Picker.Pick | Common/RegisterCenter/ServiceBalancer.go:58-77 | What comes back for each request, said of its parameters: without a known `pick_type` the error for it; for `rand_weight` a ready connection; for `specify_addr` a ready connection to the address under `pick_param`, or the nil connection when there is none; for `consistent_hash` the connection of the node that owns the first point from the hash of `pick_param` on; an error when `pick_param` is missing |
| ServiceBalancer.PrefersAKey | Common/RegisterCenter/ServiceBalancer.go:89-103 | The head of every `GetN` answer is the preferred node and is one of the indexed keys |
| Routing.BuildOrderIndependent | Common/RegisterCenter/ServiceBalancer.go:34-43 | Any two iteration orders give the same node maps, the same addresses, the same ring, and a count equal to the number of keys |
| Routing.BuildOrderMatters | Common/RegisterCenter/ServiceBalancer.go:34-43 | All iteration orders over the ready connections give one ring if and only if no two of their keys collide; connections that share a key do no harm |
| Routing.PickEnds | Common/RegisterCenter/ServiceBalancer.go:89-92 | For different keys without collisions every consistent-hash pick ends |
| Routing.PickerOfTable | Common/RegisterCenter/ServiceBalancer.go:34-43 | When all nodes of a table are ready, the ring's members are the table's keys |
| Routing.OfflineMovesOnlyItsOwn | Common/RegisterCenter/UnifiedClient.go:149-158 | Taking an address offline leaves every consistent-hash pick that was not on one of its nodes unchanged, key and node |
| Routing.OnlineMovesOnlyOntoItself | Common/RegisterCenter/UnifiedClient.go:149-158 | Bringing an address online moves picks only onto its own nodes; every pick not on one of them keeps key and node |
| Routing.OfflineStopsRouting | Common/RegisterCenter/UnifiedClient.go:149-158 | In a clean table no pick lands on an address that has gone offline |
| Routing.FewerNodes | Common/RegisterCenter/ServiceBalancer.go:79-104 | Over fewer nodes every pick whose node is still there keeps it, and the preference order of the rest is kept |
| Routing.WeightConservation | Common/RegisterCenter/ServiceBalancer.go:106-116 | With all nodes of a clean table ready an address has as many connections as its weight, and all together as many as the weights add up to |
| Routing.CandidatesAreReady | Common/RegisterCenter/ServiceBalancer.go:110-116 | The connections a random pick chooses from are the ready ones |
| Routing.OfflineAfterHistory | Common/RegisterCenter/UnifiedClient.go:149-158 | The whole pipeline after any event history: an address that goes offline takes with it only the picks on its own nodes, and, if no listed weight ever shrank, all of them |
| Routing.OnlineAfterHistory | Common/RegisterCenter/UnifiedClient.go:149-158 | After any event history an address that comes online draws picks only onto its own nodes, and leaves the others their key and node |
| Routing.DialAll | Common/RegisterCenter/ServiceBalancer.go:34-37 | Every table whose nodes are filed under their keys can have all its nodes ready, one connection each |
| Routing.BuildFor | Common/RegisterCenter/ServiceBalancer.go:22-48 | For every such table there is a picker over it, as the movement theorems ask for |
| Decimal.DigitsInjective | Common/ConsistentHash/ConsistentHash.go:53 | Decimal printing is injective |
| RoundTrip.MarshalUnmarshal | Common/jsonpb/encode.go:223-560 | For every good message, every option setting and any white-space indentation, marshalling succeeds and unmarshalling the text gives the settled message |
| RoundTrip.RoundTripExact | Common/jsonpb/decode.go:134-498 | The message comes back as it was if and only if it is kept: no unset `Value` field is shown as a default, every number in a `Value` is finite, and its null is 0 |
| GoodMessages.SettledIsKept | Common/jsonpb/decode.go:246-345 | Settling changes nothing exactly in the kept messages, at every depth |
| Losses.UnsetValueLost | Common/jsonpb/encode.go:250-257 | A good message that is not kept: an unset `Value` field shown by EmitDefaults comes back as the null value |
| Losses.NonFiniteLost | Common/jsonpb/encode.go:535-546 | A good message that is not kept: a number in a `Value` that is not finite comes back as a string |
| Losses.NullNumberLost | Common/jsonpb/encode.go:521-524 | A good message that is not kept: the number of a null comes back as 0 |
| Losses.NodeKept | Common/jsonpb/decode.go:307-345 | A message with a value, a nested message, a oneof and a list is good and kept, and comes back as it was under every setting |
| RoundTrip.MessageTrip | Common/jsonpb/encode.go:130-303 | The induction over messages of every modelled type |
| RoundTrip.ValueTrip | Common/jsonpb/encode.go:209-216 | Every `Value` with its kind set comes back settled, nulls nested in lists and structs included |
| RoundTrip.SlotTrip | Common/jsonpb/encode.go:420-511 | A populated singular, repeated or map field comes back |
| RoundTrip.DefaultReturns | Common/jsonpb/encode.go:250-257 | The default shown for an unpopulated field is read as unset, except null for a `Value` |
| RoundTrip.FieldTurn | Common/jsonpb/decode.go:313-345 | One turn of the reader's field loop restores one field and takes its two names from the object |
| RoundTrip.DurationExact | Common/jsonpb/encode.go:168-192 | A duration is written exactly when it is in range; its text is read back unchanged when its nanoseconds have magnitude at most 2^63-1, and refused otherwise |
| WriterErrors.MarshalSucceeds | Common/jsonpb/encode.go:168-216 | A message that its descriptor describes is written if and only if, at every depth, each `Value` has its kind set and each duration is in range: at most 315576000000 seconds and less than a second of nanoseconds, of one sign |
| WriterErrors.MessageSucceeds | Common/jsonpb/encode.go:130-303 | The same for a message at any indentation |
| Depiction.MarshalDepicts | Common/jsonpb/encode.go:223-560 | The text of every good message, read as JSON, depicts the message at every depth: names, order, the form of each scalar, enum, key, list, map, default and well-known type, under every setting |
| Depiction.WrittenNames | Common/jsonpb/encode.go:400-411 | The member names of an ordinary message's text are, in order, those of the fields to be shown: the descriptor's names under OrigName and the JSON names otherwise |
| Depiction.MessageDepicted | Common/jsonpb/encode.go:130-303 | The induction over messages of every modelled type |
| Depiction.QuotePlain | Common/jsonpb/encode.go:553-557 | A text without special characters is written as it is |
| Depiction.QuoteTame | Common/jsonpb/encode.go:553-557 | No control character, no character special in HTML and no bare quotation mark stands in a written string |
| Depiction.EscapeForms | Common/jsonpb/encode.go:553-557 | Which short escapes are written, and four lower-case hexadecimal digits for the rest |
| Duration.PrintShape | Common/jsonpb/encode.go:183-191 | The text is the sign, the seconds and the fraction |
| Duration.FewestDigits | Common/jsonpb/encode.go:187-190 | 0, 3, 6 or 9 fractional digits, the fewest that lose nothing |
| Duration.Print | Common/jsonpb/encode.go:172-192 | Printing succeeds exactly on the accepted pairs |
| Duration.ParsePrint | Common/jsonpb/decode.go:221-224 | Parsing a printed duration gives exactly seconds*10^9+nanos when that has magnitude at most 2^63-1, and an error otherwise |
| Duration.ParseExact | Common/jsonpb/decode.go:221-224 | The texts read as durations are exactly the signed numbers of seconds with any fractional digits whose nanoseconds, to nine places, fit, and 0 without a unit |
| ReaderForms.DurationRead | Common/jsonpb/decode.go:216-230 | A duration's text gives exactly the seconds and nanoseconds, of one sign, that add up to what it denotes |
| Duration.SplitTotal | Common/jsonpb/decode.go:226-227 | Truncating division takes the total apart into the same pair |
| FieldLoop.WriterShowsAll | Common/jsonpb/encode.go:236-266 | For contiguous oneofs the writer's loop, which jumps over oneofs, emits exactly the fields to be shown |
| FieldLoop.ShownOnceInOrder | Common/jsonpb/encode.go:236-266 | Each of them once, in the order of declaration |
| FieldLoop.JumpLands | Common/jsonpb/encode.go:238-243 | The jump over a oneof lands just behind its last member |
| FieldLoop.ScatteredOneof | Common/jsonpb/encode.go:238-243 | With a oneof whose members do not stand together one field is shown twice and a populated one never |
| ReaderFields.MemberOrder | Common/jsonpb/decode.go:307-345 | Reading an ordinary message does not depend on the order of the object's members or on its layout |
| ReaderOrder.MessageAlike | Common/jsonpb/decode.go:134-450 | Reading any message does not depend on the order of the members of objects at any depth, as long as in the place of each map field, read with the key kind of that map, either an entry does not decode or entries with one key have equal values |
| ReaderOrder.StringKeysClear | Common/jsonpb/decode.go:425-426 | With string keys that always holds: a `Struct` or a string-keyed map may have any names |
| MapEntries.SpellingsMatter | Common/jsonpb/decode.go:426-445 | The condition is exact, for any number of entries: every order of them reads alike if and only if one of them does not decode or any two that decode to one key have equal values |
| MapEntries.EntriesOk | Common/jsonpb/decode.go:426-445 | A map is read if and only if every entry decodes, repeated keys or not |
| MapEntries.EntriesDecode | Common/jsonpb/decode.go:426-445 | Where the spellings of one key agree, the map holds exactly what each entry decodes to |
| MapEntries.LastCounts | Common/jsonpb/decode.go:426-445 | The entry that is read last always counts |
| ReaderOrder.SpellingsOfFalse | Common/jsonpb/decode.go:426-445 | For instance `false` and `null` in a map with boolean keys: the two orders give different maps |
| ReaderFields.UnknownNames | Common/jsonpb/decode.go:312-384 | What the reader makes of an object is what it makes of the known names in it, unless unknown fields are not allowed and there is one |
| ReaderFields.UnknownRefused | Common/jsonpb/decode.go:380-384 | An object with any unknown name is refused when unknown fields are not allowed |
| ReaderObjects.ObjectExact | Common/jsonpb/decode.go:307-384 | An ordinary message is read if and only if every field given decodes and no name is unknown or unknown names are allowed; each field is what its own member says, the JSON name before the field's own, null as not given; of a oneof the last field given counts |
| ReaderObjects.LastOfName | Common/jsonpb/decode.go:307-310 | Of several members of one name the last counts |
| ReaderObjects.EarlierIgnored | Common/jsonpb/decode.go:307-310 | A member whose name comes again later might as well not be there |
| ReaderObjects.EarlierEntryIgnored | Common/jsonpb/decode.go:420-445 | The same for the entries of a map |
| ReaderObjects.MemberReplaced | Common/jsonpb/decode.go:313-345 | Whatever the fields of its name cannot tell from a member's value may stand in its place |
| ReaderFields.PermutedObject | Common/jsonpb/decode.go:307-310 | Members under different names form the same map in any order |
| Layout.LayoutInvariance | Common/jsonpb/encode.go:223-311 | For every message: indented and compact output fail alike or have the same tokens, and those tokens are one well-formed value; only names that need escaping are excepted |
| WellFormed.MessageWell | Common/jsonpb/encode.go:130-303 | Whatever is written is a JSON value that is well formed at every depth |
| Layout.MessageSame | Common/jsonpb/encode.go:223-311 | With any indentation the same JSON value is written, up to white space, and the same errors come |
| Indentation.MarshalLaidOut | Common/jsonpb/encode.go:223-500 | Indented output: every member and element stands on a line of its own, one step deeper than the line of the closing bracket; that line is as deep as the one the value starts on, and for dynamic types perhaps deeper; a space follows each colon |
| Indentation.MessageLaidOut | Common/jsonpb/encode.go:223-500 | The same for a message at any indentation |
| JsonReader.ReadText | Common/jsonpb/decode.go:307-310 | The reader takes every written value apart as it was put together, commas and white space included |
| JsonReader.LexText | Common/jsonpb/encode.go:223-311 | The tokens of a written value |
| JsonReader.ParseToks | Common/jsonpb/decode.go:307-310 | Those tokens parse as the value, for arbitrary nesting |
| JsonGrammar.ReadExact | Common/jsonpb/decode.go:307-310 | The reader takes a text for a value if and only if the text spells that value's tokens, with any white space between them, and perhaps more tokens behind |
| JsonGrammar.ParseExact | Common/jsonpb/decode.go:307-310 | Tokens parse as a value exactly when they are that value's |
| JsonGrammar.LexExact | Common/jsonpb/decode.go:307-310 | A text lexes to exactly the tokens it spells |
| JsonGrammar.NumberExact | Common/jsonpb/decode.go:307-310 | The texts taken for numbers are exactly those of the JSON grammar |
| JsonGrammar.ShortEscapes | Common/jsonpb/decode.go:506-509 | Which characters may follow a backslash, and what each stands for |
| JsonGrammar.BareCharacters | Common/jsonpb/decode.go:506-509 | Every other character stands for itself, except control characters and the quotation mark |
| JsonGrammar.CodeEscapes | Common/jsonpb/decode.go:506-509 | Characters by their code, surrogates in pairs, a surrogate on its own replaced |
| JsonText.UnquoteQuote | Common/jsonpb/encode.go:553-557 | Unquoting undoes quoting for every string |
| ScalarTrip.IntTrip | Common/jsonpb/decode.go:461-468 | Every integer of its kind, 64-bit ones as bare digits included, reads back |
| ReaderForms.ScalarExact | Common/jsonpb/decode.go:457-491 | Each scalar is read from exactly the JSON that stands for it and from nothing else: booleans, strings, numbers bare or quoted, enums by name or number |
| ReaderForms.IntExact | Common/jsonpb/decode.go:461-468 | The texts taken for an integer are exactly the decimal texts of the integers in the range of its kind, and for 0 also null and -0 |
| ReaderForms.QuotedInteger | Common/jsonpb/decode.go:461-468 | An integer in quotes is read as without them, refused when its kind does not hold it, and other quoted texts are refused, null aside |
| ReaderObjects.QuotingIntegers | Common/jsonpb/decode.go:461-468 | Putting the integer of a field in quotes changes nothing in what the reader makes of a text |
| ReaderForms.KeyExact | Common/jsonpb/decode.go:425-436 | A member's name is taken for a map key exactly when it stands for it, numbers perhaps in quotes of their own |
| ReaderForms.NullReads | Common/jsonpb/decode.go:142-144 | Null is an empty message, list or map; only `Value` has a null of its own |
| ReaderForms.ItemsExact | Common/jsonpb/decode.go:404-416 | A list is read exactly when each element is, and holds them in order |
| ScalarTrip.IntIsBare | Common/jsonpb/encode.go:547-556 | Under every setting an integer of each kind, 64-bit ones included, is written as a bare JSON number, and different integers differently |
| ScalarTrip.EnumTrip | Common/jsonpb/encode.go:520-532 | Every enum value reads back, by name or by number |
| ScalarTrip.AnyScalarTrip | Common/jsonpb/encode.go:533-558 | Every scalar of its kind reads back and is never written as null |
| ScalarTrip.KeyTrip | Common/jsonpb/decode.go:425-436 | Every map key reads back from its text |
| ScalarTrip.KeyTextInjective | Common/jsonpb/encode.go:484-489 | Different keys of a map have different texts |
| MapOrder.SortKeys | Common/jsonpb/encode.go:451-471 | Whatever order the map gives its keys in, sorting gives their one ascending list |
| MapOrder.SortedKeys | Common/jsonpb/encode.go:451-471 | The ascending list of the keys |
| MapOrder.KeysInOrder | Common/jsonpb/encode.go:458-471 | In that list numbers go up, false comes before true, and strings are in order |
| MapOrder.StringLessMeans | Common/jsonpb/encode.go:467-468 | Strings in order: the first character in which they differ decides, and a beginning comes first |
| MapOrder.KeyLessStrict | Common/jsonpb/encode.go:458-471 | The order of keys is a strict total order |
| JsonWriter.MarshalToString | Common/jsonpb/encode.go:77-83 | The text or the error of the message |
| JsonWriter.Writer.MarshalMessage | Common/jsonpb/encode.go:130-303 | Appends the message's JSON to the buffer, or fails as the mapping says |
| JsonWriter.Writer.MarshalFields | Common/jsonpb/encode.go:223-302 | The field loop with its commas and line breaks appends one object |
| JsonWriter.Writer.MarshalField | Common/jsonpb/encode.go:389-418 | Appends the name and the value of a field |
| JsonWriter.Writer.MarshalValue | Common/jsonpb/encode.go:420-511 | Appends a list, a map or a singular value |
| JsonWriter.Writer.MarshalItems | Common/jsonpb/encode.go:425-438 | The list loop appends the elements in order, with commas between them |
| JsonWriter.Writer.MarshalEntries | Common/jsonpb/encode.go:451-500 | The map loop appends the entries in key order, with commas between them |
| JsonWriter.Writer.MarshalSingularValue | Common/jsonpb/encode.go:513-560 | Appends a message, an enum or a scalar |
| JsonWriter.Writer.WriteComma | Common/jsonpb/encode.go:305-311 | Appends the comma, with its line break in indented output |
| JsonUnmarshaler.UnmarshalString | Common/jsonpb/decode.go:38-43 | What the mapping makes of the text |
| JsonUnmarshaler.Unmarshaler.UnmarshalMessage | Common/jsonpb/decode.go:134-305 | Each modelled well-known type, and ordinary messages |
| JsonUnmarshaler.Unmarshaler.UnmarshalFields | Common/jsonpb/decode.go:307-384 | The known-field loop with its deletions, and the check for unknown names |
| JsonUnmarshaler.Unmarshaler.UnmarshalValue | Common/jsonpb/decode.go:403-450 | Lists, maps and singular values |
| JsonUnmarshaler.Unmarshaler.UnmarshalItems | Common/jsonpb/decode.go:410-416 | The list loop |
| JsonUnmarshaler.Unmarshaler.UnmarshalEntries | Common/jsonpb/decode.go:426-445 | The map loop; of the entries of one name the last counts |
| JsonUnmarshaler.Unmarshaler.UnmarshalKind | Common/jsonpb/decode.go:246-273 | The kind of a `Value` from the look of its text |
| KvMap.Message.Fill | GateWay/HTTPMessage/kvmap2pb.go:30-160 | Every field gets its own outcome, up to the first that fails; each field reached is left as its text says; of a failing list the numbers before the bad piece have been appended, and every later field is as it was |
| KvMap.OutcomeIsLeft | GateWay/HTTPMessage/kvmap2pb.go:39-158 | What a field is left as, said of its text: a number field as the number that the text is a numeral of, if the width holds it; a string as its text; a boolean as its text says; a list of strings as before followed by the trimmed pieces; `request_id` as the text given or the one made up; otherwise as it was |
| KvLaws.AlgoFills | GateWay/HTTPMessage/kvmap2pb.go:30-160 | The request type of the gateway is filled if and only if `user_id` and `ll_id` are given as 64-bit numbers and `res_type` as a 32-bit one, and its fields then are what the request says |
| KvMap.FillField | GateWay/HTTPMessage/kvmap2pb.go:39-158 | The outcome of one field: skipped, set or refused |
| KvMap.FillSlice | GateWay/HTTPMessage/kvmap2pb.go:116-154 | The outcome of a list field |
| KvMap.AppendInts | GateWay/HTTPMessage/kvmap2pb.go:125-147 | The numbers of the pieces are appended in order; a bad piece is skipped, or ends the loop when the field must exist |
| KvMap.AppendStrings | GateWay/HTTPMessage/kvmap2pb.go:148-151 | The pieces are appended in order, without the spaces around them |
| KvLaws.ListTrip | GateWay/HTTPMessage/kvmap2pb.go:116-147 | Reading a printed list gives its numbers back, whatever the spaces and brackets around them |
| KvLaws.ListFromText | GateWay/HTTPMessage/kvmap2pb.go:116-147 | What any text does to a list of numbers: where it need not exist the numbers among its pieces are appended in order and nothing fails; where it must exist the numbers up to the first other piece are, and it fails exactly when there is one |
| KvLaws.ReadsTheNumbers | GateWay/HTTPMessage/kvmap2pb.go:126-134 | From any pieces the numbers read are those of the pieces that are numbers of the width, at exactly those places |
| KvLaws.NumbersOnceInOrder | GateWay/HTTPMessage/kvmap2pb.go:126-134 | Those places are in order, each once, and no such piece is left out |
| KvLaws.MustReadAll | GateWay/HTTPMessage/kvmap2pb.go:130-131 | In a list that must exist, reading stops at the first piece that is no number, and only there |
| KvLaws.OtherFieldsUnmoved | GateWay/HTTPMessage/kvmap2pb.go:39-160 | Two runs that differ in one parameter: unless they stop at different fields, no field of another name differs; if they do, the earlier stop is at a field of that name, and exactly the later fields that the other run changed differ |
| KvLaws.ListFails | GateWay/HTTPMessage/kvmap2pb.go:116-147 | A list of numbers is refused if and only if its field must exist and some piece of its text is no number of the width |
| KvLaws.FailsExactly | GateWay/HTTPMessage/kvmap2pb.go:39-158 | Which fields stop the filler, kind by kind: what the message holds has no part in it |
| KvLaws.StopsDiffer | GateWay/HTTPMessage/kvmap2pb.go:116-147 | For a list of numbers with a name of its own: another text makes the filler stop elsewhere if and only if no field before the list fails, the list must exist, and exactly one of the two texts has a bad piece |
| KvLaws.ListReachesOthers | GateWay/HTTPMessage/kvmap2pb.go:39-160 | Another text for such a list changes some other field if and only if all that holds and there is a later field that the request changes, with no failing field in between |
| KvLaws.OptionalListUnmoved | GateWay/HTTPMessage/kvmap2pb.go:116-147 | The content of a list that need not exist affects no other field, nor whether, where and how filling fails |
| KvLaws.ExpListUnmoved | Common/GateWayProtos/AlgoCenter.pb.go:23-36 | So it is in the request type of the gateway: `exp_list` is its only list of numbers, and whatever it holds every other field ends the same |
| KvLaws.BadListStops | GateWay/HTTPMessage/kvmap2pb.go:130-131 | A bad piece in the list of a field that must exist stops the filler there or before, and leaves every later field as it was |
| KvLaws.BadListInstance | GateWay/HTTPMessage/kvmap2pb.go:130-131 | For instance one letter in a list of user identifiers keeps the nickname from being set |
| KvText.ParseItoa | GateWay/HTTPMessage/kvmap2pb.go:92-107 | A printed integer reads back exactly when the width holds it |
| KvText.ParseIntExact | GateWay/HTTPMessage/kvmap2pb.go:92-107 | The texts taken for a number are exactly its numerals, sign and leading zeros allowed, when the width holds it |

## Left out

- RingWalk.CountedWalkEnds: speaks of n >= 1, because with a limit of 0 or below the walk from position 0 never ends and a negative capacity panics.
- ConsistentHash.Consistent.GetN: is required to be called where its loop ends (`RingWalk.WalkEnds`), because the loop does not end elsewhere (`RingWalk.WalkEndsExactly`).
- ConsistentHash.Consistent.GetTwo: the same requirement, for the limit 2 (`RingWalk.TwoEndsExactly`).
- ServiceBalancer.Picker.Pick: the same requirement, for the limit 3 and for consistent-hash picks only; `Routing.PickEnds` shows that it is met without collisions.
- RoundTrip.MarshalUnmarshal: does not speak of fields of enum type `google.protobuf.NullValue`, which are written as null and skipped when read.
- The cast of a parsed list number to 32 bits in `kvMap2pb`: the parse is bounded, so it never truncates.
- CRC32 and FNV: the hash is arbitrary, and `UseFnv` does not change.
- `NumberOfReplicas` is at least 1 and is not changed on a ring in use; the capacity of the reused hash buffer and its reallocation are not modelled.
- Overflow of the 64-bit element count.
- Locks and interleavings: every operation is one step, also where the program uses `sync.Map`.
- `Members()` of the ring, which only lists the member set.
- gRPC dialling, connection life cycle, HTTP serving, timers, contexts, signals and logging.
- `Init` of the client: the version it relies on is given; `golang.org/x/mod/semver` is a parameter.
- Announcements are values: a caller that changes one after handing it over is not modelled.
- The index of a random pick is any index.
- Statistical balance of the ring.
- In the JSON mapping: Any, Timestamp, BytesValue, FloatValue, bytes, float32, extensions, groups, proto2, weak fields, custom marshalers, and the disabled branches that call the newer library.
- Reading into a message that already holds something; text behind the first value; white space inside quoted numbers.
- A map is read in the order of the text, where Go's order is random; `MapEntries.SpellingsMatter` says when that matters.
- `time.ParseDuration` is modelled for seconds only and as in Go 1.17, the release of go.mod, which refuses -2^63 nanoseconds; fractional digits beyond the ninth are cut off.
- encoding/json refuses values nested deeper than 10000, so there the round trip and the reading laws stop.
- White space in the text of a map key other than a string, such as `" true"`, which the source takes and `DecodeKey` refuses.
- Doubles are known by their JSON text, so float formatting and range errors are not modelled.
- In strings `\b` and `\f` are written as four-digit escapes, as encoding/json does in the Go release of go.mod; replacement of invalid UTF-8 is not modelled.
- In `kvMap2pb` reflection is a list of fields with their kinds and tags, the generated identifier and the UTF-8 test are parameters, and the final wire encoding is left out.
- `GateWay/HTTPMessage/Common.go`: request logging, response shaping and headers.
