# A verified model of the routing core of goplane's BGP speaker

The Dafny files here model the parts of the BGP speaker in which state changes step by step, and
prove what those parts are for. Each module follows one component:

| file | component |
|---|---|
| `Bitmap.dfy` | the growable bitmap behind local path ids and MPLS labels |
| `BestPath.dfy`, `Destination.dfy` | the best-path comparison and the Loc-RIB destination: withdrawals, local path ids, sorting |
| `AddPath.dfy`, `Changes.dfy` | what ADD-PATH neighbours, other neighbours and route-server clients are told of each recalculation |
| `Overlay.dfy` | path attributes kept in chains of clones, and prepending to AS_PATH |
| `LoopFreedom.dfy` | loop detection, and networks of speakers that use it |
| `AdjRib.dfy`, `GracefulRestart.dfy` | Adj-RIB-In and the state of a peer over OPEN messages, session loss, graceful restart and long-lived graceful restart |
| `LocRib.dfy`, `Peer.dfy` | what the Loc-RIB is told of a peer's routes, and the peer object that the server works on |
| `As4.dfy`, `Packing.dfy` | translation between 2-byte and 4-byte AS paths, and packing paths into UPDATE messages |
| `Roa.dfy`, `Rtr.dfy` | the table of route origin authorisations, origin validation, and the RTR client that fills the table |
| `Bmp.dfy`, `OpenNegotiation.dfy`, `Mpls.dfy` | the duplicate filter for monitoring stations, capability negotiation, and the MPLS label allocator |
| `Common.dfy`, `AsPath.dfy` | shared datatypes |

Objects that the code updates in place are classes; each method is proved to take the abstract value
of its object to what a specification function says, and the properties are lemmas about those
functions, over single steps and over whole runs. Attributes, segments, messages and events are
datatypes. Addresses and prefixes are values with equality; bytes appear only where sizes matter.
The library sort is an insertion sort by the caller's `less`; iteration over a map takes the keys in
an arbitrary order. Clocks, timers, connections and the outcome of writes are events or parameters.

## Where the code does not keep a promise

Several properties hold only under a condition. The model keeps the code as it is, and a lemma
gives the exact condition, or a concrete run in which the property fails.

- The neighbour of an ADD-PATH session keeps an exact copy of the known paths, under local ids that
  are nonzero, taken and distinct, if and only if every path handed in is admissible: a withdrawal
  whose prefix object belongs to a known path matches no other path, a replacement shares its prefix
  object with no other known path, and an addition has no id or a taken one that no known path uses
  (`AddPath.MirrorOverRuns`). For the copy alone the exact condition is a weaker one
  (`AddPath.CopyOverRuns`). Two paths that arrive with one id are a run that misses both
  (`AddPath.SameIdLosesPath`), and so is a new route-target membership while a local one is known,
  which is not sent.
- `GetChanges` announces a new best path even if its next hop is unreachable; the folded changes
  differ from recomputation exactly then (`Changes.DeltasAreRecomputation`,
  `Changes.UnreachableIsAnnounced`). In place of a multipath
  set that became empty it sends the change of best path. That leaves or puts a path in the set
  exactly if the last reachable next hop went while some path is left, and the path in front is
  another one than before, was unreachable already, or is a route-target membership
  (`Changes.MultiDeltasIff`).
- The best-path comparison is transitive on routes that carry ORIGIN, have at most one local source
  and come from no confederation member exactly if MEDs are always compared
  (`BestPath.TransitiveIff`); with confederation members exactly if, besides, router ids are compared
  for external peers (`BestPath.TransitiveWithConfederationsIff`). With a missing ORIGIN or with two
  local sources it fails under every option.
- With one long-lived family and another preserved family, a long-lived timer left from an earlier
  restart ends a later restart while stale routes of the other family are kept. OPEN messages can
  negotiate that exactly if graceful restart, long-lived graceful restart and two families are
  configured (`GracefulRestart.AlwaysSafeIff`).
- A rejected path in place of a route in use is kept in Adj-RIB-In, but the Loc-RIB keeps the earlier
  one; an UPDATE that hits the prefix limit is stored, but nothing of it reaches the Loc-RIB. These
  are the only ways in which the Loc-RIB differs from the routes in use (`LocRibs.LocRibIsRightIff`,
  `LocRibs.RejectedPathHides`). What the latter withdraws stays in the Loc-RIB even after the peer
  has gone (`LocRibs.NothingAbandonedIff`, `LocRibs.RouteIsLeftBehind`).
- Merging AS_PATH and AS4_PATH departs from RFC 6793 when confederation segments inflate the count
  or when nothing is kept of an AS_PATH that starts with an AS_SET (`As4.MergeIffNotDeparting`). A
  path split for a 2-byte speaker loses ASes on the way back exactly if an AS number was too wide and
  the path has a confederation AS or set, or starts with an AS_SET (`As4.RoundTrip`). With AS4_PATH
  first, the merge overwrites another attribute or runs out of range (`As4.PositionMatters`).
- Prepending 255 copies to a sequence with other ASes loses copies (`Overlay.PrependIsExact`).
- Paths whose attributes leave no room for a prefix are dropped silently, and larger attributes
  make the split panic (`Packing.PackingPreservesMeaning`, `Packing.CreateUpdateMsgFromPaths`).
- A covered route whose AS_PATH ends in an AS_SET is reported as not found instead of invalid
  (`RoaTables.StatusIsStandardIffNotCoveredSet`).
- In one RTR response, withdrawals take effect before announcements whatever their order
  (`Rtr.ResponseIsInOrderIff`); disabling or resetting a cache server by its address removes none of
  its authorisations (`Rtr.DisableRemovesNothing`). A life timer deletes authorisations of a client
  whose data are complete exactly if the host was disconnected, and disconnected again or deleted with
  no End of Data in between, that first timer has not expired, and the session is still the one from
  before (`Rtr.CompleteClientMayLoseDataIff`). A connection lost twice is such a run, whatever the
  session (`Rtr.FlappingLosesData`).
- Two OPEN messages lead to the same families unless one side has no family configured and the
  other has IPv4 unicast (`OpenNegotiation.SameFamiliesIff`); ADD-PATH directions are dual for every
  peer exactly if no family is configured twice with the last entry silent
  (`OpenNegotiation.DualWithEveryPeerIff`); fractions of seconds can make the hold times differ
  (`OpenNegotiation.SameHoldTimeIff`).
- MPLS labels always lie in the chunk they are taken from exactly if no chunk, rounded up to whole
  words, exceeds 32 bits by more than one bit (`Mpls.AlwaysInsideIff`). An assignment fails only when
  every label is out exactly if no chunk starts at zero and none exceeds 32 bits when rounded up,
  unless it is the only chunk (`Mpls.FailsOnlyWhenFullIff`).

## Model

| member | source | states |
|---|---|---|
| Bitmaps.Bitmap.constructor | internal/pkg/table/path.go:80-86 | a new bitmap is empty and its capacity is the size rounded up to whole words |
| Bitmaps.Bitmap.FindAndSetZeroBit | internal/pkg/table/path.go:53-69 | flags and returns the lowest free index; fails, changing nothing, exactly when every index is flagged |
| Bitmaps.Bitmap.Flag | internal/pkg/table/path.go:41-43 | adds one index to the flagged ones |
| Bitmaps.Bitmap.Unflag | internal/pkg/table/path.go:45-47 | removes one index from the flagged ones |
| Bitmaps.Bitmap.GetFlag | internal/pkg/table/path.go:49-51 | tells whether an index is flagged |
| Bitmaps.Bitmap.Expand | internal/pkg/table/path.go:71-78 | adds one word of free indices and keeps the flagged ones |
| BestPath.LessIsTotal | internal/pkg/table/destination.go:389-488 | of two routes at least one is not worse than the other, under every option |
| BestPath.CascadeIsLexicographic | internal/pkg/table/destination.go:603-933 | under the four conditions the twelve comparison steps are one lexicographic comparison of keys |
| BestPath.KeysAreOrdered | internal/pkg/table/destination.go:603-933 | comparing keys is antisymmetric and transitive, and ties only on equal keys |
| BestPath.CascadeIsTotalPreorder | internal/pkg/table/destination.go:389-488 | under the four conditions `less` is total and transitive, and true both ways exactly on equal keys |
| BestPath.ChainedIsOrdered | internal/pkg/table/destination.go:386-490 | a sorted list is ordered between any two positions and no route is strictly better than its head |
| BestPath.WinnerDoesNotDependOnArrival | internal/pkg/table/destination.go:347-384 | two sorted lists of the same routes have heads with the same key, whatever the order of arrival |
| BestPath.MedCycle | internal/pkg/table/destination.go:776-839 | under every option other than always comparing MEDs three routes beat each other in a circle |
| BestPath.MissingOriginCycle | internal/pkg/table/destination.go:739-774 | under every option a route without ORIGIN closes a circle |
| BestPath.TwoLocalSourcesNotTransitive | internal/pkg/table/destination.go:669-694 | under every option `less` is not transitive with two local sources |
| BestPath.ConfederationNotTransitive | internal/pkg/table/destination.go:841-919 | unless router ids are compared for external peers, `less` is not transitive with confederation members |
| BestPath.TransitiveIff | internal/pkg/table/destination.go:389-488 | for every option: `less` is transitive on routes with ORIGIN, at most one local source and no confederation member, if and only if MEDs are always compared |
| BestPath.TransitiveWithConfederationsIff | internal/pkg/table/destination.go:389-488 | for every option: `less` is transitive on routes with ORIGIN and at most one local source, confederation members included, if and only if MEDs are always compared and router ids are compared for external peers |
| Destinations.Destination.constructor | internal/pkg/table/destination.go:143-155 | a new destination knows no path and has only id zero flagged |
| Destinations.Destination.ExplicitWithdraw | internal/pkg/table/destination.go:275-314 | removes the last known path of the same source and path id; the withdrawal ends up with the id of the last match it took over |
| Destinations.Destination.ImplicitWithdraw | internal/pkg/table/destination.go:320-345 | removes the first known path of the same source and path id and takes over its local id, unless implicit withdrawal is off |
| Destinations.Destination.AllocateIds | internal/pkg/table/destination.go:246-255 | a known path without an id gets the lowest free one, which is flagged; the map grows so that this always succeeds |
| Destinations.Destination.Sort | internal/pkg/table/destination.go:386-490 | the known paths become a permutation in which each is at least as good as the next |
| Destinations.Destination.ComputeKnownBestPath | internal/pkg/table/destination.go:347-384 | keeps the known paths up to order and sorts them; the best path is the first one, which no comparable path beats, unless selection is disabled or its next hop is unreachable |
| Destinations.Destination.UpdateKnown | internal/pkg/table/destination.go:234-255 | known paths, flagged ids and the id of the path handed in become exactly those of the specified recalculation |
| Destinations.Destination.Calculate | internal/pkg/table/destination.go:230-265 | one recalculation does what is specified, keeps every known id nonzero and within the map, and returns the lists after and before |
| AddPath.GetWithdrawnPath | internal/pkg/table/destination.go:513-534 | the paths known before and not after, by object; nothing when the lists are equally long |
| AddPath.MirrorIffAdmissible | pkg/server/server.go:1248-1270 | one recalculation, in route-target membership or not, keeps the neighbour's copy exact and the ids nonzero, taken and distinct, if and only if the path handed in is admissible |
| AddPath.CopyExactIff | pkg/server/server.go:1248-1270 | an exact copy stays exact over one recalculation if and only if a withdrawal leaves the ids of the other paths alone, a known path that is announced again replaces no other one, and a new path is sent, shares its prefix object with no known path that stays, replaces a path known once, or is added under an id that no known path has |
| AddPath.AdmissibleRunIsExact | pkg/server/server.go:1248-1270 | after any number of recalculations with admissible paths the neighbour holds exactly the known paths under their ids |
| AddPath.MirrorOverRuns | pkg/server/server.go:1248-1270 | over every run from the creation of the destination, with path selection enabled: the copy is exact and the ids are nonzero, taken and distinct after each recalculation, if and only if every path handed in was admissible |
| AddPath.CopyOverRuns | pkg/server/server.go:1248-1270 | over every run from the creation of the destination the copy alone is exact after each recalculation if and only if every path handed in met that condition |
| AddPath.NumberedBefore | internal/pkg/table/destination.go:246-255 | in every run no known path carries the id zero |
| AddPath.SameIdLosesPath | pkg/server/server.go:1248-1270 | a path announced with the id of a known one of different origin makes the neighbour lose that one |
| Changes.GetBestPath | internal/pkg/table/destination.go:204-212 | the first path that the viewer may use |
| Changes.GetBestChange | internal/pkg/table/destination.go:537-575 | the change of best path and the former best path, case by case |
| Changes.GetMultiBestPath | internal/pkg/table/destination.go:497-511 | the reachable paths that compare equal to the first reachable one, in order |
| Changes.MultiBestIsEmptyIff | internal/pkg/table/destination.go:497-511 | the multipath set is empty if and only if no next hop is reachable |
| Changes.GetChanges | internal/pkg/table/destination.go:536-601 | the change of best path together with the change of the multipath set |
| Changes.ChangeIsRecomputation | internal/pkg/table/destination.go:537-575 | applying a change to a right view gives a right view if and only if the change announces no unreachable path |
| Changes.DeltasAreRecomputation | internal/pkg/table/destination.go:177-220 | over every run, for the global table and every route-server client, the folded changes agree with the usable best path after each step if and only if none announced an unreachable path |
| Changes.UnreachableIsAnnounced | internal/pkg/table/destination.go:537-575 | a first path whose next hop is unreachable is announced |
| Changes.MultiChangeIsRecomputation | internal/pkg/table/destination.go:577-600 | one change keeps a right multipath set right, except exactly if the last reachable next hop goes while some path is left, and the path in front is not the one before, was unreachable already, or is a route-target membership |
| Changes.MultiDeltasIff | internal/pkg/table/destination.go:577-600 | over every run the folded multipath changes track the recomputed set after each recalculation if and only if none of them meets that exception, which is read off the lists before and after |
| Changes.StaleSetIsKept | internal/pkg/table/destination.go:577-600 | a reachable path that gives way to an unreachable one leaves that one as the multipath set |
| Changes.MultiDeltasAreRecomputation | internal/pkg/table/destination.go:577-600 | while every next hop is reachable the folded multipath changes track the recomputed set over every run |
| Overlay.OverlayPath.Clone | internal/pkg/table/path.go:336-343 | a clone has one empty node in front of the original's chain |
| Overlay.OverlayPath.GetPathAttr | internal/pkg/table/path.go:526-544 | reads what the nearest node says of the type; a deletion hides what its own node and all ancestors set |
| Overlay.OverlayPath.GetPathAttrs | internal/pkg/table/path.go:483-524 | reads every type exactly as the single reader does; in the root's order, or sorted by type when a type is new |
| Overlay.RootOrderIsSorted | internal/pkg/table/path.go:483-524 | for a root sorted by type the result is strictly sorted by type |
| Overlay.SetThenLookup | internal/pkg/table/path.go:546-558 | after a set the type reads as the new attribute unless the same node deletes it, and no other type changes |
| Overlay.DelThenLookup | internal/pkg/table/path.go:560-566 | after a deletion the type reads as absent and no other type changes |
| Overlay.OverlayPath.SetPathAttr | internal/pkg/table/path.go:546-558 | replaces or adds the attribute on this node; every ancestor reads as before |
| Overlay.OverlayPath.DelPathAttr | internal/pkg/table/path.go:560-566 | deletes the type on this node; every ancestor reads as before |
| Overlay.OverlayPath.PrependAsn | internal/pkg/table/path.go:675-715 | sets AS_PATH on this node to the prepended path; the ancestors' AS_PATH is untouched |
| Overlay.OverlayPath.PrependTo | internal/pkg/table/path.go:685-714 | the slices as the code shares them give the specified path, including the reuse when 255 copies are asked for |
| Overlay.OverlayPath.AppendToSlice | internal/pkg/table/path.go:704-706 | appending to a part of a slice returns the concatenation and overwrites what follows the part when it fits |
| Overlay.OverlayPath.RemoveConfedAs | internal/pkg/table/path.go:749-762 | AS_PATH, if the path has one, loses exactly its confederation segments |
| Overlay.OverlayPath.RemovePrivateAs | internal/pkg/table/path.go:721-747 | AS_PATH, if the path has one, has its private ASes removed or replaced by the local AS, and segments that became empty are gone |
| Overlay.PrivateAsesRewritten | internal/pkg/table/path.go:721-747 | the ASes of the path are those of the original, in order, without the private ones or with the local AS in their place |
| Overlay.NoPrivateLeft | internal/pkg/table/path.go:717-747 | no private AS is left except the local one that replaces others, and every other AS stays |
| Overlay.OverlayPath.ExportAsPath | internal/pkg/table/path.go:234-242 | the AS_PATH sent to an external peer: private ASes removed or replaced as configured, one copy of the local AS in front, confederation segments removed outside confederations |
| Overlay.PrependIsExact | internal/pkg/table/path.go:675-715 | prepending gives the copies followed by the old ASes with segments of at most 255, if and only if it is not the case in which 255 copies meet another AS in the first segment |
| LoopFreedom.HasOwnASLoop | pkg/server/fsm.go:812-825 | true exactly if the own AS occurs more often than tolerated, over all segments |
| LoopFreedom.StepKeepsInv | pkg/server/peer.go:474-487 | originating, advertising, delivering, losing and withdrawing routes keep the bounds on every path in use and under way |
| LoopFreedom.RunKeepsInv | pkg/server/peer.go:474-487 | the bounds hold in every reachable state of every network |
| LoopFreedom.PathsAreBounded | pkg/server/fsm.go:812-825 | in every reachable state no AS occurs more than the tolerance allows, so path lengths are bounded by the number of ASes; without tolerance paths are free of duplicates and of their holder |
| LoopFreedom.ChainsAreFinite | internal/pkg/table/path.go:237-242 | every chain of re-advertisements is finite, with a bound in the number of ASes |
| AdjRibs.AdjRib.Update | internal/pkg/table/adj.go:40-90 | the table and its counters become those of the map updated path by path, for any list |
| AdjRibs.AdjRib.AnnounceAt | internal/pkg/table/adj.go:71-88 | replaces the route of the same key or adds it; an unchanged route keeps its age; the counter follows rejection changes |
| AdjRibs.AdjRib.WithdrawAt | internal/pkg/table/adj.go:60-70 | removes the route of the same key and adjusts the counter |
| AdjRibs.LastWriterWins | internal/pkg/table/adj.go:40-90 | updating by a list is last-writer-wins on every key |
| AdjRibs.RepeatedWriters | internal/pkg/table/adj.go:40-90 | in a list whose paths for one route are the same each path has its own effect |
| AdjRibs.CountChanges | internal/pkg/table/adj.go:60-88 | changing one route changes the number of routes in use of its family by that route and of no other family |
| AdjRibs.AdjRib.PathList | internal/pkg/table/adj.go:120-132 | lists exactly the stored routes of the families, or those in use, each once, and as many as are counted |
| AdjRibs.AdjRib.Count | internal/pkg/table/adj.go:134-141 | the sum of the numbers of stored routes over the listed families, each as often as it is listed |
| AdjRibs.AdjRib.Accepted | internal/pkg/table/adj.go:143-151 | the sum of the incremental counters is the number of routes in use |
| AdjRibs.StoredIsTotal | internal/pkg/table/adj.go:120-151 | a list of the routes in use is as long as the sum of the families' counts |
| AdjRibs.AdjRib.Drop | internal/pkg/table/adj.go:153-168 | no route of the families is left, all others are, and there is one withdrawal per removed route |
| AdjRibs.AdjRib.DropStale | internal/pkg/table/adj.go:170-184 | exactly the stale routes of the families are removed, with one withdrawal for each |
| AdjRibs.AdjRib.StaleAll | internal/pkg/table/adj.go:186-201 | every route of the families becomes stale and keeps its rejection; those in use are returned, each once if the families are distinct |
| AdjRibs.AdjRib.MarkLlgrStaleOrDrop | internal/pkg/table/adj.go:203-226 | routes with NO_LLGR are removed, the other routes of the families are marked LLGR_STALE; returned are a withdrawal for each removed route and the marked routes in use, each once if the families are distinct |
| AdjRibs.SweepIsExact | internal/pkg/table/adj.go:170-201 | marking, updating by fresh paths and dropping leaves in the families exactly the routes announced and not withdrawn since the marking |
| AdjRibs.LlgrStepIsComplete | internal/pkg/table/adj.go:203-226 | after the long-lived step no NO_LLGR route remains and every remaining one carries LLGR_STALE |
| Peers.PeerState.ClassifyFamilies | pkg/server/peer.go:249-266 | splits a list of families into those in another list and the rest, in order |
| Peers.PeerState.FamiliesWhere | pkg/server/peer.go:268-290 | the families preserved over a restart, or with long-lived restart, and the other configured ones |
| Peers.PeerState.RecvedAllEOR | pkg/server/peer.go:191-200 | true exactly if every family with graceful restart has its marker |
| Peers.PeerState.StopPeerRestarting | pkg/server/peer.go:339-348 | the restart is over and no long-lived timer runs |
| Peers.PeerState.PeerDown | pkg/server/server.go:1318-1341 | a lost session stales preserved families and drops the others when graceful, and drops all otherwise; handed on are the stale versions of the routes in use and a withdrawal for each route dropped |
| Peers.PeerState.HandleStateChange | pkg/server/server.go:1303-1428 | a state change takes the peer to the specified state and hands on what is specified |
| Peers.PeerState.HandleUpdate | pkg/server/peer.go:447-521 | an UPDATE takes the peer to the specified state, ignoring it outside a session and not looking at markers after a prefix limit; handed on are the paths that are neither markers nor rejected, and the withdrawals of swept routes |
| Peers.PeerState.HandleEor | pkg/server/server.go:1590-1661 | the last marker ends the restart and sweeps the stale routes, whose withdrawals are handed on |
| Peers.PeerState.LlgrRestartTimerExpired | pkg/server/peer.go:319-333 | whether the expiry counts as the last: only the other families' received capabilities matter |
| Peers.PeerState.HandleLlgrTimer | pkg/server/server.go:1388-1401 | the family is dropped, its withdrawals are handed on, and the restart may end |
| Peers.PeerState.HandleOpen | pkg/server/fsm.go:1331-1395 | an OPEN message raises the negotiated flags of the families it names, as far as configured, and never lowers one |
| GracefulRestart.StepKeepsInv | pkg/server/server.go:1303-1428 | every event, OPEN messages with any capabilities included, keeps the invariant, and safety outside the hazard |
| GracefulRestart.RunKeepsInv | pkg/server/server.go:1303-1428 | the invariant holds after every possible run, and safety after every run that has not met the hazard |
| GracefulRestart.HazardIsReached | pkg/server/server.go:1374-1410 | from any established session with hazardous capabilities a concrete run, without another OPEN message that brings capabilities, keeps a stale route without session and without restart in progress |
| GracefulRestart.SafeIffNoHazard | pkg/server/server.go:1567-1661 | for every state without session, restart and routes: as long as no OPEN message brings capabilities, no routes are kept without session and restart, and no stale ones without restart, in all reachable states, if and only if the negotiated capabilities are not the hazard |
| GracefulRestart.AlwaysSafeIff | pkg/server/fsm.go:1331-1395 | for every configuration, from the first session on, whatever OPEN messages negotiate: no routes are kept without session and restart, and no stale ones without restart, in all reachable states, if and only if graceful restart, long-lived graceful restart and two families are not configured together |
| LocRibs.AppliedIsTold | pkg/server/server.go:1086-1196 | applying a list of paths to the Loc-RIB one by one leaves what the last path about each route says |
| LocRibs.EventTellsIff | pkg/server/server.go:1303-1428 | a Loc-RIB that holds exactly the routes in use does so after an event, of any kind, if and only if that is not an UPDATE that withholds a change |
| LocRibs.LocRibIsRightIff | pkg/server/peer.go:447-521 | over every run the Loc-RIB holds exactly the peer's routes in use after each event, if and only if no UPDATE ends with a rejected path for a route left in use, or changes the routes in use while hitting the prefix limit |
| LocRibs.RejectedPathHides | pkg/server/peer.go:468-503 | a rejected path for a route in use leaves the earlier path in the Loc-RIB |
| LocRibs.NothingAbandonedIff | pkg/server/peer.go:506-515 | over every run the Loc-RIB never keeps a route that the peer has no more, if and only if no UPDATE that hits the prefix limit withdraws a route that the Loc-RIB holds |
| LocRibs.NothingIsLeftBehind | pkg/server/server.go:1318-1428 | under a configuration without the hazard, and if nothing was abandoned, a peer without session and without restart in progress has no route in the Loc-RIB |
| LocRibs.RouteIsLeftBehind | pkg/server/peer.go:506-515 | otherwise a route can stay in the Loc-RIB when the peer has gone and Adj-RIB-In is empty |
| LocRibs.PropagatedTells | pkg/server/peer.go:460-508 | after the paths of an UPDATE are handed on the Loc-RIB has the routes in use, and besides exactly those that end with a rejected path |
| As4.BgpUpdate.UpdatePathAttrs2ByteAs | internal/pkg/table/message.go:26-76 | the attributes become those specified: AS_PATH narrowed, AS4_PATH appended when an AS number is too wide |
| As4.BgpUpdate.UpdatePathAttrs4ByteAs | internal/pkg/table/message.go:82-209 | the attributes become the merged ones, or the code runs out of range exactly where specified |
| As4.BgpUpdate.KeepLoop | internal/pkg/table/message.go:171-185 | the leading part of AS_PATH that is kept |
| As4.BgpUpdate.JoinLoop | internal/pkg/table/message.go:187-202 | AS4_PATH appended segment by segment, filling up sequences to 255 |
| As4.KeepLength | internal/pkg/table/message.go:171-185 | keeping a number of ASes gives a path of that length, or all of it, except that keeping nothing of a path with a leading set leaves an empty set |
| As4.JoinUnits | internal/pkg/table/message.go:187-202 | joining appends the units of AS4_PATH, however sequences are filled up |
| As4.MergeIffNotDeparting | internal/pkg/table/message.go:162-202 | the merge has the ASes and sets, those of confederations included, of the uncovered leading part of AS_PATH followed by AS4_PATH (section 4.2.3 of RFC 6793) if and only if it is not one of the departing cases |
| As4.LengthIffNotDeparting | internal/pkg/table/message.go:162-202 | the merge conserves the AS path length under exactly the same condition |
| As4.RoundTrip | internal/pkg/table/message.go:26-209 | splitting and merging restores every AS and set, those of confederations included, if and only if no AS number was too wide, or the path has no confederation AS or set and no leading set |
| As4.RoundTripExact | internal/pkg/table/message.go:26-209 | without confederations, from a sequence on and with nothing to merge, the very segments come back |
| As4.MessageRoundTrip | internal/pkg/table/message.go:26-209 | on a whole message every other attribute comes back untouched and in place |
| As4.PositionMatters | internal/pkg/table/message.go:204-208 | with AS_PATH before AS4_PATH the merge lands in AS_PATH; the other way round it overwrites the following attribute or runs out of range |
| Packing.SplitLoop | internal/pkg/table/message.go:400-433 | terminates; the chunks concatenate to the prefixes of all paths, none is empty or larger than the limit; with limit zero there are none |
| Packing.ChunkMessages | internal/pkg/table/message.go:436-452 | messages for the chunks do what the prefixes stand for and stay within 4096 bytes |
| Packing.PutInCage | internal/pkg/table/message.go:382-396 | a path goes to the cage with its attributes, or to a new one, and nowhere else |
| Packing.PackerV4.Add | internal/pkg/table/message.go:356-397 | every path added is among the withdrawals, the cages of its hash, or the separate paths, exactly once |
| Packing.PackerV4.Pack | internal/pkg/table/message.go:399-464 | the messages do what the paths added stand for, fit, and end with the marker; nothing is returned exactly if the split panics |
| Packing.PackAll | internal/pkg/table/message.go:440-454 | the cages of all hashes, in any order, yield exactly the operations of the batched paths |
| Packing.PackerMP.Add | internal/pkg/table/message.go:292-306 | the same bookkeeping for the other families |
| Packing.PackerMP.Pack | internal/pkg/table/message.go:321-337 | the same for the messages of the other families |
| Packing.MpReachMessages | internal/pkg/table/message.go:308-319 | one message per path, carrying its prefix exactly if MP_REACH_NLRI is among its attributes |
| Packing.CreateUpdateMsgFromPaths | internal/pkg/table/message.go:486-502 | each deliverable path is said exactly once with its own attributes, IPv4 messages are within 4096 bytes, each family's marker comes once and last, in any order of families and cages; nothing is returned exactly if a split panics; if the list names each prefix and path id once, applying the messages to every table equals applying the list, if and only if every path is deliverable |
| Packing.SplitKind | internal/pkg/table/message.go:356-397 | a group of paths divided into two disjoint ones has the operations of both |
| Packing.OrderIsIrrelevant | internal/pkg/table/message.go:440-454 | operations that do not disagree about a prefix have the same effect on every table in every order |
| Packing.PackingPreservesMeaning | internal/pkg/table/message.go:486-502 | messages with the operations of the deliverable paths of a list that names each prefix and path id once have the effect of the list on every table, if and only if every path is deliverable |
| RoaTables.RoaTable.Add | internal/pkg/table/roa.go:106-130 | the stored set gains the authorisation; buckets stay free of duplicates, sorted and in place |
| RoaTables.RoaTable.Delete | internal/pkg/table/roa.go:132-149 | the stored set loses exactly the authorisation |
| RoaTables.RoaTable.DeleteAll | internal/pkg/table/roa.go:151-173 | the stored set loses exactly the authorisations of the source, in both trees |
| RoaTables.StoredIffLastEditAdded | internal/pkg/table/roa.go:106-173 | after any run of edits an authorisation is stored exactly if the last edit that concerns it added it |
| RoaTables.RoaTable.Validate | internal/pkg/table/roa.go:175-250 | divides exactly the stored covering authorisations into matched, wrong AS and too long, each once, and reports status and reason accordingly |
| RoaTables.WalkMatch | internal/pkg/table/roa.go:216-233 | walking the covering buckets in any order classifies every covering authorisation once |
| RoaTables.StatusIsStandardIffNotCoveredSet | internal/pkg/table/roa.go:197-250 | the status is that of section 2 of RFC 6811 if and only if the route is not a covered one ending in an AS_SET |
| RoaTables.RoaTable.Info | internal/pkg/table/roa.go:252-274 | per source, the numbers of stored authorisations and of networks they are for |
| Rtr.BeforeIffAhead | pkg/server/rpki.go:39-41 | a serial number is before those up to half the number space ahead |
| Rtr.BeforeIsAntisymmetricIff | pkg/server/rpki.go:39-41 | of two serial numbers exactly one is before the other unless they are half the number space apart |
| Rtr.RoaClient.SoftlyResets | pkg/server/rpki.go:353-366 | a reset query is sent and the pending data dropped exactly if there is a connection and the write succeeds |
| Rtr.RoaManager.HandleRTRMsg | pkg/server/rpki.go:199-270 | each message takes the client and the table to the specified state |
| Rtr.RoaManager.HandleROAEvent | pkg/server/rpki.go:154-197 | each event takes all clients and the table to the specified state; events of unknown hosts do nothing |
| Rtr.RoaManager.DeleteServer | pkg/server/rpki.go:93-102 | the client and its authorisations disappear |
| Rtr.RoaManager.Disable | pkg/server/rpki.go:115-129 | deletes under the bare address of a client found |
| Rtr.RoaManager.SoftReset | pkg/server/rpki.go:131-141 | resets a client found at the address and deletes its authorisations |
| Rtr.NothingPublishedBeforeEndOfData | pkg/server/rpki.go:217-237 | until End of Data a host's authorisations in the table only disappear, in every run |
| Rtr.ResponseEffect | pkg/server/rpki.go:217-255 | after a complete response, among any events of other hosts, the host has its former authorisations without the withdrawn ones, or none for a new session, with the announced and formerly pending ones; pending is empty |
| Rtr.PublishedAtEndOfData | pkg/server/rpki.go:238-255 | End of Data leaves the host's set, or nothing for a new session, together with the pending set |
| Rtr.ResponseIsInOrderIff | pkg/server/rpki.go:217-256 | a response has the effect of its updates in their order if and only if nothing is announced and then withdrawn for good |
| Rtr.HostsAreIsolated | pkg/server/rpki.go:154-270 | in every run, a host's client and authorisations are those of the run reduced to its own events |
| Rtr.RunKeepsInv | pkg/server/rpki.go:154-270 | in every run pending authorisations are the client's own and stored ones are filed under hosts |
| Rtr.DisableRemovesNothing | pkg/server/rpki.go:115-141 | in every reachable state disabling by address removes no authorisation, a soft reset removes all of the host's |
| Rtr.CompleteClientMayLoseDataIff | pkg/server/rpki.go:164-195 | after every possible run, a life timer may delete authorisations of a client with complete data if and only if the host has any, its session is the one from before, and a timer armed by a disconnection was forgotten by another one or a deletion with no End of Data in between, and has not expired |
| Rtr.TimersIff | pkg/server/rpki.go:164-195 | a timer runs for a host exactly if the host's own events armed it and neither stopped it nor saw it expire |
| Rtr.TimeoutLosesIff | pkg/server/rpki.go:173-184 | an expiry is possible exactly while the timer runs, and deletes something exactly if the host has authorisations and its session is the one from before |
| Rtr.FlappingLosesData | pkg/server/rpki.go:164-255 | for every session: a client that connects, completes its data, loses the connection twice and completes them again may lose them to the first timer |
| Bmp.Ribout.Update | pkg/server/bmp.go:40-82 | the lists hold the view after the path, one entry per source and none empty; the path is sent exactly if it is needed |
| Bmp.Put | pkg/server/bmp.go:60-81 | an announcement replaces its source's entry in place or is added; an equal one is not sent |
| Bmp.Others | pkg/server/bmp.go:43-59 | a withdrawal removes its source's entry and keeps the others |
| Bmp.Ribout.Filter | pkg/server/bmp.go:40-82 | replaying the paths sent out of any stream gives the view of the whole stream |
| Bmp.SentIsEnough | pkg/server/bmp.go:40-82 | a receiver of the filtered stream knows what a receiver of the whole stream knows |
| Bmp.NeededChangesIff | pkg/server/bmp.go:40-82 | a path that is sent changes the view unless it withdraws for a source that had announced nothing |
| OpenNegotiation.CapAddPathFromConfig | pkg/server/fsm.go:696-714 | the ADD-PATH capability lists the families with a direction, or there is none |
| OpenNegotiation.CapabilitiesFromConfig | pkg/server/fsm.go:716-780 | the capabilities announce the configured families in order and the ADD-PATH tuples |
| OpenNegotiation.CreateRfMap | internal/pkg/config/util.go:136-149 | the mode per configured family, the last entry counting |
| OpenNegotiation.Open2Cap | pkg/server/fsm.go:1133-1188 | the negotiated modes are those of the local configuration against what the peer announced, with IPv4 unicast by default |
| OpenNegotiation.SameFamiliesIff | pkg/server/fsm.go:1156-1188 | two speakers conclude the same families unless one has none configured and the other has IPv4 unicast |
| OpenNegotiation.ConsistentIsDual | pkg/server/fsm.go:1174-1188 | with consistent configurations each side sends additional paths exactly if the other receives them |
| OpenNegotiation.DualWithEveryPeerIff | pkg/server/fsm.go:696-714 | a configuration is dual with every peer naming its families once if and only if it is consistent |
| OpenNegotiation.NegotiateHoldTime | pkg/server/fsm.go:1311-1328 | the smaller of the own and the received hold time, and the keepalive interval that goes with it |
| OpenNegotiation.SameHoldTimeIff | pkg/server/fsm.go:1311-1322 | both speakers use the same hold time if and only if the smaller one is whole seconds or both agree up to fractions; whole seconds give the minimum |
| Mpls.LabelAllocator.GrantChunk | pkg/server/zclient.go:402-410 | a granted chunk starts over with no bit flagged and leaves the other chunks as they are, for any bounds |
| Mpls.LabelAllocator.AssignMplsLabel | pkg/server/zclient.go:538-556 | for any chunks tried in any order: the flags, the label and failure are those of the specified search |
| Mpls.LabelAllocator.ReleaseMplsLabel | pkg/server/zclient.go:570-583 | a chunk that contains the label, if any, has its bit unflagged and nothing else changes; the code panics exactly if the bit is beyond the bitmap |
| Mpls.LabelOfBit | pkg/server/zclient.go:543-551 | the label of a bit is within the chunk, beyond it, or wrapped around to below it, depending on where the chunk ends |
| Mpls.AlwaysInsideIff | pkg/server/zclient.go:538-556 | for all disjoint chunks: in every run of grants, assignments and releases each label lies in the chunk it is taken from, if and only if no chunk, rounded up, exceeds 32 bits by more than one bit |
| Mpls.FailsOnlyWhenFullIff | pkg/server/zclient.go:538-556 | for all disjoint chunks: in every run an assignment fails only when every label of every granted chunk is out, if and only if no chunk starts at zero and none exceeds 32 bits when rounded up, unless it is the only one |
| Mpls.LabelsAreSafe | pkg/server/zclient.go:538-583 | with sound, disjoint chunks, in every state of every run: the labels out are distinct and inside granted chunks; an assignment gives one that is not out, or fails because all are out |

## Left out

- Sockets, gRPC, configuration loading, MRT, zebra and netlink messages, logging: not part of this model.
- The packet library (serialisation, validation, the length functions of segments) is not part of this model; its rules for AS path length are written out from RFC 4271 and RFC 5065.
- Policies, `Table` and `TableManager`, VRFs, EVPN mobility and soft reconfiguration: the model has one destination, one Adj-RIB-In or one peer at a time, and paths pass unchanged from one to the other.
- Goroutines, channels and locks: events are handled one at a time; an expiry that is under way when its timer is stopped is not modelled.
- Destinations.Destination.Sort: the stable library sort is an insertion sort by the same `less`; nothing is claimed about the order of ties, on which `less` is true both ways.
- Destinations.Destination.Calculate: local ids of incoming paths are zero or below the capacity of the map; releasing a larger id, which panics, is not modelled.
- Destinations.Destination.ComputeKnownBestPath: the reason, which depends on the comparisons that the library sort happens to make and which its caller discards, is left out.
- Changes.GetBestChange: only without `peerDown`, which marks the old path itself as withdrawn instead of a clone.
- Changes.GetChanges: only without `peerDown`, likewise.
- Overlay.OverlayPath.ExportAsPath: the other attributes that are rewritten for external peers are left out.
- LoopFreedom.PathsAreBounded: one speaker per AS, external sessions only, no rewriting of AS paths and no policy prepends.
- AdjRibs.AdjRib.Update: paths are values, so the stale mark that a path shares with the root of its clones is a field of the stored path; whether a path is rejected is part of the path handed in.
- Peers.PeerState.HandleStateChange: the removal of dynamic neighbours is left out.
- Peers.PeerState.HandleUpdate: the outcome of the tests that reject a path is part of the path handed in.
- Peers.PeerState.HandleEor: the branches for a restart of the local speaker, which concerns all neighbours, and for route-target membership, which sends to the neighbour, are left out.
- GracefulRestart.AlwaysSafeIff: reconfiguration, soft resets and the removal of dynamic neighbours are no events; an UPDATE may name any configured family; a timer that expires is one that runs.
- LocRibs.LocRibIsRightIff: import policies, which may change or drop what is handed on, are left out.
- As4.BgpUpdate.UpdatePathAttrs4ByteAs: the shapes of segments are those the decoder produces; AGGREGATOR translation is left out.
- Packing.PackingPreservesMeaning: two attribute lists with equal bytes are taken to be equal, and the lengths that attributes report to be those of their bytes; the sizes of messages for other families are not bounded, as in the code.
- RoaTables.RoaTable.Add: prefixes are canonical bit strings, so networks with host bits set or with impossible lengths are not distinguished from their canonical form.
- RoaTables.RoaTable.Info: counters are unbounded instead of 32 bits wide.
- Rtr.CompleteClientMayLoseDataIff: identities of timers are numbers that are never reused.
- OpenNegotiation.Open2Cap: the capabilities returned besides the negotiated modes are left out.
- OpenNegotiation.CapabilitiesFromConfig: graceful restart and extended next hop capabilities, which the negotiation of modes does not read, are left out.
- Mpls.AlwaysInsideIff: about chunks that are disjoint, not inverted and not all 32-bit numbers, each granted once; the VRFs that wait for a label are not modelled.
- Mpls.FailsOnlyWhenFullIff: about the same chunks.
