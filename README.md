# metro_simulator core, modelled in Dafny

This project models the discrete core of the metro_simulator city simulator: a
Rust engine and a Python map generator. It covers:

- the quadtree spatial index: quadrants, addresses, rectangles, directions, the
  tree with its split, lookups and traversals;
- the transport network store: an id-allocating map and junctions whose
  incoming and outgoing lists mirror the segments' endpoints;
- the staged-change machine (Active, StagedActive, StagedTombstone,
  Tombstone with a countdown) together with the network's edit, apply, clear
  and daily advance operations;
- the remaining bookkeeping of the engine and the generator, listed module by
  module in the table below.

Code that changes state in place is modelled as classes and methods. Each
method's contract ties the new state to a specification function of the old
one. Pure code is modelled as datatypes, functions and lemmas. Handles are
plain naturals; the source's u64 and u32 fields are unbounded unless a row
says otherwise.

Inputs the engine takes from outside a computation are parameters of the
model: the clock, random choices, and helpers whose definitions are not part
of this model (for example `Address::from_xy_depth`).

## Model

| member | source | states |
|---|---|---|
| Quadrants.Index | engine/quadtree/quadrant.rs:2-12 | NW, NE, SW, SE get indices 0..3; the low bit says "right half", the high bit "bottom half" |
| Quadrants.TryFrom | engine/quadtree/quadrant.rs:14-23 | a quadrant exactly for indices below 4, the one with that index |
| Quadrants.IndexRoundTrip | engine/quadtree/quadrant.rs:10-23 | `try_from(q.index()) == Some(q)` for every quadrant |
| Quadrants.FromSides | engine/quadtree/quadrant.rs:25-33 | the quadrant lies on the requested horizontal and vertical halves |
| Quadrants.FromSidesBijective | engine/quadtree/quadrant.rs:25-33 | `from_sides` is a bijection between pairs of sides and quadrants |
| Quadrants.QuadrantsInIndexOrder | engine/quadtree/quadrant.rs:42 | `QUADRANTS` holds all four quadrants, in index order |
| Quadrants.QuadMap.Set | engine/quadtree/quadrant.rs:86-90 | writing through `IndexMut` changes the slot of q to v and no other slot |
| Quadrants.QuadMap.MapInto | engine/quadtree/quadrant.rs:65-72 | every slot of the result is f of the same slot |
| Quadrants.NewQuadMap | engine/quadtree/quadrant.rs:50-54 | `new(nw, ne, sw, se)` indexes back to its four arguments |
| Quadrants.QuadMapFromVec | engine/quadtree/quadrant.rs:92-100 | the conversion succeeds exactly for vectors of length 4 and keeps their order |
| Quadrants.SetThenGet | engine/quadtree/quadrant.rs:121-126 | the `quadrant_map_mut` test: after writing NW the other slots are unchanged |
| Addresses.Address.Child | engine/quadtree/address.rs:52-56 | the child address is one deeper, keeps max_depth and the prefix, and ends in q |
| Addresses.FromVec | engine/quadtree/address.rs:26-34 | the address holds the given path, whose length must not exceed max_depth |
| Addresses.HasNeverZero | engine/quadtree/address.rs:22-24 | `has(0)` is always false, and `has(i)` implies i < depth |
| Addresses.Decode | engine/quadtree/address.rs:36-42 | None exactly when some byte is not 0..3; the depth panic of `from_vec` exactly for valid bytes longer than the maximum depth; otherwise a valid address whose bytes are the input |
| Addresses.TryFromBytes | engine/quadtree/address.rs:36-42 | the byte-by-byte loop returns what `Decode` specifies: None at any byte above 3, whatever the length; `from_vec`'s depth panic (an error) only for a too-long vector of valid bytes; otherwise the address of those quadrants |
| Addresses.ToVec | engine/quadtree/address.rs:44-50 | the loop emits each quadrant's index |
| Addresses.DecodeBytes | engine/quadtree/address.rs:36-50 | `try_from(to_vec(a), a.max_depth) == Some(a)` for every valid address |
| Addresses.CornerInGrid | engine/quadtree/address.rs:62-79 | the tile at a path of length d has width 2^(max_depth-d) and lies in the grid |
| Addresses.CenterInGrid | engine/quadtree/address.rs:62-79 | both coordinates `to_xy` returns are below 2^max_depth |
| Addresses.ToXY | engine/quadtree/address.rs:62-79 | the halving loop returns the centre of the address's tile |
| Addresses.CenterExamples | engine/quadtree/address.rs:105-116 | the test values of `to_xy`, such as [SE] to (6, 6) and [SE, SE] to (7, 7) |
| Addresses.CenterDeepExample | engine/quadtree/address.rs:112-115 | the twelve-level value of the same test: [NE, SE, NW, SW, NW, SW, NW, SE, SW, SW, NW, NW] at depth 12 gives (3088, 1372) |
| Rects.Xywh | engine/quadtree/rect.rs:10-17 | the rectangle contains exactly the points between (x, y) and (x + w, y + h) inclusive |
| Rects.Corners | engine/quadtree/rect.rs:19-26 | the corners are stored unchanged; for ordered corners this is the `xywh` rectangle between them |
| Rects.Rect.And | engine/quadtree/rect.rs:39-46 | each bound is the min or max of the two arguments' bounds |
| Rects.IntersectsSymmetric | engine/quadtree/rect.rs:32-37 | `intersects` is symmetric |
| Rects.IntersectsStrict | engine/quadtree/rect.rs:32-37 | rectangles that only share an edge do not intersect |
| Rects.AndCoversBoth | engine/quadtree/rect.rs:28-46 | `a.and(b)` contains every point that a or b contains |
| Rects.AndCommutative | engine/quadtree/rect.rs:39-46 | `and` is commutative |
| Rects.AndIdempotent | engine/quadtree/rect.rs:39-46 | `and` is idempotent |
| Rects.AndAssociative | engine/quadtree/rect.rs:39-46 | `and` is associative |
| Directions.OppositeInvolution | engine/quadtree/direction.rs:20-27 | `opposite` is an involution with no fixed point |
| Directions.GetQuadrants | engine/quadtree/direction.rs:29-36 | the two quadrants on side d, in index order |
| Directions.InDirectionAsWritten | engine/quadtree/direction.rs:40-58 | Some exactly when the shifted point passes the check as written (x below the width, y at most the width) |
| Directions.InDirection | engine/quadtree/direction.rs:40-58 | the corrected check: Some exactly when the shifted point lies in the grid |
| Directions.InDirectionKeepsDepth | engine/quadtree/direction.rs:53-58 | a neighbour has the address's depth and max_depth |
| Directions.SouthOffGridAsWritten | engine/quadtree/direction.rs:50 | moving South off the bottom row passes the check as written and fails the corrected one |
| Directions.InDirectionStaysInGrid | engine/quadtree/direction.rs:40-58 | the corrected neighbour's point is inside the grid, and the check as written accepts it too |
| Directions.OffGridExamples | engine/quadtree/direction.rs:71-100 | the test cases that leave the grid give None |
| Directions.InGridExamples | engine/quadtree/direction.rs:71-100 | the test cases that stay in the grid look up the expected point |
| Quadtrees.VisitData.Child | engine/quadtree/quadtree.rs:40-57 | one deeper, half the width, q appended to the address, x and y moved by half the width for right and bottom quadrants |
| Quadtrees.VisitData.QuadrantForCoords | engine/quadtree/quadtree.rs:59-67 | an error exactly outside the closed square; points on the centre line go to the left or top quadrant |
| Quadtrees.RootVisitData | engine/quadtree/quadtree.rs:407-415 | the root's visit data is consistent and has width 2^max_depth |
| Quadtrees.ChildConsistent | engine/quadtree/quadtree.rs:40-57 | descending keeps the visit data consistent with its address |
| Quadtrees.ShapedWellFormed | engine/quadtree/quadtree.rs:98-119 | a tree whose depths are right has four children at every branch |
| Quadtrees.GetChild | engine/quadtree/quadtree.rs:122-128 | a leaf answers ExpectedBranch; a branch returns the child in that quadrant |
| Quadtrees.NodeAt | engine/quadtree/quadtree.rs:245-252 | following a path either reaches a node or fails with ExpectedBranch |
| Quadtrees.BranchAt | engine/quadtree/quadtree.rs:263-269 | the branch data exactly when the path reaches a branch |
| Quadtrees.LeafAt | engine/quadtree/quadtree.rs:279-285 | the leaf data exactly when the path reaches a leaf; ExpectedLeaf when it reaches a branch |
| Quadtrees.NodeAtAppend | engine/quadtree/quadtree.rs:245-252 | walking p then s reaches the node that walking p + s reaches |
| Quadtrees.NodeAtShaped | engine/quadtree/quadtree.rs:245-252 | a node reached by a path of length k sits at depth d + k |
| Quadtrees.ReplaceAt | engine/quadtree/quadtree.rs:254-261 | the path then leads to the replacement node |
| Quadtrees.ReplaceAtFrame | engine/quadtree/quadtree.rs:295-330 | replacing one node leaves every node off its path unchanged |
| Quadtrees.ReplaceAtShaped | engine/quadtree/quadtree.rs:295-330 | replacing a node by one shaped for its depth keeps the tree shaped |
| Quadtrees.SplitBranch | engine/quadtree/quadtree.rs:312-330 | the new branch holds the data, and its children are new leaves one level deeper |
| Quadtrees.SplitReads | engine/quadtree/quadtree.rs:544-555 | after a split: `get_branch(p)` is the data, `get_leaf(p + [q])` is child q, and misreads give ExpectedLeaf or ExpectedBranch |
| Quadtrees.LocateFindsLeaf | engine/quadtree/quadtree.rs:353-401 | the located visit data is a leaf below the start whose square contains (x, y) |
| Quadtrees.RecorderSeesTrace | engine/quadtree/quadtree.rs:138-154 | visiting with a recording visitor appends exactly the pre / children NW, NE, SW, SE / post order |
| Quadtrees.TraceVisitsEachLeaf | engine/quadtree/quadtree.rs:138-154 | a traversal reports one leaf event per leaf, each carrying the data found at its own address |
| Quadtrees.PreFalsePrunes | engine/quadtree/quadtree.rs:143-153 | when `visit_branch_pre` returns false, no child is visited and post follows directly |
| Quadtrees.RectVisitorOnlyInBounds | engine/quadtree/quadtree.rs:477-494 | under `visit_rect` only leaves satisfying `in_bounds` reach the inner visitor |
| Quadtrees.FoldBranch | engine/quadtree/quadtree.rs:174-189 | a branch folds to `fold_branch` of its four children's results, in quadrant order |
| Quadtrees.FoldCountsLeaves | engine/quadtree/quadtree.rs:174-189 | the leaf-counting fold yields the number of leaves |
| Quadtrees.VisitMut | engine/quadtree/quadtree.rs:156-172 | a mutating traversal only rewrites data and keeps the tree's shape |
| Quadtrees.Quadtree.constructor | engine/quadtree/quadtree.rs:223-235 | a single root leaf holding the data, and width 2^max_depth |
| Quadtrees.Quadtree.Get | engine/quadtree/quadtree.rs:245-252 | the loop that walks down the tree returns the node the path reaches |
| Quadtrees.Quadtree.GetBranch | engine/quadtree/quadtree.rs:263-269 | returns `BranchAt` of the root |
| Quadtrees.Quadtree.GetLeaf | engine/quadtree/quadtree.rs:279-285 | returns `LeafAt` of the root |
| Quadtrees.Quadtree.Split | engine/quadtree/quadtree.rs:295-330 | MaxDepthExceeded when depth + 1 > max_depth, ExpectedBranch or ExpectedLeaf on a bad path, the tree unchanged on error; otherwise the leaf becomes the new branch |
| Quadtrees.Quadtree.GetVisitData | engine/quadtree/quadtree.rs:353-401 | CoordsOutOfBounds exactly when x or y is at least the width; otherwise the located leaf |
| Quadtrees.Visit2Example | engine/quadtree/quadtree.rs:665-686 | the `visit2` test's exact event sequence |
| Quadtrees.GetAddressExample | engine/quadtree/quadtree.rs:580-603 | the `get_address` test: (3, 2) lies in [SE, NE] |
| ChangeStates.PredicatesClassify | engine/network/change_state.rs:24-45 | the three predicates tell the four states apart |
| ChangeStates.EditChangeSet | engine/network/change_state.rs:80-100 | an item already created is returned as is; otherwise it is forked: a fresh id staged for creation, the original staged for removal |
| ChangeStates.EditKeepsTracking | engine/network/change_state.rs:80-100 | the change sets still list exactly the staged items after an edit |
| ChangeStates.ApplyChangeSet | engine/network/change_state.rs:102-121 | created items become Active, removed items Tombstone(2), and both sets end empty |
| ChangeStates.ApplyLeavesNothingStaged | engine/network/change_state.rs:102-121 | after applying nothing is staged and every other item is unchanged |
| ChangeStates.ClearChangeSet | engine/network/change_state.rs:123-141 | returns exactly the created ids, reverts removed items to Active, and empties both sets |
| ChangeStates.ClearRevertsRemoved | engine/network/change_state.rs:123-141 | clearing restores removed items to Active and touches nothing else |
| ChangeStates.AdvanceTombstones | engine/network/change_state.rs:145-167 | every countdown drops by one; the result lists, in increasing order, exactly the items now at 0 |
| ChangeStates.AdvanceCountsDown | engine/network/change_state.rs:145-167 | Tombstone(2) becomes Tombstone(1), Tombstone(1) becomes Tombstone(0), other states stay |
| ManagedMaps.ManagedMap.constructor | engine/network/network.rs:27-32 | an empty map with counter 0 |
| ManagedMaps.ManagedMap.Add | engine/network/network.rs:34-42 | the item goes under the old counter value, which was unused; the counter moves on |
| ManagedMaps.ManagedMap.Remove | engine/network/network.rs:44-51 | deletes exactly that key and returns its item |
| ManagedMaps.ManagedMap.CloneItem | engine/network/network.rs:53-58 | a copy with only its id changed goes under a fresh counter id |
| Junctions.NewJunction | engine/network/junction.rs:57-69 | empty lists and state Active |
| Junctions.Junction.AddIncoming | engine/network/junction.rs:79-81 | appends exactly one element to the incoming list |
| Junctions.Junction.AddOutgoing | engine/network/junction.rs:83-85 | appends exactly one element to the outgoing list |
| Junctions.Junction.RemoveIncoming | engine/network/junction.rs:88-91 | removes every occurrence from the incoming list and nothing else changes |
| Junctions.Junction.RemoveOutgoing | engine/network/junction.rs:93-96 | removes every occurrence from the outgoing list and nothing else changes |
| Junctions.Junction.CloneNewId | engine/network/junction.rs:39-43 | equal to the original except for the id |
| Junctions.WithoutMultiset | engine/network/junction.rs:88-96 | `retain` deletes exactly the occurrences of the id |
| Junctions.WithoutAppend | engine/network/junction.rs:88-96 | removal distributes over concatenation, so the order of the rest is kept |
| Junctions.AddThenRemove | engine/network/junction.rs:79-96 | adding an absent segment and removing it restores the list |
| Networks.NewSegment | engine/network/segment.rs:37-54 | a new segment is Active and has the given endpoints |
| Networks.NoIssuesIffSound | engine/network/network.rs:223-325 | with ids matching keys, `validate` counts no issue exactly when lists and endpoints agree |
| Networks.AddJunctionKeepsConsistent | engine/network/network.rs:107-112 | `add_junction` keeps the network consistent |
| Networks.AddSegmentKeepsSound | engine/network/network.rs:114-135 | `add_segment` between active junctions keeps what `validate` checks |
| Networks.AddSegmentKeepsConsistent | engine/network/network.rs:114-135 | `add_segment` between Active junctions keeps the network consistent |
| Networks.RemoveSegmentKeepsSound | engine/network/network.rs:183-190 | `remove_segment` keeps what `validate` checks |
| Networks.RemoveJunctionKeepsSound | engine/network/network.rs:173-181 | removing a junction none of whose segments exist keeps what `validate` checks |
| Networks.EditSegmentKeepsConsistent | engine/network/change_state.rs:266-273 | editing a segment keeps the network consistent; a fork is a copy under the new id, staged for creation |
| Networks.ApplyKeepsConsistent | engine/network/change_state.rs:275-278 | applying leaves a consistent network with nothing staged |
| Networks.ClearKeepsConsistent | engine/network/change_state.rs:280-288 | clearing removes created items, reverts removed ones, and keeps the network consistent |
| Networks.AdvanceKeepsConsistent | engine/network/change_state.rs:290-298 | the daily advance removes exactly the expiring items and keeps the network consistent |
| Networks.Network.constructor | engine/network/network.rs:76-89 | an empty, consistent network |
| Networks.Network.AddJunction | engine/network/network.rs:107-112 | a new Active junction under a fresh id |
| Networks.Network.AddSegment | engine/network/network.rs:114-135 | a new segment under a fresh id, listed as outgoing at its start and incoming at its end |
| Networks.Network.RemoveJunction | engine/network/network.rs:173-181 | removes the junction; the source asserts that none of its segments exist |
| Networks.Network.RemoveSegment | engine/network/network.rs:183-190 | removes the segment and its id from both endpoint junctions |
| Networks.Network.EditSegment | engine/network/change_state.rs:266-273 | stages the edit and lists the fork at both endpoints |
| Networks.Network.ApplyChangeSet | engine/network/change_state.rs:275-278 | applies both change sets |
| Networks.Network.ClearChangeSet | engine/network/change_state.rs:280-288 | segments first, then junctions: the result is `Cleared` of the old state, and consistent |
| Networks.Network.AdvanceTombstones | engine/network/change_state.rs:290-298 | segments first, then junctions: the result is `AdvancedStore` of the old state, and consistent |
| Networks.Network.CountListIssues | engine/network/network.rs:226-265 | counts the listed segments that are missing or disagree, zero exactly when all agree |
| Networks.Network.CountEndIssue | engine/network/network.rs:268-318 | one issue exactly when an endpoint is missing, does not list the segment, or is inactive under an active segment |
| Networks.Network.Validate | engine/network/network.rs:205-325 | the least mismatching key is reported first; otherwise it passes exactly when the network is sound, and else reports the issue count |
| Triggers.OrderTotal | engine/trigger.rs:18-29 | the (time, trigger) order is total and asymmetric, so the heap's reversed maximum is one entry |
| Triggers.MinUnique | engine/trigger.rs:18-29 | the least queued entry is unique |
| Triggers.Spawned | engine/trigger.rs:68-73 | a trigger's follow-ups are each queued at the trigger's time plus their delay |
| Triggers.SpawnedFromAt | engine/trigger.rs:68-73 | the i-th follow-up is its trigger at the current time plus its delay |
| Triggers.TriggerQueue.constructor | engine/trigger.rs:48-54 | an empty queue at time 0 |
| Triggers.TriggerQueue.Push | engine/trigger.rs:56-66 | the source asserts the time is not in the past; the entry is queued and no queued time lies before the clock |
| Triggers.TriggerQueue.PushRel | engine/trigger.rs:68-73 | the entry is queued at the current time plus the delay |
| Triggers.TriggerQueue.Len | engine/trigger.rs:75-77 | the number of queued entries |
| Triggers.TriggerQueue.Peek | engine/trigger.rs:129-133 | None exactly on an empty queue, else the least entry |
| Triggers.TriggerQueue.Pop | engine/trigger.rs:107 | removes exactly one copy of the least entry and returns it |
| Triggers.TriggerQueue.SingleStep | engine/trigger.rs:106-127 | pops the least entry, which is not in the past, and moves the clock to its time |
| Triggers.TriggerQueue.Execute | engine/trigger.rs:106-127 | running a trigger keeps the clock and queues exactly its follow-ups; it fails, as `execute(...)?` returns `Err`, exactly when the trigger is one of the failing ones |
| Triggers.TriggerQueue.AdvanceTriggerQueue | engine/trigger.rs:84-104 | the clock never goes back and ends at the target when the loop finishes, with nothing queued due by then; triggers run in time order within the step; what ran plus what is queued is what was queued plus what ran added; the loop stops at the first failing trigger, which is the last one run, as `single_step()?` returns early; otherwise it ran out of budget after exactly `budget` triggers |
| Triggers.TriggerQueue.RunNext | engine/trigger.rs:106-127 | `single_step` pops the least entry, which is not in the past, moves the clock to it and queues its follow-ups; it fails exactly for a failing trigger |
| Triggers.TriggerQueue.RunUntil | engine/trigger.rs:88-101 | the loop towards a fixed target: sorted times between the start and the clock; conservation of triggers; it finishes at the target with nothing due, stops right after the first failing trigger, or has run exactly `budget` triggers |
| Triggers.TriggerQueue.AdvanceStep | engine/trigger.rs:89-100 | one turn of the loop either finishes at the target, changing nothing else, or runs exactly one more trigger at the clock and keeps the loop's invariant |
| Triggers.SucceededAppend | engine/trigger.rs:100 | a run of triggers has no failure exactly when the run before the last one has none and the last one does not fail |
| Triggers.DoublingRound | engine/behavior.rs:672-677 | one update of a queue of doubling triggers due in one second runs exactly those and leaves twice as many due a second later |
| Triggers.Observed | engine/trigger.rs:199-208 | counts one more value and adds it and its square; min and max take it in; None exactly when a u128 would overflow |
| Triggers.ObserveAllSummarises | engine/trigger.rs:199-208 | observing values from `new` counts them, sums them and their squares, and holds their least and greatest value |
| Triggers.Mean | engine/trigger.rs:210-216 | None exactly with no observations; otherwise the mean times the count is the sum |
| Triggers.Variance | engine/trigger.rs:218-227 | None exactly with fewer than two observations; otherwise the mean square less the squared mean |
| Triggers.VarianceNonNegative | engine/trigger.rs:218-227 | the variance of observed values, taken exactly, is never negative |
| Triggers.IncrementalStats.constructor | engine/trigger.rs:195-197 | the empty statistics |
| Triggers.IncrementalStats.Observe | engine/trigger.rs:199-208 | the statistics become `Observed` of the old ones |
| Schedules.FixedFrequency | engine/metro/schedule.rs:16-19 | the frequency must be positive and is stored |
| Schedules.NextDeparture | engine/metro/schedule.rs:21-29 | a multiple of the frequency strictly after the current time, at most one period later |
| Schedules.NextDepartureIsEarliest | engine/metro/schedule.rs:21-29 | no departure lies after the current time and before the next departure |
| Schedules.ExpectedWaitingTime | engine/metro/schedule.rs:31-36 | half the frequency, rounded down |
| Schedules.FixedFrequencyExamples | engine/metro/schedule.rs:43-53 | the test values for a departure every 60 seconds |
| Railways.TimingConfigOf | engine/metro/railways.rs:49-78 | the maximum speed is the smaller of the line's and the segment's limit (u32::MAX without one); speed 0 at a station end, the maximum otherwise; acceleration 1.5; the tile size passed through |
| Metros.ReversedSwapsEnds | engine/metro/metros.rs:33-49 | a reversed segment's start is its end and the other way round |
| Metros.FirstForward | engine/metro/metros.rs:217-236 | the first segment runs towards the second; an error exactly when the two do not touch |
| Metros.Step | engine/metro/metros.rs:238-269 | one round pushes the next segment, preceded by the previous one reversed at a dead end; an error when it does not touch |
| Metros.OrientSegments | engine/metro/metros.rs:208-282 | the loop returns what `Orient` specifies |
| Metros.OrientShortLines | engine/metro/metros.rs:274-282 | no segments give no line; one segment gives it forward |
| Metros.OrientConnected | engine/metro/metros.rs:177-195 | a line `orient_segments` produces has every segment end where the next one starts |
| Metros.OrientKeepsInput | engine/metro/metros.rs:238-273 | the output holds the input segments in order, the only extras being turnarounds of the previous entry |
| Metros.LineJunctions | engine/metro/metros.rs:95-103 | each segment's start junction, then the last segment's end junction |
| Metros.JunctionsOfConnected | engine/metro/metros.rs:95-103 | on a continuous line consecutive junctions are the ends of the segment between them |
| Metros.WithLineSpec | engine/metro/metros.rs:148-153 | recording a line adds its id to exactly the sets of its segments |
| Metros.Metros.constructor | engine/metro/metros.rs:120-123 | no lines and counter 0 |
| Metros.Metros.AddMetroLine | engine/metro/metros.rs:139-160 | the counter is the id and moves on; every segment's set gains the id; the line is stored with its segments oriented |
| Metros.Metros.RailwaySegmentMetroLines | engine/metro/metros.rs:166-174 | the lines through the segment; the empty set for a segment no line uses |
| Metros.Metros.Validate | engine/metro/metros.rs:177-195 | passes exactly when every line is continuous |
| AgentDatas.DegreeThresholds | engine/agent/agent_data.rs:13-26 | the degree is the one whose threshold (12, 16, 17, 20 years) is reached while the next one's is not |
| AgentDatas.DegreeMonotone | engine/agent/agent_data.rs:13-26 | more schooling never earns a lower degree |
| AgentDatas.DegreeOrder | engine/agent/agent_data.rs:166-172 | the degrees are ordered as declared |
| AgentDatas.AgeBrackets | engine/agent/agent_data.rs:49-64 | seniors are adults, working age excludes seniors |
| AgentDatas.EducationDegreeOf | engine/agent/agent_data.rs:96-98 | the degree the agent's years of education earn |
| AgentDatas.AgeOf | engine/agent/agent_data.rs:82-94 | None exactly for the u32 underflow the source panics on |
| AgentDatas.AgeCountsBirthdays | engine/agent/agent_data.rs:82-94 | the age is the number of birthdays reached by the date |
| AgentDatas.AgeExamples | engine/agent/agent_data.rs:136-164 | the test values for a birthday on 2000-02-15 |
| States.SplitChildren | engine/state/state.rs:149-171 | the old tile in one quadrant, the new tile created now in another, empty leaves elsewhere |
| States.InsertTile | engine/state/state.rs:130-189 | an empty leaf takes the tile in place; another leaf is split into the old and new tiles; at the maximum depth nothing changes and no address is returned |
| States.InsertTileSplitReads | engine/state/state.rs:173-183 | after a split the returned addresses read back the old and the new tile, the other children are empty |
| States.CollectLeavesSpec | engine/state/state.rs:230-249 | feeding leaves to the visitor counts them and lists the matching ones in order |
| States.CollectLeafSelects | engine/state/state.rs:230-249 | a leaf goes onto a list exactly when it is of that list's kind; vacant means fewer agents than the density |
| States.CollectTilesSpec | engine/state/state.rs:211-249 | over a whole tree `total` is the number of leaves and each list holds exactly the leaves of its kind |
| States.LeavesFound | engine/state/state.rs:230-249 | every listed address leads to a leaf of that list's kind |
| States.LeavesListed | engine/state/state.rs:211-249 | every leaf of a kind is listed by its address |
| States.State.constructor | engine/state/state.rs:75-85 | a single default leaf and nothing collected |
| States.State.UpdateCollectTiles | engine/state/state.rs:87-91 | clears the visitor and collects over the whole tree |
| Consistency.InsertAllSpec | engine/consistency.rs:221-244 | recording a tile's agents fails, with a TileError, exactly when an agent was recorded before |
| Consistency.FindStepSpec | engine/consistency.rs:208-249 | one leaf passes exactly when it is within its density and lists no agent already seen |
| Consistency.FindAgentsSpec | engine/consistency.rs:208-249 | the tile visit succeeds exactly when every tile is within its density and no agent is listed twice by tiles of one kind |
| Consistency.ListedTwiceRejected | engine/consistency.rs:221-244 | an agent listed by two tiles of one kind makes the visit fail |
| Consistency.FindAgentsTree | engine/consistency.rs:38-44 | visiting the tree with `FindAgentVisitor` succeeds exactly when its tiles are consistent |
| Consistency.AgentMismatchSpec | engine/consistency.rs:46-103 | an agent passes exactly when its key is its id and its housing (and workplace) tile lists it |
| Consistency.CheckAgents | engine/consistency.rs:46-106 | passes exactly when every agent agrees with the tiles; a failure is some agent's first failing check |
| Consistency.AgentHousingWorkplaceConsistencyCheck | engine/consistency.rs:38-108 | the tile visit first, then the agent loop; passes exactly when both sides are consistent |
| Consistency.ConsistencyCheck | engine/consistency.rs:31-36 | the first failing check is the result |
| Engines.TriggerRankOrder | engine/behavior.rs:38-54 | ranks compare as the (variant, payload) pairs of the derived order |
| Engines.SaturatingCast | engine/engine.rs:250 | the float-to-u64 cast truncates and saturates |
| Engines.TargetStep | engine/engine.rs:245-247 | how far the target lies ahead, 0 when it does not |
| Engines.TimeStep | engine/engine.rs:248-256 | paused: the catch-up step; otherwise the largest of the playback step, the catch-up step and 1 |
| Engines.CommuteStep | engine/engine.rs:233-237 | one more agent's commute entry extends the pushed entries in order |
| Engines.PushCommutes | engine/engine.rs:233-237 | one `AgentPlanCommuteToWork` at 8 am is queued per agent, each once |
| Engines.Admit | engine/engine.rs:79-115 | pushing an agent on one tile keeps the tree well formed |
| Engines.AdmitReads | engine/engine.rs:79-115 | pushing an agent on one tile changes that leaf only |
| Engines.Register | engine/engine.rs:79-115 | the tree becomes `Registered` of the old one |
| Engines.RegisteredReads | engine/engine.rs:79-115 | registration appends the id to exactly the housing and workplace tiles |
| Engines.RegisteredKeepsConsistent | engine/engine.rs:70-121 | registering a fresh id keeps every agent consistent with the tiles, and the new agent is listed by its tiles |
| Engines.Engine.constructor | engine/engine.rs:42-52 | a fresh state, no agents, an empty queue, paused |
| Engines.Engine.AddAgent | engine/engine.rs:70-121 | the counter is the id; both tiles must have room and gain the id; the agent is stored at its housing |
| Engines.Engine.InitTriggerQueue | engine/engine.rs:228-239 | pushes a tick and one commute per agent only when the clock is at 0 |
| Engines.Engine.Update | engine/engine.rs:241-260 | the step is the paused or unpaused time-step rule on the rate step and the catch-up step; a zero step changes nothing; a positive step advances the queue with everything `advance_trigger_queue` promises, including the early stop at a failing trigger |
| Engines.DoublingExample | engine/engine.rs:264-287 | the `doubling_trigger` test: 2, 4, ..., 64 queued entries after six updates |
| Engines.DoublingUpdate | engine/engine.rs:264-287 | one update doubles a queue of doubling triggers |
| LegacyStates.DefaultColor | engine/metro/color.rs:23-30 | a palette colour: the entry at the id modulo six |
| LegacyStates.DefaultColorCycles | engine/state.rs:157-160 | the palette repeats every six lines, and two lines share a default colour exactly when their ids agree modulo six |
| LegacyStates.LineColor | engine/state.rs:157-160 | the given colour, or the palette's for the id when none is given |
| LegacyStates.ListLeavesSpec | engine/state.rs:325-333 | feeding leaves to `visit_leaf` appends exactly the housing and the workplace addresses, in order |
| LegacyStates.ListTilesSpec | engine/state.rs:303-333 | over a whole tree the lists hold exactly the housing and the workplace leaves, each leading to a leaf of its kind |
| LegacyStates.LegacyState.constructor | engine/state.rs:77-91 | a single default leaf, no lines, no agents, counters at 0 |
| LegacyStates.LegacyState.AddMetroLine | engine/state.rs:148-172 | the counter is the handle and moves on; the line is stored under it with the given or the default colour |
| LegacyStates.LegacyState.AddAgent | engine/state.rs:174-211 | the counter is the id; both tiles must have room and gain the id; the agent is stored and every agent stays consistent with the tiles |
| LegacyStates.LegacyState.UpdateCollectTiles | engine/state.rs:115-119 | clears both lists, then lists the tiles of the whole tree |
| FieldBlurs.WrappingAdd | engine/field_update.rs:333 | the `+=` on a u8 as a release build performs it: the sum modulo 256 |
| FieldBlurs.CoordsRoundTrip | engine/field_update.rs:218-224 | decoding the index of a block whose column is inside the row gives the block back (the same helpers sit at engine/field_blur.rs:7-13) |
| FieldBlurs.IndexRoundTrip | engine/field_update.rs:218-224 | for a positive dim, the decoded column is inside the row and encoding the decoded block gives the index back |
| FieldBlurs.IndexInBuffer | engine/field_update.rs:218-220 | a block inside the grid has an index inside the dim² buffer |
| FieldBlurs.FilledWide | engine/field_update.rs:315-327 | after a wide leaf every index one of its rows fills holds the value and every other index is unchanged |
| FieldBlurs.NarrowIndex | engine/field_update.rs:331-332 | the index of a narrow leaf is inside the buffer and decodes to the block holding the leaf's corner |
| FieldBlurs.NarrowAddsOnce | engine/field_update.rs:328-335 | a narrow leaf adds the raw value, modulo 256, to its one block and changes no other index |
| FieldBlurs.CoveredBlocks | engine/field_update.rs:315-327 | the rows of a wide leaf fill exactly the blocks it overlaps: every row of blocks its tile rows pass through, from its first block's column up to the column where it ends |
| FieldBlurs.Apply | engine/field_update.rs:312-335 | `apply` in place on the buffer: a loop over the leaf's tile rows filling each row's index range, or one addition for a narrow leaf; the buffer ends as the specification says |
| FieldBlurs.RowBounds | engine/field_update.rs:318-325 | the start and end index of a row of a leaf inside the grid, with start ≤ end ≤ dim², so the slice `fill` never panics |
| FieldBlurs.ApplyLeaves | engine/field_update.rs:353-356 | the input pass applies each visited leaf in turn |
| FieldBlurs.OutputIndex | engine/field_update.rs:390-401 | the index the output visitor reads is inside the buffer and is the block holding the leaf's centre |
| FieldBlurs.SampledTile | engine/field_update.rs:50-64 | a sampled tile lies in the drawn block, and inside the grid when the index is inside the buffer |
| FieldBlurs.SampledTileInBlock | engine/field_update.rs:50-64 | reading the buffer at a sampled tile reads the block that was drawn |
| FieldBlurs.BlurredField.constructor | engine/field_update.rs:13-19 | the default field: an empty buffer, zero dimensions, nothing cached |
| FieldBlurs.BlurredField.ResetBuffer | engine/field_update.rs:258-264 | the buffer has the wanted length and is all zeros; it is the same buffer when the length was already right and a new one otherwise |
| FieldBlurs.FillZeros | engine/field_update.rs:263 | `fill(0)` leaves every element zero |
| FieldBlurs.BlurredField.PerformFieldBlur | engine/field_update.rs:240-296 | after the input pass the buffer holds the leaves applied to dim² zeros, and dim, downsample and the dropped cache are stored |
| FieldBlurs.NewBuffer | engine/field_blur.rs:42-44 | the earlier version allocates a fresh zeroed buffer of length dim² on every call |
| FieldBlurs.ScaledValueAsWritten | engine/field_update.rs:330 | the unused `scaled_value` panics exactly when the square of `downsample - width + 1` is a multiple of 256 |
| FieldBlurs.ScaledValuePanics | engine/field_update.rs:330 | with 16-tile or 128-tile blocks a leaf of width 1 makes that division panic |
| Routes.StepsChain | engine/route/route.rs:66-82 | `iter` needs one node more than edges; its steps chain from the first node to the last, each ending where the next starts, with the edges in order |
| Routes.ConnectorAsWritten | engine/route/route.rs:302-315 | as written: a zero-length segment exactly when the first route's end mode equals the second route's end mode, otherwise a transition from the first's end mode to the second's start mode at the first route's end |
| Routes.ConnectorAsWrittenMismatch | engine/route/route.rs:302-315 | as written, a walk joined to a route that starts on foot and ends in a car gets a transition from walking to walking, and one joined to a route starting in a car and ending on foot gets a walking segment |
| Routes.Connector | engine/route/route.rs:302-315 | the corrected connector: a zero-length segment in the shared mode exactly when the modes meeting at the joint agree, otherwise a transition between two different modes at the first route's end |
| Routes.JoinSteps | engine/route/route.rs:317-318 | the joined route keeps the node-edge count, and its steps are the first route's steps, one step over the connector from the first route's last node to the second's first node, then the second route's steps |
| Routes.Route.constructor | engine/route/route.rs:45-64 | a route holds the given nodes, edges, cost, query and modes |
| Routes.Route.Join | engine/route/route.rs:295-335 | requires the first route to end where the second starts; the joined route's nodes and edges are the concatenations with the connector between, its query runs from the first start to the second end with the first car configuration, costs add, bounds combine, and the modes come from the outer ends |
| Routes.PatchNodeSpec | engine/route/route.rs:346-353 | an endpoint or parking node at the old tile moves to the new tile; every other node is unchanged |
| Routes.PatchEdgeSpec | engine/route/route.rs:354-364 | a mode transition, or the station of a boarding or alighting edge, at the old tile moves to the new tile with everything else kept; every other edge is unchanged |
| Routes.PatchRemovesOldTile | engine/route/route.rs:337-374 | after patching to a different tile, no patchable node or edge and neither end of the query refers to the old tile |
| Routes.PatchIdempotent | engine/route/route.rs:337-374 | patching twice with the same tiles is patching once |
| Routes.Route.PatchTile | engine/route/route.rs:337-374 | in place: the nodes, edges and query become their patched versions and cost, bounds and modes stay |
| Traffic.NewWorldState | engine/route/traffic.rs:21-23 | a new world state reports 0 travellers for every key of every kind |
| Traffic.TallyCounts | engine/route/traffic.rs:38 | counting keys one by one with `entry(k).or_insert(0) += 1` leaves each key's entry at its start value plus the number of times it occurs, and a key has an entry exactly when it was there or occurs |
| Traffic.TallyAppend | engine/route/traffic.rs:34-67 | counting two key sequences one after the other is counting their concatenation |
| Traffic.TrafficCounts | engine/route/traffic.rs:77-99 | each getter reports the number of times its key occurs over all the routes: highway edges by segment, metro segments by line and stations, highway junctions and ramps by junction, metro stations by address |
| Traffic.TrafficAdditive | engine/route/traffic.rs:25-75 | the counts of two lists of routes taken together are the sums of their separate counts, so the order of the routes does not matter |
| Traffic.CountEdges | engine/route/traffic.rs:35-52 | the edge loop counts exactly the highway and the metro segment keys of the route's edges |
| Traffic.CountNodes | engine/route/traffic.rs:53-66 | the node loop counts exactly the junction keys of highway junctions and ramps and the addresses of metro stations |
| Traffic.FromRoutes | engine/route/traffic.rs:25-75 | every route must have one node more than edges; the four tallies are those of all the routes' keys, route after route |
| HighwayValidation.IndexSpec | engine/highway/validate.rs:19-27 | the id map holds exactly the ids of the segments, and with unique ids each id maps to its own segment |
| HighwayValidation.FirstDuplicateSpec | engine/highway/validate.rs:19-27 | the first loop finds no duplicate exactly when the ids are unique, and a duplicate it reports is an id of the list |
| HighwayValidation.CheckRefsSpec | engine/highway/validate.rs:32-59 | checking one reference list fails on a missing id exactly when some reference is not a known id, and reports no issue exactly when every referenced segment lists this one back |
| HighwayValidation.SegmentIssuesSpec | engine/highway/validate.rs:32-59 | one segment's pred and succ checks fail exactly when a reference is missing and report no issue exactly when both lists are resolved and answered |
| HighwayValidation.IssuesSpec | engine/highway/validate.rs:31-60 | the second loop fails exactly when some segment has a missing reference and counts zero issues exactly when every segment is clean |
| HighwayValidation.CleanIffSpec | engine/highway/validate.rs:31-60 | with unique ids, every reference resolving is the same as every referenced id existing, and then every segment being clean is the same as pred and succ mirroring each other |
| HighwayValidation.ValidationSpec | engine/highway/validate.rs:4-64 | validation passes exactly when ids are unique, every reference exists and pred and succ mirror each other; a duplicate, a missing id and a non-zero issue count are each reported exactly in their case, in that order of precedence |
| HighwayValidation.IndexSegments | engine/highway/validate.rs:19-27 | the first loop stops at the first duplicate id, and otherwise builds the id map |
| HighwayValidation.CountRefs | engine/highway/validate.rs:32-45 | the inner loop counts the references that are not listed back, stopping at the first missing id |
| HighwayValidation.SegmentTurn | engine/highway/validate.rs:32-59 | one turn of the outer loop: the pred references, then the succ references |
| HighwayValidation.CountIssues | engine/highway/validate.rs:31-60 | the outer loop computes the issue total over all segments, or the first missing id |
| HighwayValidation.ValidateHighwaySegments | engine/highway/validate.rs:15-65 | the two loops together give the validation outcome: passed, a duplicate key, a missing id, or the number of issues |
| BaseGraphs.FindMappedSpec | engine/route/base_graph.rs:146-149 | `find_map` finds nothing exactly when no listed id is mapped, and otherwise returns the node of the first listed id that is mapped |
| BaseGraphs.RegisterAll | engine/route/base_graph.rs:168-170 | the insertion loop maps every listed id to the new node and leaves every other entry as it was |
| BaseGraphs.EndNodeSpec | engine/route/base_graph.rs:145-175 | a successor already mapped gives its node and changes nothing; otherwise an empty key list is the only failure, and a new node at the last key is appended, every successor maps to it and so does the segment's own id in the out map |
| BaseGraphs.StartNodeSpec | engine/route/base_graph.rs:177-204 | the mirror image for the start: a predecessor already in the out map gives its node; otherwise a new node at the first key, every predecessor maps to it in the out map and the segment's id in the in map |
| BaseGraphs.AddSegmentSpec | engine/route/base_graph.rs:133-214 | a segment the filter drops changes nothing; an accepted one appends one edge carrying its id and at most two nodes, keeping the old nodes and edges; it fails only on an accepted segment with no keys |
| BaseGraphs.BuildAllSpec | engine/route/base_graph.rs:131-214 | the built graph has one edge per accepted segment, in order and carrying its id, at most two nodes per accepted segment, and every edge and map entry names an existing node; a failure means some accepted segment has no keys |
| BaseGraphs.BuildAllSucceeds | engine/route/base_graph.rs:131-214 | when every accepted segment has keys, the build succeeds |
| BaseGraphs.FilteredOutAddsNothing | engine/route/base_graph.rs:134-143 | when the filter drops every segment, the graph is empty |
| BaseGraphs.FindOrMakeEnd | engine/route/base_graph.rs:145-175 | the end-node step as in EndNodeSpec, with the registration loop |
| BaseGraphs.FindOrMakeStart | engine/route/base_graph.rs:177-204 | the start-node step as in StartNodeSpec, with the registration loop |
| BaseGraphs.ConstructHighwayGraph | engine/route/base_graph.rs:42-53 | the highway half of `construct_base_graph`: validation first when asked for, then the segment loop; its graph is the one the specification builds |
| BaseGraphs.AddSegmentShape | engine/route/base_graph.rs:145-214 | on an accepted segment with keys, the node count grows by one for each end not found and the key sets of the two maps grow as the lookups dictate |
| BaseGraphs.BuildAllShape | engine/route/base_graph.rs:131-214 | without a filter and with non-empty segments, the graph's node and edge counts are those of the step-by-step shape run |
| BaseGraphs.TestSegmentsValid | engine/route/base_graph.rs:293-318 | test segments numbered by position whose references are positions and mirror each other pass validation |
| BaseGraphs.TestGraph | engine/route/base_graph.rs:293-318 | a valid list of non-empty test segments builds a graph whose counts are those of the shape run |
| BaseGraphs.EmptyAndOneExamples | engine/route/base_graph.rs:321-340 | no segments give no nodes and no edges; one lone segment gives two nodes and one edge |
| BaseGraphs.SimpleExample | engine/route/base_graph.rs:342-351 | two chained segments give three nodes and two edges |
| BaseGraphs.ChainExample | engine/route/base_graph.rs:353-366 | a chain of six segments gives seven nodes and six edges |
| BaseGraphs.BranchingExample | engine/route/base_graph.rs:368-382 | a split into two parallel branches that merge again gives six nodes and six edges |
| GenQuadtrees.Quadtree.constructor | generate/quadtree.py:16-19 | a new node has the given maximum depth and payload and no children |
| GenQuadtrees.Quadtree.AddChildren | generate/quadtree.py:21-24 | four new child objects are appended after the existing ones, each one level shallower and holding a payload from `data_f`; the old children are kept |
| GenQuadtrees.Quadtree.FillTo | generate/quadtree.py:26-39 | in place, with every child object owning its own nodes: the tree becomes its filled value |
| GenQuadtrees.Quadtree.FillChildren | generate/quadtree.py:38-39 | the loop fills every child one level less deep and leaves the node's own fields alone |
| GenQuadtrees.Quadtree.Fill | generate/quadtree.py:26-29 | a missing depth means the node's maximum depth |
| GenQuadtrees.FilledAt | generate/quadtree.py:26-39 | every node that was there is still there; a payload it had is kept and a missing one is made only within the fill depth; a childless node above the depth gains four children; nodes below the depth are untouched |
| GenQuadtrees.FilledIdempotent | generate/quadtree.py:26-39 | filling twice with the same payload and depth is filling once |
| GenQuadtrees.FilledBlankFull | generate/quadtree.py:33-39 | filling a childless node to depth d gives four children at every level above d, none at d, and a payload everywhere |
| GenQuadtrees.FullSize | generate/quadtree.py:33-39 | such a perfect tree has (4^(d+1) - 1) / 3 nodes |
| GenQuadtrees.FullFourWay | generate/quadtree.py:42 | a perfect tree satisfies `convolve`'s assertion at every node |
| GenQuadtrees.Quadtree.ConvolveInternal | generate/quadtree.py:41-52 | the walk from a node hands out exactly the positions of the walk specification, or fails where a node has neither zero nor four children |
| GenQuadtrees.Quadtree.Convolve | generate/quadtree.py:54-56 | the walk starts at (0, 0), depth 0 and the empty address |
| GenQuadtrees.VisitsDefined | generate/quadtree.py:41-42 | the walk completes exactly when every node has zero or four children |
| GenQuadtrees.VisitsSize | generate/quadtree.py:44-52 | a completed walk hands out one position per node, with the node's own position first without `post` and last with it |
| GenQuadtrees.VisitsSameMultiset | generate/quadtree.py:46-52 | the walks with and without `post` complete together and hand out the same positions |
| GenQuadtrees.VisitsBelow | generate/quadtree.py:48-50 | every position handed out extends the starting address, one index per level of depth |
| GenQuadtrees.VisitsDistinct | generate/quadtree.py:48-50 | no address is handed out twice |
| Layers.GetName | generate/layer.py:70-72 | the name has the class name's length and its letters in lower case, with no upper-case letter left |
| Layers.GetNameIdempotent | generate/layer.py:70-72 | lower-casing a name twice is lower-casing it once |
| Layers.GetNodeData | generate/layer.py:27-34 | the layer's entities, or none when the node has no entry for it |
| Layers.CountUpdate | generate/layer.py:46-54 | replacing one layer's entry changes the number of entities over all layers by the new list's length minus the old one's |
| Layers.SetNodeData | generate/layer.py:36-54 | the entry becomes the entities with their priority, the counter loses the old entities and gains the new ones, nothing changes it when there is no statistics object, and a counter that counted all entities still does |
| Layers.ClearNodeData | generate/layer.py:56-68 | the entry becomes empty with no priority, the counter loses the old entities, a following read gives none, and a counter that counted all entities still does |
| Terrains.NameIsTerrain | generate/layer.py:70-72 | the water layer's name is `terrain` |
| Terrains.Initialize | generate/terrain.py:11-18 | the value 210 stores water with priority 100, any other value dry land with priority -100 |
| Terrains.NodeHasWater | generate/terrain.py:23-24 | the node's first flag, and nothing when it has none |
| Terrains.Flags | generate/terrain.py:27-28 | every child's flag in order, or the first child without one |
| Terrains.Merge | generate/terrain.py:26-31 | when every child's flag equals the first child's, each child is cleared and the parent takes the flag with priority 100 or -100, keeping every counter correct; when they disagree nothing changes; no children or a child without a flag is an error that changes nothing |
| Terrains.ClearChildren | generate/terrain.py:29-30 | the loop clears every child's entry and takes its entities off its counter |
| Terrains.Finalize | generate/terrain.py:33-37 | water becomes a `WaterTile` and dry land an `EmptyTile`, neither with fields |
| Terrains.Fuse | generate/terrain.py:39-41 | fusing water tiles always fails |
| GenAgents.NodeSlots | generate/agents.py:40-52 | a housing tile offers `density` homes and a workplace tile `density` jobs (none for a negative density), any other node nothing; a housing or workplace tile without a density fails |
| GenAgents.CountTiles | generate/agents.py:37-54 | the loops over the walk append each node's homes and jobs in the walk's order, or fail where a tile lacks its density |
| GenAgents.AppendCopies | generate/agents.py:48-52 | the inner loop appends exactly `density` copies of the node's address |
| GenAgents.TallyDefined | generate/agents.py:40-52 | the tally fails exactly when some housing or workplace tile has no density |
| GenAgents.TallyMultiplicity | generate/agents.py:40-52 | over a walk with distinct addresses, each node's address is a home exactly as many times as its housing density and a job exactly as many times as its workplace density |
| GenAgents.TallyAbsent | generate/agents.py:40-52 | an address the walk never visits is neither a home nor a job |
| GenAgents.AddWorking | generate/agents.py:67-71 | the first loop pops one drawn home and one drawn job per working agent, as the draws dictate |
| GenAgents.WorkingShape | generate/agents.py:56-71 | there is one working agent per draw, all with a job and the same agent data, and the homes left are the others |
| GenAgents.WorkingHomes | generate/agents.py:67-68 | every home is either given to a working agent or left over, exactly once |
| GenAgents.WorkingJobs | generate/agents.py:69 | the jobs given are among the workplaces, none used twice, one per working agent |
| GenAgents.AddNonWorking | generate/agents.py:76-79 | the second loop adds one agent without a job per home left, in order |
| GenAgents.WorkingThenUnemployed | generate/agents.py:67-79 | together the two loops satisfy `Assigned`: as many agents as homes, every home used once, the first min(#homes, #jobs) with a job, no job used twice |
| GenAgents.AssignAgents | generate/agents.py:56-79 | the assignment satisfies `Assigned` for every valid sequence of random draws |
| GenAgents.ModifyState | generate/agents.py:32-79 | `modify_state` fails exactly when the tally does and otherwise satisfies `Assigned` for the tallied homes and jobs |
| OsmPreprocess.AnyValue | generate/datasets/osm_preprocess.rs:27-29 | true exactly when the key is present with one of the values |
| OsmPreprocess.AnyKey | generate/datasets/osm_preprocess.rs:31-33 | true exactly when one of the keys is present with the value |
| OsmPreprocess.IsStation | generate/datasets/osm_preprocess.rs:36-41 | `railway=station` together with a `station` of subway, light_rail or train, or with `train=yes` |
| OsmPreprocess.IsStop | generate/datasets/osm_preprocess.rs:43-48 | `railway=stop`, `public_transport=stop_position`, and one of subway, light_rail or train set to yes |
| OsmPreprocess.IsSubway | generate/datasets/osm_preprocess.rs:50-53 | `railway` is subway, light_rail or rail |
| OsmPreprocess.IsHighway | generate/datasets/osm_preprocess.rs:55-62 | `highway` is motorway, trunk, motorway_link or trunk_link |
| OsmPreprocess.IsSubwayRouteMaster | generate/datasets/osm_preprocess.rs:64-68 | `type=route_master` with a `route_master` of subway, light_rail or train |
| OsmPreprocess.IsSubwayRoute | generate/datasets/osm_preprocess.rs:70-76 | `type=route` with a `route` of subway or light_rail, or `route=train` with a `passenger` of yes, urban, suburban or local |
| OsmPreprocess.TestsExclusive | generate/datasets/osm_preprocess.rs:101-125 | no tags are both a station and a stop, or both a route master and a route, while a way can be both a track and a highway |
| OsmPreprocess.WithoutMembers | generate/datasets/osm_preprocess.rs:129-146 | `retain` keeps exactly the entries whose id differs |
| OsmPreprocess.WithoutConcat | generate/datasets/osm_preprocess.rs:129-146 | `retain` works piece by piece, so the entries kept keep their order |
| OsmPreprocess.WithoutIdempotent | generate/datasets/osm_preprocess.rs:129-146 | removing an id twice is removing it once |
| OsmPreprocess.SortBySorted | generate/datasets/osm_preprocess.rs:90-99 | sorting by id gives a list in ascending order of ids holding the same entries |
| OsmPreprocess.Output.constructor | generate/datasets/osm_preprocess.rs:78-87 | the output starts with every list empty |
| OsmPreprocess.Output.Sort | generate/datasets/osm_preprocess.rs:90-99 | every list is replaced by its sorted version |
| OsmPreprocess.Output.AddNode | generate/datasets/osm_preprocess.rs:101-107 | a station is appended to the stations, otherwise a stop to the stops, otherwise nothing changes; no other list changes |
| OsmPreprocess.Output.AddWay | generate/datasets/osm_preprocess.rs:109-117 | a track is appended to the subways, otherwise a highway to the highways; only a kept way's nodes become keypoint ids |
| OsmPreprocess.Output.AddRelation | generate/datasets/osm_preprocess.rs:119-125 | a route master is appended to the route masters, otherwise a route to the routes |
| OsmPreprocess.Output.Remove | generate/datasets/osm_preprocess.rs:129-146 | every entry with the id leaves the two lists of its kind; the other lists, the keypoints among them, are unchanged |
| OsmHandlers.TagMatches | generate/datasets/open_street_map_preprocess.py:65-75 | a missing tag never matches; a string test is equality and a tuple test membership |
| OsmHandlers.Matches | generate/datasets/open_street_map_preprocess.py:59-77 | true exactly when every keyword's test accepts that tag, so true with no keywords and false when a tag a keyword asks about is missing |
| OsmHandlers.SameWayTestsAsRust | generate/datasets/open_street_map_preprocess.py:79-88 | the track and highway tests accept the same tags as the Rust preprocessor's |
| OsmHandlers.SameNodeTestsAsRust | generate/datasets/open_street_map_preprocess.py:90-111 | the station and stop tests accept the same tags as the Rust preprocessor's |
| OsmHandlers.SameRelationTestsAsRust | generate/datasets/open_street_map_preprocess.py:116-131 | the route master and route tests accept the same tags as the Rust preprocessor's |
| OsmHandlers.Handler.constructor | generate/datasets/open_street_map_preprocess.py:28-32 | every list starts empty |
| OsmHandlers.Handler.Way | generate/datasets/open_street_map_preprocess.py:79-88 | a track is appended to the subways and, independently, a highway to the highways |
| OsmHandlers.Handler.Node | generate/datasets/open_street_map_preprocess.py:90-111 | a station is appended to the stations and, independently, a stop to the stops |
| OsmHandlers.Handler.Relation | generate/datasets/open_street_map_preprocess.py:116-131 | a route master is appended to the route masters, otherwise a route to the routes |
| OsmHandlers.Handler.ToJson | generate/datasets/open_street_map_preprocess.py:133-138 | one entry per name in `FIELDS`, each holding that list |
| OsmHandlers.WayInBoth | generate/datasets/open_street_map_preprocess.py:79-88 | a way tagged both as a subway track and as a motorway passes both tests, so it lands in both lists |
| OsmHandlers.NodeNeverBoth | generate/datasets/open_street_map_preprocess.py:90-111 | no node passes both the station and the stop test, since they want different `railway` values |
| SfCleaner.Contains | maps/cleaners/sf.py:3 | Python's substring test: true exactly when the text occurs at some index |
| SfCleaner.FilterSubwayRoute | maps/cleaners/sf.py:1-6 | false exactly when the name contains "Altamont Corridor Express"; a route without a name fails |
| SfCleaner.KeptDefined | maps/cleaners/sf.py:9-14 | cleaning succeeds exactly when every route has a name |
| SfCleaner.KeptMembers | maps/cleaners/sf.py:9-14 | a route survives exactly when it was there and passes the filter |
| SfCleaner.KeptConcat | maps/cleaners/sf.py:9-14 | filtering works piece by piece, so the survivors keep their relative order |
| SfCleaner.KeptIdempotent | maps/cleaners/sf.py:9-14 | cleaning twice is cleaning once |
| SfCleaner.Osm.Metros | maps/cleaners/sf.py:9-14 | the list in place becomes the surviving routes; when a route has no name the list is left as it was |
| PyText.Strip | generate/highways.py:49 | the stripped text neither starts nor ends with white space, and text without white space is left alone |
| PyText.Split | generate/highways.py:30 | a split has at least one piece and no piece holds the separator |
| PyText.JoinSplit | generate/highways.py:30 | joining the pieces of a split with the separator gives the text back |
| PyText.SplitJoin | generate/highways.py:30 | splitting pieces joined by a separator they do not hold gives the pieces back |
| PyText.ParseInt | generate/highways.py:49 | `int(s, base)` succeeds only on text that is not blank after stripping |
| PyText.Show | generate/highways.py:49 | `str(n)` writes at least one digit of the base and has no leading zero except for 0 itself |
| PyText.ValueShow | generate/highways.py:49 | the digits `str` writes have the value written |
| PyText.ParseDigits | generate/highways.py:49 | plain digits with no sign and no base prefix read as their value |
| PyText.ParseShow | generate/highways.py:49 | `int` reads back every integer that `str` writes, negative ones included, in base 10 and 16 |
| PyText.ParseHex2 | generate/metros.py:66-68 | two hexadecimal digits read back as the byte they write |
| Points.RoundHalfEven | generate/highways.py:122 | `round` lands within one half of its argument, and on the even integer at a tie |
| Points.RoundNearest | generate/highways.py:122 | no integer is closer to the argument than its rounding |
| Points.Round6 | generate/highways.py:121-122 | rounding to six places moves a number by at most half a millionth |
| Points.Round6Idempotent | generate/highways.py:110-122 | rounding twice is rounding once |
| Points.RoundCoords | generate/highways.py:110-122 | each coordinate of the key lies within half a millionth of the point's |
| Points.RoundCoordsIdempotent | generate/highways.py:110-122 | a rounded point is its own key |
| Points.Round6Monotone | generate/highways.py:122 | rounding keeps the order of numbers |
| Points.RoundCoordsInBounds | generate/highways.py:260-262 | a point of the region rounds to a point of the region, so `get_junction_id`'s range assertions hold for rounded end points |
| Walks.OutgoingMembers | generate/network.py:157-167 | a way is listed as leaving a point exactly when it is one of the ways and starts there, or ends there and runs both ways |
| Walks.IncomingMembers | generate/network.py:157-167 | a way is listed as arriving at a point exactly when it is one of the ways and ends there, or starts there and runs both ways |
| Walks.KeyOrderDistinct | generate/network.py:172 | the index is iterated with each point once |
| Walks.KeyOrderMembers | generate/network.py:153-167 | the index has a point exactly when some way arrives there or leaves from there |
| Walks.AddIn | generate/network.py:164 | appending to a point's incoming list changes that list only and adds the point as a key |
| Walks.AddOut | generate/network.py:163 | appending to a point's outgoing list changes that list only and adds the point as a key |
| Walks.Register | generate/network.py:157-167 | one way is appended to the lists of its end points as its direction says, closed ways are skipped, and no other point changes |
| Walks.BuildCoordMap | generate/network.py:153-167 | every point maps to the ways arriving at it and leaving it, in input order; the keys are iterated in the order first touched |
| Walks.OriginsMembers | generate/network.py:171-175 | a point is an origin exactly when it is a key of the index and passes the rule (not one way in and one out, or for highways not two ways in all) |
| Walks.FindOrigins | generate/network.py:171-175 | the loop collects exactly the origins, in the index's order |
| Walks.BuiltListed | generate/network.py:257-263 | the way the walk follows next is always one of the input ways |
| Walks.CheckBounds | generate/network.py:237-243 | the coordinate loop finishes without `break` exactly when every point lies in the region |
| Walks.Reverse | generate/network.py:231 | a flipped way's coordinates are its own in reverse order |
| Walks.Walk | generate/network.py:208-266 | the loop returns what the recursive `Walked` gives; every run it hands to `add_segment` lies in the region, has data whenever it has points, and holds only ids of ways carrying that data; a walk that stops does so at a point without one way in and one out, and its runs then hold exactly the ids and the points of the ways taken that lie in the region, in order |
| Walks.TakenShape | generate/network.py:220-233 | each way the walk takes is taken as it is or reversed, has two points at least, and the first one is the start way leaving the origin |
| Walks.TakenChained | generate/network.py:257-263 | each way taken is followed by the single way leaving the point where it ends, which is the single way arriving there |
| Walks.WalkKeepsIds | generate/network.py:237-255 | when the walk stops, the ids of its runs are those of the runs before, the pending ids, and the ids of the ways taken inside the region, in order |
| Walks.WalkKeepsPoints | generate/network.py:237-255 | when the walk stops, the points of its runs are the earlier ones, the pending ones and the coordinates of the ways taken inside the region, in order |
| Walks.WalkRunsOk | generate/network.py:237-255 | every run the walk flushes lies in the region and carries the data of every way it holds |
| GenNetworks.MappedIffHeld | generate/network.py:85-86 | the way map has a key for a way exactly when an unsplit segment holds that way |
| GenNetworks.AddIdsSpec | generate/network.py:192-203 | entering a segment under its ways adds its position to exactly the sets of those ways |
| GenNetworks.EnterRun | generate/network.py:191-204 | the clash check finds a way already mapped exactly when there is one; otherwise every way gets the new segment |
| GenNetworks.AddKeeps | generate/network.py:203-206 | appending an unsplit segment entered under its ways keeps the way map exact |
| GenNetworks.RemoveIdsSpec | generate/network.py:386-388 | removing a segment from its ways' sets takes its position out of exactly those sets |
| GenNetworks.Reassign | generate/network.py:384-392 | each way of the split segment moves from the segment to both halves; other ways keep their sets |
| GenNetworks.SplitKeeps | generate/network.py:382-395 | after a split, with the halves appended and the ways moved, the way map is exact again |
| GenNetworks.Descend | generate/network.py:321-328 | the descent through the split tree ends at an unsplit segment, and at once when the segment found is unsplit |
| GenNetworks.LastIndex | generate/network.py:54-56 | `point_index_map` gives the last position whose point rounds to the key, and no position when none does |
| GenNetworks.Place | generate/network.py:312-352 | a node is placed at an unsplit segment; a split position lies strictly inside its points |
| GenNetworks.Halves | generate/network.py:359-365 | the first half is the points before the split closed by the node, at most one point longer; the second is the points from the split opened by the node, at most one point longer |
| GenNetworks.HalvesGlue | generate/network.py:359-365 | gluing the halves gives the points with the node inserted, the points themselves when the node is one of the two around the split, and the points without the repeat when both are |
| GenNetworks.LeafPositionsAll | generate/network.py:430-432 | the segments `modify_state` bakes are all the unsplit ones, in list order |
| GenNetworks.NodeHandleGiven | generate/network.py:418-427 | a node gets a handle only from a junction baked at a point that rounds to its key, and it does get one when there is such a junction |
| GenNetworks.Network.constructor | generate/network.py:81-92 | a new network has no segments, nodes or mapped ways |
| GenNetworks.Network.AddSegment | generate/network.py:184-206 | an empty run is ignored; with the way map kept, a clash abandons a one-way run and fails the assertion for a longer one; otherwise the segment is appended and entered under its ways; the network stays valid |
| GenNetworks.Network.SplitLeaf | generate/network.py:359-397 | the leaf records its two halves, which are appended with its data and ways, and the way map moves its ways to them |
| GenNetworks.Network.FindLeaf | generate/network.py:323-328 | the `while nearest_segment.split` loop ends at the leaf `Descend` specifies |
| GenNetworks.Network.Locate | generate/network.py:318-352 | the lookups give the placement `Place` specifies and change nothing |
| GenNetworks.Network.PutNode | generate/network.py:400-402 | the node at the rounded point is replaced by one without a handle; segments and way map are untouched |
| GenNetworks.Network.InsertNode | generate/network.py:312-402 | a failed or distant node changes nothing; a node at an end is recorded only; a node inside a leaf splits it and is recorded; the network stays valid |
| GenNetworks.Network.AddRuns | generate/network.py:239-266 | the segments and the way map become what `AddRunsSpec` gives: each run through `add_segment` in turn, stopping at the first failing assertion; nodes are untouched and the network stays valid with every segment carrying the data of its ways |
| GenNetworks.Network.AddWalks | generate/network.py:157-271 | the segments and the way map become the fold `WalkAllSpec` of the walks from every origin along every way leaving it; it succeeds exactly when every walk stops, no assertion fails and some walk was made (otherwise `del point` raises); nodes are untouched |
| GenNetworks.Network.InsertNodes | generate/network.py:312-402 | the outcome and the contents are the fold `InsertAll` of `insert_node` over the queries, stopping at the first one that fails; the network stays valid |
| GenNetworks.Network.ConstructData | generate/network.py:151-402 | the outcome and contents are what `Constructed` gives: failure without ways (`del input_way`), when a walk or an assertion fails, when no walk is made or no segment exists (the later `del` statements); otherwise the walks then the node insertions |
| GenNetworks.Network.WalkOrigins | generate/network.py:208-266 | the loop over the origins gives the fold `WalkAllSpec` of the walks from them, and says whether any walk was made |
| GenNetworks.Network.AddWalk | generate/network.py:210-266 | one more walk extends the fold by that walk |
| GenNetworks.Network.InsertOne | generate/network.py:312-402 | one more node extends the fold `InsertAll` by that node |
| GenNetworks.AddRunsUnmapped | generate/network.py:184-206 | without a way map every run with points is appended, in order, and the map is kept |
| GenNetworks.WalkAllUnmapped | generate/network.py:208-266 | without a way map the walks fail only by not stopping; when all stop the segments are the old ones followed by those of all the runs, in order |
| GenNetworks.WalkAllShape | generate/network.py:208-266 | a successful fold means every walk stopped; the old segments are kept in front and every new one is the segment of some run |
| GenNetworks.WalkAllStuck | generate/network.py:200 | once a walk fails, the later walks change nothing |
| GenNetworks.InsertAllSnoc | generate/network.py:312-402 | the fold over one more node is the fold so far followed by that node, unless the fold already failed |
| GenNetworks.InsertAllStuck | generate/network.py:312-402 | once a node fails, the later nodes change nothing |
| GenNetworks.InsertAllKeeps | generate/network.py:359-402 | inserting nodes keeps every segment's points, data and ways, appends halves only, and every new node sits at the rounded point of a query |
| GenNetworks.ConstructedUnmapped | generate/network.py:151-402 | without a way map a successful `construct_data` had ways and walks, all of which stopped, and the segments start with the old ones and the walks' runs, same road for same road |
| GenNetworks.Network.GetJunctionId | generate/network.py:410-428 | a known point gives its memoised id; a new one passes the range assertions exactly when it lies in the region, and then gets one new junction carrying its node's data, and the node gets the handle |
| GenNetworks.Network.EndJunctions | generate/network.py:434-436 | both ends of a segment get junction ids, or the point that failed the range assertion is named |
| GenNetworks.Network.BakeAt | generate/network.py:430-440 | baking one unsplit segment asks for its end junctions and one segment with its data, end ids and points, and sets its handle |
| GenNetworks.Network.ModifyState | generate/network.py:404-440 | every assertion holds exactly when all end points lie in the region; then one junction per distinct end point and one segment per unsplit segment are made, each unsplit segment gets its handle, and nothing else about the segments changes |
| GenNetworks.JunctionStep | generate/network.py:418-427 | a new junction call extends the record with the point's node data and hands that node the new id |
| GenNetworks.BakedHandles | generate/network.py:438 | after baking, every unsplit segment holds a handle |
| GenNetworks.SkipStep | generate/network.py:431-432 | a split segment is skipped without calls and without new end points |
| GenNetworks.Reshaped | generate/network.py:438 | setting handles changes neither the points, the splits nor the ways, so validity carries over |
| MetroChains.IncidentCount | generate/metros.py:261-267 | a segment is listed at a point once for each of its ends there |
| MetroChains.IncidentMembers | generate/metros.py:261-267 | a segment is listed at a point exactly when it is in the set and ends there |
| MetroChains.KeysMembers | generate/metros.py:261-267 | the junction points are exactly the end points of the set's segments |
| MetroChains.AttachBoth | generate/metros.py:266-267 | appending a segment at its start and end changes those two lists only |
| MetroChains.JunctionMap | generate/metros.py:261-267 | the loop builds `junctions` with every point's incident segments, its keys in the order first touched |
| MetroChains.TerminalsMembers | generate/metros.py:272-276 | a point is an end point exactly when it is a junction point met by one segment only |
| MetroChains.Endpoints | generate/metros.py:272-276 | the degree assertion passes exactly when every junction has one or two segments, and then the end points are those with one |
| MetroChains.MapDegrees | generate/metros.py:273-274 | the assertion read through the map is the one on the segments |
| MetroChains.Others | generate/metros.py:298-300 | the list comprehension keeps exactly the other segments |
| MetroChains.UniqueListing | generate/metros.py:315 | a listing of a set without repeats is as long as the set |
| MetroChains.NextIsFresh | generate/metros.py:298-306 | the next segment is in the set, not a loop and not already taken, since otherwise three segments would meet at one point |
| MetroChains.WalkEnds | generate/metros.py:301-304 | a walk that cannot go on stops at the other end point, as the assertion there says |
| MetroChains.WalkChain | generate/metros.py:286-313 | the walk starts at the first end point, takes each segment at most once, keeps consecutive segments touching, and stops at the other end point; every assertion inside it holds |
| MetroChains.WalkLoop | generate/metros.py:286-313 | the `while` loop of the walk yields what `Chain` specifies |
| MetroChains.ChainFacts | generate/metros.py:286-313 | the chain starts at the first end point, is a chain of the set's segments without repeats, and ends at the other end point |
| MetroChains.WalkCovers | generate/metros.py:315-328 | a walk as long as the set takes every segment of it |
| MetroChains.Linearize | generate/metros.py:257-328 | a set fails to linearise when a junction has three segments or there are not two end points; a linearisation holds every segment of the set once, as a chain from one end point to the other |
| MetroChains.Reverse | generate/metros.py:347 | `reversed` lists the same segments back to front |
| MetroChains.TouchSymmetric | generate/metros.py:332-335 | `check` does not depend on the order of its arguments |
| MetroChains.StitchStep | generate/metros.py:337-369 | the first chain is taken as it is; later ones end the line forward or reversed, and the line holds exactly the segments before and the chain's |
| MetroChains.StitchChained | generate/metros.py:337-369 | every joining rule, the turnaround included, keeps consecutive segments of the line touching |
| MetroChains.ChainedTurnaround | generate/metros.py:359-368 | going back over the previous set at a turnaround still gives a chain |
| GenHighways.ParseRef | generate/highways.py:22-30 | no refs exactly without a `ref` tag; otherwise the pieces hold no `;` and joined give the tag back |
| GenHighways.ParseRefJoin | generate/highways.py:22-30 | refs written joined by `;` are read back one by one |
| GenHighways.SumParts | generate/highways.py:49 | the sum exists exactly when every stripped part is an integer |
| GenHighways.ParseLanes | generate/highways.py:33-56 | a lane count is positive and is the sum of the parts of the lane text; none without lane tags |
| GenHighways.ParseLanesPlain | generate/highways.py:37-51 | a positive `lanes` tag is read back as written |
| GenHighways.ParseLanesDirectional | generate/highways.py:39-51 | without `lanes`, the forward and backward counts are added up |
| GenHighways.ParseSpeedLimit | generate/highways.py:59-72 | no limit without `maxspeed`; otherwise what `parse_speed` makes of it, none where it raises |
| GenHighways.IsOneway | generate/highways.py:75-84 | the answer is missing exactly when there is no `highway` tag, where the source raises KeyError |
| GenHighways.OnewayCaseInsensitive | generate/highways.py:79-84 | `oneway` is compared without regard to case |
| GenHighways.OnewayDefaults | generate/highways.py:79-84 | without `oneway`, a motorway is one-way unless it has lanes both ways, and any other road is two-way |
| GenHighways.OnewayWhenYes | generate/highways.py:79-84 | a yes makes a road one-way, except a motorway with lanes both ways |
| GenHighways.OnewayWhenNo | generate/highways.py:79-84 | a no makes any road two-way |
| GenHighways.KindOf | generate/highways.py:147-166 | a road is indexed with the highway's id and coordinates, and only when its boundary has two points |
| GenHighways.KindsDefined | generate/highways.py:147-166 | collecting fails exactly when some kind is unrecognised |
| GenHighways.ClassifyDefined | generate/highways.py:147-166 | the first loop raises exactly when some highway with two boundary points has a tag other than a motorway, trunk or link |
| GenHighways.ClassifyRoads | generate/highways.py:154-160 | the indexed roads are exactly the ways of the highways classified as roads (motorways and trunks) |
| GenHighways.ClassifyRamps | generate/highways.py:161-164 | on-ramps are exactly the last points of links and off-ramps their first points |
| GenHighways.ClassifyHighways | generate/highways.py:147-166 | the loop computes what `Classify` specifies |
| GenHighways.TupleEndsInBounds | generate/highways.py:260-262 | a tuple's rounded ends lie in the region, so the range assertions hold |
| GenHighways.AddTuples | generate/highways.py:183-191 | only runs with points become tuples, with their rounded ends and data; earlier tuples are kept |
| GenHighways.CollectTuples | generate/highways.py:168-251 | the tuples and the failed walk are `CollectSpec` of the walks from every origin; when no walk fails the tuples are those of all the walks' runs with points, each in the region with rounded ends and a road's data |
| GenHighways.TupleOf | generate/highways.py:183-191 | a run with points becomes a tuple with its points and its data |
| GenHighways.TuplesKeepPoints | generate/highways.py:183-191 | the tuples carry exactly the points of the runs, in order |
| GenHighways.TuplesOfOk | generate/highways.py:183-191 | runs inside the region give tuples inside the region carrying a road's data |
| GenHighways.CollectFails | generate/highways.py:168-251 | the collection fails exactly when some walk does not stop, and then reports the first one |
| GenHighways.CollectAllRuns | generate/highways.py:168-251 | when no walk fails the tuples are exactly those of all the walks' runs |
| GenHighways.CollectStuck | generate/highways.py:168-251 | once a walk failed, the later walks change nothing |
| GenHighways.RampAt | generate/highways.py:264-269 | a junction is an on-ramp when it is one, an off-ramp when only that, and no ramp otherwise |
| GenHighways.GetJunctionId | generate/highways.py:256-273 | a known point gives its memoised id; a new one passes the range assertions exactly when it lies in the region, and then gets one junction with its coordinates and ramp flag |
| GenHighways.BakeOne | generate/highways.py:275-286 | one tuple asks for the junctions at its ends, then one segment with its data and the two ids |
| GenHighways.BakeTuples | generate/highways.py:275-286 | one junction per distinct end point in the order first met, and one segment per tuple with the ids of its ends |
| GenHighways.ModifyState | generate/highways.py:136-289 | raises on an unrecognised tag exactly when classifying fails; otherwise the tuples are `CollectSpec` of the roads' walks and the outcome follows the failed walk; when done, every tuple is valid, and the junction and segment calls are those the tuples specify |
| GenMetros.StrategyForAsWritten | generate/metros.py:134-143 | a configured network gets its strategy |
| GenMetros.UnconfiguredGetsNone | generate/metros.py:59-61 | an unconfigured network gets no strategy at all, not FAIL |
| GenMetros.StrategyFor | generate/metros.py:134-143 | a configured network gets its strategy and an unconfigured one FAIL |
| GenMetros.SkipDecisionAgrees | generate/metros.py:370-373 | the map as written and as intended agree on whether a broken line is skipped |
| GenMetros.Upper | generate/metros.py:142 | `upper` changes each character on its own and keeps the length |
| GenMetros.ParseStrategy | generate/metros.py:142 | a name reads FAIL or SKIP exactly when it upper-cases to that name |
| GenMetros.ParseStrategyCaseInsensitive | generate/metros.py:142 | names are read without regard to case |
| GenMetros.StrategiesDefined | generate/metros.py:134-143 | the map is built exactly when every entry names a strategy |
| GenMetros.StrategiesKeys | generate/metros.py:139-142 | its keys are exactly the configured networks |
| GenMetros.StrategiesLast | generate/metros.py:139-142 | a network's strategy is the one its last entry names |
| GenMetros.BrokenMetroLineStrategies | generate/metros.py:134-143 | the loop builds what `StrategiesOf` specifies |
| GenMetros.Truncate | generate/metros.py:73 | `int` on a non-negative float is the whole part |
| GenMetros.ParseColor | generate/metros.py:64-75 | an `#rrggbb` colour reads as its three hexadecimal pairs and raises exactly when one is not a number; other text goes through `to_rgba` and raises exactly where that does |
| GenMetros.ParseColorHex | generate/metros.py:64-69 | a colour written with two hexadecimal digits per channel reads back |
| GenMetros.DefaultColorIsBlack | generate/metros.py:412-413 | the default `#000000` reads as black |
| GenMetros.ParseColorNamedRange | generate/metros.py:71-73 | named colours with channels in [0, 1] give channels in 0..255 |
| GenMetros.RoundStationLocation | generate/metros.py:78-80 | a station's tile is one whose unit square holds its location |
| GenMetros.StationsMembers | generate/metros.py:145-160 | the stations are exactly those of nodes whose tile lies in the region |
| GenMetros.StationsInGrid | generate/metros.py:155-158 | each station lies in the region, inside the square of its tile |
| GenMetros.Stations | generate/metros.py:145-160 | the loop builds what `StationsOf` specifies |
| GenMetros.MetroWays | generate/metros.py:162-169 | one one-way input way per subway, with its id, coordinates and parsed speed limit |
| GenMetros.SetsNoRepeats | generate/metros.py:237-238 | no two consecutive segment sets are equal |
| GenMetros.SetsFromUsable | generate/metros.py:225-238 | each set is that of a member way with an empty role whose segments are mapped |
| GenMetros.SetsCoverUsable | generate/metros.py:225-238 | every such member's set is among the sets |
| GenMetros.SetsNonEmpty | generate/metros.py:258 | no set is empty, so the assertion `len(segment_set) > 0` holds |
| GenMetros.SegmentSets | generate/metros.py:223-238 | the loop builds what `SetsOf` specifies |
| GenMetros.SetsLeaves | generate/metros.py:236 | every set's segments are unsplit segments of the network |
| GenMetros.LineOutcome | generate/metros.py:404-425 | a stitched route adds a line exactly when it has a name, a readable colour and a network with a speed limit; any other end is an exception other than a broken line |
| GenMetros.MissingColorIsBlack | generate/metros.py:409-413 | a route without a colour gets black |
| GenMetros.LinesReshaped | generate/metros.py:467-476 | baking changes only handles, so the lines keep their unsplit, touching segments |
| GenMetros.Metros.constructor | generate/metros.py:121-123 | a new metro layer keeps its way map and has no lines |
| GenMetros.Metros.PostInitRoute | generate/metros.py:220-425 | no sets returns at once; otherwise the outcome is `RouteResult` of the stitching `RouteStitching` specifies, and a line is added exactly when that stitching succeeds and the tags give a name, colour and speed limit; a stitched line is non-empty, touching, and holds exactly the segments of the sets; only an added line changes the lines |
| GenMetros.Metros.PostInitRoutes | generate/metros.py:440-447 | the first route of each id is handled, in order, until one raises; no earlier one raised |
| GenMetros.Metros.PostInit | generate/metros.py:427-447 | after building the network, the routes handled are a prefix of the first routes of each id, all of them unless one raised, and only the last can have raised |
| GenMetros.Metros.ModifyState | generate/metros.py:467-490 | the network is baked, and when that succeeds each line is added with its data and the handles of its segments in order, so the assertion on handles holds |
| GenMetros.LineCalls | generate/metros.py:472-488 | one call per line, with its data and its segments' handles |
| GenMetros.SegmentHandles | generate/metros.py:473-476 | the handles of a line's segments, in order |
| GenMetros.LineHandles | generate/metros.py:474-475 | after baking, every segment of a line holds a handle |
| GenMetros.FirstIndicesStep | generate/metros.py:440-445 | one more route adds its position exactly when its id was not seen, and its id to the seen set |
| GenMetros.FirstIndicesPrefix | generate/metros.py:440-447 | the routes taken from a prefix are a prefix of those taken from all |
| GenMetros.FirstIndicesCover | generate/metros.py:440-447 | every id of the routes is taken at some route that carries it |
| GenMetros.FirstIndicesFirst | generate/metros.py:443-445 | a route is taken only when no earlier route has its id |
| GenMetros.StitchSets | generate/metros.py:257-399 | the stitching is what `RouteStitching` specifies for the route's sets; a stitched line is non-empty, of unsplit touching segments, and holds exactly the segments of all sets |
| GenMetros.StitchNext | generate/metros.py:257-369 | one turn of the loop: when set `i` is linearised and joined, the result of the loop from `i` equals its result from `i + 1` on the new line; otherwise it is that result, Unlinearized or Unjoinable |
| GenMetros.StitchLoop | generate/metros.py:257-399 | the loop over the sets returns what `StitchFrom` from the first set gives; a stitched line is a chain of unsplit segments holding exactly those of the sets |
| GenMetros.StitchFromTurn | generate/metros.py:257-328 | one set that fails to linearise ends the loop with Unlinearized; otherwise its chain fits the set and the loop goes on by joining it |
| GenMetros.StitchTurn | generate/metros.py:257-369 | one turn of the loop: what the loop yields from a stitched line is what it yields from the next set on the joined line; a failed turn ends the loop unstitched |
| GenMetros.Joined | generate/metros.py:337-369 | joining a fitted chain either gives a line the next set can be joined to, or Unjoinable exactly when `StitchStep` gives None |
| GenMetros.StitchedLine | generate/metros.py:257-399 | whatever the loop stitches from a line so far is a chain of unsplit segments with exactly the segments of all the sets |
| GenMetros.StitchedOn | generate/metros.py:337-369 | the same for a loop that still has a set to join |
| GenMetros.StitchedAll | generate/metros.py:257-399 | the same once every set is joined |
| GenMetros.RouteResult | generate/metros.py:370-425 | a route ends Skipped only when unjoinable under SKIP, BrokenLine only when unjoinable under FAIL, and LineAdded exactly when stitched with a name, colour and speed limit |
| GenMetros.Metros.HandleRoutes | generate/metros.py:436-447 | without stations `del station` raises before any route; otherwise the routes are handled in turn |
| GenMetros.Metros.BuildNetwork | generate/metros.py:427-428 | the network becomes what `Constructed` gives for the subway ways |
| GenMetros.JoinKeeps | generate/metros.py:337-369 | every joining rule keeps the line so far |
| GenMetros.ListedSet | generate/metros.py:264 | iterating a non-empty set of unsplit segments lists each once |
| GenMetros.StitchExtends | generate/metros.py:337-369 | the joined line covers the sets so far and the next one |

## Left out

- Floating-point values: segment splines, lengths, bounds and timing are not modelled; a location key is a pair of reals that is only stored.
- Handles are naturals; the u64 counter of `ManagedMap` never wraps.
- Networks.Network.EditJunction: `edit_junction` (engine/network/change_state.rs:185-264) is not modelled.
- Networks.AddSegmentKeepsConsistent: holds only for Active endpoints; an endpoint staged for creation would also do in the source.
- Networks.Network.ClearChangeSet and Networks.Network.AdvanceTombstones require a consistent network. In the source a network that is not consistent would panic inside `remove_junction` or behave as written.
- Junction updates happen by value inside the map: the model replaces the junction under its id instead of mutating it through a reference.
- Quadtrees.Quadtree.Split: the loop that recomputes parent child counters works on copies and writes nothing back, so it is not modelled.
- QuadMap writes are modelled by value (`Set` returns the updated map), since the map only ever lives inside a node.
- I/O, printing, serialisation, concurrency and wall-clock budgets are left out.
- FieldBlurs: the Gaussian blur between the input and the output pass (an external library), the field getters and setters, and the choice of the downsampling factor and of sigma from floats are not modelled; the factor is a positive parameter and the getter's value is part of each leaf.
- FieldBlurs.WrappingAdd: a debug build panics on the u8 overflow; the model follows a release build, which wraps.
- FieldBlurs.SampledTile: the weighted alias distribution and the random offsets are parameters; the case where every weight is zero (no distribution) and the panic on other weight errors are not modelled.
- FieldBlurs.BlurredField.PerformFieldBlur: ends after the input pass; the buffer's contents after the blur are not modelled, and the output pass is modelled only by the index it reads.
- Routes: the time and distance splines, `print`, the float payloads of nodes and edges beyond the fields the core reads, and the f32 cost (a real) are not modelled.
- Routes.Route.constructor: the bounds are a parameter; the source computes them from the node locations, which are floats.
- Routes.Route.Join: builds the connector with the corrected comparison (see Findings); the as-written comparison is ConnectorAsWritten.
- Routes.Route.PatchTile: always succeeds, as the source's `Ok(())` does, so no result is returned.
- Traffic: the counts are unbounded naturals; the source's u64 counters never reach their limit in practice.
- HighwayValidation: the panics of `validate_highway_segments` are modelled as an outcome (a duplicate key, a missing id or the issue count); the `eprintln` messages are not modelled.
- HighwayValidation: `pred` and `succ` are taken as fields of the segment, since their accessors are not part of this model; the segment's spline keys are location pairs that are only stored.
- BaseGraphs: only the highway half of `construct_base_graph` is modelled; the metro half (lines, timetables, stations, stops), the per-mode neighbour stores, the inferred walking and driving edges and `dump` are not modelled.
- BaseGraphs: a node's address from `Address::from_xy`, the float positions beyond being stored, and the edges' travel times are not modelled.
- BaseGraphs.ConstructHighwayGraph: a failed validation or an empty segment, which panic in the source, are returned as errors.
- GenQuadtrees: `data_f` is a payload value, so every call gives the same payload; a `data_f` with effects of its own is not modelled.
- GenQuadtrees.Quadtree.ConvolveInternal: the callback is the caller's code, so the walk returns the positions it would hand out in order; a callback that changes the tree while the walk runs is not modelled, nor `__str__`.
- Layers: the statistics object is modelled as a counter field of the payload, so two payloads sharing one statistics object are not modelled; `get_dataset`, `post_init` and `modify_state` are abstract or empty and left out.
- Terrains.Merge: takes the payloads of the node and of its children, which must be distinct objects.
- GenAgents: the walk is given as its list of (address, `tile` entry) pairs in visiting order, the random draws as a parameter, and the calls of the state's `add_agent` as the list of requests; building `engine.Address` from an address and a depth is the engine's and is not part of this model; the progress messages are output only.
- GenAgents.ModifyState: the draws are required to lie in range, as `randrange` guarantees.
- OsmPreprocess: reading the extract, applying patches, collecting the keypoint nodes in `main`, `construct_tags` and `decimicro` are file and float handling and are left out; the keypoint id set is passed in and returned.
- OsmPreprocess.Output.Sort: states ascending order and the same entries, not the stability of `sort_by_key`.
- OsmHandlers: records are given already built: the way's shape and the conversion of `make_*` from the reader's objects are geometry and library code and are left out, as is `main`.
- SfCleaner: only the `name` tag and the subway routes of the OSM data are modelled.
- PyText: text is ASCII only; Python's Unicode white space, digits and case mappings are not modelled.
- Points: floats are exact reals, so rounding to six places is exact and the float error of `round` is not modelled.
- Walks.Walk: takes a bound on its steps (`steps`). A walk around a closed loop of one-in-one-out points never ends in the source; here it ends with OutOfSteps.
- Walks: a way's geometry is given as its coordinates; its boundary is taken as its two ends when they differ, which is what shapely gives for a line string that is not closed.
- GenNetworks: a segment's id is its position in the list, so `id_segment_map` is the list itself and is not modelled.
- GenNetworks: `get_nodes`' nearest-segment search, the nearest point and the distance comparisons are geometry. They are given per node as a `NodeQuery`: the answers of the search tree and of shapely.
- GenNetworks: the spur filter (generate/network.py:273-294) is not modelled. Its lookups use unrounded end points in a map of rounded ones. When both counts are 1 it calls `segment.linestring()` on a cached property, which is not callable. The step is marked in the source as not working.
- GenNetworks.Network.AddSegment: when the assertion fails part way through, the source has already entered the first ways in the map. The model keeps the map unchanged, since the exception ends `construct_data` anyway.
- GenNetworks.Network.ConstructData: the state after a failed assertion is not stated beyond validity; the source propagates the exception.
- GenNetworks.Network.InsertNode: an index moved back to 0 makes `a_points[-1]` raise IndexError; the model returns EmptyHalf and changes nothing.
- GenNetworks.Network.ModifyState: the ids that `bake_junction` and `bake_segment` return are parameters, functions of the position of the call; the conversions to engine data done by the subclasses are not modelled.
- GenNetworks: the nodes and the segments of a network share one data type parameter, so a subclass with different node and segment data uses a sum type (as GenMetros does).
- MetroChains.Linearize: when the walk takes fewer segments than the set has, the source's length assertion fails. Here that is a None result, and which positions the walk missed is not characterised.
- MetroChains: a Python set is iterated in an order the model takes as a parameter (`listing`), so every listing of the set is covered, not CPython's particular one.
- GenHighways: `VALIDATE` is False in the source, so `state.validate_highways()` is not called and is not modelled.
- GenHighways.IsOneway: the KeyError of a highway without a `highway` tag is a None result.
- GenHighways.ParseSpeedLimit: `parse_speed` (generate/common.py) is a parameter, with None where it raises ValueError.
- GenHighways.ModifyState: the state's ids for new junctions are a parameter (a function of the call's position); the warnings printed by the parsers are not modelled.
- GenMetros: `to_rgba` (matplotlib) and the configured speed limits are parameters; `print` warnings are not modelled.
- GenMetros.Metros.PostInit: the stations' placement in the quadtree (`get_or_create_child` and `set_node_data`) is not modelled. It writes only to the quadtree, which is not part of the network.
- GenMetros.Metros.PostInit: requires a layer fresh from its constructor, as the source's one call does.
- GenMetros.Metros.PostInit: the outcomes say which routes were handled and where an exception stopped the loop, not each route's line; the line of one route, and how its stitching ends, is stated by PostInitRoute.
- GenMetros.Metros.PostInitRoute: the check `if len(segments) == 0` (generate/metros.py:401-402) never fires, since a stitched line is non-empty; the model has no such branch.
- GenMetros.Metros.ModifyState: `validate_metro_lines` is the engine's and is stated in the engine's metro model; the subclass's conversion into engine data is not modelled.
- GenMetros: `Metros` subclasses `Network` in the source; here the metro layer holds its network as a field.
- GenMetros: the segments found by a route's members are looked up in the way map by position. A member whose way is missing from `osm.subway_map`, or whose role is not empty, is skipped, as there; stop members are ignored.

- FieldBlurs.Apply: the narrow branch adds the value once and leaves out the division at engine/field_update.rs:330, whose u8 cast can make the divisor 0 and panic; the as-written division and its panic are shown by FieldBlurs.ScaledValuePanics (see Findings).
- AgentDatas.AgeOf: follows a debug build, where `diff - 1` panics on u32 underflow (a date in the year of birth, before the birthday); that case is None. FieldBlurs.WrappingAdd follows a release build instead (see its own line), so the two overflow rules are not the same build's.
- Engines.Engine.AddAgent: the `assert!(agents.len() < *density)` and the panics for a missing housing or workplace tile (engine/engine.rs:79-115) are a requires (`CanRegister`); a call that would panic is not modelled.
- LegacyStates.LegacyState.AddAgent: the same assertion and panics (engine/state.rs:174-211) are a requires (`CanRegister`).
- Engines.Engine.AddAgent and LegacyStates.LegacyState.AddAgent: the u64 agent counter is required to stay below 2^64, so its overflow panic is not modelled.
- Metros.Metros.AddMetroLine: the panics of the orientation (a gap in the line, engine/metro/metros.rs:184-265) are a requires (`Orient(...).Ok?`); `Orient` itself returns the error, and a call that would panic is not modelled.
- Traffic.FromRoutes: requires one node more than edges in every route (`NodeEdgeCount`), as every route the engine builds has; a route without it is not modelled.
- Triggers.TriggerQueue.Execute: which triggers fail is a parameter (`fails`); a failing trigger is modelled as queuing its follow-ups and then returning `Err`, since what it did before failing is the trigger's own code. The profiling statistics of `single_step` are not modelled.
- Engines.Engine.Update: the `Result` of `advance_trigger_queue` is dropped by the source; the model returns whether a trigger failed, and nothing else depends on it.
- Routes: a tile's centre is `to_xy_f64`'s, which is taken as the exact centre of the tile's square.
- MetroChains: a segment is identified by its position in the network's list. The source compares segments as dataclass values, so two equal segments at different positions would be one segment there and two here.
- GenNetworks.Network.ConstructData: the `del` statements after the loops (generate/network.py:169 and 268-271, and 297 and 307-308) raise UnboundLocalError when the loop before them never ran: no ways, no walk, or no segments. The model fails in those cases; the segment list it checks is the one before the spur filter, which is not modelled, so a filter that removed every segment (line 307) is not covered.

## Findings

| source | as written | input that shows it | evidently intended | confidence | as-written member | corrected member |
|---|---|---|---|---|---|---|
| engine/quadtree/direction.rs:50 | the y bound of `in_direction` is `y > total`, so y == total passes | address [SW] at max depth 1, moving South: y becomes 2 == total | `y >= total`, like the x check | not executed | Directions.SouthOffGridAsWritten | Directions.InDirectionStaysInGrid |
| engine/field_update.rs:330 | the narrow branch computes `value / (downsample - width + 1).pow(2) as u8`; the cast truncates the square to a u8 | downsample 16 and a leaf of width 1: 16² = 256 truncates to 0 and the division panics (the same line is at engine/field_blur.rs:107) | no division at all, since the result is never used and the raw value is added | not executed | FieldBlurs.ScaledValuePanics | FieldBlurs.NarrowAddsOnce |
| engine/route/route.rs:302 | `join` compares `first.end_mode` with `second.end_mode` to choose between a segment and a transition | the first route ends walking; the second starts walking and ends driving: the joint gets `ModeTransition { from: Walking, to: Walking }` | compare with `second.start_mode`, the mode at the joint | not executed | Routes.ConnectorAsWrittenMismatch | Routes.Connector |
| generate/metros.py:59-61 | `default()` names `FAIL` but does not return it, so the default strategy of an unconfigured network is None | a network without an entry in `broken_metro_line_strategies`: looking it up gives None, not FAIL | `return HandleBrokenMetroLineStrategy.FAIL` | not executed; the one use compares with SKIP, so the outcome is the same | GenMetros.UnconfiguredGetsNone | GenMetros.StrategyFor |
