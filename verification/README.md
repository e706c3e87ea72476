# Verified model of the westworld host core

This project models the parts of the repository in which state, arithmetic and branching meet, and proves
what they promise. Each module follows one source file or one concern of it. Code that updates state in place
is modelled by classes and methods over arrays, maps and fields; each such method is proved against a
function or predicate on values, and the theorems are about those.

| files | what they model |
|---|---|
| `Flags`, `Sequences`, `Walks`, `SearchTree`, `Grid`, `Search`, `Corners`, `Bfs`, `PathTheorems`, `MoveRules`, `MazeGrid` | the local pathfinder: legal moves on a bit-masked grid, breadth-first search over a ring queue, unwinding, corner compression, what moves and answers mean in bits of named tiles, and a maze that the step cap loses |
| `Stamps`, `Facts`, `Layers`, `BuildGrid`, `GridTheorems`, `GridContents` | building the grid: landscape, scenery footprints, boundaries, live overlay, and what each bit of it stands for |
| `Lex`, `Options`, `Store`, `JournalKeys`, `Scratch`, `Lru`, `WriteBack`, `WriterSteps`, `FlusherSteps`, `Convergence`, `UndisturbedRuns`, `WriteModes`, `DurableRestart`, `Tiers`, `Manager` | the tiered memory: key/value store, LRU cache with expiry, write-back journal with crashes and recovery, reads across the tiers |
| `Supervisor`, `HostStatus` | the lifecycle protocol between supervisor goroutines and Start, Stop, Restart, Pause, Resume, and what the published status says of the history |
| `TailReader` | the backward, block-wise reader of the decision log |
| `Sorting`, `Pearl`, `Policy`, `PolicyMeaning` | the rule engine, the persona compiler that feeds it, and what compiled policies do |
| `EpisodeJournal` | the bounded episodic log and its recall |
| `Compositor` | the painter's-algorithm sprite compositor |

How to read the main results:

* **Pathfinder.** A walk is a value (`Walks.Walk`), `Walks.Legal` is the move rule, and `Bfs.IsAnswer` says
  that the waypoints expand to a shortest legal walk to an accepting tile. `Bfs.FindPath` returns such an
  answer if and only if one with at most 192 moves exists. Every grid `GridBuilder.BuildGrid` produces has
  agreeing wall bits on both sides of every edge, so reachability and distance are symmetric on it. On such grids
  `MoveRules.FreeStep` gives the move rule without directions or masks, and `MoveRules.BuiltSolvable` and
  `MoveRules.BuiltAnswer` give the pathfinder's promise in its terms.
* **Grid.** The methods are proved against lists of stamps; `GridContents.BuiltGridContains` says what these lists
  come to: for every bit of every tile, which landscape tile, object, boundary or live record put it there.
* **Write-back.** `WriteBack.State` is a protocol of small steps: each store write of a `Put`, each read, send,
  delete and index update of a `Flush`, and a crash between any two of them. The class `Managers.Manager`
  carries these steps out; its contracts equate its fields after a call with the state after the protocol's run, and
  say of every put that succeeds where its value is. `WriteModes` says what later flushes make of it.
  The crash and recovery theorems (`FlusherSteps.CrashNumbers`, the crashes in `Convergence.Converges`) concern an
  in-memory store object that outlives the manager, as when one process builds a new manager over the same store.
  The in-memory form has no disk behind it (`hostkv/store.go:175-178`), so it does not outlive the process; the form
  that does is the durable one, and what a restart does there is the subject of `DurableRestart`.
* **Supervisor.** `Supervisor.Sys` holds the fields behind a host's mutex, the place of each goroutine, fetched
  but uncalled cancel functions, and calls that have claimed a host without having spawned its supervisor. Each
  critical section is one step, and runs interleave them arbitrarily. `HostStatus` reads the published status as a
  statement about the actions taken.
* **Policy engine.** Firing weights, vetoes and substitutes are defined over the rule table; the engine's methods
  are proved against them. `PolicyMeaning.CompiledGate` and `PolicyMeaning.CompiledScore` say what the engine then
  does for every persona and all facts.

Floating-point numbers are reals. Integers are unbounded, except the journal's sequence number, which is kept
below the largest signed 64-bit value, and tile masks, which are bit vectors of width 8.

Where the code and its own comments disagree, the code is modelled:

* `pathfind/bfs.go:183-186` calls 2*GridSize steps enough for every correct reconstruction. They are not:
  `PathTheorems.StepCapLosesPath` is a solvable maze whose shortest walks have 193 moves and for which `FindPath`
  returns nil, and `MazeGrid.BuiltGridLosesPath` gives a landscape from which `BuildGrid` makes this maze, wherever
  the player stands. `Bfs.FindPath` states the exact condition.
* `memory/manager.go:86-98` recovers the journal by listing keys that start with a NUL byte. The durable store
  never lists such keys (`hostkv/store.go:299-303`), so on a durable store recovery finds nothing, `Flush` sends
  nothing, and numbers start again at 1: the i-th put after a restart overwrites entry number i if that is still
  pending (`DurableRestart.DurableRestartOverwrites`). So a restart followed by n puts overwrites something if and
  only if the store is durable and an entry numbered at most n was pending (`DurableRestart.RestartOverwritesIff`);
  the next number is free if and only if the store is in memory or entry 1 is not pending
  (`DurableRestart.NextFreeIff`). For stores filled by puts, `DurableRestart.PutsRestartPuts` says which runs these are.
* `memory/manager.go:323-325` counts on the remote being last-write-wins. A put that the remote takes at once does not
  remove an older entry of its key from the journal, and the next flush sends that entry over it;
  `WriteModes.AuthoritativeThenFlush` and `WriteModes.ThroughThenFlush` are exact.
* `memory/manager.go:276-287` lets `Delete` clear a remembered remote miss; `Put` (lines 235-274) does not, so a
  key that was just put can read as missing (`Tiers.PutLeavesTombstone`); `Tiers.ReadsLastPut` is exact.
* `cradle/registry.go:325-330` says that a restart works on any state. Two kinds are dropped: one that arrives after
  the supervisor has looked at the flag (`Supervisor.RestartDropped`), and one that arrives while the host is only
  claimed by a call that then fails to resolve its password (`Supervisor.ClaimedRestartDropped`).
  `Supervisor.RestartHonouredIff` sorts every alive state into honoured, dropped and open. Honoured and dropped are
  final (`Supervisor.BounceHonoured`, `Supervisor.DroppedForGood`); an open one, that is a host that is only claimed
  or a supervisor in the select of a cancelled back-off, is decided by the first step that spawns or abandons the
  claim, or leaves the select by its timer or by the cancellation (`Supervisor.OpenDecided`).
* `debughttp/inspect.go:190-197` drops a carry of more than four blocks as "not a decision record". A record that
  long is lost (`TailReader.LongRecordLost`); `TailReader.TailIsForwardIff` gives the exact condition on the file.
* `render/entitysprite.go:122-125` calls a zero dye and skin "no recolour". Grey and skin-toned texels are
  darkened all the same, except black; `Compositor.NoRecolourIff` is exact.
* `persona/policy.go:187-206` makes a hard directive a veto that names no options, so it binds when an action is
  gated and forbids nothing when a decision is taken (`PolicyCompiler.CompiledForbidsNoOption`).

## Model

| member | source | states |
|---|---|---|
| Flags.BlockedMasks | pathfind/flags.go:19-50 | each combined constant is the disjunction of the wall and full-block bits its name announces |
| Flags.ClearSplits | pathfind/flags.go:41-49 | a combined test passes exactly when the full-block test and each wall test in it pass |
| Walks.EdgeBack | pathfind/bfs.go:88-119 | on a mirrored mask, a cardinal step that enters a tile across an edge can be taken back across the same edge |
| Walks.MoveBack | pathfind/bfs.go:88-167 | on a mirrored mask any legal move, diagonals included, from a tile without full-block bit leads to such a tile and can be undone |
| Walks.WalkBack | pathfind/bfs.go:88-167 | a whole legal walk can be walked back in as many moves |
| Walks.DistanceSymmetric | pathfind/bfs.go:88-167 | between tiles without full-block bit, "within n legal moves" is symmetric for every n |
| SearchTree.GrowKeeps | pathfind/bfs.go:88-167 | discovering a new tile from the tile being expanded keeps the parent tree a breadth-first tree: walks legal, levels sorted in discovery order, no tile twice |
| SearchTree.TreeIsFastest | pathfind/bfs.go:46-168 | every legal walk from the start either ends on a tile the tree reaches at least as fast, or is at least as long as the next tile to be expanded is deep |
| SearchTree.FirstIsNearest | pathfind/bfs.go:46-81 | the first expanded tile with a property is a nearest one with it, over all legal walks |
| SearchTree.TreeFits | pathfind/bfs.go:36-42 | at most GridSize squared tiles are ever discovered, so the ring cannot overflow |
| Grids.Grid.World2Local | pathfind/grid.go:33-39 | the local tile is in bounds exactly if the flag says so, and converts back to the world position |
| Searches.Search.EmptyIffIndicesMeet | pathfind/bfs.go:36-49 | the wrapped read and write indices meet exactly when the abstract queue of discovered, unexpanded tiles is empty |
| Searches.Search.Pop | pathfind/bfs.go:46-49 | takes the oldest discovered tile that has not been expanded |
| Searches.Search.Push | pathfind/bfs.go:88-94 | enters the tile with its parent direction, overwriting no unread slot; the abstract tree grows by exactly that tile |
| Searches.SourcesDiffer | pathfind/flags.go:59-71 | the eight direction codes, the start marker and "unvisited" are all distinct |
| Corners.ExpandCompress | pathfind/bfs.go:174-218 | expanding the waypoints of any walk one unit step at a time gives back exactly that walk |
| Corners.CompressTurns | pathfind/bfs.go:187-207 | every segment is non-empty and straight or diagonal, and adjacent segments differ in direction |
| Corners.FlipCollected | pathfind/bfs.go:181-218 | the goal-first list the unwind collects, flipped, is the list of turns in walk order |
| Bfs.AtGoal | pathfind/bfs.go:51-81 | decides whether the current tile is accepted: in the rectangle or, in border mode, next to it across an open edge |
| Bfs.Passable | pathfind/bfs.go:88-167 | the guard of an expansion block passes exactly if the move is legal, both cardinals included for a diagonal |
| Bfs.TryMove | pathfind/bfs.go:88-167 | one guarded expansion block discovers the tile if the move is legal and the tile new, and in any case leaves it discovered at most one level deeper if the move is legal |
| Bfs.ExpandTile | pathfind/bfs.go:83-167 | after the eight blocks all eight directions of the current tile are dealt with |
| Bfs.RunSearch | pathfind/bfs.go:31-172 | found exactly if some legal walk leads to an accepting tile; the tile found is a nearest one and its parent chain a shortest walk |
| Bfs.CodeUndoes | pathfind/bfs.go:192-201 | following the bits of a parent code takes back the move it was written for |
| Bfs.Unwind | pathfind/bfs.go:174-211 | succeeds exactly if the parent chain has at most 192 moves, and then collects its compression, goal first |
| Bfs.FlipCorners | pathfind/bfs.go:213-218 | the corners in walk order |
| Bfs.FindPath | pathfind/bfs.go:10-219 | a path is returned if and only if the start is in the grid and an accepting tile is at most 192 legal moves away; its waypoints expand to a shortest legal walk to an accepting tile and are exactly the corners of that walk |
| Bfs.FindPathToTile | pathfind/bfs.go:221-224 | the same for a single goal tile |
| MoveRules.CardinalMeans | pathfind/bfs.go:88-119 | for any mask and tile, a move west, east, north or south is legal exactly if the neighbour is in the grid and has no full-block bit and not the wall bit of the edge it is entered by |
| MoveRules.DiagonalMeans | pathfind/bfs.go:121-167 | for any mask and tile, a diagonal move is legal exactly if both neighbours beside it can be entered and the corner tile has no full-block bit and neither of its two wall bits |
| MoveRules.LegalIsFree | pathfind/bfs.go:88-167 | on a mirrored mask a move is legal exactly if, in the smallest rectangle around both tiles, no tile but perhaps the first is fully blocked and no inner edge is walled |
| MoveRules.WalkIsTrail | pathfind/bfs.go:88-167 | a walk is legal exactly if each of its tiles is such a free step from the one before |
| MoveRules.TrailIsWalk | pathfind/bfs.go:88-167 | every sequence of tiles a free step apart is a legal walk |
| MoveRules.AcceptsMeans | pathfind/bfs.go:51-81 | a tile is accepted exactly if it lies in the rectangle or, in border mode, has a neighbour in it whose wall bit towards it is clear |
| MoveRules.BuiltSolvable | pathfind/bfs.go:10-219 | on every grid that can be built a path is returned exactly if a route of at most 192 free steps exists |
| MoveRules.BuiltAnswer | pathfind/bfs.go:10-219 | and its unit moves are a shortest such route: it enters no blocked tile, crosses no walled edge and cuts no corner |
| MoveRules.WorldAnswer | pathfind/bfs.go:181-218 | in world coordinates, every waypoint is a tile of the route, the last one its end, in the goal rectangle or next to it |
| PathTheorems.FoundBothWays | pathfind/bfs.go:46-211 | on a mirrored mask, of two tiles without full-block bit one is found from the other exactly if the other is found from it |
| PathTheorems.SameLengthBothWays | pathfind/bfs.go:46-211 | and the two returned paths expand to walks of the same length |
| PathTheorems.StepCapLosesPath | pathfind/bfs.go:183-211 | a maze of full size in which a given legal walk to the goal has 193 moves, none is shorter, and no path is returned |
| MazeGrid.MazeIsBuilt | pathfind/grid.go:107-240 | for every origin there is a landscape whose built mask is exactly that maze |
| MazeGrid.BuiltGridLosesPath | pathfind/bfs.go:183-211 | so wherever the player stands, some built grid has a tile at 193 moves that is reported as unreachable |
| Stamps.LastWriterWins | pathfind/grid.go:290-299 | after any list of sets and clears each bit is as its last writer left it, and keeps its value if nothing wrote it |
| Stamps.ApplyTwice | pathfind/grid.go:380-449 | applying the same sets and clears a second time changes nothing |
| Stamps.StampKeepsEdge | pathfind/grid.go:456-479 | setting or clearing an edge or a block, overhanging the grid or not, keeps any edge's two bits in agreement |
| Stamps.StampsKeepMirrored | pathfind/grid.go:187-206 | so does any list of them, over the whole mask |
| FactTables.Facts.SceneryAt | pathfind/grid.go:425-431 | the first scenery placed on a tile, with no earlier one on it, or none if there is none |
| GridBuilder.SetOrClear | pathfind/grid.go:290-299 | sets or clears bits of one tile in place and nothing outside the grid |
| GridBuilder.StampSceneryFootprint | pathfind/grid.go:273-327 | the in-place loops change the mask exactly as the footprint's stamps do: rotated size, at least one tile, kind 1 solid, kind 2 by direction, skipped definitions not at all |
| GridBuilder.SetOrClearEdge | pathfind/grid.go:456-479 | sets or clears exactly the edge (both bits) or diagonal the direction names |
| GridBuilder.ApplySectorToGrid | pathfind/grid.go:175-240 | changes the mask exactly as the sector's wall, diagonal and ground stamps do |
| GridBuilder.ApplyScenery | pathfind/grid.go:246-250 | stamps every scenery location's footprint, in order |
| GridBuilder.ApplyBoundaries | pathfind/grid.go:337-370 | stamps every fixed wall inside the grid and no openable door |
| GridBuilder.ApplyLiveBoundaries | pathfind/grid.go:396-408 | each live boundary sets its edge if its current definition blocks, and clears it otherwise |
| GridBuilder.ApplyRecord | pathfind/grid.go:417-448 | one live scenery record clears the static footprint (or, without one, the solid bits of a removed object) and stamps the current one |
| GridBuilder.ApplyLiveOverlay | pathfind/grid.go:380-449 | changes the mask exactly as the overlay's stamps do, in order |
| GridBuilder.BuildGrid | pathfind/grid.go:107-169 | the grid's origin, player position and mask, the latter as one list of stamps on an empty mask; and every edge's two bits agree |
| GridBuilder.BuiltMirrored | pathfind/grid.go:107-169 | for every archive, fact table and live view, the built mask is mirrored |
| GridTheorems.BuiltGridSymmetric | pathfind/grid.go:107-169 | on every grid that can be built, two tiles without full-block bit find each other or neither does, with paths of equal length |
| GridTheorems.OverlayLastWriter | pathfind/grid.go:380-449 | after the overlay each bit is what the last record touching it says, else the static value |
| GridTheorems.OverlayTwice | pathfind/grid.go:380-449 | reconciling with the same live view twice equals doing it once |
| GridTheorems.RepeatedRecord | pathfind/grid.go:410-448 | a live record that repeats the static definition changes nothing on a grid that carries the static footprint |
| GridTheorems.StaticCarries | pathfind/grid.go:246-250 | the static layers alone leave a grid that carries every static footprint |
| GridTheorems.RepeatedLiveIsStatic | pathfind/grid.go:410-448 | so a live view that only repeats static definitions leaves exactly the static grid |
| GridTheorems.PlayerInMiddle | pathfind/grid.go:116-132 | the player stands in the middle half of the grid on both axes |
| GridTheorems.FloorsAlign | pathfind/grid.go:116-132 | the same footprint one floor up loads the same sectors one plane higher, with the origin one band further on |
| GridContents.TilesAlign | pathfind/grid.go:116-151 | wherever the player stands, a tile of the grid shows the archive's tile for the same world position |
| GridContents.FootprintEffect | pathfind/grid.go:273-327 | a footprint touches exactly what its object occupies: every tile of the rotated rectangle for a solid one, the edge its direction names on each for a wall-like one, nothing otherwise |
| GridContents.BuiltGridContains | pathfind/grid.go:107-479 | for every archive, fact table, origin and live view, each bit of each tile is set exactly if its feature is there: a wall of the landscape, a fixed boundary or an object's edge; a diagonal; impassable ground or a solid object; as the live records leave it |
| GridContents.BuiltOpenMeans | pathfind/grid.go:107-479 | a tile of a built grid cannot be stood on exactly if a diagonal, impassable ground or a solid object is there |
| GridContents.LastBoundaryDecides | pathfind/grid.go:396-408 | after the live boundaries an edge or diagonal is walled exactly if the last in-grid record naming it blocks now, fixed or as a closed door, or no record names it and it was |
| GridContents.LastSceneryDecides | pathfind/grid.go:417-448 | after the live scenery a spot is occupied exactly if some record put something there that no later one took away, or it was and none did |
| Stores.PrefixUpperBound | hostkv/store.go:257-266 | the buffer loop computes the exclusive bound of a prefix |
| Stores.RangeIsPrefix | hostkv/store.go:254-292 | for every non-empty prefix, a key lies between the prefix and the bound exactly if it has the prefix, carries through 0xff included |
| Stores.FormsAgree | hostkv/store.go:270-307 | the in-memory and the durable enumeration select the same keys for every prefix that does not start with byte 0 |
| Stores.DurableHidesReserved | hostkv/store.go:299-303 | the durable enumeration selects nothing under a prefix that starts with byte 0 |
| Stores.Store.GetRaw | hostkv/store.go:197-214 | the stored value, or nothing if absent or closed |
| Stores.Store.SetRaw | hostkv/store.go:217-233 | writes, or fails without effect once closed |
| Stores.Store.Delete | hostkv/store.go:236-252 | removes, or fails without effect once closed |
| Stores.Store.Keys | hostkv/store.go:270-307 | the ascending list of exactly the keys with the prefix, minus reserved keys on the durable form; nothing once closed |
| JournalKeys.JournalKeyOrder | memory/manager.go:316 | byte order of journal keys is sequence order, and distinct numbers give distinct keys |
| JournalKeys.JournalKeySeq | memory/manager.go:90-93 | recovery reads back the number a journal key was made from |
| Scratches.Scratch.Set | hostkv/scratch.go:52-71 | moves or inserts the entry in front with its new value and expiry, and evicts the last one on overflow |
| Scratches.Scratch.Get | hostkv/scratch.go:76-90 | a live hit moves to the front, an expired one is removed and missed |
| Scratches.Scratch.Delete | hostkv/scratch.go:93-99 | removes exactly the entry of the key |
| Scratches.Scratch.Len | hostkv/scratch.go:103-114 | keeps exactly the live entries, in order, and counts them |
| Scratches.Scratch.EvictOldest | hostkv/scratch.go:120-129 | unlinks the last element from list and map |
| Lru.HoldsMostRecent | hostkv/scratch.go:52-90 | after any run of sets and gets without expiry the cache holds exactly the cap most recently used distinct keys, in recency order, each with its last set value |
| FlusherSteps.StepKeepsInv | memory/manager.go:311-363 | every step of writer and flusher, and a crash with recovery at any point, keeps the invariant: each journaled value is the newest pending entry of its key or on the remote |
| FlusherSteps.RunKeepsInv | memory/manager.go:311-363 | the same for every interleaving |
| FlusherSteps.CrashNumbers | memory/manager.go:86-98 | recovery numbers on from the highest pending entry |
| Convergence.NextNumberFresh | memory/manager.go:86-98 | in every reachable state of an in-memory store, right after a recovery included, the next sequence number is not pending |
| Convergence.FlushEmpties | memory/manager.go:331-363 | an undisturbed fully successful flush empties the journal and touches nothing but journal, index and remote |
| Convergence.NothingPendingMeansSynced | memory/manager.go:309-363 | whenever nothing is pending the remote holds the last journaled value of every key |
| Convergence.Converges | memory/manager.go:267-363 | after any run of puts, failing, partial or successful flushes and crashes, one more fully successful flush leaves the remote with the last completed put of every key (or the put a crash cut off after its journal write), equal to the local value unless a crash fell between local write and journal write |
| Convergence.LocalOnlyAfterCrash | memory/manager.go:268-272 | a crash right after the local write leaves a value that no flush carries to the remote |
| Tiers.NamespaceOf | memory/policy.go:110-113 | the part of a key before its first colon, or the whole key |
| Tiers.RunCoherent | memory/manager.go:159-199 | in any run of cached reads and write-back puts scratch never disagrees with local, and local holds the last put value of every key |
| Tiers.ReadsLastPut | memory/manager.go:175-199 | after any such run with evictions and expiries a read returns the last put value exactly if no live remembered miss hides the key, and misses otherwise |
| Tiers.PutLeavesTombstone | memory/manager.go:181-184 | for every key and every class with a time to live, reading an absent key, putting it and reading it again misses twice |
| Tiers.RecordsGraded | memory/manager.go:374-380 | in every answer of a cascade, confidence is full exactly if the record is fresh, and it is fresh exactly if it came from the remote, or from local where local is the authority |
| Tiers.HintsMean | memory/policy.go:116-138 | a hint changes the read mode only to "fresh", never of remote-only keys, and the write mode only to "scratch only" or away from it; authority and time to live stay |
| Tiers.NamespaceDecides | memory/policy.go:110-121 | all keys of a namespace share its class, which wins over the default |
| Tiers.RemoteHitComesDown | memory/manager.go:204-233 | a key only the remote has is answered from it, fresh and with full confidence, and the next read finds it with the remote gone |
| Tiers.LocalHitComesUp | memory/manager.go:159-173 | a value found locally is put into scratch for the class's time to live |
| Tiers.MissIsRemembered | memory/manager.go:217-224 | a remote miss hides the key for exactly the class's time to live |
| Tiers.FreshReadsRemote | memory/manager.go:179-200 | a fresh read asks the remote whatever is cached, and falls back only when it is unhealthy or does not have the key |
| Managers.Recover | memory/manager.go:89-97 | the loop over the listed journal keys yields the highest number and, per key, its newest entry |
| Managers.Manager.constructor | memory/manager.go:67-100 | over an in-memory store, building a manager is the recovery step of the protocol |
| Managers.Manager.EnqueueJournal | memory/manager.go:311-329 | one fresh number, one entry, the superseded entry gone; on a closed store the number is used up and indexed and nothing written |
| Managers.Manager.GetCached | memory/manager.go:159-173 | scratch, then local with promotion; the record's source, freshness and confidence |
| Managers.Manager.GetRemote | memory/manager.go:204-233 | a hit is promoted into local and scratch and answered fresh with full confidence, a miss remembered, an error reported, an unhealthy remote not asked |
| Managers.Manager.GetCascade | memory/manager.go:179-200 | the cascade with its negative cache and its fallback for fresh reads; the record's source, freshness and confidence |
| Managers.Manager.Get | memory/manager.go:135-148 | reads by the mode the policy resolves, freshness and confidence included |
| Managers.Manager.PutBehind | memory/manager.go:267-273 | an undisturbed write-back put is the protocol's run of four steps, and its effect on the tiers; on success the value is local and queued |
| Managers.Manager.PutThrough | memory/manager.go:243-254 | local, then the remote at once, or the journal while it is unhealthy; on success the value is local, and on the remote or queued |
| Managers.Manager.PutAuthoritative | memory/manager.go:255-266 | projections first, then the remote, or the journal if it fails; on an open store it succeeds, and the value is on the remote if that took it and else queued |
| Managers.Manager.Put | memory/manager.go:237-274 | writes by the mode the policy resolves; after every success on an open store, scratch-only writes aside, the value is local, and on the remote or queued |
| Managers.Manager.FlushOne | memory/manager.go:341-359 | one listed entry: read, send, drop, unindex, or stop at a failure |
| Managers.Manager.Flush | memory/manager.go:334-363 | an undisturbed flush is the protocol's run for the remote's answers, and reports how many entries were sent; it does nothing when the remote is unhealthy or the store lists no journal; without a failure the remote ends with the newest pending entry of every key |
| UndisturbedRuns.FlushRunIsFull | memory/manager.go:334-363 | with no failing answer that run is the flush of the convergence theorem |
| WriteModes.FlushDelivers | memory/manager.go:334-363 | from every state, a flush without failure leaves the remote with the newest pending entry of a key, and as it was for keys with none |
| WriteModes.FlushLeavesNewest | memory/manager.go:338-363 | whatever the remote answers, what a flush leaves pending is the newest part of what was pending |
| WriteModes.FlushKeepsPut | memory/manager.go:334-363 | a put that is queued, or on the remote, with nothing else pending for its key, is on the remote after the next flush without failure |
| WriteModes.AuthoritativeThenFlush | memory/manager.go:255-266 | after a remote-authoritative put and such a flush the remote has its value if it was journaled; if the remote had taken it, it has it unless an older entry of the key was pending, which is then sent over it |
| WriteModes.ThroughThenFlush | memory/manager.go:243-254 | the same for a write-through put that succeeds |
| DurableRestart.NextFreeIff | memory/manager.go:86-98 | for every store of either form, the number the first put after a restart takes is not pending if and only if the store is in memory or entry 1 is not pending |
| DurableRestart.DurableRestartOverwrites | memory/manager.go:311-329 | the i-th put after a restart finds under its number exactly what the store held there at the restart, overwrites it if that was an entry, and leaves its own |
| DurableRestart.RestartOverwritesIff | memory/manager.go:86-98 | some put after a restart overwrites an entry if and only if the store is durable and a pending entry's number is at most the number of puts |
| DurableRestart.PendingAfterPuts | memory/manager.go:311-329 | after any puts into an unused store, entry n is pending if and only if put n was the last one of its key |
| DurableRestart.PutsRestartPuts | memory/manager.go:86-98 | puts, a restart and m puts on a durable store overwrite an entry if and only if one of the first m early puts was the last of its key; as many later puts as early ones always do |
| Supervisor.ManagedHost.Top | cradle/registry.go:226-239 | the critical section at the top of the supervise loop |
| Supervisor.ManagedHost.OnReady | cradle/registry.go:243-248 | the critical section of the ready callback |
| Supervisor.ManagedHost.AfterRun | cradle/registry.go:261-269 | the critical section after a run: flags captured, bounce flag and handle cleared |
| Supervisor.ManagedHost.Stop | cradle/registry.go:315-318 | the critical section of Stop and the cancel function it fetches |
| Supervisor.ManagedHost.Restart | cradle/registry.go:336-358 | flags a live host, claims a dead one |
| Supervisor.ManagedHost.Pause | cradle/registry.go:378-391 | refused exactly if stopping, stopped, crashed or without conductor |
| Supervisor.ManagedHost.Resume | cradle/registry.go:394-407 | the same guard |
| Supervisor.StepKeepsInv | cradle/registry.go:185-407 | every step of every goroutine keeps the inductive invariant |
| Supervisor.SupervisorSafety | cradle/registry.go:211-217 | in every reachable state supervisors plus claims are one if the host is alive and none otherwise; a host that is not alive has no handle and is neither running nor paused |
| Supervisor.NothingLaunchedAfterStop | cradle/registry.go:226-231 | no run is launched between a Stop's critical section and the next Restart's, in any interleaving |
| Supervisor.CancelNotLost | cradle/registry.go:317-321 | a fetched cancel function is called or still to be called |
| Supervisor.StopCancelsLiveRun | cradle/registry.go:310-323 | a Stop's critical section fetches the cancel function of the run live then, and that run is cancelled once the fetched ones have been called |
| Supervisor.DoomedLeaves | cradle/registry.go:271-305 | a supervisor past its last look at the flags, or whose parent was cancelled, launches nothing more and leaves the host dead |
| Supervisor.BounceHonoured | cradle/registry.go:276-282 | a bounce that is on its way leads to a new run before the supervisor can leave, unless Stop or the parent's cancellation comes first |
| Supervisor.RestartHonouredIff | cradle/registry.go:331-371 | right after a Restart of any alive host exactly one holds: the bounce is on its way (a supervisor neither on its way out nor in the select of a cancelled back-off), it is lost (a supervisor on its way out), or it is open (the host is only claimed, or that select) |
| Supervisor.DroppedForGood | cradle/registry.go:271-305 | a lost Restart launches nothing until somebody calls Restart again |
| Supervisor.OpenDecided | cradle/registry.go:284-291 | the first spawn of the claim, or end of the back-off by its timer, decides an open Restart for the bounce; the first failed password or cancelled back-off decides it against; nothing else decides it |
| Supervisor.ClaimedRestartDropped | cradle/registry.go:338-367 | a run in which a successful Restart of a host that is only claimed is dropped when the claiming call gives up |
| Supervisor.RestartDropped | cradle/registry.go:338-347 | a run in which a successful Restart is dropped and the host stays "restarting" with no owner |
| Supervisor.FleetSafe | cradle/registry.go:176-197 | whatever is started, stopped and restarted in whatever order, every managed host keeps the invariant and none is forgotten |
| HostStatus.FinalStatus | cradle/registry.go:271-305 | once the supervisor has left, with no launch since and no Restart: crashed exactly if its run returned an error, the policy is hold, no bounce was asked for, and neither a Stop nor the parent's cancellation was seen; stopped otherwise |
| HostStatus.LiveStatus | cradle/registry.go:226-248 | while a launched run goes on, status, handle and flags are what the trace since the launch says: the last Restart, granted Pause, granted Resume, or ready callback of a starting host decides |
| HostStatus.BackoffShowsRestarting | cradle/registry.go:283-297 | in every reachable state a host in back-off shows "restarting" |
| HostStatus.RelaunchReason | cradle/registry.go:276-297 | a supervisor comes back to the top of its loop either bounced, counting nothing, or after an error under the restart policy, counting exactly one restart |
| HostStatus.FailureRecorded | cradle/registry.go:261-269 | once it has left, an error is on record exactly if there was one or its run returned one |
| HostStatus.RestartCutsLiveRun | cradle/registry.go:338-347 | a Restart fetches the live run's cancel function, and that run is cancelled once the fetched ones have been called |
| HostStatus.ClaimShows | cradle/registry.go:349-367 | a Restart of a dead host shows it starting without an error; given up, it is crashed with one |
| TailReader.SplitConcat | debughttp/inspect.go:184-185 | splitting a concatenation glues the last line of the one to the first of the other |
| TailReader.ScanOnlyShortens | debughttp/inspect.go:177-198 | the backward scan never loses or invents a line: at worst it cuts one to a prefix |
| TailReader.WholeFileExact | debughttp/inspect.go:177-198 | it yields exactly the file's lines if and only if no newline-free run of more than four chunks starts at a block boundary |
| TailReader.ShortLinesShortRuns | debughttp/inspect.go:187-198 | no line over four chunks is enough for that, wherever the boundaries fall |
| TailReader.LongLineCut | debughttp/inspect.go:190-197 | a line of more than five chunks is always cut |
| TailReader.Collect | debughttp/inspect.go:199-212 | one block's lines, newest first, blank, unparsable and too recent ones skipped, until n records are collected |
| TailReader.ReverseInPlace | debughttp/inspect.go:214 | the in-place reversal |
| TailReader.TailDecisions | debughttp/inspect.go:155-216 | the last n records of the scanned lines, whatever the file; and, whenever no long run starts at a block boundary, the parses of the last n lines of the file that are not blank, parse, and are older than the cutoff, in file order |
| TailReader.TailComesFrom | debughttp/inspect.go:199-214 | the records are those of strictly increasing line positions, each line qualifies, and every other qualifying line stands before them and only if n were returned |
| TailReader.SplitMeans | debughttp/inspect.go:184-185 | splitting cuts at the newline bytes and nowhere else |
| TailReader.TailIsForward | debughttp/inspect.go:148-154 | the promise for every decoder, n and chunk size under that condition |
| TailReader.TailIsForwardIff | debughttp/inspect.go:190-197 | the condition is exact: for the decoder that keeps lines as they are the promise holds for all n if and only if it is met |
| TailReader.LongRecordLost | debughttp/inspect.go:190-197 | a record on a line of more than five chunks is lost although it parses |
| Sorting.SortsStably | pearl/engine.go:31-37 | ordered, a permutation, and equal-ranking elements in their old order |
| Sorting.OnlyOneStableSort | pearl/engine.go:31-37 | that promise determines the result, whatever algorithm keeps it |
| Sorting.SortForgetsOrder | pearl/engine.go:31-37 | two lists that agree on every group of equal-ranking elements sort to the same list |
| Pearl.TableIsASet | pearl/engine.go:28-37 | tables with unique (salience, ID) and the same rules are ordered the same way |
| Pearl.GateIsHighestRanked | pearl/engine.go:128-148 | the gate answers with the highest-ranked rule that fires with a veto or a substitute, and allows exactly when none fires |
| Pearl.GateMeans | pearl/engine.go:131-148 | allowed exactly if no veto or substitute fires; denied with the reason of a veto, replaced by the effect of a substitute, of the rule that outranks all others that fire |
| Pearl.GateForgetsOrder | pearl/engine.go:131-148 | with unique keys the verdict depends on the set of rules only |
| Pearl.TiedRulesKeepOrder | pearl/engine.go:31-37 | two rules sharing salience and ID answer in the order they are listed in |
| Pearl.Engine.constructor | pearl/engine.go:28-43 | the stable order of the table and the default floor |
| Pearl.Engine.Gate | pearl/engine.go:131-148 | the scan with early return yields the first decisive verdict |
| Pearl.Engine.Scan | pearl/engine.go:65-93 | one pass yields the first in-option substitute, the summed weights, the highest confidences and the union of vetoed options |
| Pearl.AddBias | pearl/engine.go:85-91 | adding one rule's weights in any order of its map |
| Pearl.RankTwo | pearl/engine.go:171-188 | the first heaviest position and the first heaviest of the others |
| Pearl.WinnerIsTop | pearl/engine.go:120-123 | comparing the two heaviest decides whether some position beats every other by the margin and meets the floor |
| Pearl.Engine.Choose | pearl/engine.go:100-125 | none left: the original options; one left: it; else a hit exactly if a clear, well-backed winner exists; else the survivors, heaviest first, stably |
| Pearl.Engine.TryDecide | pearl/engine.go:61-126 | the whole decision: a forced substitute first, else the above; a hit names an option, and without a substitute never a vetoed one |
| Pearl.ForbiddenMeans | pearl/engine.go:81-84 | an option is vetoed exactly if some firing veto names it |
| Pearl.BackingMeans | pearl/engine.go:85-91 | an option's confidence is the highest of the rules that bias it, and at least 0 |
| Pearl.ForceIsHighestRanked | pearl/engine.go:77-80 | the forced choice is that of the highest-ranked firing substitute whose action is an option |
| Pearl.WeightForgetsOrder | pearl/engine.go:85-91 | an option's weight does not depend on the order of the table |
| PolicyCompiler.CompilePolicy | persona/policy.go:48-185 | the step-by-step compile yields exactly the persona's rules, trade policy and floor |
| PolicyCompiler.DecisionFloor | persona/policy.go:177-178 | the floor lies between 0.4 and 0.8 |
| PolicyCompiler.FleeBelow | persona/policy.go:70-75 | the flee threshold lies between 0.1 and 0.6 |
| PolicyCompiler.MarginWidens | persona/policy.go:81-90 | less aggression means an at least as wide level margin, between 0 and 4 |
| PolicyCompiler.DirectivesDominate | persona/policy.go:156-161 | for every persona and all facts, some hard directive applies if and only if the gate's answer is the denial of one that does |
| PolicyCompiler.DirectiveDenies | persona/policy.go:187-206 | an action named by an unconditional hard directive is denied by a veto, never replaced |
| PolicyCompiler.CompiledKeysUnique | persona/policy.go:198-199 | no two rules of a compiled table share salience and ID |
| PolicyCompiler.CompiledForbidsNoOption | persona/policy.go:198-205 | compiled vetoes forbid no option of a decision |
| PolicyCompiler.HurtHostFlees | persona/policy.go:70-79 | every persona below a tenth of its hit points decides to flee, with confidence 0.85, whatever else is offered short of carrying on or examining a trade |
| PolicyMeaning.CompiledGate | persona/policy.go:80-135 | for every persona and all facts, the gate denies by a directive that applies; else an attack on a target stronger by the margin, else a pacifist's first strike; else it replaces a cautious host's blind trade by a look at the offer; else it allows |
| PolicyMeaning.CompiledScore | persona/policy.go:69-154 | for every persona, all facts and every option, the weight is that of the flight reflex if hurt plus that of patience when deciding, and nothing else; facts without an action are facts about deciding |
| PolicyMeaning.TradingFollows | persona/policy.go:163-175 | trade policy is monotone in honesty, cooperation, loss aversion and economic risk |
| PolicyMeaning.NeutralTrading | persona/policy.go:163-175 | and takes its neutral values, shifted by cooperation, for a persona neutral in these |
| PolicyMeaning.MarginIsNearest | persona/policy.go:81-90 | the level margin is the whole number nearest to eight times what aggression lacks of one half |
| PolicyMeaning.ThresholdsFollow | persona/policy.go:69-178 | flight threshold and confidence floor are monotone in their dials and neutral for neutral ones |
| PolicyMeaning.BandsInOrder | persona/policy.go:210-218 | bands are read as equally spaced centres, in order, an unknown one as one half |
| EpisodeJournal.Journal.Append | memory/journal.go:69-94 | refreshes a repeated newest episode or adds a new one under the next number, keeping the journal sound |
| EpisodeJournal.Journal.SetObjective | memory/journal.go:99-108 | changes the objective exactly if the goal is new and not empty |
| EpisodeJournal.Journal.Import | memory/journal.go:188-204 | trims to the newest cap episodes and sets the counter to the highest number, for any snapshot |
| EpisodeJournal.Journal.Salient | memory/journal.go:137-164 | min(n, len) retained episodes in order of number, and whatever is left out is outranked by everything kept |
| EpisodeJournal.ImportSound | memory/journal.go:185-204 | new numbers exceed all retained ones whatever was imported, and a sound snapshot gives a sound journal |
| EpisodeJournal.ExportImport | memory/journal.go:173-204 | exporting and importing restores the journal, or its newest episodes in a smaller one |
| EpisodeJournal.RunSound | memory/journal.go:69-204 | across any run of appends, exports and imports numbers increase strictly, the bound holds, no two neighbours share kind and text, and the counter is at least every retained number |
| EpisodeJournal.RecallsUnique | memory/journal.go:137-164 | there is only one list that recalls n episodes |
| EpisodeJournal.OutranksMeans | memory/journal.go:146-156 | one episode outranks another exactly if its lead in importance exceeds 0.6 of the share of the journal by which it is older, or equals it and it is the older one |
| EpisodeJournal.RepeatsCollapse | memory/journal.go:77-93 | any number of repeats in a row collapse into one episode under one number, with their highest importance and the last time |
| Compositor.RecolourDarkens | render/entitysprite.go:126-147 | a recoloured texel is a 24-bit colour with no channel brighter than before |
| Compositor.NoRecolourIff | render/entitysprite.go:122-132 | with dye and skin 0 a visible texel is unchanged if and only if it is black or neither grey nor skin-toned |
| Compositor.RecolourMeans | render/entitysprite.go:126-147 | grey texels take the dye and skin-toned ones the skin colour, channel by channel, whatever the other colour; all others stay |
| Compositor.ColoursReach | render/entitysprite.go:170-193 | hair, top and bottom colours reach only layers of their marker, skin only these three; other markers are the colour |
| Compositor.PalettesResolve | render/entitysprite.go:160-168 | players' colours are palette entries as far as the palette goes; all other colours stand for themselves |
| Compositor.DecodesIff | render/entitysprite.go:91-119 | when a sprite decodes, and the figure size it gets |
| Compositor.SpriteShows | render/entitysprite.go:105-118 | a sprite contributes nothing outside its shifted rectangle and where it is black, else its recoloured texel |
| Compositor.CanvasFits | render/entitysprite.go:212-229 | the canvas is as wide and as high as the largest part |
| Compositor.Decode | render/entitysprite.go:91-119 | every decoded frame has positive sizes, one colour per position, and colours of 24 bits or -1 |
| Compositor.PaintedIsLast | render/entitysprite.go:240-262 | a position is opaque exactly if some part's visible texel lands on it, and shows the last such part's colour |
| Compositor.CompositeSprite.DrawRow | render/entitysprite.go:242-261 | one sprite row drawn over the canvas, clipped on both sides |
| Compositor.CompositeSprite.DrawPart | render/entitysprite.go:240-262 | one part drawn over what is there, shifted and clipped |
| Compositor.DecodeLayers | render/entitysprite.go:212-229 | the parts that decode, in order, and the largest canvas size among them |
| Compositor.Composite | render/entitysprite.go:205-264 | nothing exactly if nothing decodes; else a canvas that shows the painter's specification at every position |

## Left out

- FindPath: the eight copied expansion blocks are one loop over a table of directions, tried in the source's order.
- BuildGrid: sectors are given tile arrays and missing sectors stay empty; the archive's file format and read errors are not modelled. `TileStandable` only reads two bits and is not modelled.
- SceneryAt: the facts index is taken as a search through the scenery list; boundary placements, which the source skips there, are not listed.
- Converges: it concerns write-back puts (for the other modes see `WriteModes`); keys that are deleted, two flushers, two writers of one key, and the durable store's journal are outside it; the code gives no convergence there.
- ReadsLastPut: reads with a freshness hint, ephemeral writes and deletes are outside it.
- Manager: metrics, `Delete` and `Search` are not modelled; the remote is a map whose answers may fail before or after taking effect.
- GetRemote: the deadline scaled by the maturity of the class is not modelled; it only decides whether the remote answers or fails, and both answers are.
- Flush: calls run undisturbed in the class; interleavings with puts and crashes are those of the protocol.
- EnqueueJournal: the sequence number is required to be below the largest 64-bit value; the overflow is not modelled.
- JournalKeySeq: signs and other spellings that the source's number parser accepts do not occur in keys the source writes and are not modelled.
- Get: JSON values are bytes or a journal entry; encoding is not modelled.
- Scratch: the linked list is a sequence of element objects that the map points into; list node pointers are not modelled, and the clock is a parameter.
- Keys: the storage engine's iterator is modelled by its promise, an ascending scan of a key range; migration, versions and meta keys are not modelled.
- ManagedHost: the goroutine between critical sections is a place in the step model, not a method; wall-clock back-off, hooks, logs and snapshots are not modelled, and no liveness is claimed.
- TailDecisions: trimming, parsing and the age filter are total functions; file errors are not modelled.
- SortsStably: the standard library's sorts are modelled by one stable sort; `OnlyOneStableSort` makes the choice immaterial.
- TryDecide: facts are values; that the call also fills in the caller's empty action field is not modelled. Sums are over reals, so rounding of accumulated weights is not modelled. `Injections` and the version string are not modelled.
- CompilePolicy: case folding and trimming are arbitrary total functions; fields of a persona that the compiler does not read are not modelled.
- Append: times are parameters; locking is not modelled.
- Composite: sprite decoding is a given table of sprites; caches, pose selection and billboard sizes are not modelled.
- Packet builders, scripting verbs, HTTP and streaming handlers, the embedded user interface, asset decoding, definition tables and the cognition stubs are not part of this model.
