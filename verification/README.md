# Verified model of the buddy IPAM and CNI resilience cores

This project models the parts of the operator that must not go wrong, and proves what they promise:

- **The buddy allocator** (`BuddyBlocks`, `BuddyAllocators`, `Pools`): a mutable binary tree on the heap with parent
  pointers, a free index per level and a quarantine set, merged eagerly, and a pool of such trees. Every operation is
  specified by what it does to the addresses. `Shapes` holds the tree as a value and shows that a merged tree is
  determined by the blocks that are held in it; `Addresses` relates blocks to single addresses. `Units`, `Demand` and
  `Filling` count space in minimum blocks, for the allocation of a whole demand. `Rebuild` is the pool as the controller
  rebuilds it from the NodeBlocks in every pass.
- **The NodeBlock protocol** (`NodeBlocks`, `Protocol`, `ProtocolSafety`, `ProtocolCompany`, `ProtocolLimits`,
  `ProtocolRuns`, `PlannerSteps`, `PlannerRuns`, `ApiServer`, `AgentPass`, `ControllerPass`): controller, agents, CNI
  configs, pending pod sandboxes and leases as a step system. The controller makes one API write at a time, in any order,
  and may lose any of them. An agent reads its blocks, writes the config, counts the leases of the blocks and then of
  their halves, judges by the clock which halves are ready and writes one status after the other, and anything may happen
  in between. The loops of an agent's pass, and the writes of a controller's pass, cut off anywhere, are proved to be such
  steps, and so is whatever the planner decides (`PlannerSteps`). `ProtocolSafety` shows that careful steps are safe in
  every run, `ProtocolCompany` that no node is left with nothing but a drain that it has not noticed, `ProtocolLimits`
  that every step that is not careful can do harm in every world, and `ProtocolRuns` how each kind of them comes about.
  `PlannerRuns` shows that the planner, with its default numbers, takes the decisions in these runs to ask for a half, to
  keep it, to split it off and to drain the block; how the node came by its blocks, and the withdrawal of a block
  whose node is gone, are not among them.
- **Aggregation and routes** (`Aggregation`, `Routes`, `DesiredRoutes`): joining buddies into the fewest prefixes, the
  routes a node wants, and what its table answers while they are replaced.
- **Sizing and planning** (`Sizing`, `Growth`, `Planner`, `PlannerRules`, `PlannerLoops`): capacities, grows under the cap,
  which decision is taken, drains and splits, hysteresis and timers.
- **Fault triangulation** (`HealthRing`, `Triangulation`, `Streaks`): the rotating probe ring, the verdict on its results
  compared with what is really broken, and the filter on raw results.
- **Failover** (`Failover`): the order of the writes that move Service traffic, cut off after any of them.

A CIDR is a pair of base and prefix length on 32-bit naturals (section 3.1 of RFC 4632). Times are whole seconds of one
clock. Objects that the program updates in place are classes; protocols are functions from state to state.

## Findings

Places where the code does less than its comments say, each with a concrete input and the exact condition:

- `buddy/pool.go:211-214` drops what the failing half of a fall-back had taken, so that a failed `AllocateDemand` can leave
  blocks allocated: `Pools.LoseABlock` is a pool and a call for which it does. A failed demand leaves the pool as it was
  exactly if nothing is lost (`Pools.Pool.AllocateDemand`), which is so exactly if the free minimum blocks fall short of
  the first pieces of the demand, up to one of them, by a power of two that is no larger than that piece
  (`Demand.LossFree`). If the fall-back reported the part, the pool would be as it was after every failure: the same
  method with `repaired` set.
- `agent/agent.go:252-373` is not atomic, and the address of a pod can end up on two nodes in six ways. The controller asks
  for a half again that the agent has taken back into the config, before it has withdrawn its report that the half is
  empty (`ProtocolRuns.ReportIsStale`), or before it has forgotten since when the half was left out
  (`ProtocolRuns.MarkIsStale`). A drain begins between the read and the status write of a pass, which then says Draining
  while the config still lists the block (`ProtocolRuns.DrainIsUnseen`). A pod leases an address between the count and the
  status write of a pass that spans the end of the settle time: one of a block that drains (`ProtocolRuns.LeaseIsUnseen`),
  or one of a half that is to be given back, whose leases are counted before the clock is read
  (`ProtocolRuns.HalfLeaseIsUnseen`). And a node comes back under its name between the plan to withdraw its blocks and
  that write (`ProtocolRuns.NodeReturns`). In the step system nothing else can go wrong: every run without these steps is
  safe (`ProtocolSafety.EveryRunIsSafe`), and in whatever world of such a run one of them is taken, some run of careful
  steps after it ends with an address leased on two nodes (`ProtocolLimits.CarefulIsExact`, for a settle time of a second
  or more). What the step system does not have is under "Left out".
- `agent/agent.go:200-218` goes on to delete stale routes after an install failed. An address that had a route, and is to
  have one, is then left without any exactly if its new route could not be installed and every old one had another
  destination or another gateway and could be deleted (`Routes.GapAfterFailure`); `Routes.GapForNewGateway` is such a case.
- `agent/agent.go:206-217` counts a route that gets another gateway as failed, although its table is right: `Replace` puts
  the new route in the place of the old one, and `Delete`, which names the old gateway, finds none. A pass is without error
  exactly if no call fails and no route changes its gateway (`Routes.RouteTable.SyncRoutes`).

## Model

| member | source | states |
|---|---|---|
| Cidrs.HalvesAligned | operator/internal/controller/ipam/buddy/halves.go:24-40 | both halves of an aligned block are aligned, are each other's sibling, and have the block as their parent |
| Cidrs.ParentAligned | operator/internal/controller/ipam/buddy/aggregate.go:49-54 | the joined prefix of two siblings is aligned and consists of exactly these two |
| NodeBlocks.OtherHalf | operator/internal/controller/ipam/buddy/halves.go:42-56 | there is another half exactly if the argument is a half, and it is a half and different |
| Shapes.Canonical | operator/internal/controller/ipam/plan.go:172-194 | two merged trees over one range that hold the same blocks are equal, whatever history led to them |
| Shapes.FreeBlockCoversFreeRegion | operator/internal/controller/ipam/buddy/allocator.go:550-568 | because merging is eager, every free aligned region lies in one free block of at least its size |
| Addresses.FreeBlocksAreMaximal | operator/internal/controller/ipam/buddy/allocator.go:295-310 | the free blocks of a merged tree are exactly the free regions of the range that cannot be widened |
| Addresses.SearchIsComplete | operator/internal/controller/ipam/buddy/allocator.go:295-310 | a free block of at least a size exists exactly if some aligned region of that size is free address by address |
| Addresses.FullyOwnedByAddress | operator/internal/controller/ipam/buddy/allocator.go:382-391 | a subtree is owned by a node exactly if the node owns every address of it |
| Addresses.AddressesConserved | operator/internal/controller/ipam/buddy/allocator.go:640-676 | free, allocated and quarantined addresses add up to the size of every block |
| BuddyAllocators.BuddyAllocator.constructor | operator/internal/controller/ipam/buddy/allocator.go:196-206 | a new tree is one free block over the whole range, and in order |
| BuddyAllocators.BuddyAllocator.Make | operator/internal/controller/ipam/buddy/allocator.go:174-207 | a tree exactly for limits that fit the range and each other, otherwise an error |
| BuddyAllocators.BuddyAllocator.SplitBlock | operator/internal/controller/ipam/buddy/allocator.go:258-267 | tree, parent pointers and free index stay in order; the tree as a value is the old one with the block split |
| BuddyAllocators.BuddyAllocator.LowestFree | operator/internal/controller/ipam/buddy/allocator.go:247-256 | the free block of the level with the lowest address, or none if the level has no free block |
| BuddyAllocators.BuddyAllocator.MergeWithBuddy | operator/internal/controller/ipam/buddy/allocator.go:550-568 | one merge upward, which leaves the final outcome of merging unchanged |
| BuddyAllocators.BuddyAllocator.Release | operator/internal/controller/ipam/buddy/allocator.go:550-568 | the block is no longer held, nothing else changes, and no two free buddies remain |
| BuddyAllocators.BuddyAllocator.CarveTo | operator/internal/controller/ipam/buddy/allocator.go:434-471 | splitting towards an address ends at the aligned piece there, with everything beside the path free |
| BuddyAllocators.BuddyAllocator.Sweep | operator/internal/controller/ipam/buddy/allocator.go:578-597 | exactly the quarantines that have run out are over, and their number is returned |
| BuddyAllocators.BuddyAllocator.PrefixFor | operator/internal/controller/ipam/buddy/allocator.go:269-281 | the smallest allowed block that holds the request, or an error if none does |
| BuddyAllocators.BuddyAllocator.TakeSmallest | operator/internal/controller/ipam/buddy/allocator.go:295-310 | the block comes from the smallest sufficient free block, the lowest of these; it fails exactly if no aligned region of that size is free |
| BuddyAllocators.BuddyAllocator.Allocate | operator/internal/controller/ipam/buddy/allocator.go:283-293 | the same for the size that a request is rounded up to, after a sweep |
| BuddyAllocators.BuddyAllocator.AllocateSpread | operator/internal/controller/ipam/buddy/allocator.go:312-340 | as Allocate in a free block of twice the size, and the buddy of the new block is free |
| BuddyAllocators.BuddyAllocator.AllocatePrefix | operator/internal/controller/ipam/buddy/allocator.go:342-351 | a block of exactly the prefix, an error exactly for a prefix out of range or no free region; allocated blocks stay where they are |
| BuddyAllocators.BuddyAllocator.BuddyIsSibling | operator/internal/controller/ipam/buddy/allocator.go:353-362 | the buddy that the parent pointer leads to is the block at the sibling address |
| BuddyAllocators.BuddyAllocator.AllocateBuddyOf | operator/internal/controller/ipam/buddy/allocator.go:364-380 | the buddy is handed out exactly if all of it is free |
| BuddyAllocators.BuddyAllocator.OwnedBy | operator/internal/controller/ipam/buddy/allocator.go:382-391 | the walk answers whether the node owns everything below the block |
| BuddyAllocators.BuddyAllocator.Climb | operator/internal/controller/ipam/buddy/allocator.go:408-411 | the anchor is the largest enclosing range whose rest the node owns |
| BuddyAllocators.BuddyAllocator.AllocateFromBuddy | operator/internal/controller/ipam/buddy/allocator.go:393-432 | the piece touches that range, has the smaller of the buddy's and the rounded size, was free, and with the whole buddy the parent range is owned; it fails exactly if there is no free buddy or the request is too large |
| BuddyAllocators.BuddyAllocator.Reserve | operator/internal/controller/ipam/buddy/allocator.go:434-471 | succeeds exactly if every address of the block is free, and changes nothing otherwise |
| BuddyAllocators.BuddyAllocator.Find | operator/internal/controller/ipam/buddy/allocator.go:481-500 | finds exactly the held blocks |
| BuddyAllocators.BuddyAllocator.ContainsIsWithin | operator/internal/controller/ipam/buddy/allocator.go:224-231 | the test by base and prefix is containment of the addresses |
| BuddyAllocators.BuddyAllocator.CheckOwned | operator/internal/controller/ipam/buddy/allocator.go:532-547 | an error for no block, one that is not allocated, and one of another tree, in this order |
| BuddyAllocators.BuddyAllocator.Return | operator/internal/controller/ipam/buddy/allocator.go:503-520 | the block is quarantined, or free at once without a quarantine; nothing else changes |
| BuddyAllocators.BuddyAllocator.FreeNow | operator/internal/controller/ipam/buddy/allocator.go:522-530 | the block is free at once, whatever the quarantine |
| BuddyAllocators.BuddyAllocator.Defragment | operator/internal/controller/ipam/buddy/allocator.go:599-624 | finds nothing to merge in any tree of this allocator |
| BuddyAllocators.BuddyAllocator.StatsBelow | operator/internal/controller/ipam/buddy/allocator.go:640-676 | the numbers are what counting single addresses gives, no pair is unmerged, and the largest free block is right |
| Units.TakeUnits | operator/internal/controller/ipam/buddy/pool.go:199-207 | taking a free block takes exactly its minimum blocks from those that are free |
| Demand.UnitsCover | operator/internal/controller/ipam/buddy/pool.go:223-224 | the rounded demand covers the request with less than one minimum block of waste |
| Demand.SplitDemand | operator/internal/controller/ipam/buddy/pool.go:219-240 | the sizes add up to the rounded demand, largest first and, below the maximum, each once |
| Demand.LeakFree | operator/internal/controller/ipam/buddy/pool.go:211-214 | a failing fall-back loses nothing exactly if the free space is 0 or a full block less a power of two |
| Demand.LossFree | operator/internal/controller/ipam/buddy/pool.go:182-196 | a failing demand loses nothing exactly if the free space falls short of its first pieces, up to one of them, by a power of two that is no larger than that piece |
| Filling.FilledBoth | operator/internal/controller/ipam/buddy/pool.go:211-216 | two halves that are filled fill the whole |
| Filling.RollsBack | operator/internal/controller/ipam/buddy/pool.go:186-196 | a failed demand leaves the pool as it was exactly if no space is lost, and always in the repaired form |
| Pools.Pool.AllocateExact | operator/internal/controller/ipam/buddy/pool.go:199-207 | the first range with a free block of the size gives it, and none before it has one; otherwise no range has one and nothing changes |
| Pools.Pool.AllocatePrefixOrSplit | operator/internal/controller/ipam/buddy/pool.go:199-217 | succeeds exactly if that much space is free in minimum blocks anywhere, with disjoint free blocks of exactly that total |
| Pools.Pool.AllocateDemand | operator/internal/controller/ipam/buddy/pool.go:172-197 | succeeds exactly if the rounded demand is free, with disjoint blocks of exactly that total; after a failure the pool is as it was exactly if nothing is lost, and always in the repaired form |
| Pools.LoseABlock | operator/internal/controller/ipam/buddy/pool.go:172-217 | a pool with one /28 that refuses 64 addresses and is not as it was afterwards |
| Pools.Pool.AllocateFromBuddy | operator/internal/controller/ipam/buddy/allocator.go:393-432 | the range that a block lies in gives a free block beside the largest range around it that the node owns, of the smaller of the buddy's and the rounded size; otherwise nothing changes, and there is no free buddy or the request is too large, as the error says |
| Pools.Pool.AddCIDR | operator/internal/controller/ipam/buddy/pool.go:93-121 | accepted exactly if it overlaps no range and leaves room for a minimum block, and then an empty range with clamped limits |
| Pools.Pool.OwnerOf | operator/internal/controller/ipam/buddy/pool.go:288-295 | the range that contains a block, or none |
| Pools.Pool.Reserve | operator/internal/controller/ipam/buddy/pool.go:266-276 | succeeds exactly if some range has all its addresses free; one range changes by exactly this block |
| Pools.Pool.FreeNowIn | operator/internal/controller/ipam/buddy/pool.go:311-316 | the range that the block lies in no longer holds it; what else was granted stays granted |
| Rebuild.AllFit | operator/internal/controller/ipam/plan.go:182-192 | no claim is left out exactly if the claims are disjoint and each fits into the free space |
| Rebuild.OrderDoesNotMatter | operator/internal/controller/ipam/plan.go:182-193 | every order of disjoint claims places all of them, with the same result |
| Rebuild.NewBlocksAreApart | operator/internal/controller/ipam/plan.go:172-194 | what the rebuilt pool can hand out is exactly the free space that meets no claim |
| Rebuild.SameTrees | operator/internal/controller/ipam/plan.go:172-194 | pools that hold the same blocks have the same trees, however they were filled |
| Rebuild.RebuildIsCanonical | operator/internal/controller/ipam/plan.go:172-194 | rebuilding from the same claims in another order gives the same trees |
| Rebuild.BuildPool | operator/internal/controller/ipam/plan.go:174-194 | the rebuilt pool has the accepted ranges and every claim that finds its place; the problems are those refused |
| ProtocolSafety.EveryRunIsSafe | operator/internal/controller/ipam/agent/agent.go:252-501 | in every run no address is leased on two nodes, and every leased or configured address is in a NodeBlock of that node that is not Quarantined |
| ProtocolSafety.BlocksNeverCollide | operator/internal/controller/ipam/ipam_controller.go:466-563 | in every run NodeBlocks are disjoint and inside what their names say; no create finds its name or space taken |
| ProtocolSafety.StepKeepsInv | operator/internal/controller/ipam/ipam_controller.go:236-350 | every step of controller, agents, pods and nodes keeps the invariant |
| ProtocolSafety.InvIsSafe | operator/internal/controller/ipam/agent/agent.go:133-135 | the invariant implies safety |
| ProtocolSafety.NameIsFree | operator/internal/controller/ipam/sizing.go:38-42 | a block about to be created never finds an object of its name |
| ProtocolSafety.CreateStep | operator/internal/controller/ipam/ipam_controller.go:534-563 | creating a planned block or the rest of a split keeps the invariant |
| ProtocolSafety.UpdateStep | operator/internal/controller/ipam/ipam_controller.go:243-331 | drain, undrain, release, unrelease, withdrawal and the status stamps keep it |
| ProtocolSafety.SplitStep | operator/internal/controller/ipam/ipam_controller.go:482-498 | the first write of a split keeps it: nobody has anything in the half that is given up |
| ProtocolSafety.RestIsApart | operator/internal/controller/ipam/ipam_controller.go:507-519 | the half given up meets no block and no planned block |
| ProtocolSafety.DeleteStep | operator/internal/controller/ipam/ipam_controller.go:333-348 | deleting a quarantined block keeps it: nobody has anything left in it |
| ProtocolSafety.PlanStep | operator/internal/controller/ipam/ipam_controller.go:156-193 | planning keeps it, whatever the planner decides |
| ProtocolSafety.ReadStep | operator/internal/controller/ipam/agent/agent.go:254-294 | reading the blocks keeps it: what the pass is going to serve is the node's |
| ProtocolSafety.ConfigStep | operator/internal/controller/ipam/agent/agent.go:296-315 | writing the config keeps it, whatever has happened to the objects since they were read |
| ProtocolSafety.CountStep | operator/internal/controller/ipam/agent/agent.go:325-335 | counting the leases of the blocks, and those of the halves, keeps it |
| ProtocolSafety.JudgeStep | operator/internal/controller/ipam/agent/agent.go:429-447 | marking a half and judging it by the clock keeps it, whatever has happened since the count |
| ProtocolSafety.PruneStep | operator/internal/controller/ipam/agent/agent.go:448-452 | forgetting old marks keeps it |
| ProtocolSafety.StatusStep | operator/internal/controller/ipam/agent/agent.go:350-371 | writing a status into the object as it is by then keeps it, on the strength of what the pass has counted |
| ProtocolSafety.PhaseIs | operator/internal/controller/ipam/agent/agent.go:478-501 | which phase follows on which, and exactly when: into service only by a promotion or a drain taken back, into quarantine only by request, after the settle time and with no lease counted |
| ProtocolSafety.ReportIsFresh | operator/internal/controller/ipam/agent/agent.go:401-419 | a report that is written is of the half that is asked for and found ready; any other report for the range that the pass has read is withdrawn |
| ProtocolSafety.JudgementIs | operator/internal/controller/ipam/agent/agent.go:435-446 | an old mark of the half stays, a new one needs a written config; ready is exactly a half left out since its mark for the settle time in which no lease was counted |
| ProtocolSafety.NothingToJudge | operator/internal/controller/ipam/agent/agent.go:432-433 | a block of which no half is asked for keeps its mark for now and gets no half ready |
| ProtocolSafety.PrunedMarks | operator/internal/controller/ipam/agent/agent.go:448-452 | exactly the marks of blocks in service of which a half is asked for are kept |
| ProtocolSafety.ConfigRestsOn | operator/internal/controller/ipam/agent/agent.go:264-294 | a written config offers exactly the addresses of blocks in service, taken back from a drain, or promoted by the pass, without the halves that are asked for |
| ProtocolSafety.ConfigStays | operator/internal/controller/ipam/agent/agent.go:289-290 | a pass that has nothing to put into the config leaves it as it is |
| ProtocolSafety.CountIsHeeded | operator/internal/controller/ipam/agent/agent.go:444-501 | a block in which the pass has counted a lease goes on to no quarantine, and a half in which it has counted one is not reported ready |
| ProtocolSafety.ComingOfBlock | operator/internal/controller/ipam/agent/agent.go:268-300 | of a block a pass puts into the config only what it serves of it |
| ProtocolSafety.SettledIsClear | operator/internal/controller/ipam/agent/agent.go:73-76 | out of the config for the settle time and without a lease, nothing of a region is left on the node |
| ProtocolSafety.JudgedIsUnreached | operator/internal/controller/ipam/agent/agent.go:435-446 | a half that a pass finds ready is in no config and in no sandbox that may still act; a lease since the count is all that can be left in it |
| ProtocolSafety.MarkIsTrue | operator/internal/controller/ipam/agent/agent.go:435-443 | a half that is being given back has been out of the config since its mark |
| ProtocolSafety.ReportIsOwn | operator/internal/controller/ipam/agent/agent.go:350-351 | a report goes only into a block of the node that found it |
| ProtocolSafety.PhaseGoesOn | operator/internal/controller/ipam/agent/agent.go:478-501 | a status write keeps the spec, no block leaves Quarantined or goes back to Pending, and one in service stays Active |
| ProtocolCompany.StepKeepsCompany | operator/internal/controller/ipam/plan.go:600-610 | a block that drains while its node still serves it is never the only one that the node serves, whichever step is taken |
| ProtocolCompany.RunKeepsInvariant | operator/internal/controller/ipam/agent/agent.go:252-501 | every run of careful steps keeps both invariants |
| ProtocolCompany.DrainCompany | operator/internal/controller/ipam/ipam_controller.go:243-269 | a drain that is planned leaves the node a block, and one beside every drain that has not been noticed |
| ProtocolLimits.CarefulIsExact | operator/internal/controller/ipam/agent/agent.go:252-501 | in every world in which the invariants hold, a step is careful exactly if no run of careful steps after it ends with an address leased on two nodes |
| ProtocolLimits.CarelessStepHarms | operator/internal/controller/ipam/agent/agent.go:252-501 | every careless step, of whichever kind, has such a run after it |
| ProtocolLimits.BelieveReport | operator/internal/controller/ipam/ipam_controller.go:482-498 | if a half is asked for while a stale report says that it is ready, it can be split off while in use |
| ProtocolLimits.BelieveMark | operator/internal/controller/ipam/agent/agent.go:435-446 | if a half is asked for while an old mark of it is left, it is reported ready too soon |
| ProtocolLimits.ListedBlockLost | operator/internal/controller/ipam/agent/agent.go:478-501 | if a status says Draining while the config lists the block, the block can be quarantined while a sandbox acts on the config |
| ProtocolLimits.LeasedBlockLost | operator/internal/controller/ipam/agent/agent.go:490-499 | if a lease was taken that the count has not seen, the block goes back to the pool with it |
| ProtocolLimits.LeasedHalfLost | operator/internal/controller/ipam/agent/agent.go:332-351 | if a lease was taken in a half since it was counted, the half is reported ready and goes back to the pool with it |
| ProtocolLimits.Calms | operator/internal/controller/ipam/agent/agent.go:478-501 | a node can end every change in flight with a block in service and one lease in it as they are |
| ProtocolLimits.WithdrawnInUse | operator/internal/controller/ipam/ipam_controller.go:314-331 | if a node is back before its block is withdrawn, the block can be withdrawn in use |
| ProtocolRuns.ReportIsStale | operator/internal/controller/ipam/agent/agent.go:350-371 | a run from an empty cluster to a release that believes a stale report |
| ProtocolRuns.MarkIsStale | operator/internal/controller/ipam/agent/agent.go:325-341 | the same for a pass that ends after the config write, with no half reported ready |
| ProtocolRuns.DrainIsUnseen | operator/internal/controller/ipam/agent/agent.go:268-276 | the same for a drain between the read and the status write of a pass |
| ProtocolRuns.LeaseIsUnseen | operator/internal/controller/ipam/agent/agent.go:325-371 | the same for a lease between the count and the status write of a pass |
| ProtocolRuns.HalfLeaseIsUnseen | operator/internal/controller/ipam/agent/agent.go:332-336 | the same for a lease in a half between its count and the reading of the clock |
| ProtocolRuns.NodeReturns | operator/internal/controller/ipam/ipam_controller.go:314-331 | the same for a node that comes back before its block is withdrawn |
| PlannerSteps.DecisionIsPlanned | operator/internal/controller/ipam/plan.go:256-318 | whatever is decided for a node, with whatever numbers, pods and leases, is what the system lets the controller plan |
| PlannerSteps.PassIsPlanned | operator/internal/controller/ipam/plan.go:226-318 | the same for a whole pass over all nodes, with its withdrawals and deletions |
| PlannerSteps.TidyIsPlanned | operator/internal/controller/ipam/plan.go:233-241 | what a pass withdraws and deletes is planned, and is all that can be |
| PlannerSteps.DrainsLeaveOne | operator/internal/controller/ipam/plan.go:462-475 | the drains of a pass leave the node a block that it serves |
| PlannerSteps.ReachedIsSeen | operator/internal/controller/ipam/plan.go:227-243 | in every world that a careful run leads to, the blocks of a node are as the planner takes them to be |
| PlannerRuns.AsksForHalf | operator/internal/controller/ipam/plan.go:452-479 | with ten pods the planner asks for the half in those runs, the second time as the first |
| PlannerRuns.KeepsHalf | operator/internal/controller/ipam/plan.go:284-297 | with nineteen pods it wants the half back |
| PlannerRuns.SplitsHalf | operator/internal/controller/ipam/plan.go:279-283 | once the half is asked for and reported ready it has it split off, whatever the pods |
| PlannerRuns.DrainsWhole | operator/internal/controller/ipam/plan.go:462-475 | with three pods it drains the second block |
| ControllerPass.Pass.SetDrain | operator/internal/controller/ipam/ipam_controller.go:243-269 | a drain or undrain is the planned write, unless no write goes through any more |
| ControllerPass.Pass.SetRelease | operator/internal/controller/ipam/ipam_controller.go:271-305 | the same for a release or its withdrawal |
| ControllerPass.Pass.CreateBlock | operator/internal/controller/ipam/ipam_controller.go:534-563 | a create and its status stamp are made, both if two writes go through; a taken name changes nothing |
| ControllerPass.Pass.SplitBlock | operator/internal/controller/ipam/ipam_controller.go:466-532 | the up to four steps of a split are all made, in an order that the system allows, or cut off among them for want of writes; the status stamp is given up if it conflicts |
| ControllerPass.Pass.WithdrawBlock | operator/internal/controller/ipam/ipam_controller.go:314-331 | withdrawing a block is the planned write |
| ControllerPass.Pass.DeleteBlock | operator/internal/controller/ipam/ipam_controller.go:333-348 | deleting a block is the planned write |
| ControllerPass.Pass.Apply | operator/internal/controller/ipam/ipam_controller.go:236-350 | a whole pass makes every step of its plan, or is cut off, exactly if its writes do not suffice; the objects are those that this run of the step system leads to, with nothing left to write |
| AgentPass.Agent.OwnBlocks | operator/internal/controller/ipam/agent/agent.go:254-262 | the blocks of this node, all and only |
| AgentPass.Agent.WantedRanges | operator/internal/controller/ipam/agent/agent.go:264-294 | the served part of every block that belongs into the config |
| AgentPass.Agent.Remember | operator/internal/controller/ipam/agent/agent.go:436-443 | an old mark for the same half is kept; a new one is set only when the config leaves the half out |
| AgentPass.Agent.Consider | operator/internal/controller/ipam/agent/agent.go:430-447 | the mark of a block, and whether its half is ready, are those of the step system |
| AgentPass.Agent.Forget | operator/internal/controller/ipam/agent/agent.go:448-452 | exactly the marks of blocks that release nothing are dropped |
| AgentPass.Agent.UpdateStatus | operator/internal/controller/ipam/agent/agent.go:350-371 | the object as it is gets the new phase, and the report only for the range and release it was found for; no other object changes |
| AgentPass.Agent.SyncOwn | operator/internal/controller/ipam/agent/agent.go:252-373 | read, config write, both counts, one judgement per block, the pruning and the status writes that do not fail are steps of the system in this order, wherever the pass ends early, while others change objects and leases in between; the objects are then as the last step has left them |
| Aggregation.JoinKeepsCover | operator/internal/controller/ipam/buddy/aggregate.go:49-56 | joining a pair keeps the addresses and disjointness and shrinks the set |
| Aggregation.OneCovers | operator/internal/controller/ipam/buddy/aggregate.go:43-59 | without a pair of buddies every covered aligned block lies in one prefix |
| Aggregation.ReducedIsMaximal | operator/internal/controller/ipam/buddy/aggregate.go:26-28 | a disjoint set without pairs is the set of the largest aligned blocks of its addresses |
| Aggregation.ReducedIsUnique | operator/internal/controller/ipam/buddy/aggregate.go:43-59 | two such sets with the same addresses are equal, so the order of the joins cannot matter and the result is its own result |
| Aggregation.ReducedIsSmallest | operator/internal/controller/ipam/buddy/aggregate.go:26-28 | no set of aligned prefixes with the same addresses is smaller |
| Aggregation.Aggregate | operator/internal/controller/ipam/buddy/aggregate.go:29-75 | the same addresses, no pair left, sorted; for disjoint input the fewest prefixes |
| Aggregation.SortedIsUnique | operator/internal/controller/ipam/buddy/aggregate.go:64-74 | a sorted list is determined by its members |
| Aggregation.NestedOrderMatters | operator/internal/controller/ipam/buddy/aggregate.go:43-59 | with nested input two orders of joining end with different results |
| Routes.LookupFinds | operator/internal/controller/ipam/agent/agent.go:197-199 | longest-prefix lookup answers exactly for the covered addresses |
| Routes.BetweenHasNoGap | operator/internal/controller/ipam/agent/agent.go:197-218 | a table between old and new never leaves an address without a route that both have and, if the old destinations are apart, answers as one of the two |
| Routes.GapAfterFailure | operator/internal/controller/ipam/agent/agent.go:200-218 | after failures an address that both tables route has no route exactly if its install failed and all its old routes, which are not wanted, could be deleted |
| Routes.GapForNewGateway | operator/internal/controller/ipam/agent/agent.go:200-218 | the Replace of one changed gateway fails, the Delete does not, and its addresses have no route |
| Routes.RouteTable.SyncRoutes | operator/internal/controller/ipam/agent/agent.go:179-224 | whichever installs and deletes fail, no table on the way has a gap where the new route could be installed, and the last one is as stated; without failures it is the wanted one; a pass counts as done exactly if no call that it needs fails and no route gets another gateway |
| DesiredRoutes.Desired | operator/internal/controller/ipam/agent/state.go:98-136 | routes cover exactly the routable blocks of owners with an InternalIP, disjoint for disjoint blocks; the problems are the other nodes that have a block not Quarantined and no InternalIP |
| DesiredRoutes.RouteLeadsToOwner | operator/internal/controller/ipam/agent/state.go:98-136 | looking up an address of another node's block, from Pending to Draining, gives that node's InternalIP, or none without one |
| DesiredRoutes.NothingElseRouted | operator/internal/controller/ipam/agent/state.go:57-66 | an address that is in no block of another node, or only in Quarantined ones, has no route |
| DesiredRoutes.PodsAreRouted | operator/internal/controller/ipam/agent/state.go:57-66 | in every world that a careful run leads to, what a pod of another node has leased, or its config offers, is routed to that node |
| DesiredRoutes.TableIsApart | operator/internal/controller/ipam/agent/state.go:129-131 | the wanted destinations are disjoint |
| Sizing.NeedsGrowthIs | operator/internal/controller/ipam/sizing.go:96-101 | the trigger without its rounding |
| Sizing.NeedsGrowthMonotone | operator/internal/controller/ipam/sizing.go:96-101 | more capacity or less use never starts a grow |
| Sizing.RequiredCapacity | operator/internal/controller/ipam/sizing.go:103-112 | the result is exactly the boundary between the capacities that trigger a grow and those that do not, in closed form |
| Sizing.LimitSuffices | operator/internal/controller/ipam/sizing.go:107-112 | the limit of the search is never reached |
| Sizing.GrowthNeed | operator/internal/controller/ipam/sizing.go:114-130 | whole minimum blocks, enough or as many as fit under the cap, and none exactly if not one fits |
| Sizing.NextPow2 | operator/internal/controller/ipam/sizing.go:76-82 | the smallest power of two that is at least n, also for n at or below zero |
| Sizing.DoubledIsLeast | operator/internal/controller/ipam/sizing.go:84-89 | that is the smallest power of two of at least the wanted size |
| Sizing.InitialBlockSizeIs | operator/internal/controller/ipam/sizing.go:84-89 | the first block of a node has the least power of two addresses that is at least 16 and the share of its pods, without rounding |
| Sizing.CapacityOf | operator/internal/controller/ipam/sizing.go:52-66 | the sum over the joined ranges; for disjoint blocks whatever the order of joining |
| Sizing.CapacityOfBoth | operator/internal/controller/ipam/sizing.go:52-66 | capacity is superadditive, by at most three addresses per range saved |
| Sizing.GrowStaysUnderCap | operator/internal/controller/ipam/plan.go:344-384 | a grow that keeps to its need exceeds the cap by at most three addresses per range saved |
| Growth.GrowNode | operator/internal/controller/ipam/plan.go:336-389 | out of the pool itself: nothing at the cap, over it only by what the last step's joins save, all of it held in the pool; no step but the first starts from enough, and none adds more than is missing in whole minimum blocks and what one more range takes; out of space only if the pool has less free than that; a single step went elsewhere only if nothing could be had beside a block |
| Growth.GrowOnce | operator/internal/controller/ipam/plan.go:352-383 | a step takes the block beside the largest of the node's blocks that has a free buddy around what the node owns; only if none has, it takes blocks from elsewhere |
| Growth.PieceFits | operator/internal/controller/ipam/plan.go:353 | the block that a request for the largest power of two within the need is rounded up to is no larger |
| Growth.BesideIsFair | operator/internal/controller/ipam/plan.go:354-368 | a block beside the node's is new, at least a minimum block and at most the need |
| Growth.DemandIsFair | operator/internal/controller/ipam/plan.go:369-383 | blocks from elsewhere are new and make up exactly the need |
| Planner.DrainsSpare | operator/internal/controller/ipam/plan.go:462-475 | the drain loop ends, spares the starting block, and leaves initial capacity, use under the threshold and no reason to grow |
| Planner.ShrinkIsNotUndone | operator/internal/controller/ipam/plan.go:284-317 | after a drain or release the next pass plans no new block, no undrain and no unrelease |
| Planner.KeptIsServed | operator/internal/controller/ipam/plan.go:710-719 | what a split is judged by is what the node serves after it |
| Planner.NotStarvedAfter | operator/internal/controller/ipam/plan.go:573-586 | a shrink does not make an old failure count again |
| PlannerRules.DecisionIs | operator/internal/controller/ipam/plan.go:256-318 | which decision is taken, said of phases, specs, leases and pods: a starved or short node keeps halves, takes back the fullest draining block, or grows, in this order |
| PlannerRules.DrainsInOrder | operator/internal/controller/ipam/plan.go:600-628 | the drains have an order in which each is of the least use, then smallest, then lowest, of what the node can do without; afterwards it can do without nothing more |
| PlannerRules.SplitIsLargest | operator/internal/controller/ipam/plan.go:635-677 | of the blocks of which the node can do without an empty half the largest is chosen, of equal ones the lowest; none only if there is none |
| PlannerRules.EmptyHalfIs | operator/internal/controller/ipam/plan.go:656-664 | the half is the upper one if that holds no lease, or else the lower one |
| PlannerRules.StartingBlockIs | operator/internal/controller/ipam/plan.go:682-708 | the block marked as the first, or else the oldest that is neither quarantined nor drained, of equally old ones the lowest |
| PlannerLoops.BlocksCapacity | operator/internal/controller/ipam/sizing.go:68-74 | the capacity of what the blocks serve |
| PlannerLoops.ShrinkCandidate | operator/internal/controller/ipam/plan.go:600-628 | of the blocks that the node can do without the one with the least leases, of equal ones the smallest and then the lowest; none exactly if there is none or the node has one block |
| PlannerLoops.SplitCandidate | operator/internal/controller/ipam/plan.go:635-677 | the largest, of equal ones the lowest, of the blocks of which the node can do without an empty half; none exactly if there is none |
| PlannerLoops.ShrinkNode | operator/internal/controller/ipam/plan.go:452-479 | the blocks that the node can do without, one after the other, each the next in its turn, until there is none; or else an empty half of a largest block |
| PlannerLoops.NextTimer | operator/internal/controller/ipam/plan.go:488-525 | the earliest end of a running timer, or 0 if none runs |
| PlannerLoops.NeverOversleeps | operator/internal/controller/ipam/plan.go:481-487 | until then the planner decides the same for every node and deletes the same blocks |
| HealthRing.RingOffsets | operator/internal/controller/cniresilience/healthagent/daemon.go:54-64 | the offsets 1 to n/2 |
| HealthRing.RingTarget | operator/internal/controller/cniresilience/healthagent/daemon.go:66-76 | the node that many places ahead, never itself; nobody exactly for an unknown node or fewer than two |
| HealthRing.RoundIsFair | operator/internal/controller/cniresilience/healthagent/agent.go:24-25 | in a round every node is probed by exactly one other |
| HealthRing.SweepPairsAll | operator/internal/controller/cniresilience/healthagent/daemon.go:54-57 | any n/2 consecutive rounds pair every two nodes in exactly one round, both ways exactly if they are opposite |
| Triangulation.Classify | operator/internal/controller/cniresilience/healthagent/agent.go:90-143 | blamed nodes, broken links without duplicates, and ambiguity, each exactly when the pattern holds |
| Triangulation.BlameRestsOn | operator/internal/controller/cniresilience/healthagent/agent.go:114-122 | whom a verdict blames, said of the probes: exactly nodes that were probed and reached by nobody, reached nobody or are silent, while two others reach each other |
| Triangulation.RestRestsOn | operator/internal/controller/cniresilience/healthagent/agent.go:124-142 | the same for the links that are reported and for ambiguity |
| Triangulation.SweepIsComplete | operator/internal/controller/cniresilience/healthagent/daemon.go:166-176 | a sweep tests every pair, and every node in both directions |
| Triangulation.VerdictOnSweep | operator/internal/controller/cniresilience/healthagent/agent.go:90-143 | on node faults exactly the broken nodes are blamed if two nodes are healthy, otherwise nobody and the verdict is ambiguous |
| Triangulation.VerdictOnSilence | operator/internal/controller/cniresilience/healthagent/agent.go:114-121 | with two healthy nodes, whichever broken nodes are silent, exactly the broken nodes are blamed that some node probes whose results are known; ambiguous exactly if another broken node is not silent |
| Triangulation.FewSilent | operator/internal/controller/cniresilience/healthagent/daemon.go:54-57 | with fewer than half of the other nodes silent, every node is probed by one whose results are known |
| Triangulation.SilenceIsNoProof | operator/internal/controller/cniresilience/healthagent/agent.go:119 | a silent node is not blamed if a probe has reached it, or none has failed to |
| Triangulation.LinkOnSweep | operator/internal/controller/cniresilience/healthagent/agent.go:129-141 | a lone broken link is found, and nothing else is |
| Triangulation.OneRoundMisleads | operator/internal/controller/cniresilience/healthagent/agent.go:115-122 | the results of a single round can put the blame on a healthy node |
| Streaks.Streak.Observe | operator/internal/controller/cniresilience/healthagent/daemon.go:85-95 | state and run follow the whole history |
| Streaks.StateIsLastWindow | operator/internal/controller/cniresilience/healthagent/daemon.go:78-79 | the state is the value of the most recent window of threshold equal results |
| Streaks.StateWithoutWindow | operator/internal/controller/cniresilience/healthagent/daemon.go:78-79 | without such a window the state is healthy |
| Failover.Manager.BackupIps | operator/internal/controller/cniresilience/failover/failover.go:117-122 | the backup address of every pod of the node that has both addresses |
| Failover.Manager.ApplyShadow | operator/internal/controller/cniresilience/failover/failover.go:227-285 | the shadow lists the backup addresses of the node's pods in the slice; writing it takes nothing away |
| Failover.Manager.FailoverNode | operator/internal/controller/cniresilience/failover/failover.go:106-163 | cut off anywhere, every gated pod with a backup address stays reachable; finished, its traffic has moved; it finishes exactly if the writes suffice for every shadow and every gate that is on; with nothing to move nothing changes |
| Failover.Manager.FailbackNode | operator/internal/controller/cniresilience/failover/failover.go:165-181 | cut off anywhere likewise; finished, the gates are on and the shadows gone; it finishes exactly if the writes suffice for both |
| Failover.Manager.DeleteShadows | operator/internal/controller/cniresilience/failover/failover.go:204-217 | shadows go only once no gate of the node is off, all of them exactly if the writes suffice |
| Failover.Manager.RunCalls | operator/internal/controller/cniresilience/failover/failover.go:106-181 | this holds after any sequence of calls |

## Left out

- CIDR strings, JSON and YAML, log lines, events, status texts, metrics, retries, netlink, iptables, HTTP probes and file formats: reads and writes of model state stand for them.
- Locks: each public method of the allocator and the pool runs under a mutex, so the model is sequential.
- Stale caches: the controller plans on the objects as they are at that moment; its writes happen later, one by one, against whatever the objects are by then.
- Each of the two counts of a pass reads the lease files at one instant; that files change while they are read is not modelled.
- Which addresses host-local keeps for itself: any address of a range in the config may be leased. The runs and the harm in `ProtocolLimits` use addresses inside a range that has any.
- A pass works on the blocks as they were when it listed them, but the list itself is not older than that.
- Clocks of their own on each machine, and the rounding of stored times to seconds: there is one clock.
- The phase Released: nothing in the program sets it.
- Route acknowledgements: which Pending blocks a pass promotes is left to the environment, so the promotion timeout is not modelled.
- Several IPPools, reserved ranges and the node addresses inside a pool range: filters before the ranges are added.
- Quarantine of `Pools.Pool` and its wrappers Allocate, AllocateSpread, AllocateFromBuddy, AllocateBuddyOf, Find, Free, Sweep and Defragment, which only pick the range: the operations are modelled on one range.
- BuddyAllocators.BuddyAllocator.Return, BuddyAllocators.BuddyAllocator.FreeNow: for blocks that an allocator of this module made; a block object that left the tree while marked allocated cannot come about through the allocator, and is excluded by a precondition.
- Pools.Pool.AllocateDemand: the ranges were all added with the same size limits, as the controller adds them.
- BuddyAllocators.BuddyAllocator.AllocateBuddyOf: for a block that is allocated.
- BuddyAllocators.BuddyAllocator.StatsBelow: the number of allocated blocks, the counts by level and the fragmentation ratio.
- Pools.Pool.FreeNowIn: for a block that was handed out, as its only caller has; the errors for others are those of FreeNow.
- Rebuild.BuildPool: the filters for reserved ranges and node addresses, and the phase Released, which nothing sets.
- ProtocolLimits.CarefulIsExact: for a settle time of at least a second; without one no sandbox acts on a config that it has read. The plans in the run after a careless step are such as the planner's rules allow, whatever its numbers, pods and usage.
- AgentPass.Agent.UpdateStatus, AgentPass.Agent.SyncOwn: the numbers of used and reclaimed addresses in the status; removing a leaked lease is the end of a lease in the step system; the clock is read once for each half that is judged (in the step system a half may be judged twice, which is the second reading after a new mark).
- PlannerRuns.AsksForHalf, PlannerRuns.KeepsHalf, PlannerRuns.SplitsHalf, PlannerRuns.DrainsWhole: for the blocks and times of the runs, with the pod counts as stated.
- Growth.GrowNode: the node's Active blocks are all found in the pool, none of them smaller than a minimum block; the reasons attached to planned blocks are not modelled.
- ControllerPass.Pass.Apply: what others do between its writes is part of the step system only, and the clock is read once per pass.
- Planner.DrainsSpare, PlannerLoops.ShrinkNode: the blocks of a node are taken to be disjoint with distinct names, as the NodeBlock protocol keeps them (`PlannerSteps.ReachedIsSeen`).
- PlannerSteps.PassIsPlanned, PlannerSteps.DecisionIsPlanned: the new blocks of a pass are any that are apart from each other and from the NodeBlocks, as the pool hands them out (`Rebuild.NewBlocksAreApart`, `Growth.GrowNode`); the pass goes by the objects as they are.
- Planner.ShrinkIsNotUndone: usage numbers are those that the agent reported; blocks that finish draining between the two passes are not considered.
- PlannerLoops.ShrinkCandidate, PlannerLoops.SplitCandidate: blocks of equal use and size go by address instead of by the text of the CIDR; likewise blocks of equal age in PlannerRules.StartingBlockIs.
- DesiredRoutes.Desired: the order of the routes by their text is not modelled.
- Routes.RouteTable.SyncRoutes: the kernel's table holds one route per destination; a delete of a route that it does not hold, with that gateway, fails.
- Failover.Manager.RunCalls: IsolateNode, which takes pods out of their Services on purpose, and pods and slices that change meanwhile.
- Streaks.Streak.Observe: the threshold stays the same over the history; in the program a change of the spec changes it.
- HealthRing.RingTarget: the two health states per peer, their publication and the heartbeat.
- Triangulation.Classify: the notes and flags that ReadNodeHealth derives from the verdict.
- The dashboard, its simplified planner, the simulation, the monitor, and the controllers for CNI pods, DNS, policies and pod connectivity: flat rules without a deep invariant.
