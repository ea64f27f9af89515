# Combat engine, bag service and log rotation: a verified model

The game server has two parts with real algorithms in them, and this project models both, along with
the rotation of its log files.

**The combat engine** (`PkServer/PK_thread.cpp`)

- *Finding a way.* `AStar` searches a 50 by 29 grid with an open and a closed list, reads the path off
  the closed list backwards, and packs it into turning points. Blocked targets are replaced by
  `GetEmptyPos`. (`Grid`, `EmptyPos`, `Search`, `SearchBounds`, `SearchRule`, `PathCode`,
  `AStar`)
- *Walking it.* `CalculateMoveP` advances a sub-cell position in one of eight directions and pops cells
  off the path; a restarting loop shoves a role aside when its next cell is taken. (`Walking`,
  `WalkingRuns`, `Dodge`)
- *Buffs.* `UpdataBuffer`, `breakLastSkill`, `CalculateBuff`, the dispel skill and `onRoleDead` keep
  fourteen derived attributes, hit points and mana in step with a table of active buffs.
  (`BuffTable`, `RoleVitals`, `BuffRuns`, `BuffLife`, `Skills`, `Curses`, `Fights`, `ManaDrain`,
  `Buffs`)
- *Shields and bullets.* The shield loop of `CalculateAttackHurt`, and homing bullets. (`Shield`,
  `Bullets`)

**The bag service** (`MainServer/Bag/BagSvc.cpp`): rows of the `Bag` and `StoreBag` tables, with every
SQL statement an update of a sequence of rows and every cursor a sequence in the order its query asks
for, and in no other. (`BagTable`, `FreeCells`, `BagSort`, `Purchase`, `Selection`, `BagSvc`, `Entities`)

**The log** (`PkServer/log.cpp`): files by index, each a sequence of lines. (`LogRotation`)

Code that changes state is a class or a method with the loops of the original, proved against functions
and predicates on values; what the original is for is then proved of those functions.
`dafny verify dfyconfig.toml` checks the whole project.

## Main results

- *The search is sound, ends, and is complete.* A path that is found is simple, walkable and joins the
  start to the target; the loop takes at most one iteration for each cell of the map; an empty open list
  means that no walk exists; the cut-off is only taken when every walk to the target passes a cell whose
  estimate has reached it. The two error returns of the backward walk and of the turning points are
  never taken.
- *The path is determined.* On every map the closed list is the one that the best-first rule leads to, and
  two searches between the same cells return the same path.
- *On the map that `Init` really builds the search always works.* `Init` makes all rows from the fifth
  on walkable. From a walkable cell the search there succeeds exactly when the target or a replacement
  is free, which is the case for every target below the top row. The path is a cheapest one, although the
  estimate overestimates diagonals, and it is the straight walk: diagonal as long as both axes differ, then
  along one axis.
- *Turning points lose nothing.* Walking straight from point to point gives the path back, and there is
  one point for each turn and two for the ends.
- *Walking refines the path.* Any run of calls visits the cells of the path in order, whatever the
  speeds and stuns; unhindered it arrives, in a stated number of calls. Speed 1 will do on a path without
  diagonals; on a diagonal it gets a role nowhere. Sub-cell offsets never leave an L-shaped region, so
  sixteen bits suffice. In whole coordinates a straight call goes exactly its speed and an aligned diagonal
  one the scaled speed on both axes, across borders and over whole runs; a diagonal is never a short cut.
- *Shoving has two exact limits.* From the positions alone one can tell when a role that is shoved aside
  ends on another one after all, and when it is pushed off the map.
- *The buff ledger.* Over any run the plain attributes and the limit and exemption counters equal their
  start plus the sum of the active buffs. A maximum is off by twice what buffs on it added when they
  ended, by running out or by being dispelled. When a role falls, and with which hit points and mana it
  goes on or comes back, is stated exactly, and hit points never exceed their maximum as long as shares,
  curses and raised maxima are not negative. A lone heal restores its share once for every run of its
  counter, and a curse takes its share of exactly the hits it has seen.
- *Revival.* Two revivals lie at least the cool-down apart, and after its wait a role has as many tenths
  of its hit points and mana as its level says. Over runs with hits, skill damage and any number of revivals all attributes stay in step but
  for attack power: a role that comes back while it is under a roar that adds some keeps that attack power
  for good, and no other event of these runs does this. A death by a skill that strikes many at once leaves
  a ready revival unused.
- *Shields conserve damage* over any run of hits, however it is split, as long as no shield is overdrawn.
  A cast overdraws one if and only if it overrides a standing shield with an amount no larger than what
  that one has taken, which happens because overriding does not raise the stored level. A hit then gets
  through with more than it dealt if and only if the role's shield has taken more than it holds.
- *Bullets arrive* from everywhere if and only if their speed is 1 to 4, and the pass is known.
- *A free cell from unordered rows* is really free if and only if the rows begin with all cells below the
  smallest free one, in order.
- *Sorting a bag* keeps the units of every item, leaves the least possible number of stacks, and
  renumbers without a collision; of the open stacks of an item
  one with the least number keeps the rest. Any run of requests keeps bag and store safe; a swap does so if and only
  if its destination is a cell of the bag.
  Over any mixed run of requests the accounts balance: units of every item, free money, bound
  money and gold are the old ones and what was bought, used, sold and dropped. No two stacks ever share an
  entity.
- *The log files* of each level and day always hold the end of what was logged there, and a rotation
  costs the oldest file only. Nothing is lost before all files are full.

## Model

| member | source | states |
|---|---|---|
| Grid.InitMap | PkServer/PK_thread.cpp:66-85 | exactly the rows from the fifth on are walkable |
| Grid.KingMoveIsStep | PkServer/PK_thread.cpp:5660-5708 | the direction between two neighbouring cells is the one whose step leads from one to the other |
| Grid.DirectOfStep | PkServer/PK_thread.cpp:5660-5708 | the direction of a step is read back from its two ends, for all eight directions and none |
| Grid.OctileIsLowerBound | PkServer/PK_thread.cpp:5463-5571 | with step costs 10 and 14 no sequence of king moves is cheaper than the octile distance of its ends |
| EmptyPos.LookAhead | PkServer/PK_thread.cpp:5784-5795 | finds the first free cell among three ahead, and gives up at the edge of the map |
| EmptyPos.ScanCircle | PkServer/PK_thread.cpp:5797-5812 | finds the first free cell of a square, column by column, or there is none |
| EmptyPos.GetEmptyPos | PkServer/PK_thread.cpp:5741-5816 | the first free cell ahead, else the nearest free cell within four, else the cell given |
| EmptyPos.SubstituteIsUnique | PkServer/PK_thread.cpp:5741-5816 | that promise admits a single cell |
| EmptyPos.SubstituteIsFree | PkServer/PK_thread.cpp:5741-5816 | the substitute of a blocked cell is free if and only if something ahead or within four cells is |
| Search.MarkKnown | PkServer/PK_thread.cpp:5402-5462 | a neighbour's flag is set if and only if its cell is listed (or it was set before) |
| Search.OpenNeighbours | PkServer/PK_thread.cpp:5463-5571 | the open list grows by the unflagged walkable neighbours, in order, with cost and estimate |
| Search.MoveToDone | PkServer/PK_thread.cpp:5574-5582 | the first waiting entry of the cell moves to the end of the closed list, nothing else changes |
| Search.SelectNext | PkServer/PK_thread.cpp:5591-5598 | picks the last of the waiting entries with the least estimate |
| Search.IterationKeepsInv | PkServer/PK_thread.cpp:5392-5607 | one iteration keeps the lists distinct, on walkable ground, expanded, and every parent before its children |
| SearchBounds.DistinctCellsFit | PkServer/PK_thread.cpp:5392-5607 | a list of distinct cells of the map is no longer than the map is large |
| SearchBounds.WaitingFencesIn | PkServer/PK_thread.cpp:5392-5607 | every walk from the start ends on a closed cell or has come by a waiting one |
| SearchBounds.OpeningTowards | PkServer/PK_thread.cpp:5463-5571 | on the map of Init the step straight to the target is opened and strictly beats the other new entries |
| SearchBounds.BestIsPicked | PkServer/PK_thread.cpp:5591-5598 | a new entry that nothing beats is preferred to older ones with the same estimate |
| SearchBounds.HeadingStep | PkServer/PK_thread.cpp:5392-5607 | on the map of Init every iteration moves the current cell one step along a cheapest path |
| SearchBounds.HeadingIsNotTooFar | PkServer/PK_thread.cpp:5599-5605 | on the map of Init the cut-off is never reached |
| AStar.Advance | PkServer/PK_thread.cpp:5396-5583 | one iteration closes the current cell and keeps the search invariant |
| AStar.FindWay | PkServer/PK_thread.cpp:5392-5607 | ends within one iteration per cell; every closed cell is the one the rule picks; found means a readable closed list below the cut-off, no way means unreachable, too far means every walk meets the cut-off; on the map of Init always succeeds, step by step towards the target |
| SearchRule.ClosedIsNext | PkServer/PK_thread.cpp:5402-5582 | what an iteration leaves waiting is what the rule says |
| SearchRule.SearchIsDetermined | PkServer/PK_thread.cpp:5392-5607 | two closed lists by the rule for the same start and target are the same |
| SearchRule.PathIsDetermined | PkServer/PK_thread.cpp:5609-5630 | a closed list holds one path only |
| AStar.FrontierIsCutOff | PkServer/PK_thread.cpp:5591-5605 | when all waiting estimates have reached the cut-off, every walk to the target passes a waiting cell |
| AStar.NothingLeft | PkServer/PK_thread.cpp:5585-5589 | an empty open list means that the target cannot be reached |
| PathCode.StepBack | PkServer/PK_thread.cpp:5609-5630 | the inner loop stops at the parent, and the error return is not taken |
| PathCode.Backtrace | PkServer/PK_thread.cpp:5609-5630 | the backward walk follows parents from the last closed entry to the first; the first direction is that of the first step |
| PathCode.ChainIsPath | PkServer/PK_thread.cpp:5609-5630 | what is read off is a simple walkable path whose step costs add up to the cost of its end |
| AStar.PathOf | PkServer/PK_thread.cpp:5609-5630 | the same for the list the search has left |
| PathCode.CourseIsWalk | PkServer/PK_thread.cpp:5609-5630 | when every cell was closed right after its parent, the path read off is the straight walk from start to target |
| PathCode.StraightWalk | PkServer/PK_thread.cpp:5646-5724 | a straight piece of a path is recovered from its two ends |
| PathCode.TurnPoints | PkServer/PK_thread.cpp:5646-5724 | the points expand to exactly the path; one per turn plus two; turn_point counts them; no error return |
| AStar.PathTo | PkServer/PK_thread.cpp:5392-5739 | search, read-off and packing together, for a settled target |
| AStar.AStar | PkServer/PK_thread.cpp:5365-5739 | all of this for the target after substitution; refusals leave path and direction alone; the path is the one of the rule, and on the map of Init the straight walk, which is cheapest |
| AStar.SearchedIsUnique | PkServer/PK_thread.cpp:5392-5630 | on every map the path is determined by start and target |
| AStar.CheapestOnOpenField | PkServer/PK_thread.cpp:5392-5630 | on the map of Init no king path, not even through walls, is cheaper than the one found |
| AStar.OpenFieldSucceedsIff | PkServer/PK_thread.cpp:5373-5383 | the target searched for is free if and only if the given one, a cell ahead of it or a cell within four is |
| AStar.OpenFieldTargets | PkServer/PK_thread.cpp:5373-5383 | on the map of Init that fails for the top row only |
| Dodge.AvoidOthers | PkServer/PK_thread.cpp:1230-1243 | ends, with at most one shove per other role not behind the target, on the first cell nobody but possibly the first role holds; whether that is an overlap, or off the map, is told by the inputs |
| Dodge.SettlesSomewhere | PkServer/PK_thread.cpp:1230-1243 | such a cell exists for every table and target |
| Dodge.SettlesIsUnique | PkServer/PK_thread.cpp:1230-1243 | that cell is determined |
| Dodge.OverlapsIff | PkServer/PK_thread.cpp:1230-1243 | roles overlap afterwards if and only if the target is taken and the first role of the table is another one, standing on a shoved cell that later roles leave free while they hold all shoved cells before it |
| Dodge.OverlapHappens | PkServer/PK_thread.cpp:1230-1243 | a concrete case of that overlap |
| Dodge.StaysOnMapIff | PkServer/PK_thread.cpp:1235-1243 | the role stays on the map if and only if its target is free or some shoved cell of the map is held by nobody but possibly the first role |
| Dodge.LeavesMapHappens | PkServer/PK_thread.cpp:1235-1243 | one role on the target near the far edges pushes another off the map |
| Walking.Diagonal | PkServer/PK_thread.cpp:1036-1075 | the scaled speed of a diagonal is at most 0.7 of the speed, short of it by less than two, and by less than one but for the listed speeds |
| Walking.DiagonalIsNoShortCut | PkServer/PK_thread.cpp:1036-1075 | a diagonal step is never longer than a straight one |
| Walking.MoveAttr.NorthEastStride | PkServer/PK_thread.cpp:1036-1075 | the arm follows the common rule: the lagging axis catches up, the rest of the step is shared |
| Walking.MoveAttr.EastSouthStride | PkServer/PK_thread.cpp:1087-1126 | the same rule, turned |
| Walking.MoveAttr.SouthWestStride | PkServer/PK_thread.cpp:1137-1176 | the same rule, turned |
| Walking.MoveAttr.WestNorthStride | PkServer/PK_thread.cpp:1187-1222 | the same rule, turned |
| Walking.MoveAttr.StraightStride | PkServer/PK_thread.cpp:1025-1186 | the four straight arms follow the rule |
| Walking.MoveAttr.Stride | PkServer/PK_thread.cpp:1025-1223 | the whole switch follows the rule |
| Walking.MoveAttr.CalculateMoveP | PkServer/PK_thread.cpp:986-1275 | the new state and the result of one call, in all cases |
| WalkingRuns.AlignmentIsKept | PkServer/PK_thread.cpp:1036-1222 | an aligned diagonal stays aligned across borders; misalignment shrinks by the step until it is gone |
| WalkingRuns.StrideProgresses | PkServer/PK_thread.cpp:1025-1223 | a step inside the cell brings the border closer if and only if it is at least two, or one on a straight or a misaligned diagonal |
| WalkingRuns.SlowDiagonalIsStuck | PkServer/PK_thread.cpp:1036-1222 | an aligned diagonal makes no headway if and only if the step is at most one |
| WalkingRuns.RegionIsKept | PkServer/PK_thread.cpp:1020-1223 | sub-cell offsets stay in an L-shaped region of a few cell sides, for every capped speed |
| WalkingRuns.OffsetStaysInCell | PkServer/PK_thread.cpp:1025-1223 | the offset on the deciding axis stays within the cell: borders are crossed exactly when it would leave it |
| WalkingRuns.StrideDistance | PkServer/PK_thread.cpp:1025-1223 | in whole coordinates a straight stride goes its speed, an aligned diagonal one the scaled speed on both axes |
| WalkingRuns.UnalignedDistance | PkServer/PK_thread.cpp:1036-1222 | an unaligned diagonal stride closes the gap first, and scales only the rest |
| WalkingRuns.RunDistance | PkServer/PK_thread.cpp:986-1275 | a run along a path goes exactly as far as its speeds say, whatever borders and turns it meets |
| WalkingRuns.FoundPathIsFollowed | PkServer/PK_thread.cpp:5365-5739 | the path and direction that the search returns are a valid start for walking |
| WalkingRuns.MoveFollowsPath | PkServer/PK_thread.cpp:986-1275 | one call moves on by at most one cell; the sub-cell steps lead to the very cell the path names |
| WalkingRuns.RunFollowsPath | PkServer/PK_thread.cpp:986-1275 | any run visits exactly the cells of the path, in order |
| WalkingRuns.RunArrives | PkServer/PK_thread.cpp:986-1275 | a run at speed two or more, or one on a path without diagonals, arrives within 5001 calls per cell |
| WalkingRuns.SlowRunStays | PkServer/PK_thread.cpp:986-1275 | at speed one or less no run leaves a cell by a diagonal, once the leading axis is inside the cell |
| Buffs.RoleState.UpdataZuiJiuYunWu | PkServer/PK_thread.cpp:1699-1710 | the stupor arm swaps old for new speed and hit |
| Buffs.RoleState.UpdataZuZhou | PkServer/PK_thread.cpp:1711-1730 | the curse arm changes the damage taken; its end takes the stated share, and may fell the role |
| Buffs.RoleState.UpdataYaoShu | PkServer/PK_thread.cpp:1746-1755 | the witchcraft arm changes speed and, unless overriding, two limits |
| Buffs.RoleState.UpdataSheShouTianFu | PkServer/PK_thread.cpp:1756-1769 | the archer arm swaps old for new crit and hit |
| Buffs.RoleState.UpdataFuHuo | PkServer/PK_thread.cpp:1770-1785 | the revival arm, which has no test for an override, sets five counters, and hit points and mana when it ends |
| Buffs.RoleState.UpdataBySkill | PkServer/PK_thread.cpp:1697-1789 | every arm for skill buffs has the stated effect on attributes, hit points, mana and table |
| Buffs.RoleState.UpdataCastSkill | PkServer/PK_thread.cpp:1790-1825 | every arm for running casts has |
| Buffs.RoleState.UpdataLimits | PkServer/PK_thread.cpp:1831-1854 | stun, silence and root count once |
| Buffs.RoleState.UpdataMoveSpeed | PkServer/PK_thread.cpp:1843-1848 | an override replaces the old speed by the new |
| Buffs.RoleState.UpdataArmor | PkServer/PK_thread.cpp:1855-1863 | the same for armour |
| Buffs.RoleState.UpdataAttackPower | PkServer/PK_thread.cpp:1864-1872 | the same for attack power |
| Buffs.RoleState.UpdataMaxHp | PkServer/PK_thread.cpp:1873-1881 | the maximum and the hit points rise together, at the end of the buff too |
| Buffs.RoleState.UpdataMaxMp | PkServer/PK_thread.cpp:1882-1888 | the maximum rises, at the end of the buff too |
| Buffs.RoleState.UpdataByKind | PkServer/PK_thread.cpp:1826-1891 | every other arm; the end of a summons fells the role |
| Buffs.RoleState.Init | PkServer/PK_thread.cpp:4870-4871 | everything but AttackPowerAdd goes back to its base value |
| Buffs.RoleState.OnRoleDead | PkServer/PK_thread.cpp:4861-4918 | dead with an empty table, or revived with the revival buff only and every attribute but AttackPowerAdd in step |
| Buffs.RoleState.Find | PkServer/PK_thread.cpp:1653-1672 | the first buff of that kind and skill, or none |
| Buffs.RoleState.Insert | PkServer/PK_thread.cpp:1681-1694 | a stun, root or silence first ends all breakable casts; then the buff takes its place by key |
| Buffs.RoleState.UpdataBuffer | PkServer/PK_thread.cpp:1647-1893 | add, ignore, refresh, override and delete: table, attributes, hit points, and when the role falls |
| Buffs.RoleState.BreakLastSkill | PkServer/PK_thread.cpp:1581-1595 | exactly the breakable casts are gone, the ledger has not moved |
| Buffs.RoleState.Remove | PkServer/PK_thread.cpp:1573-1576 | ending and erasing one buff leaves the ledger off by its leak only |
| Buffs.RoleState.RunBuffer | PkServer/PK_thread.cpp:1597-1645 | heals as HealAmount says, or charges the counter-whirl |
| Buffs.RoleState.Tick | PkServer/PK_thread.cpp:1561-1568 | one buff counts, and runs when its limit is reached |
| Buffs.RoleState.CalculateBuff | PkServer/PK_thread.cpp:1556-1579 | the table, the ledger and the hit points after one pass; the role falls exactly when an expiring buff says so |
| Buffs.RoleState.DispelBuffs | PkServer/PK_thread.cpp:3751-3761 | exactly the breakable buffs that are no casts are gone, and likewise |
| Buffs.RoleState.Play | PkServer/PK_thread.cpp:1556-1893 | any run of casts, passes, dispels and interruptions; plain attributes and counters are exact; the operation at which the role falls, and the state it falls into, are stated |
| Buffs.RoleState.FightOne | PkServer/PK_thread.cpp:1343-2095 | one event, a hit or skill damage included, takes the role to the stated state |
| Buffs.RoleState.Fight | PkServer/PK_thread.cpp:1343-2095 | any run with hits and skill damage, through any number of revivals: attributes stay in step, attack power gathers what revivals have kept |
| Fights.PowerIsKeptIff | PkServer/PK_thread.cpp:4866-4913 | an event leaves attack power behind if and only if it is a deadly hit or skill on a role ready to come back and under a roar that adds some |
| Fights.PowerLeaksIff | PkServer/PK_thread.cpp:4866-4913 | the same for whole runs, and it never takes any away |
| Fights.PowerLeakHappens | PkServer/PK_thread.cpp:3820-3866 | a roar, a hit, a revival: 5 more attack power for good |
| Fights.RevivalsAreApart | PkServer/PK_thread.cpp:4866-4869 | any two revivals of a run lie at least the cool-down apart |
| Fights.RevivalEnds | PkServer/PK_thread.cpp:4872-4900 | after twenty units of time a role of level 1 to 6 has that many tenths of its hit points and mana, and no buffs |
| Curses.CurseTakesItsShare | PkServer/PK_thread.cpp:1711-1730 | a curse raises the damage taken by its hundreds, and at its end takes its percentage of the damage of exactly the hits in between |
| Buffs.RoleState.DrainMana | PkServer/PK_thread.cpp:995-1017 | the table and the mana after the loop over the buffs of a moving role |
| ManaDrain.DrainTakesSomeIff | PkServer/PK_thread.cpp:995-1017 | mana never drops below zero, and some is taken if and only if a drain is due and there is some |
| ManaDrain.HurtIsAShare | PkServer/PK_thread.cpp:1004-1011 | a drain takes so many percent, rounded down, but at least one unit |
| ManaDrain.DrainsEveryTen | PkServer/PK_thread.cpp:999-1002 | a drain is due on every tenth call |
| Buffs.RoleState.CollectCurses | PkServer/PK_thread.cpp:1380-1386 | every curse collects the damage |
| Buffs.RoleState.StrikeShields | PkServer/PK_thread.cpp:1397-1417 | the table and the damage left after the loop over the target's buffs |
| Buffs.RoleState.TakeHit | PkServer/PK_thread.cpp:1380-1426 | hit points lost, table, and when the role falls; the ledger does not move |
| Buffs.RoleState.Endure | PkServer/PK_thread.cpp:1380-1426 | over any run of hits a role falls on the first hit at which the damage beyond its shields reaches its hit points, and else has lost exactly that |
| Buffs.RoleState.TakeSpell | PkServer/PK_thread.cpp:2055-2072 | skill damage goes past shields and curses, and can fell the role |
| Buffs.RoleState.TakeSweep | PkServer/PK_thread.cpp:2088-2094 | damage to many at once kills without a revival and leaves the table |
| BuffRuns.PlainLedgerIsExact | PkServer/PK_thread.cpp:1647-1893 | no run moves speed, hit, crit, damage taken, armour, attack power or bad-magic exemption away from the sum of the buffs |
| BuffRuns.CountersAreExact | PkServer/PK_thread.cpp:1647-1893 | no run moves the limit and exemption counters away from the sum of the buffs; the revival buff is in the table only as onRoleDead puts it there |
| BuffRuns.MaximaLeakIff | PkServer/PK_thread.cpp:1873-1888 | a run leaves a maximum off by twice what the ended buffs had added, so right if and only if that is nothing |
| BuffRuns.MaximaLeakHappens | PkServer/PK_thread.cpp:3809-3815 | one blood-skill buff that runs out or is dispelled |
| BuffRuns.RunKeepsDiscipline | PkServer/PK_thread.cpp:1653-1694 | in key order, at most one buff per kind and skill, but for HP and MP |
| BuffRuns.NothingOverdue | PkServer/PK_thread.cpp:1569-1577 | after a pass nothing that has run out is left |
| BuffRuns.InterruptsIff | PkServer/PK_thread.cpp:1686-1692 | a stun, root or silence ends all breakable casts if and only if the role was not under one like it |
| Skills.LevelsDecide | PkServer/PK_thread.cpp:1653-1684 | a weaker cast is ignored, an equal one renews the time, a stronger one counts as if it stood alone |
| Skills.OverrideKeepsTaken | PkServer/PK_thread.cpp:1711-1745 | an override takes over strength, keeps what a shield has taken and a curse collected, and recharges the whirl |
| Skills.RoarRaisesAttack | PkServer/PK_thread.cpp:3820-3866 | attack power by so many percent of its base value, and nothing else |
| Skills.HowlRaisesArmor | PkServer/PK_thread.cpp:3270-3312 | armour likewise |
| Skills.SlowedIsHalved | PkServer/PK_thread.cpp:3763-3772 | the dispel skill halves the speed of an opponent |
| Skills.BloodRageRaisesMaximum | PkServer/PK_thread.cpp:3775-3817 | the maximum of the hit points by so many percent |
| Skills.ArchersGiftRaisesBoth | PkServer/PK_thread.cpp:2718-2759 | crit by its share and hit by its share |
| Skills.SheepIsHarmless | PkServer/PK_thread.cpp:4719-4766 | slower, and neither attack nor skill |
| Skills.MistSlowsAndBlinds | PkServer/PK_thread.cpp:2230-2290 | a share of the present speed and of the present hit value |
| Skills.ControlsBind | PkServer/PK_thread.cpp:1831-1854 | stun, root and silence bind what they should |
| Skills.CastsBind | PkServer/PK_thread.cpp:1770-1812 | what casts and the wait for revival bind and exempt |
| BuffRuns.FiresEveryLimit | PkServer/PK_thread.cpp:1561-1568 | a buff that ticks n times runs n / RunTimeLimit times |
| BuffLife.FiresInRun | PkServer/PK_thread.cpp:1556-1672 | a buff that lives through a run is in the table at its end and has run once for every RunTimeLimit passes, whatever was cast, refreshed, overridden, dispelled or interrupted in between |
| BuffRuns.WhirlGainsCharges | PkServer/PK_thread.cpp:1622-1630 | the counter-whirl gains one charge per run |
| BuffRuns.RunKeepsHpWithinMax | PkServer/PK_thread.cpp:1556-1893 | no run of healing, curses, revivals and raised maxima lifts hit points over the maximum |
| RoleVitals.HealAmount | PkServer/PK_thread.cpp:1623-1641 | a heal adds so many percent of the maximum, rounded down, or so many hit points, up to the maximum |
| BuffLife.LoneHealRestores | PkServer/PK_thread.cpp:1561-1641 | a heal that lives through n passes restores its share n / RunTimeLimit times, up to the maximum |
| BuffLife.BloodHealHeals | PkServer/PK_thread.cpp:4769-4806 | the first level of the blood heal takes 500 of 2000 to 600 in ten passes |
| RoleVitals.MissingIsKept | PkServer/PK_thread.cpp:1873-1888 | a buff on the maximum leaves a role missing as many hit points as before |
| RoleVitals.InterruptsAreHarmless | PkServer/PK_thread.cpp:1581-1595 | ending casts costs no hit points and fells nobody |
| Shield.HitIsShared | PkServer/PK_thread.cpp:1397-1417 | one hit: shields take as much as they can hold, the rest goes through, what stays can take more |
| Shield.HitKeepsTotals | PkServer/PK_thread.cpp:1397-1417 | a hit changes no attribute that buffs account for |
| Shield.WhirlThresholds | PkServer/PK_thread.cpp:2102-2110 | the counter-whirl goes off never below ten charges, always from ninety-nine on, and spends them all |
| Shield.ShieldsConserve | PkServer/PK_thread.cpp:1397-1426 | over any run of hits, damage equals hit points lost plus what the shields absorbed, and that is bounded |
| Shield.OneShieldPerRole | PkServer/PK_thread.cpp:1653-1694 | a table in order holds one shield at most |
| Shield.ShieldAmplifiesIff | PkServer/PK_thread.cpp:1397-1417 | whatever else is in the table, a hit gets through with more than it dealt if and only if the shield had taken more than it holds |
| Shield.CastKeepsWholeIff | PkServer/PK_thread.cpp:1653-1739 | a cast leaves shields whole if and only if it does not override one with an amount no larger than what it has taken |
| Shield.RunKeepsWhole | PkServer/PK_thread.cpp:1556-1893 | over any run without such a cast shields stay whole |
| Shield.WeakerCastAmplifies | PkServer/PK_thread.cpp:1653-1739 | two casts, a hit and a third cast bring a shield there |
| Bullets.BulletList.Fly | PkServer/PK_thread.cpp:1280-1339 | what one pass does to a bullet |
| Bullets.BulletList.CalculateBullets | PkServer/PK_thread.cpp:1277-1342 | the bullets that stay and the bullets that hit, in order, although the list is erased from on the way; later bullets meet the roles as earlier hits have left them, whatever a hit does |
| Bullets.HomingHits | PkServer/PK_thread.cpp:1294-1315 | a bullet of speed 1 to 4 hits on exactly the stated pass |
| Bullets.CloseAttackHits | PkServer/PK_thread.cpp:1285-1293 | a close attack hits from any distance on the pass after its waiting time |
| Bullets.DeadAreSpared | PkServer/PK_thread.cpp:1277-1342 | no bullet of a pass hits a role that is dead when its turn comes |
| Bullets.DeadTargetLosesBullet | PkServer/PK_thread.cpp:1280-1283 | such a bullet does not fly on either |
| Bullets.HomelessNeverHits | PkServer/PK_thread.cpp:1294-1315 | any other speed has places from which the bullet never hits |
| Bullets.SpeedIsSafeIff | PkServer/PK_thread.cpp:1294-1315 | a speed is safe from everywhere if and only if it is 1 to 4 |
| FreeCells.Ifhassomany | MainServer/Bag/BagSvc.cpp:4167-4225 | answers 1 if and only if there is room, and lists the smallest free cells in order |
| FreeCells.GetEmtycellNum | MainServer/Bag/BagSvc.cpp:4466-4498 | the number of free cells |
| FreeCells.IfhascellIndex | MainServer/Bag/BagSvc.cpp:4116-4165 | the first gap in the order of the rows, which is the first free cell if they ascend |
| FreeCells.FreeUpToIsExact | MainServer/Bag/BagSvc.cpp:4167-4225 | the list of free cells holds exactly those, increasing |
| FreeCells.FreeCount | MainServer/Bag/BagSvc.cpp:4466-4498 | free and occupied cells add up to the size of the bag |
| FreeCells.GapIsFreeIff | MainServer/Bag/BagSvc.cpp:4116-4165 | the cell found in a bag with room is free, and the smallest free one, if and only if the rows begin with all cells below the smallest free one, in order |
| FreeCells.UnorderedRowsMislead | MainServer/Bag/BagSvc.cpp:4130-4130 | two rows in the other order, and the answer is a taken cell |
| FreeCells.RoomAgrees | MainServer/Bag/BagSvc.cpp:4116-4225 | the three functions agree |
| BagTable.QueryOrdered | MainServer/Bag/BagSvc.cpp:1896-1896 | an ordered query returns the rows, in order of its two keys |
| BagSort.QueryOpen | MainServer/Bag/BagSvc.cpp:1836-1842 | the cursor holds exactly the open stacks, items descending and numbers descending within an item |
| BagSort.CarryOn | MainServer/Bag/BagSvc.cpp:1862-1879 | one round of the inner loop carries the units on: none is lost, none appears |
| BagSort.GroupEnds | MainServer/Bag/BagSvc.cpp:1880-1881 | writing the carried number back settles one item with at most one open stack |
| BagSort.MergeStacks | MainServer/Bag/BagSvc.cpp:1836-1882 | the units of every item are kept, at most one open stack of each is left, an open stack with the least number keeps the rest in its cell, other rows are as before |
| BagSort.AllSettled | MainServer/Bag/BagSvc.cpp:1856-1882 | for every item with open stacks, the cell of one with the least number is still held, and all others are full or gone |
| BagSort.CompactIsMinimal | MainServer/Bag/BagSvc.cpp:1856-1882 | an item then takes its units divided by the stack size, rounded up |
| BagSort.NoFewerStacks | MainServer/Bag/BagSvc.cpp:1856-1882 | no safe bag holds the units in fewer stacks |
| BagSort.MoveOne | MainServer/Bag/BagSvc.cpp:1911-1921 | one update moves one row, to a cell nobody holds |
| BagSort.AllMoved | MainServer/Bag/BagSvc.cpp:1911-1921 | the cells end as 1 to k, by item type and old cell |
| BagSort.Renumber | MainServer/Bag/BagSvc.cpp:1887-1921 | the loop does that for every table of at most a thousand rows |
| BagSvc.Bags.ProcessSortItem | MainServer/Bag/BagSvc.cpp:1801-1921 | merged, then renumbered, and safe |
| BagSvc.SortConserves | MainServer/Bag/BagSvc.cpp:1801-1921 | units kept, least number of stacks, rest where the least was, cells exactly 1 to k |
| Purchase.PaidExactly | MainServer/Bag/BagSvc.cpp:3713-3780 | a purchase costs its price, in gold, or in bound money first and free money after; no balance grows |
| Purchase.SplitIsExact | MainServer/Bag/BagSvc.cpp:369-457 | the stacks hold exactly the units bought, are as few as possible, and all but the last are full |
| Purchase.CountForIsSplit | MainServer/Bag/BagSvc.cpp:459-557 | counting the stacks down, as the insert loop does, gives that split |
| Purchase.BoughtExactly | MainServer/Bag/BagSvc.cpp:459-557 | exactly the units bought are added, in free cells, and no other row changes |
| Purchase.BoughtStacks | MainServer/Bag/BagSvc.cpp:459-557 | every new stack carries the item's own columns |
| BagSvc.Bags.Pay | MainServer/Bag/BagSvc.cpp:3713-3780 | pays in full or refuses and changes nothing |
| BagSvc.Bags.InsertRows | MainServer/Bag/BagSvc.cpp:459-557 | one row for each cell found, with its entity or its share of the units |
| BagSvc.Bags.ProcessBuyItem | MainServer/Bag/BagSvc.cpp:291-597 | succeeds exactly when item, room and money are there; a refused purchase changes nothing |
| Selection.PickStacks | MainServer/Bag/BagSvc.cpp:3928-3962 | enough if and only if the rows sum to it; all but the last stack are taken whole, and the amounts sum to the need |
| Selection.PickOne | MainServer/Bag/BagSvc.cpp:3884-3975 | the same for one request, counting rows where the item has entities |
| Selection.SelectIfhasItems | MainServer/Bag/BagSvc.cpp:3870-3977 | succeeds if and only if there is enough of every request, and then lists the picks of each; the result is the count of the last stackable item, or 0 |
| Selection.SuccessIsPositiveIff | MainServer/Bag/BagSvc.cpp:3957-3975 | a success is reported by a positive number if and only if a stackable item is among the requests |
| Selection.SuccessCanBeZero | MainServer/Bag/BagSvc.cpp:3901-3920 | a success that is reported as 0 |
| Selection.PickedCellsDiffer | MainServer/Bag/BagSvc.cpp:3884-3975 | with distinct items requested no cell is picked twice |
| BagSvc.Bags.ProcessUseItem | MainServer/Bag/BagSvc.cpp:703-727 | one unit goes from that cell, and the row with the last one |
| BagSvc.Bags.ProcessSellItem | MainServer/Bag/BagSvc.cpp:1541-1633 | the units go, or the whole stack if it has an entity; the price of the units asked for is credited as bound money |
| BagSvc.CreditIsForUnitsIff | MainServer/Bag/BagSvc.cpp:1594-1626 | that is the price of the units that go if and only if the stack has no entity or was asked for as it is (or is worth nothing) |
| BagSvc.EntityOverpaid | MainServer/Bag/BagSvc.cpp:1594-1626 | one unit sold and paid for as five |
| BagSvc.Bags.ProcessDropItem | MainServer/Bag/BagSvc.cpp:1715-1760 | the whole stack goes |
| BagSvc.TakenExactly | MainServer/Bag/BagSvc.cpp:1560-1613 | taking units takes that many of that item and of no other |
| BagSvc.Bags.ProcesschangeItem | MainServer/Bag/BagSvc.cpp:2036-2094 | two cells trade what they hold, by way of a third |
| BagSvc.SwapTrades | MainServer/Bag/BagSvc.cpp:2067-2093 | the detour loses nothing, even when a cell is traded with itself |
| BagSvc.SwapIsSafeIff | MainServer/Bag/BagSvc.cpp:2036-2094 | a swap leaves the bag safe if and only if its destination is a cell of the bag |
| BagSvc.Bags.ProcessputintoStoreBag | MainServer/Bag/BagSvc.cpp:2255-2347 | a stack moves to the store or trades places with one there; both tables together keep their contents |
| BagSvc.ContentsDecideUnits | MainServer/Bag/BagSvc.cpp:2255-2347 | tables with the same stacks, wherever they lie, hold the same units of every item |
| BagSvc.Bags.ServeOne | MainServer/Bag/BagSvc.cpp:53-112 | each request has its stated effect or none, and keeps bag and store safe |
| BagSvc.ServedBalances | MainServer/Bag/BagSvc.cpp:291-2347 | the effect of a request on units, free money, bound money and gold is exactly its deal |
| BagSvc.RunBalances | MainServer/Bag/BagSvc.cpp:291-2347 | over any run the deals add up to the change of every balance |
| Entities.RunKeepsOwn | MainServer/Bag/BagSvc.cpp:459-471 | over any run no two stacks of bag and store share an entity, and none is used again |
| BagSvc.Bags.Serve | MainServer/Bag/BagSvc.cpp:53-112 | any run of requests keeps bag and store safe, and the accounts balance; sorts, swaps and stores change none |
| LogRotation.RotateOne | PkServer/log.cpp:141-151 | each round finds the place of the next file empty, so that its rename overwrites nothing, and moves one more file up |
| LogRotation.Log.ShiftFiles | PkServer/log.cpp:126-154 | a full file 0 moves all files of its name up by one and drops the oldest, otherwise nothing changes; other names are not touched |
| LogRotation.RotatedReads | PkServer/log.cpp:126-154 | what is read after a rotation is what was read before, less the oldest file |
| LogRotation.ShiftReads | PkServer/log.cpp:126-154 | the files hold the end of what they held |
| LogRotation.Log.WriteLog | PkServer/log.cpp:94-124 | the line is the last one to be read under the name of its level and day; at most max_log_num files of a name, each below its limit when last written to |
| LogRotation.WriteReads | PkServer/log.cpp:94-154 | the files stay the end of everything logged |
| LogRotation.NothingLost | PkServer/log.cpp:126-154 | as long as no more was logged than the files can hold, all of it can be read: no rotation comes early |
| LogRotation.LostMeansFull | PkServer/log.cpp:131-139 | a rotation loses a file only when all files are full |
| LogRotation.NamesTellApart | PkServer/log.cpp:42-83 | levels never share a name, and days only where the level is not kept by the day |
| LogRotation.Log.WriteAll | PkServer/log.cpp:94-154 | the same over any run of writes; each name has logged exactly the lines of its level and day |

## Where code and documentation differ

- The comment of `SelectIfhasItems` promises 0 on success; the code returns the units counted for the
  last stackable item, and the model follows the code.
- `IfhascellIndex` asks its query for no order although its loop needs one.
- A caller in `MainServer/Chat/ChatSvc.cpp` (line 163, disabled) takes a positive result of
  `SelectIfhasItems` for success, which misses requests for items with entities only.
- `ProcesschangeItem` does not check that the destination is a cell of the bag. Trading a cell with
  itself is harmless: its last two updates select no row, or the row that is already in place, and an
  update that selects nothing counts as a success (`Framework/BaseDB/DBOperate.cpp`).

## How the model is built

- The eight neighbour tests of the search are one loop over the eight directions, in the same order; the
  compass tests of the turning-point loop are `GetDirect`.
- The arms of `CalculateMoveP` and of `UpdataBuffer` are methods of their own.
- `speed * 0.7` is computed in binary floating point and truncated: `Diagonal` lists the speeds below
  1000 at which that loses a unit.
- The dice of the counter-whirl, the damage of an attack, what the attacker's javelin buff adds to it, and
  the current time are parameters.
- Constants are those of the repository's headers: a map of 50 by 29, cut-off 1000, cell side 1000, stacks
  of 99.
- `getDirect` is defined in `PkServer/PK_PE_base.cpp` (lines 66-95) and `Init` of a role in
  `PkServer/PK_PE_base.h` (lines 464-490); their rows cite where the same tests are written out and where
  `Init` is called.
- A bag has at most a thousand cells: the service itself uses the cells beyond for rows on the move.
- No skill casts the revival buff: `skill_process_236` is empty and `onRoleDead` casts it on a cleared
  table, so the missing test for an override in its arm is never felt. Runs are therefore taken without
  such casts where counters are concerned.
- `Play`, `Fight`, `Endure`, `Serve`, `WriteAll` and `RoomAgrees` have no counterpart: they put whole runs, or
  several functions side by side, into one contract.

## Left out

- Sockets, pipes, threads, messages to the clients, and the 256-byte buffer of the path message: the
  message is a sequence of points.
- Path optimality on maps other than the one `Init` builds: the estimate does not support it.
- AStar.AStar: for a target on the map the start is required to be on it too, because the source then
  indexes the map around the start without a check, which is undefined. A shoved role can stand off the map
  (see `Dodge.StaysOnMapIff`).
- Bullets.BulletList.CalculateBullets: what a hit does to the roles is a parameter.
- Walking.MoveAttr.CalculateMoveP: the mana drain that comes before the step acts on other fields and is
  `Buffs.RoleState.DrainMana`.
- Buffs.RoleState.CalculateBuff: a pass stops when the role falls; the source may go on erasing from the
  table that a revival has just replaced, which is undefined.
- Buffs.RoleState.DispelBuffs: likewise stops when the role falls.
- Buffs.RoleState.Play: ends with the first fall, for that reason; revivals after hits go on in
  `Buffs.RoleState.Fight`.
- Buffs.RoleState.Fight: ends when the role is dead, or falls during a pass or a dispel. The sacrifice skill
  lowers hit points without ever killing (`PkServer/PK_thread.cpp`, line 2500) and is no event.
- Buffs.RoleState.RunBuffer: running casts act on other roles, and that part is not modelled.
- Buffs.RoleState.StrikeShields: the blast of a bursting shield and of the counter-whirl hit other roles.
- Buffs.RoleState.UpdataBySkill: the blast of a shield that is ended hits other roles.
- Buffs.RoleState.UpdataCastSkill: the end of a meteor cast also resets the current order, which is not part
  of the state.
- Hatred, current orders, and the skill tables.
- Damage formulas with `sqrt` and `rand`.
- Wrap-around of attributes, prices and money: these are unbounded integers here. Sub-cell offsets are
  shown not to wrap.
- SQL failures, VIP levels, dates, cool-downs, task notifications, and the contents of the Entity table.
- BagSvc.Bags.ProcessUseItem: level, profession and the item's own effect are one parameter.
- `TradeItem`, `DeletefromBag`, `DropItems`, mail, runes and mixing of equipment.
- The formatting and truncation of a log line, and failing file operations.
- The gateway, the framework's sessions and buffers, configuration files and start-up.
