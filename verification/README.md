# Patroni, modelled and proved in Dafny

Patroni keeps a PostgreSQL cluster running through failovers. With synchronous replication it may only promote a
node that holds every commit the old primary has acknowledged. Two registers decide this, and they are updated one
after the other: `synchronous_standby_names` in PostgreSQL ("ANY numsync OF sync" acknowledges a commit) and the
`/sync` key in the DCS ("ANY quorum OF voters", besides the candidate, elects a leader). This project models the state
machine that changes the two registers, the loop that applies it, the leader race that reads them, the handoff at a
failover, and the protocols around it. It proves that a commit acknowledged at one moment of a run, before or after the
new primary has taken over the key, is held by whoever wins a later election by votes, as long as the steps in between
respect it, which is a condition on the registers, the observations and the nodes that hold the commit.

## Layout

* `Names`, `Options`: names, the order they are sorted in, counting; optional values.
* `CaseInsensitiveSets`: the set type; it refines a mathematical set of lower-cased names, which is what the quorum
  modules use.
* `QuorumResolver`: what the quorum state machine computes, as functions. `QuorumStateResolvers`: the object with its
  fields overwritten step by step, each method proved to compute those functions.
* `QuorumSafety`: every register pair exposed by a pass is good; merging transitions is a refinement.
  `QuorumPhases`: each phase's result in closed form and exactly when it raises. `QuorumConvergence`: all phases in
  sequence. `QuorumPass`: the registers after the merged transitions of a whole pass. `QuorumHistory`: commits
  acknowledged before a pass. `QuorumDurability`: commits over whole runs of the cluster.
* `LeaderRace`, `QuorumCluster`, `QuorumFailover`, `QuorumReplication`: the vote count; handoff, strict mode, runs of the
  whole cluster; the first pass of a new primary; the loop on the primary that applies transitions.
* `PriorityMode`: the other synchronous mode, in which all listed standbys acknowledge.
* `FailsafeMode`, `AsyncExecutors`, `CriticalTasks`: three protocols as interleaved steps.
* `TimingRule`; `Topology` and `TopologyTree`; `Numerals` and `Units`: dynamic configuration, the tree view of the
  cluster, values with units.

Registers are *good* for a primary (`QuorumSafety.Registers.Good`) when the quorum is not negative, the `/sync` leader
is no voter, the primary is no standby of itself, the electorate (voters and `/sync` leader) and the acknowledging
nodes (sync and primary) are nested, and their union has at most quorum + numsync + 1 members. The last bound may be
missing only while there are no voters and the key names the primary itself.

## What is assumed

* `write_sync_state` is a compare-and-set on the version of the key; a member of the `/sync` key is a voter or the
  `/sync` leader.
* Node names are unique up to letter case. A primary is not in its own `active` set.
* A node that holds a commit reports a position that is not before it.
* In priority mode the confirmed standbys are active and listed, and hold the commits that were acknowledged before
  the names that list them came into effect.
* In failsafe mode members share one clock, `ttl` and topology.
* Under the lock discipline of critical tasks, a section that has acted stores a result before it ends.

## What turned out to be false

Each of these is kept as the code has it, with a witness and the exact condition.

* The resolver is not total. For safe registers that name the primary, `QuorumPass.PassExact` says exactly when a pass
  raises, by a condition on the registers and observations at its start (`QuorumConvergence.PassFails`), and where it
  leads otherwise; `NotRecoveredWitness`, `RaisingFactorWitness` and `LoweringFactorWitness` are inputs.
  `QuorumFailover.FailoverPassExact` does so for the first pass after a handoff, which may fail to take over the key
  (`RefusedTakeoverWitness`), and `QuorumConvergence.NoFactorPassExact` for a factor of zero or less (`NoFactorWitness`,
  `NoFactorAcceptedWitness`). A pass that raises exposes nothing, so it costs availability and not safety.
* A pass does not keep every commit that was acknowledged before it: one that raises the replication factor lowers the
  quorum at once, counting nodes that were confirmed for the old factor (`QuorumHistory.StaleConfirmationWitness`), and one
  that removes a node may remove the only standby that holds the commit (`QuorumHistory.RemovalWitness`). After a pass a
  commit is safe exactly if enough of the active nodes hold it for the quorum the pass ends with
  (`QuorumHistory.PassDurableExact`; `QuorumHistory.RaisedFactorDurable` spells out the raised factor).
* The former leader may win the race without votes (`patroni/ha.py:1498`). That is safe while the `/sync` key names the
  primary that acknowledged the commit. Right after a failover (`LeaderRace.FormerLeaderWitness`) a commit can be lost
  exactly if it can be acknowledged without the former leader (`LeaderRace.FormerLeaderExact`).
* The quorum may exceed the number of voters, so that nobody can win by votes: adding nodes (`patroni/quorum.py:371-372`)
  and lowering the factor (`patroni/quorum.py:391-392`) raise the quorum by all unconfirmed nodes of the old factor
  (`QuorumConvergence.OvershootWitness`), and the excess may persist (`QuorumConvergence.OvershootPersistsWitness`).
  `QuorumPhases.AddOvershootsExact`, `QuorumPhases.FactorOvershootsExact` and, for a whole pass,
  `QuorumConvergence.PassOvershootsExact` say exactly when.
* `cancel` of the asynchronous executor returns at once when the task has not begun; if another action is then
  scheduled, as `patroni/ha.py:2152-2156` does, the cancelled task runs (`AsyncExecutors.CancelledTaskRuns`). A task
  runs exactly if an action has been accepted since the last cancellation (`AsyncExecutors.TaskRunsExactly`).
* `parse_int` rounds to a multiple of the next smaller unit without regard to the multiplier of the base unit, so text
  printed for a base such as 16384kB is not read back (`Units.RoundTripIff`, `Units.MultiplierWitness`).
* `_validate_and_adjust_timeouts` cuts `loop_wait` to 1 where 2 would do when `retry_timeout` is cut and `ttl` is even
  (`TimingRule.AdjustedIsGreatest`, `TimingRule.LoopWaitCutWitness`).
* A member may agree to failsafe mode and still take the lock before the agreement runs out
  (`FailsafeMode.AgreedAndAcquired`): exactly if its running cycle has loaded the cluster without a leader, or if it takes
  itself for the leader (`FailsafeMode.AgreedAndAcquiredExact`).

## Model

| member | source | states |
|---|---|---|
| Names.Sorted | patroni/quorum.py:329-361 | a slice of the sorted (or reverse sorted) names: how many, and that none left out precedes one taken |
| Names.Pigeonhole | patroni/quorum.py:150-165 | two sets whose sizes add up to more than their universe share a node; why the overlap bound is enough |
| QuorumResolver.NodesToReach | patroni/quorum.py:358-364 | how many of the new nodes join first, and that they are the first in sorted order; all of them when there is only the leader |
| QuorumStateResolvers.QuorumStateResolver.constructor | patroni/quorum.py:111-140 | the fields of a new resolver, numsync cut to the number of names |
| QuorumStateResolvers.QuorumStateResolver.CheckInvariants | patroni/quorum.py:142-165 | raises exactly if the overlap bound or nestedness is violated |
| QuorumStateResolvers.QuorumStateResolver.QuorumUpdate | patroni/quorum.py:167-211 | the mutated fields, the yielded transitions and the error are those of the model |
| QuorumStateResolvers.QuorumStateResolver.SyncUpdate | patroni/quorum.py:213-233 | likewise for synchronous_standby_names |
| QuorumStateResolvers.QuorumStateResolver.HandleNonSteadyCases | patroni/quorum.py:255-311 | likewise for all four cases of an interrupted run |
| QuorumStateResolvers.QuorumStateResolver.RemoveGoneNodes | patroni/quorum.py:313-346 | likewise for removing nodes, its working set shrinking in place |
| QuorumStateResolvers.QuorumStateResolver.AddNewNodes | patroni/quorum.py:348-373 | likewise for adding nodes |
| QuorumStateResolvers.QuorumStateResolver.HandleReplicationFactorChange | patroni/quorum.py:375-393 | likewise for a new factor |
| QuorumStateResolvers.QuorumStateResolver.GenerateTransitions | patroni/quorum.py:395-437 | likewise for a whole pass with change of leader, fallback and early return |
| QuorumStateResolvers.QuorumStateResolver.Iterate | patroni/quorum.py:235-253 | the loop that coalesces transitions yields the merged run, and nothing if the pass raises |
| QuorumSafety.QuorumUpdateTracks | patroni/quorum.py:167-211 | an update of the key that does not raise leads from good registers through good registers |
| QuorumSafety.SyncUpdateTracks | patroni/quorum.py:213-233 | likewise for synchronous_standby_names |
| QuorumSafety.AdoptLeaderTracks | patroni/quorum.py:405-412 | a change of leader goes through good registers and ends with the new leader |
| QuorumSafety.FallbackTracks | patroni/quorum.py:418-420 | rewriting the key after a failed change of leader leads to good registers although a bad state was passed internally |
| QuorumSafety.ReconcileRuns | patroni/quorum.py:424-437 | all phases in sequence keep every exposed pair good |
| QuorumSafety.MergeSelects | patroni/quorum.py:235-253 | the merged run is a subsequence of the unmerged one |
| QuorumSafety.MergeAlternates | patroni/quorum.py:235-253 | neighbours differ in kind, nothing follows a restart, and there is a restart exactly if the run has one |
| QuorumSafety.MergeExposes | patroni/quorum.py:235-253 | every state the merged run exposes is a state of the unmerged run |
| QuorumSafety.MergeReaches | patroni/quorum.py:235-253 | the merged run ends where the unmerged run is at its first restart |
| QuorumSafety.PassIsSafe | patroni/quorum.py:55-94 | whatever is observed, every prefix of the yielded transitions keeps good registers good |
| QuorumPhases.SafeIsBalanced | patroni/quorum.py:142-165 | the invariant as arithmetic on the standbys alone |
| QuorumPhases.QuorumUpdateExact | patroni/quorum.py:167-211 | when an update of the key succeeds, and the result with the quorum raised for unconfirmed nodes |
| QuorumPhases.SyncUpdateExact | patroni/quorum.py:213-233 | when an update of synchronous_standby_names succeeds, and the result |
| QuorumPhases.MatchSetsExact | patroni/quorum.py:260-296 | recovery from an interruption reaches voters == sync exactly if the state is recoverable, and the registers it leaves in closed form |
| QuorumPhases.SettleMarginTotal | patroni/quorum.py:298-311 | bringing the safety margin down never raises; the registers it leaves in closed form |
| QuorumPhases.RemoveGoneNodesTotal | patroni/quorum.py:313-346 | removing nodes never raises, whatever factor is wanted; it leaves sync * active, with numsync and quorum in closed form |
| QuorumPhases.LastLeaveFirst | patroni/quorum.py:327-330 | of the gone nodes as many as the quorum leave first, the last ones in sorted order |
| QuorumPhases.AddNewNodesExact | patroni/quorum.py:348-373 | exactly when adding nodes raises, otherwise the result in closed form |
| QuorumPhases.FactorChangeExact | patroni/quorum.py:375-393 | exactly when changing the factor raises, otherwise the result in closed form |
| QuorumPhases.NoFactorExact | patroni/quorum.py:387-393 | a factor of zero or less is refused unless it is zero and the quorum asks for all voters |
| QuorumConvergence.ChangeExact | patroni/quorum.py:431-437 | exactly when the phases after recovery raise, and the registers they end with, in terms of the state they start from |
| QuorumConvergence.ReconcileExact | patroni/quorum.py:424-437 | exactly when all phases in sequence raise, and the registers they end with, in terms of what is known at the start |
| QuorumConvergence.NoFactorPassExact | patroni/quorum.py:424-437 | with a factor of zero or less the phases raise unless it is zero and no node is active, or no node joins or leaves and the quorum asks for all voters, or nodes only leave, the quorum has room for them and nobody counts as confirmed |
| QuorumConvergence.NoFactorWitness | patroni/quorum.py:387-393 | zero is refused in the optimal state of one standby |
| QuorumConvergence.NoFactorAcceptedWitness | patroni/quorum.py:326-346 | zero is accepted when a node leaves and nobody is confirmed |
| QuorumPhases.AddOvershootsExact | patroni/quorum.py:369-373 | adding nodes leaves a quorum above the number of voters if and only if the old factor exceeds the new one and the confirmed nodes together, or the number of confirmed nodes is negative |
| QuorumPhases.FactorOvershootsExact | patroni/quorum.py:381-393 | exactly when applying the factor leaves such a quorum, or keeps it |
| QuorumConvergence.PassOvershootsExact | patroni/quorum.py:424-437 | the same for all phases in sequence, by the recovered state |
| QuorumConvergence.OvershootPersistsWitness | patroni/quorum.py:387-393 | a pass that keeps a quorum of 4 of 3 voters |
| QuorumConvergence.OvershootWitness | patroni/quorum.py:369-373 | a pass that ends with a quorum of 6 of 5 voters |
| QuorumPass.PassExact | patroni/quorum.py:235-253 | exactly when a pass yields transitions, and the registers its merged transitions lead to, restarts included |
| QuorumPass.ConfirmedIsAssumed | patroni/quorum.py:424-427 | with nobody known to be confirmed a pass is the one for min(number of active listed nodes, number of voters - quorum) confirmed nodes |
| QuorumPass.StartsAnew | patroni/quorum.py:353-367 | with none of the known standbys active, the new ones are listed with the factor in reach and the key is left without voters |
| QuorumPass.FirstTransitions | patroni/quorum.py:199-211 | from an empty key the pass yields the new names and a restart, and nothing else |
| QuorumPass.ListedBecomeVoters | patroni/quorum.py:274-294 | listed standbys of which some are confirmed become voters, and the quorum that results |
| QuorumPass.RepairPassExact | patroni/quorum.py:416-420 | a key that names the primary but violates the invariant is rewritten from the listed standbys; exactly when the pass raises, and where it leads |
| QuorumConvergence.Converges | patroni/quorum.py:58-64 | from a tight state with enough confirmed nodes the resolver reaches the optimal state without raising |
| QuorumPass.PassConverges | patroni/quorum.py:58-64 | and the merged transitions lead to the optimal registers, from which a pass yields nothing |
| QuorumConvergence.OptimalIsQuiet | patroni/quorum.py:58-64 | the optimal state yields no transitions, whatever is confirmed |
| QuorumConvergence.NotRecoveredWitness | patroni/quorum.py:274-296 | an interrupted state with dead and living voters makes the pass raise |
| QuorumConvergence.RaisingFactorWitness | patroni/quorum.py:359-367 | a tight state in which adding a node while raising the factor raises |
| QuorumConvergence.LoweringFactorWitness | patroni/quorum.py:387-393 | lowering the factor while a node is unconfirmed raises |
| QuorumHistory.UnconfirmedNeverWeaken | patroni/quorum.py:195-198 | every transition of a run keeps quorum + min(numsync, confirmed) >= number of voters |
| QuorumHistory.MergeKeepsCovered | patroni/quorum.py:235-253 | merging transitions keeps that |
| QuorumHistory.PassIsCovered | patroni/quorum.py:195-198 | so every prefix of what the resolver yields to its caller keeps it |
| QuorumHistory.PassIsCoveredAfterRestart | patroni/quorum.py:424-427 | after a restart no key counts more old standbys than there are active ones |
| QuorumHistory.ShortWeakens | patroni/quorum.py:358-367 | new nodes too few for the factor do weaken it; the condition of the previous row is needed |
| QuorumHistory.AcknowledgedIsDurable | patroni/quorum.py:66-94 | under good registers an acknowledged commit is on enough voters to meet every quorum |
| QuorumHistory.CommitSurvivesPass | patroni/quorum.py:195-198 | a durable commit stays durable after every transition of a covered sequence |
| QuorumHistory.AcknowledgedSurvivesPass | patroni/ha.py:1398-1498 | a commit acknowledged when a pass begins is held by whoever wins by votes after any prefix of what the resolver yields |
| QuorumHistory.WinnerHoldsDurableCommit | patroni/ha.py:1398-1498 | whoever wins by votes holds every durable commit, also one acknowledged under earlier registers |
| QuorumHistory.PassDurableExact | patroni/quorum.py:235-253 | a commit is durable after a pass if and only if enough of the active nodes hold it for the quorum the pass ends with, or the key has no voters |
| QuorumHistory.RemovalWitness | patroni/quorum.py:323-337 | a commit on one of two standbys, lost when that one goes away and the other wins the race alone |
| QuorumHistory.RaisedFactorDurable | patroni/quorum.py:382-386 | after the factor is raised to w a commit is durable if and only if w standbys hold it |
| QuorumHistory.StaleConfirmationWitness | patroni/quorum.py:382-386 | a commit acknowledged by one of two standbys, lost by the other one winning the race alone |
| LeaderRace.IsHealthiestNode | patroni/ha.py:1367-1498 | True only if every reachable member is in recovery and, but for the former leader in synchronous mode, not ahead; then, in quorum mode, if and only if the supporters exceed the quorum, or the former leader sees nobody ahead |
| LeaderRace.SupportersVote | patroni/ha.py:1426-1446 | the votes counted are the members of the electorate that report a position not ahead, and the candidate if it is one |
| LeaderRace.QuorumMeetsAcknowledgement | patroni/quorum.py:150-165 | more than quorum voters include a node that acknowledged, or the primary |
| LeaderRace.WinnerHoldsCommit | patroni/ha.py:1398-1498 | a winner is not behind any commit acknowledged under the registers |
| LeaderRace.WinByVotesBoundsQuorum | patroni/ha.py:1496-1498 | a node can win by votes only if the quorum does not exceed the number of voters |
| LeaderRace.FormerLeaderWitness | patroni/ha.py:1495-1498 | the former leader wins without votes and misses a commit of the new primary |
| LeaderRace.FormerLeaderExact | patroni/ha.py:1495-1498 | it can do so if and only if a commit can be acknowledged without it |
| QuorumCluster.HandOffIsGood | patroni/ha.py:1090-1099 | names and number set before promotion are good against the key that still names the old leader, voter or not, any quorum |
| QuorumCluster.HandOffIsTight | patroni/ha.py:1090-1099 | no smaller number would be good, apart from the configured minimum |
| QuorumCluster.AdoptedIsGood | patroni/ha.py:1090-1099 | and stay good once the new leader is in the key |
| QuorumCluster.HandOffIsAdopted | patroni/quorum.py:405-412 | the resolver's change of leader after a handoff succeeds if and only if the quorum fits; its single transition and result |
| QuorumCluster.SeededIsAdopted | patroni/quorum.py:407-412 | with empty sync the resolver first writes what the handoff would have written, then changes the leader |
| QuorumFailover.FailoverPassExact | patroni/quorum.py:404-437 | exactly when the first pass after a handoff yields transitions, and the registers they lead to |
| QuorumFailover.ConfirmedIsAssumedAfterHandOff | patroni/quorum.py:424-427 | the number of confirmed nodes the first pass assumes |
| QuorumFailover.RefusedTakeoverWitness | patroni/quorum.py:412-422 | a quorum of both voters, one of which is promoted: the key is never taken over |
| QuorumCluster.StrictModeIsGood | patroni/ha.py:883-913 | strict mode keeps the registers good |
| QuorumCluster.RunIsGood | patroni/ha.py:936-974 | over every run of interrupted passes, strict-mode steps and promotions, manual ones included, all registers are good |
| QuorumCluster.FirstKeyIsGood | patroni/ha.py:832-848 | enabling synchronous mode writes good registers |
| QuorumCluster.NoCommitLost | patroni/ha.py:1398-1498 | at every moment of every run a winner holds what was acknowledged under the registers of that moment |
| QuorumDurability.AcknowledgedIsKept | patroni/quorum.py:150-165 | under good registers an acknowledged commit is on enough of the electorate, whoever the key names |
| QuorumDurability.AdoptionKeeps | patroni/quorum.py:405-412 | putting the old leader in the new leader's place keeps a commit on enough of the electorate |
| QuorumDurability.CountingPassIsCareful | patroni/ha.py:936-974 | a pass of a primary that the key names may be stopped anywhere if as many listed standbys hold the commit as are confirmed |
| QuorumDurability.WaitingPassIsCareful | patroni/quorum.py:405-415 | the pass with which a new primary takes over and waits for its replicas yields one write, which keeps the commit |
| QuorumDurability.CompletePassExact | patroni/ha.py:936-974 | a pass carried out to its end, with or without a change of leader, keeps a commit if and only if enough of the active nodes hold it |
| QuorumDurability.NoCommitLostEver | patroni/ha.py:1398-1498 | a commit acknowledged at one moment of a run is held by whoever wins by votes at any later moment, through passes, strict mode and promotions that respect it |
| QuorumReplication.Primary.constructor | patroni/ha.py:915-931 | a primary that has read good registers |
| QuorumReplication.Primary.WriteSyncState | patroni/ha.py:959-963 | the key changes if and only if its version is the one that was read; otherwise it shows what somebody else wrote, or is as it was |
| QuorumReplication.Primary.SetSynchronousStandbyNames | patroni/ha.py:964-965 | the new names and number, the key untouched |
| QuorumReplication.Primary.HandleStrictMode | patroni/ha.py:883-913 | strict exactly with too few active nodes; names and number in both cases; only good registers visible |
| QuorumReplication.Primary.ApplyTransitions | patroni/ha.py:955-965 | how many transitions take effect before a timeout, an outage or another writer, and the registers afterwards |
| QuorumReplication.Primary.PlanTransitions | patroni/ha.py:944-952 | what the resolver object yields for the registers and the observation |
| QuorumReplication.Primary.TakeTurn | patroni/ha.py:936-972 | one turn of the loop: the resulting registers, and whether there is another turn |
| QuorumReplication.Primary.ProcessQuorumReplication | patroni/ha.py:936-974 | the registers after all turns; every pair that becomes visible before somebody else writes the key is good; two undisturbed turns from an empty key make the confirmed standbys voters |
| QuorumReplication.TurnIsTwoSteps | patroni/ha.py:936-972 | a turn is a strict-mode step and a pass of the cluster model, so whole runs cover it |
| QuorumReplication.RestartGoesOn | patroni/ha.py:968-974 | a turn that ends with a restart, in time, is followed by the next one from the registers it led to |
| QuorumReplication.NoRestartIsLast | patroni/ha.py:968-969 | a turn that yields no restart is the last, whatever comes after |
| QuorumReplication.LateTurnIsLast | patroni/ha.py:968-969 | so is one after which the time is up |
| QuorumReplication.StrictTurnIsLast | patroni/ha.py:940-942 | and one with too few active nodes, which lists the voters |
| QuorumReplication.WholeTurn | patroni/ha.py:944-965 | a turn carried out in time leaves the registers its transitions lead to |
| QuorumReplication.StoppedTurnIsLast | patroni/ha.py:955-963 | a turn that runs out of time or meets another writer is the last, and what it leaves |
| QuorumReplication.SecondTurnAdmits | patroni/ha.py:968-974 | from an empty key two turns make the confirmed standbys voters |
| QuorumReplication.Primary.PrepareToPromote | patroni/ha.py:1081-1099 | the in-place computation of names and number is the handoff, and good |
| PriorityMode.Primary.constructor | patroni/ha.py:976-992 | a primary whose published standbys are listed |
| PriorityMode.Primary.Publish | patroni/ha.py:997-1000 | a compare-and-set write; published standbys stay listed and vouched for, also when somebody else writes first |
| PriorityMode.Primary.SetNames | patroni/postgresql/sync.py:415-440 | the names, the effective number, and that published standbys stay listed |
| PriorityMode.Primary.HandleStrictMode | patroni/ha.py:883-913 | strict mode in priority mode: names become the voters, all required |
| PriorityMode.Primary.AdoptKey | patroni/ha.py:985-1009 | taking over and correcting the key, with every early return |
| PriorityMode.Primary.Synchronize | patroni/ha.py:1021-1039 | withdraw from the key, change the names, publish: voters are among the names in between |
| PriorityMode.Primary.ProcessMultisyncReplication | patroni/ha.py:976-1039 | on every path voters are among the names while the key is ours; the final registers of an undisturbed pass, with enough active nodes and in strict mode |
| PriorityMode.PublishedHoldsCommit | patroni/ha.py:979-983 | over every history a published standby holds every commit acknowledged before |
| FailsafeMode.BoundMemberKeepsOut | patroni/ha.py:335-354 | a member that has agreed does not take the lock, in any step before its agreement runs out |
| FailsafeMode.LoadSees | patroni/ha.py:335-354 | a cycle sees no leader if and only if the lock is free and no agreement is in force |
| FailsafeMode.AgreementEnds | patroni/ha.py:155-162 | when the agreement has run out the member may take a free lock in its next cycle |
| FailsafeMode.OrdinaryCandidate | patroni/ha.py:1614-1679 | out of pause and without a manual failover, which checks a member in recovery has to pass |
| FailsafeMode.OtherCandidates | patroni/ha.py:1628-1656 | the same for primaries, and that no standby races in pause |
| FailsafeMode.StrangerKeepsOut | patroni/ha.py:1669-1679 | a member outside of the topology disqualifies itself |
| FailsafeMode.NoSecondLeader | patroni/ha.py:1305-1355 | once all members have agreed since T0, in every interleaving no other member of the topology takes the lock before T0 + ttl, and no stranger in recovery does |
| FailsafeMode.AgreedAndAcquired | patroni/ha.py:1270-1280 | a member whose running cycle has seen no leader agrees and then takes the lock |
| FailsafeMode.AgreedAndAcquiredExact | patroni/ha.py:1270-1280 | a member that agrees may take the lock before the agreement runs out if and only if its cycle has seen no leader or it takes itself for the leader |
| FailsafeMode.Failsafe.Update | patroni/ha.py:130-146 | the announcement with its addresses and slots, and its time |
| FailsafeMode.Failsafe.SetIsActive | patroni/ha.py:207-220 | zero resets everything, another value only moves the time |
| FailsafeMode.Failsafe.Leader | patroni/ha.py:155-162 | the leader as long as the announcement is younger than ttl |
| FailsafeMode.UpdateFailsafe | patroni/ha.py:1270-1280 | refused exactly by a member that is running as a primary; otherwise the state of the protocol step, and the member's position |
| FailsafeMode.CheckFailsafeTopology | patroni/ha.py:1330-1355 | True if and only if the key is in order, lists this node, and all others have answered and accept; then their positions are kept, and the members have agreed |
| FailsafeMode.AcceptedIsAgreed | patroni/ha.py:1348-1355 | responses that are answers of members that are not about to take the lock make up an agreement |
| AsyncExecutors.EventIsAlwaysRight | patroni/async_executor.py:158-178 | with one task at a time, a set event means no function is running, in every interleaving |
| AsyncExecutors.NothingStarts | patroni/async_executor.py:209-216 | from the flag until the next accepted action no function starts |
| AsyncExecutors.CancelIsABarrier | patroni/async_executor.py:203-220 | cancel returns after the running functions have finished, and none runs until the next accepted action |
| AsyncExecutors.CancelCanReturn | patroni/async_executor.py:217-217 | once no function is running, a cancel that waits can return |
| AsyncExecutors.NeverStuck | patroni/async_executor.py:170-175 | whenever all tasks have finished an action is accepted |
| AsyncExecutors.OneAtATimeWithoutCancel | patroni/async_executor.py:122-128 | as long as nothing is cancelled there is one task at a time |
| AsyncExecutors.CancelledTaskRuns | patroni/async_executor.py:122-128 | with two tasks outstanding a cancelled task runs after cancel has returned |
| AsyncExecutors.TaskRunsExactly | patroni/async_executor.py:158-162 | in every run a task function is called if and only if no cancellation has gone without an accepted action since |
| AsyncExecutors.AsyncExecutor.Schedule | patroni/async_executor.py:107-129 | accepted exactly if nothing is scheduled; clears the flag and sets the event |
| AsyncExecutors.AsyncExecutor.PassGate | patroni/async_executor.py:158-162 | the function is called exactly if the flag is not set, with the event cleared |
| AsyncExecutors.AsyncExecutor.FinishRun | patroni/async_executor.py:170-175 | unschedules, sets the event and resets the critical task |
| AsyncExecutors.AsyncExecutor.RequestCancel | patroni/async_executor.py:209-214 | sets the flag exactly if an action is scheduled |
| AsyncExecutors.AsyncExecutor.ResetAfterWait | patroni/async_executor.py:219-220 | unschedules |
| CriticalTasks.StepKeepsConsistent | patroni/async_executor.py:14-24 | every step of either thread keeps flag, result and history consistent |
| CriticalTasks.CancelledOrCarriedOut | patroni/async_executor.py:14-24 | in every interleaving cancel returns True only without the action, and False only with the result |
| CriticalTasks.EveryRunCancelsOrCarriesOut | patroni/async_executor.py:14-24 | so it is in every run of a new task |
| CriticalTasks.CriticalTask.Cancel | patroni/async_executor.py:47-59 | the answer and the flag of the protocol step |
| CriticalTasks.CriticalTask.Complete | patroni/async_executor.py:61-67 | the result of the protocol step |
| CriticalTasks.CriticalTask.Reset | patroni/async_executor.py:38-45 | the reset of the protocol step |
| TimingRule.AdjustedValues | patroni/config.py:293-331 | the adjusted values in closed form, the rule holds, nothing else changes |
| TimingRule.FollowsIffFixed | patroni/config.py:293-331 | adjusting changes nothing if and only if the rule is followed |
| TimingRule.AdjustedTwice | patroni/config.py:293-331 | adjusting twice is adjusting once, also when it raises half way |
| TimingRule.AdjustedIsGreatest | patroni/config.py:310-312 | no allowed values are closer to the requested ones, with one exception |
| TimingRule.LoopWaitCutWitness | patroni/config.py:318-324 | an input of that exception |
| TimingRule.EveryHistoryFollowsTheRule | patroni/config.py:334-381 | after every sequence of updates and reloads the effective values follow the rule |
| TimingRule.InitialTiming | patroni/config.py:99-100 | the values in effect before any update |
| TimingRule.UpdateTakesEffect | patroni/config.py:342-355 | an update with changes, a new version and values that can be read takes effect, adjusted |
| TimingRule.UpdateIsIgnored | patroni/config.py:342-358 | any other update leaves the configuration alone |
| TimingRule.ReloadTakesEffect | patroni/config.py:369-377 | a reload with changes takes effect, except for the timing |
| TimingRule.LocalHasNoSay | patroni/config.py:724-737 | the local configuration does not affect the timing |
| TimingRule.GetAndMaybeAdjustIntValue | patroni/config.py:273-291 | the value read and the dictionary changed in place |
| TimingRule.ValidateAndAdjustTimeouts | patroni/config.py:293-331 | the dictionary afterwards, also after an error; raises exactly if a value is no number |
| TimingRule.Config.constructor | patroni/config.py:137-154 | effective configuration of an empty dynamic one |
| TimingRule.Config.SetDynamicConfiguration | patroni/config.py:334-358 | the new state; a failed or repeated update leaves the effective values alone |
| TimingRule.Config.ReloadLocalConfiguration | patroni/config.py:360-381 | the new state of a reload |
| Topology.Attach | patroni/ctl.py:1551-1558 | the filled dictionary holds for every name the replicas attached to it, in order |
| Topology.GenerateTopology | patroni/ctl.py:1521-1530 | lines yielded and names left behind by the recursion that renames in place; it terminates for every input |
| Topology.TopologySort | patroni/ctl.py:1533-1560 | the listing, for every assignment of replicatefrom, cycles included |
| Topology.SlackDrops | patroni/ctl.py:1521-1530 | each visit that goes on uses up some of a bounded slack: why the traversal ends |
| TopologyTree.ListingIsTheTree | patroni/ctl.py:1533-1560 | with distinct names: the leader and exactly the replicas whose chain reaches it, once each, indented by depth, below their parent, siblings in order |
| TopologyTree.UpExact | patroni/ctl.py:1553-1558 | the parent of a replica by tags and names alone |
| TopologyTree.IndentationIs | patroni/ctl.py:1523-1524 | how a name is indented at each level |
| Numerals.ScanPrinted | patroni/utils.py:235-240 | a printed integer followed by a unit is scanned back |
| Numerals.UnsignedOctal | patroni/utils.py:44-47 | a number with a leading 0 is octal |
| Numerals.UnsignedHex | patroni/utils.py:44-47 | a number with a leading 0x is hexadecimal |
| Numerals.SignedNumber | patroni/utils.py:235-240 | the sign, with spaces stripped |
| Units.ChoiceIsExact | patroni/utils.py:360-364 | the unit chosen represents the value exactly and no greater unit does |
| Units.TableSteps | patroni/utils.py:60-74 | how many of the next unit make one of each |
| Units.RoundIsNearest | patroni/utils.py:318-320 | rounding to the nearest integer, halves to the even one |
| Units.Printed | patroni/utils.py:355-364 | the printed text is a whole number of that unit, for every value and base |
| Units.RoundTripIff | patroni/utils.py:308-320 | the text is read back as the same value if and only if the value is a multiple of the next smaller unit |
| Units.RoundTrip | patroni/utils.py:510-521 | it is for every value when the multiplier of the base divides the steps of the table |
| Units.PlainRoundTrip | patroni/utils.py:510-521 | in particular for B, kB, MB, ms, s and min |
| Units.MultiplierWitness | patroni/utils.py:308-320 | 64 with the base 16384kB prints as 1GB and is not read back |
| CaseInsensitiveSets.CaseInsensitiveSet.constructor | patroni/collections.py:17-24 | the lower-cased names of the given values |
| CaseInsensitiveSets.CaseInsensitiveSet.Add | patroni/collections.py:82-90 | the set grows by the lower-cased name, the last spelling is kept |
| CaseInsensitiveSets.CaseInsensitiveSet.Discard | patroni/collections.py:92-99 | the set loses the lower-cased name |
| CaseInsensitiveSets.CaseInsensitiveSet.Contains | patroni/collections.py:52-61 | membership regardless of case |
| CaseInsensitiveSets.SameName | patroni/collections.py:52-61 | two spellings are one name if and only if they differ in case at most |
| CaseInsensitiveSets.CaseInsensitiveSet.Size | patroni/collections.py:70-80 | the number of different names |
| CaseInsensitiveSets.CaseInsensitiveSet.Spellings | patroni/collections.py:63-68 | iteration meets every name once |
| CaseInsensitiveSets.CaseInsensitiveSet.IsSubset | patroni/collections.py:101-107 | inclusion of the sets of names |
| CaseInsensitiveSets.CaseInsensitiveSet.Equals | patroni/collections.py:10-15 | equality of the sets of names |
| CaseInsensitiveSets.CaseInsensitiveSet.Intersection | patroni/collections.py:10-15 | intersection of the sets of names |
| CaseInsensitiveSets.CaseInsensitiveSet.Difference | patroni/collections.py:10-15 | difference of the sets of names |
| CaseInsensitiveSets.CaseInsensitiveSet.Union | patroni/collections.py:10-15 | union of the sets of names |

## Left out

- LeaderRace.IsHealthiestNode: the checks of lag and timeline before the vote and the choice by site and priority after it are two inputs that can only make the node give up.
- QuorumReplication.Primary.ProcessQuorumReplication: starts with a key that has a leader (enabling an empty key is QuorumCluster.FirstKeyIsGood); rewriting FIRST as ANY with the same names, and the wait before another turn, change neither register and are not modelled; times are inputs.
- QuorumDurability.NoCommitLostEver: the steps of the run have to respect the commit, because the resolver is told a number of confirmed nodes and not which commits they hold; a pass that is stopped half way while it removes nodes is covered by its single writes only.
- FailsafeMode.NoSecondLeader: assumes one clock, no restart of a listed member, and that a member has no running cycle that saw the cluster without a leader when it agrees.
- TimingRule.Config.SetDynamicConfiguration: sections other than the timing values only matter by whether they can be processed, and nested values are compared as they print; the caller is assumed to give the dictionary away.
- TimingRule.Config.constructor: reading files, environment and cache is not modelled, and a configuration that cannot be processed makes no object.
- PriorityMode.Primary.SetNames: PostgreSQL 9.5, which supports a single synchronous standby, is not modelled; neither is the preparation for promotion in priority mode.
- Numerals.ScanPrinted: spaces are those of ASCII; other Unicode spaces that Python strips are not modelled.
- Units.RoundTrip: conversion factors are exact rationals; floating-point rounding and texts with a fraction or an exponent are not modelled.
- CaseInsensitiveSets.CaseInsensitiveSet.Add: lower-casing is that of ASCII, and the quorum modules sort the lower-cased names where Python sorts the spellings.
- CriticalTasks.CancelledOrCarriedOut: a section that acts and then fails, or stores no result, is outside of the documented discipline and not modelled.
- Lease-based exclusion of two leaders by the DCS lock, which depends on DCS clocks.
- Switching a running cluster between quorum and priority mode, and disabling synchronous mode.
- REST API, DCS back ends, PostgreSQL control (start, stop, rewind, bootstrap), watchdog, the rest of patronictl, validation, logging: effects in the outside world.
