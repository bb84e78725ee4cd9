# data-info: a verified model of its stateful core

data-info is the service the Discovery Environment uses to move, share, trash and read things in an
iRODS data store. This project models the parts of it that keep state or walk a tree, and proves what
those parts are for. Each entity the service updates in place is a class whose methods are proved
against a specification function; the theorems are lemmas about those functions, for every input and
every run.

| files | what they model |
|---|---|
| `Paths`, `GoPaths` | collection paths, as components and as the strings the service handles |
| `Store`, `Permissions`, `Navigability`, `RepairOutcome`, `Cleanup` | access lists over the collection tree, their repair after a move, and what exactly that changes inside and outside the moved thing |
| `Sharing`, `ShareOutcome` | sharing one path with one user and taking it back |
| `Trash`, `RestoreOutcome`, `TrashRounds` | planning and carrying out a restore, where it goes and who owns what it makes, why trashing and restoring cancel out, and what access a thing comes back with |
| `Locks`, `LockSafety` | which paths unfinished tasks hold, the endpoints that check them, and every history of tasks |
| `Pool`, `PoolSafety`, `PoolRuns`, `PoolCapacity`, `PoolRoom`, `PoolEviction`, `PoolIdle`, `PoolSessions` | the iRODS connection pool and its callers |
| `Worker`, `JobOutcome`, `Runner` | one background job with the goroutines around it, what its history says of it, and the runner of many |
| `Lookups` | catalog lookups sharing a bounded number of slots, and what a request remembers |
| `Utf8`, `Tabular` | reading spans of a UTF-8 file, and paging a delimited file by whole lines |
| `Xml`, `XmlParser` | the hand-written XML printer, and a reference parser that inverts it |

## How to read it

*Navigable* is the property the repair and the sharing code are after without naming it: whoever sees
something, and is not the acting user, the service account or an administrator, sees every collection
above it up to the roots the walks stop at.

The main results are stated in terms of paths, lists, fields and moves, not through the functions that compute
the answer: where a walk stops, which accounts are left alone, what a task holds, who is admitted and how a job
ended are written out in them (`Roots`, `Apart`, `AboveShort`, `WritesTo`, `CostOf`, `Took` and the like name what is
written out and are used by no operation).

The concurrent parts (`Worker`, `Runner`, the pool with its callers, `Slots`) are state machines over
atomic steps. `After(…, steps)` is the state after any sequence of steps, each taken if it was enabled,
so a theorem about `After` is about every run. Timers, the network, cancellation and what other
services answer are choices made by the steps.

Where the code and what its comments promise differ, the model follows the code. The theorem says exactly
when the promise holds, and a lemma beside it shows an input for which it does not:

- A repair out of an inheriting collection is meant to leave a thing to the structural accounts alone, and one
  into an inheriting collection to leave it with that collection's access. It reads only the list of the thing
  itself, so somebody let into part of it keeps what they have: each holds exactly when whoever saw anything of
  the thing was on its list, or on the collection's (`HiddenExactly`, `InheritedExactlyWhen`;
  `StrandedIsNotHidden` moves a thing somebody was let into by a share, and they still see it). From a navigable
  state both hold (`RepairOutcomeInside`).
- Sharing keeps everything navigable exactly when the walk to the owner's home has nothing to climb
  past that home (`ShareKeepsNavigableExactly`; `SharingCanStrand` shares a thing kept outside the homes).
- Unsharing undoes a share, level for level, exactly when every read that was already on the way led to something
  (`UnshareUndoesShareExactly`; `UnshareCanTakeMore` takes a read that led nowhere). The inheritance flags
  come back under a condition of their own (`FlagsComeBackExactly`; `FlagCanBeLost` loses one).
- The pages of a file tile it exactly when every window but the first and the last is broken by a line
  end both its neighbours can find (`TilesExactly`; `UnbrokenFileLosesBytes` pages a file without one).
- The connection bounds hold in every run exactly when the cap is at least the documented minimum
  (`CapNeedsTheMinimum`).
- In every run the pool is within its size or all in use (`SizeHolds`). But a returned session is stamped
  and not moved to the front of the list, so idle eviction can evict a fresh session to make room that was
  about to be made anyway: exactly when a session ahead of the place it stops at was past the timeout
  (`FreshGoForRoomExactly`; `FreshGoesForNothing` is a run in which that happens).
- Restoring missing collections is meant to hand over only what it created. It changes nothing else
  exactly when the nearest thing that was there, up from the collection restored to, is visible to the user
  or has their home at it or below it on the way (`OnlyCreatedAreHandedOver`; `ExistingIsHandedOver` hands
  one user another's projects, if the server lets them be made owner).
- What a request remembers stays right after it makes a collection exactly when none of the collections
  made on the way was remembered absent, and after it removes one exactly when nothing in it was remembered
  (`MadeCoherentExactly`, `RemovedCoherentExactly`; `StaleAfterMakeDir` and `StaleAfterDelete` are runs that then
  answer wrongly).
- Were the group ids to take a catalog slot, some run would fill the slots with lookups waiting for them,
  however many there are (`SlottedGroupsDeadlock`).

## Model

| member | source | states |
|---|---|---|
| Paths.AncestorsOf | internal/service/permissions.go:285-303 | the walk's list, nearest collection first |
| Paths.InAncestors | internal/service/permissions.go:285-303 | membership without the loop: exactly the proper prefixes of two or more components with no stop between them and the path |
| Permissions.ShareesOf | internal/service/permissions.go:261-275 | everyone on the access list but the structural accounts |
| Permissions.ClearAccess | internal/service/permissions.go:92-104 | the whole subtree loses every sharee, and nothing else changes |
| Permissions.GrantParentAccess | internal/service/permissions.go:108-125 | the subtree takes the parent's levels, entry by entry |
| Permissions.GrantAncestorAccess | internal/service/permissions.go:130-158 | each sharee has at least read on every collection walked, keeping write and own |
| Permissions.RemoveObsoleteAccess | internal/service/permissions.go:165-215 | read above the source goes exactly where nothing readable is left, upwards until something is |
| Permissions.RepairPermissions | internal/service/permissions.go:44-89 | the whole access state after a repair in each of the four inheritance cases, and when it fails |
| Permissions.MoveOne | internal/jobs/jobs.go:133-169 | a move is refused with nothing changed, or the tree, flags, metadata and access lists are the moved and repaired ones |
| Navigability.MoveAndRepairKeepNavigable | internal/service/permissions.go:44-158 | navigability before a move is navigability after the move and its repair, in all four cases and for renames |
| RepairOutcome.InsideExactly | internal/service/permissions.go:61-158 | in every state, what each account holds at each place of the moved subtree, by whether they are on the list of its top or of the collection it is now in |
| RepairOutcome.HiddenExactly | internal/service/permissions.go:80-104 | when only the source inherits nobody but the structural accounts sees any of it if and only if whoever saw any of it was on its top's list |
| RepairOutcome.InheritedExactlyWhen | internal/service/permissions.go:71-125 | when the destination inherits everybody holds on all of it what they hold on that collection if and only if whoever saw any of it was on its top's list or the collection's |
| RepairOutcome.UninheritedKeeps | internal/service/permissions.go:84-158 | when neither inherits, in every state, it keeps every list, and everybody on its top's can read every collection walked above it |
| RepairOutcome.RepairOutcomeInside | internal/service/permissions.go:61-158 | so from a navigable state it ends with exactly the destination's access, or none, or what it arrived with and a way to reach it |
| Cleanup.TakenExactly | internal/service/permissions.go:165-215 | in every state, for any walk: read is taken back if and only if it is read, on the walk, and all that is read from there down leads only to the source |
| Cleanup.OutsideExactly | internal/service/permissions.go:44-215 | in every state, what each account has at each place outside the moved subtree: read where the moved thing needs it, nothing where read served only the moved thing, else what it had; both walks' stops and the accounts left alone written out |
| Cleanup.StopsAreSpared | internal/service/permissions.go:173-180 | nothing at or above the homes, the trash or the acting user's own home is taken when the moved thing was below |
| Sharing.StrandedIsNotHidden | internal/service/permissions.go:92-104 | a thing shared and then moved out of an inheriting collection, of which somebody not on its list still sees a part |
| Navigability.TakenBackExactly | internal/service/permissions.go:165-215 | read on the k-th collection is taken back if and only if it and all below it on the walk were read and lead nowhere else |
| Sharing.Share | internal/service/sharing.go:51-116 | the three refusals, and otherwise the whole new access and inheritance state |
| Sharing.Unshare | internal/service/sharing.go:120-179 | the two refusals, and otherwise the whole new access and inheritance state |
| Sharing.ClearInheritWhenUnshared | internal/service/sharing.go:183-201 | inheritance is cleared below the path exactly when only structural accounts are left on it |
| ShareOutcome.ShareExactly | internal/service/sharing.go:68-113 | who holds what after a share, at each place and for each user, the walk to the home written out |
| ShareOutcome.UnshareExactly | internal/service/sharing.go:135-176 | what each user is left with at each place by an unshare, in every state |
| Sharing.ShareKeepsNavigableExactly | internal/service/sharing.go:68-113 | sharing keeps the state navigable if and only if the owner's home can itself be climbed from |
| Sharing.UnshareKeepsNavigable | internal/service/sharing.go:120-179 | taking a share back keeps the state navigable |
| Sharing.FlagsComeBackExactly | internal/service/sharing.go:89-201 | the inheritance flags are as before the share if and only if none at or below the path was set and only the owner, the service account and administrators are listed besides, or all were and somebody else is |
| Sharing.SharingCanStrand | internal/service/sharing.go:205-211 | a share outside the homes that leaves the state not navigable |
| Sharing.UnshareCanTakeMore | internal/service/sharing.go:120-179 | a share and unshare that take away a read the sharee had |
| Sharing.FlagCanBeLost | internal/service/sharing.go:183-201 | a flag set before a share and gone after the unshare |
| Sharing.UnshareUndoesShareExactly | internal/service/sharing.go:51-179 | share then unshare restores every level but a read on the home, if and only if each earlier read on the way led to something readable |
| GoPaths.WithinExactly | internal/paths/paths.go:90-93 | the string prefix test is the prefix test on components, for any two strings |
| GoPaths.SpelledOperations | internal/paths/paths.go:74-93 | on canonical absolute paths join, base, dir and containment are the operations on components |
| GoPaths.CleanIsCanonical | internal/paths/paths.go:81 | cleaning any absolute path gives the canonical spelling of exactly one path, and cleaning again changes nothing |
| GoPaths.CleanExactly | internal/paths/paths.go:81 | which path that is, component by component: empty and dot change nothing, two dots go up and stop at the root, a name goes down |
| Locks.ConflictsExactly | internal/locks/locks.go:145-154 | two paths conflict if and only if both are non-empty once trimmed and one's components are a prefix of the other's |
| Locks.PathsOf | internal/locks/locks.go:100-131 | the paths a task of each type holds, for any task data, odd values skipped |
| Locks.TextsAppend | internal/locks/locks.go:164-177 | one element of a list at a time: a string is kept, anything else skipped |
| Locks.StringsAt | internal/locks/locks.go:164-177 | the strings of a list in order, anything else skipped |
| Locks.FieldOfValues | internal/locks/locks.go:197-215 | exactly the strings under the field in some object of the map |
| Locks.LockedPaths | internal/locks/locks.go:80-97 | exactly the non-empty paths some listed task holds |
| Locks.Validate | internal/locks/locks.go:39-76 | free, undetermined, or a conflict naming in order every asked path that is taken and no other |
| Locks.RefusedInOrder | internal/locks/locks.go:64-72 | the refused paths come in the order asked, each on its own account |
| LockSafety.HeldExactly | internal/locks/locks.go:100-131 | what a recorded task of each type holds, from the request's own fields: what it moves and where that lands, a rename's ends, a delete's paths and places in the trash, a restore's paths and plans |
| LockSafety.CheckedAreHeld | internal/handlers/rename.go:208-296 | and so everything an endpoint asked about is held by the task it records |
| LockSafety.LandsUnderItsName | internal/paths/paths.go:102-108 | on canonical paths a thing lands under its own name in the destination |
| LockSafety.LandingsAreApart | internal/locks/locks.go:143-154 | in no history does what another live task holds lie in, or contain, the place a move will write to |
| LockSafety.LockedAreChecked | internal/handlers/rename.go:208-296 | everything a recorded task will hold is among the paths its endpoint asked about, for all five types |
| LockSafety.RunsAreExclusive | internal/locks/locks.go:39-76 | in no history do two live tasks hold conflicting paths |
| LockSafety.LiveTasksAreApart | internal/locks/locks.go:143-154 | what two live tasks hold never lies one inside the other in the tree |
| LockSafety.Writes.StartMove | internal/handlers/rename.go:208-249 | records a move only when nothing it will hold is taken, and keeps live tasks apart |
| LockSafety.Writes.StartRename | internal/handlers/rename.go:252-296 | the same for a rename, and renaming to the same name starts nothing |
| LockSafety.Writes.DeletePaths | internal/handlers/trash.go:120-182 | which requested paths get a trash name and what it is, and the lock check over both |
| LockSafety.Writes.StartEmptyTrash | internal/handlers/trash.go:185-222 | the lock check over the trash's contents |
| LockSafety.Writes.StartRestore | internal/handlers/trash.go:228-301 | each path is recorded with the plan made for it, after the lock check over what is restored and where it goes; nothing to restore starts nothing |
| Trash.DecimalIsInjective | internal/service/trash.go:140-141 | different numbers give different names, which is what the search's ending rests on |
| Trash.FirstFreeName | internal/service/trash.go:130-151 | ends on every catalog with the path itself if free, else the smallest free number with all smaller ones taken |
| Trash.PlanRestore | internal/service/trash.go:70-127 | which of origin and home is planned for, and the first free name there |
| Trash.PlanFindsOrigin | internal/service/trash.go:70-112 | a plan is the recorded origin, and whole, if and only if that is free and its collection absent or writable |
| RestoreOutcome.DecimalExactly | internal/service/trash.go:140-141 | the number in a name is its decimal spelling, without leading zeros |
| RestoreOutcome.UnrecordedGoesHome | internal/service/trash.go:70-112 | with no origin recorded, a plan is partial and for the user's own home, under the name the thing has in the trash or the first free number after it |
| RestoreOutcome.RecordedGoesBack | internal/service/trash.go:70-112 | with one recorded, for the collection it names under the name it had, unless that is there and the user has neither write nor own on it; then as above |
| Trash.TrashOne | internal/jobs/delete.go:119-132 | a trashed path's subtree, flags and metadata move with it and it carries its origin |
| Trash.TrashThenRestore | internal/jobs/delete.go:119-132 | moving to the trash and back is possible and restores the tree, collections, flags and all other metadata |
| RestoreOutcome.KeepsItsMetadata | internal/jobs/delete.go:119-132 | the thing itself then carries what it carried, and its origin once in place of any it carried before |
| Trash.PlanAfterTrashing | internal/service/trash.go:70-94 | what was trashed is planned back to exactly where it was if and only if its collection is still writable |
| Trash.RestoreParents | internal/jobs/trash.go:173-207 | exactly when it succeeds, which collections are created and which the user is made owner of, and what stays when the server refuses one |
| Trash.HandOver | internal/jobs/trash.go:192-205 | the walk up makes the user owner of each place it comes to, and fails exactly when it comes to one they do not own and the server refuses |
| Trash.FirstExtantAncestor | internal/jobs/trash.go:210-223 | the nearest place above that the user can see, or none |
| RestoreOutcome.FirstVisibleExactly | internal/jobs/trash.go:210-223 | that place without the loop: seen, above, and nothing seen between; or nothing above is seen |
| RestoreOutcome.CreatedAreOwned | internal/jobs/trash.go:171-207 | the user owns every collection a restore makes, but those at their home or above it |
| RestoreOutcome.ParentsExactly | internal/jobs/trash.go:173-207 | every access list after the missing collections are made, what was there before included |
| RestoreOutcome.ParentsCanBeExactly | internal/jobs/trash.go:173-207 | exactly when making and handing them over succeeds |
| Trash.OnlyCreatedAreHandedOver | internal/jobs/trash.go:173-207 | for any parent the user cannot see, access on what was there is unchanged if and only if the nearest thing there is visible to them or has their home at it or below it on the way |
| Trash.ExistingIsHandedOver | internal/jobs/trash.go:192-205 | another user's collection, there and unseen, is handed over when restored to or into, unless the server refuses |
| Trash.RestoreOne | internal/jobs/trash.go:137-164 | exactly when a restore succeeds, that it never lands on anything that was there, and its whole new tree, access lists, flags and metadata |
| TrashRounds.ThereAndBack | internal/jobs/trash.go:125-169 | trashed, planned and restored, a thing is back where it was if and only if the user could write to its collection before, with everything but access and the recorded origin as it was |
| TrashRounds.AccessAfterReturning | internal/service/permissions.go:44-158 | in every state: its collection's access if that inherits, or none if only the trash does, exactly for those who saw nothing there or whom a repair on the way reached; what it had if neither inherits; the structural accounts' always |
| TrashRounds.AccessOfListed | internal/service/permissions.go:44-158 | so for everybody, when whoever saw any of it was on its top's list, as in every navigable state |
| TrashRounds.CollectionKeepsItsAccess | internal/service/permissions.go:165-215 | in every state the collection it was in gives the structural accounts what it gave, in the trash and back; and everybody, if it inherits and the trash does not lie in it |
| TrashRounds.RestoreIntoMissing | internal/jobs/trash.go:173-223 | with its collection gone, the plan is exactly the recorded path, and the restore succeeds if and only if the server lets the user create and own what it must and the nearest thing there is a collection |
| Pools.Pool.ForUser | internal/irodsclient/pool.go:112-129 | no user is refused, and acting as the proxy account finds the admin session |
| Pools.Pool.Find | internal/irodsclient/pool.go:131-149 | the first look for a session: its entry and FileSystem, or a miss, or a closed pool |
| Pools.Pool.Install | internal/irodsclient/pool.go:151-183 | the second look: a surplus FileSystem released, or a new entry and idle eviction |
| Pools.Pool.Release | internal/irodsclient/evict.go:59-91 | the pool after a session comes back, branch by branch |
| Pools.Pool.Lease | internal/irodsclient/capacity.go:94-138 | one attempt at a lease: granted, refused, or idle sessions evicted towards it |
| Pools.Pool.Close | internal/irodsclient/evict.go:123-141 | every entry unlinked, those not held released, and waiting calls woken |
| Pools.Pool.ChargedConnections | internal/irodsclient/capacity.go:241-250 | the sum over tracked sessions, with the caller's own leases if it is not one |
| PoolRuns.RunsAreSound | internal/irodsclient/pool.go:131-183 | the invariant of the pool and its callers holds after any sequence of steps |
| PoolRuns.ReleasedOnceAndNeverWhileHeld | internal/irodsclient/evict.go:27-55 | in every run a FileSystem is released at most once, never while held, and every session's is still its entry's |
| PoolRuns.AliveExactlyWhileLinked | internal/irodsclient/evict.go:27-35 | in every run keys and list are in bijection, an entry is alive if and only if listed, and no two live ones share a user |
| PoolRuns.NothingLeaks | internal/irodsclient/evict.go:41-141 | closed, with no session out and none being built, every FileSystem ever built has been released once |
| PoolRuns.GuardsUnusedInRuns | internal/irodsclient/evict.go:66-88 | the two guards stay unused whichever session comes back in whatever run |
| PoolCapacity.CapHolds | internal/irodsclient/capacity.go:65-131 | in every run charges and open connections fit the cap, and transfers the cap less the reserve |
| PoolCapacity.CapNeedsTheMinimum | internal/irodsclient/capacity.go:25-35 | both bounds hold in every run if and only if the cap is at least the minimum |
| PoolCapacity.TransfersNeverBlockMetadata | internal/irodsclient/capacity.go:25-32 | when only transfers are charged a metadata call is admitted |
| PoolRoom.ChargedExactly | internal/irodsclient/capacity.go:241-250 | the count is the sum, over the tracked sessions in any order, of the larger of open and leased in each of their two pools |
| PoolRoom.AdmittedExactly | internal/irodsclient/capacity.go:111-118 | a call is admitted if and only if its session has a spare open connection of its kind, one more fits the cap for its kind, or nothing is counted |
| PoolRoom.LeaseAndReturn | internal/irodsclient/capacity.go:118-134 | giving a lease back undoes taking it, and signals |
| PoolRoom.WaitingReclaims | internal/irodsclient/capacity.go:138-143 | a call that has to wait evicts free sessions with connections open until theirs cover what is missing or there are none left |
| PoolRoom.NextAttemptIsGranted | internal/irodsclient/capacity.go:138-155 | in any run, with every other session free, its next attempt after the teardown is granted if and only if its own session leaves it room |
| PoolCapacity.NoSignalIsLost | internal/irodsclient/capacity.go:100-101 | a captured channel has been closed if and only if a later step freed a connection or shut the pool |
| PoolCapacity.BlockedUntilFreed | internal/irodsclient/capacity.go:138-158 | a call that had to wait still has to until such a step, or an idle connection closed by the library |
| PoolEviction.ReclaimExactly | internal/irodsclient/capacity.go:254-265 | evicts from the back exactly the free sessions with connections, stopping at the first that covers the excess |
| PoolEviction.EvictExactly | internal/irodsclient/evict.go:11-23 | which sessions idle eviction leaves, in closed form |
| PoolEviction.EvictSettles | internal/irodsclient/evict.go:11-23 | no free session past the timeout is left, and the pool is within its size or all of it in use |
| PoolEviction.FreshGoForRoomExactly | internal/irodsclient/evict.go:11-23 | evicting a session not past the timeout leaves the pool under its size if and only if one ahead of where eviction stops was past it |
| PoolIdle.SizeHolds | internal/irodsclient/evict.go:8-23 | in every run the pool is within its size or every session listed in it is in use |
| PoolIdle.FreshGoesForNothing | internal/irodsclient/evict.go:59-91 | a run in which a fresh session is evicted and the pool left under its size, since returning a session does not move it to the front |
| PoolSessions.FoundGoesToFront | internal/irodsclient/pool.go:135-141 | a found session moves to the front, stamped and held once more; the others keep their order |
| PoolSessions.BrokenIsDropped | internal/irodsclient/evict.go:66-82 | in any run a session handed back broken is found no more, and released if it was its last holder |
| PoolSessions.UnbrokenIsKept | internal/irodsclient/evict.go:59-91 | in any run one handed back well to a pool within its size is still there for its user |
| Jobs.Post | internal/worker/progress.go:172-212 | a status is tried at least once and within its budget, stops at the first success, and stops short only when its context is over |
| Jobs.NothingAfterTheEnd | internal/worker/worker.go:194-242 | in every run no status follows the first terminal attempt, none follows a successful one, nothing follows the notice |
| Jobs.NeverSendsOnClosed | internal/worker/progress.go:39-75 | in every run no progress call sends on the closed channel |
| Jobs.ProgressIsFaithful | internal/worker/progress.go:39-153 | what is posted is an in-order part of what was reported, and all that was buffered if the flush did not time out |
| Jobs.FinishedMeansTried | internal/worker/progress.go:172-212 | a finished job made between one and a hundred terminal attempts, at most one successful, all saying how it ended |
| JobOutcome.HowItEndedIsRecorded | internal/worker/worker.go:187-240 | in every run each terminal status and notice says failed if and only if the work was taken to return an error or the task could not be read, by the moves themselves |
| JobOutcome.GivesUpLate | internal/worker/progress.go:172-200 | in every run a job without a recorded end made a hundred tries or met its deadline |
| JobOutcome.EarlyReportsAreKept | internal/worker/progress.go:45-75 | in every run a job's first sixty-four reports are all buffered |
| JobOutcome.TriedThreeTimes | internal/worker/progress.go:172-212 | in every run an update posted took one successful try and at most two failed ones, and one given up on three failed ones unless cut short |
| JobOutcome.StartsLate | internal/worker/worker.go:197-200 | in every run a job goes on once it is recorded as started, and without that only after three tries or a shutdown |
| JobOutcome.StartedAndAlive | internal/worker/progress.go:133-166 | in every run one to three tries at recording the start, and a heartbeat for each tick that found the stream open and the job not silent too long |
| Jobs.NeverStuck | internal/worker/progress.go:69-100 | whatever its goroutines are doing, a job that is not finished has a step to take |
| Jobs.EndComesNearer | internal/worker/progress.go:69-153 | every step but a new progress call and a tick brings the job's end nearer, and those put it off by a fixed amount |
| Jobs.RunsAreBounded | internal/worker/worker.go:194-242 | in every run the other steps number at most a constant and what the calls and ticks bring |
| Runners.ShutdownMeansDone | internal/worker/worker.go:269-288 | a shutdown that returned without error leaves every accepted job finished, recorded and announced |
| Runners.StoppingIsForGood | internal/worker/worker.go:161-168 | once stopping is set nothing is accepted in the rest of the run |
| Runners.DoneIsForGood | internal/worker/worker.go:269-288 | and after such a shutdown nothing more is posted for any job |
| Slots.NoDeadlock | internal/rods/scope.go:286-298 | with at least one slot, some unfinished lookup can always move, in every run |
| Slots.StepsBringTheEnd | internal/lazy/lazy.go:23-46 | every step but a dispatch decreases a measure |
| Slots.SlottedGroupsDeadlock | internal/rods/scope.go:286-288 | if group ids took a slot, for any number of slots some run reaches a state where nothing can start or finish |
| LookupCache.Scope.Item | internal/rods/viewitem.go:13-50 | a path's row is what asking the catalog would say, however it was come by |
| LookupCache.Scope.Stat | internal/rods/viewitem.go:55-69 | the same for a stat |
| LookupCache.SlashesDoNotMatter | internal/rods/scope.go:302-307 | what is asked about a path does not depend on trailing slashes, and the root is asked about as it is |
| LookupCache.Scope.Stats | internal/rods/viewitem.go:72-113 | exactly the asked paths that are there, with what is remembered still right |
| LookupCache.Scope.RecordAbsent | internal/rods/scope.go:320-334 | every path asked for and not found is remembered as absent, and nothing remembered changes |
| LookupCache.Scope.Write | internal/rods/write.go:232-240 | after a write that changes one path everything remembered is still right |
| LookupCache.Scope.MakeDir | internal/rods/write.go:58-72 | a collection and what is missing above it are created, and only the collection is forgotten |
| LookupCache.Scope.Delete | internal/rods/write.go:201-240 | a path and what is in it are gone, only the path is forgotten, and when what is left is right |
| LookupCache.AboveExactly | internal/rods/write.go:58-72 | what may be missing above a canonical path is exactly the collections it lies in, short of the root |
| LookupCache.MadeCoherentExactly | internal/rods/write.go:58-72 | what is remembered stays right if and only if no collection that had to be created above was remembered absent |
| LookupCache.RemovedCoherentExactly | internal/rods/write.go:201-225 | what is remembered stays right if and only if nothing inside what was removed is remembered |
| LookupCache.StaleAfterMakeDir | internal/rods/write.go:58-72 | a run: a path asked about, then created on the way to another, is still answered missing |
| LookupCache.StaleAfterDelete | internal/rods/write.go:201-225 | a run: a file asked about, then removed with its collection, is still answered with its row |
| Utf8.DecodeChunk | internal/service/chunks.go:15-43 | the scanning loops compute the span the next row characterises |
| Utf8.DecodedExactly | internal/service/chunks.go:15-65 | of any bytes at all: which of at most three are dropped at each end |
| Utf8.DecodesWholeCharacters | internal/service/chunks.go:15-65 | of any window of a well-formed file, exactly the longest run of whole characters, at most three bytes short at each end |
| Utf8.AsciiDecodesToItself | internal/service/chunks.go:15-43 | ASCII is untouched |
| Tabular.PageArithmetic | internal/service/chunks.go:86-117 | the page count and offsets, for every size and file, are the quotient and products the service computes |
| Tabular.Read | internal/handlers/chunks.go:325-341 | a span clamped to the file, or a refusal of a negative one |
| Tabular.TrimToWholeLines | internal/service/chunks.go:121-162 | the whole lines of a page's window |
| Tabular.LineStartExactly | internal/service/chunks.go:148-162 | just after the last line end up to the position, one in the first byte not counting |
| Tabular.TabularChunk | internal/handlers/chunks.go:277-321 | a page's text, one page past the last allowed, anything beyond refused |
| Tabular.PagesMeetExactly | internal/service/chunks.go:86-162 | neighbouring pages meet if and only if the window between them is broken, the first two always |
| Tabular.TilesExactly | internal/service/chunks.go:86-162 | the pages tile the file if and only if every window but the first and last is broken |
| Tabular.UnbrokenFileLosesBytes | internal/service/chunks.go:119-162 | a three-page file without a line end loses its first page's bytes |
| Tabular.TilingPagesGiveTheFile | internal/service/chunks.go:86-162 | pages that tile an ASCII file give it back byte for byte |
| Tabular.PageBegins | internal/service/chunks.go:119-162 | in a tiled file a page starts at the beginning or just after a line end |
| Tabular.PagePastTheLastIsEmpty | internal/service/chunks.go:119-144 | the page one past the last is empty, whatever the file holds |
| Xml.Elem | internal/metadatafiles/xml.go:31-41 | the element with its absent children left out, in order; from legal names and built children, a tree the parser theorems speak of |
| Xml.Text | internal/metadatafiles/xml.go:45-47 | the same of a text element, for any text |
| Xml.Writer.WriteElement | internal/metadatafiles/xml.go:78-100 | appends exactly the rendering of the element |
| Xml.TextHoldsNoMarkup | internal/metadatafiles/xml.go:105-119 | escaped text holds no raw angle bracket |
| Xml.ValueHoldsNoMarkup | internal/metadatafiles/xml.go:113-120 | an escaped value no quotation mark either |
| Xml.EscapedStaysPlain | internal/metadatafiles/xml.go:103-120 | and each is unchanged if and only if it held nothing to escape |
| XmlParser.DocumentSpelledOut | internal/metadatafiles/xml.go:54-100 | one document to the byte: nothing indented or spaced, and what closes itself |
| XmlParser.RenderReadsBack | internal/metadatafiles/xml.go:54-120 | a reference parser recovers exactly the tree from its rendering |
| XmlParser.RenderIsInjective | internal/metadatafiles/xml.go:54-120 | so different trees are rendered differently |

## Left out

- PoolCapacity.CapHolds: takes the count of open connections and the admission as one step, and connections as dialled only up to what is leased; the code counts outside its lock, so the cap does not follow for stale counts or for calls that dial after their lease is back.
- PoolCapacity.BlockedUntilFreed: says nothing of how long a wait lasts; timers and the poll interval are steps that may come at any time.
- LockSafety.RunsAreExclusive: takes each check and the recording it allows as one step; the code says the check is advisory, and two requests that both check before either records can overlap.
- Locks.LockedPaths: returns a set, where the code sorts the list; nothing downstream depends on the order.
- Trash.OnlyCreatedAreHandedOver: reads what the user sees straight from the store, where the job may read a remembered absence of a collection it has just made; the only effect there is to set an owner that is already the owner.
- Permissions.MoveOne: leaves out the check of path lengths that comes before the move.
- Trash.RestoreOne: is about one path of a request; a job repeats it over its list. Whether the server lets the user create a collection, what access a new one starts with, and which places it does not let them own, are parameters.
- Trash.PlanRestore: reads a recorded origin as its cleaned components, and takes the service account to see everything.
- Tabular.TabularChunk: ends with the page's text; splitting it into rows rests on a CSV library that is not part of this model.
- Tabular.TilingPagesGiveTheFile: is for ASCII files; in others trimming a partial first character shifts where a page starts.
- LookupCache.Scope.Stat: is for one request's lookups taken in turn; lookups in flight across a write, child counts and remembered access lists are not in the model, nor are moves of whole collections through the same request.
- Jobs.ProgressIsFaithful: follows each update to its first attempt and to its success or loss; what a status says of when it was reported is not modelled.
- Access through groups, tickets, and entries for users of other zones: access lists are by user name.
- Sharing a home collection itself: the walk then never meets its stop and also grants on the collection above; the theorems are for paths strictly below a home.
- What makes a session's call fail: poisoning a session is a step that may come at any time, so the pool's theorems hold whatever the reason.
- Random trash suffixes are parameters, so that they differ is not claimed; ticket removal and outright deletion of what is already in the trash are not in the model.
- Errors of the store other than a missing path, and a job stopped between two paths.
- The order in which the catalog lists an access list or a collection is any order; loops over them are proved for all.
- Pool entries are numbered records rather than shared pointers; the aliasing that leaves out is the map from a key to its list element, which the invariant ties to the list.
- Rolling up reports of calls that waited, the health probe, and the sweeper's timer.
- 64-bit overflow of sizes and page products.
- HTTP routing, JSON shapes, SQL, the iRODS client library and the other services' clients: only what they promise appears, as parameters or steps.
- Attribute-value normalisation in XML: the reference parser reads attribute values as written.
