/**
 * One sync cycle: refresh the projects, then rebuild the merge-request
 * table from the three listings (assigned, authored, reviewing). The
 * listings are taken as already fetched; every store write may fail, and a
 * failure is logged and never stops the steps after it.
 */
module Sync {
  import opened GitLab
  import opened Store

  /** The store operations a cycle issues, in order. */
  datatype Step =
    | WriteProjects(count: nat)
    | ClearMergeRequestTable
    | WriteMergeRequests(role: string, count: nat)

  /** What the forge returned in this cycle. */
  datatype Fetched = Fetched(
    projects: seq<Project>,
    assignedMRs: seq<MergeRequest>,
    authoredMRs: seq<MergeRequest>,
    reviewingMRs: seq<MergeRequest>)

  /** Where each store write of the cycle fails, if it does. */
  datatype Faults = Faults(
    projectsWrite: WriteFault,
    clearFails: bool,
    assignedWrite: WriteFault,
    authoredWrite: WriteFault,
    reviewingWrite: WriteFault)

  const NoFaults: Faults := Faults(NoFault, false, NoFault, NoFault, NoFault)

  const AssignedRole: string := "assigned"
  const AuthoredRole: string := "authored"
  const ReviewingRole: string := "reviewing"

  /** The operations of a cycle with a client: the failures of earlier ones do not change it. */
  function PlannedSteps(userID: int, f: Fetched): seq<Step> {
    (if |f.projects| > 0 then [WriteProjects(|f.projects|)] else [])
    + [ClearMergeRequestTable]
    + (if |f.assignedMRs| > 0 then [WriteMergeRequests(AssignedRole, |f.assignedMRs|)] else [])
    + (if |f.authoredMRs| > 0 then [WriteMergeRequests(AuthoredRole, |f.authoredMRs|)] else [])
    + (if userID > 0 && |f.reviewingMRs| > 0 then [WriteMergeRequests(ReviewingRole, |f.reviewingMRs|)] else [])
  }

  /** A merge-request batch as the cycle applies it: skipped when empty, rolled back on a fault. */
  function ApplyBatch(m: map<int, MergeRequestRow>, batch: seq<MergeRequest>, role: string, fault: WriteFault)
    : map<int, MergeRequestRow>
  {
    if |batch| > 0 && !fault.Aborts(|batch|) then Upsert(m, MergeRequestEntries(batch, role)) else m
  }

  /** The projects table after a cycle. */
  function ProjectsAfterSync(m: map<int, ProjectRow>, f: Fetched, faults: Faults): map<int, ProjectRow> {
    if |f.projects| > 0 && !faults.projectsWrite.Aborts(|f.projects|) then Upsert(m, ProjectEntries(f.projects)) else m
  }

  /** The merge-request table after a cycle. */
  function MergeRequestsAfterSync(m: map<int, MergeRequestRow>, userID: int, f: Fetched, faults: Faults)
    : map<int, MergeRequestRow>
  {
    var cleared := if faults.clearFails then m else map[];
    var withAssigned := ApplyBatch(cleared, f.assignedMRs, AssignedRole, faults.assignedWrite);
    var withAuthored := ApplyBatch(withAssigned, f.authoredMRs, AuthoredRole, faults.authoredWrite);
    if userID > 0 then ApplyBatch(withAuthored, f.reviewingMRs, ReviewingRole, faults.reviewingWrite) else withAuthored
  }

  /** The sync cycle; `hasClient` is false when no access token was configured. */
  method SyncAll(store: Store, hasClient: bool, userID: int, f: Fetched, faults: Faults)
    returns (steps: seq<Step>)
    requires store.Valid()
    modifies store
    ensures store.Valid()
    ensures !hasClient ==> steps == [] && store.projects == old(store.projects)
                           && store.mergeRequests == old(store.mergeRequests)
    ensures hasClient ==> steps == PlannedSteps(userID, f)
    ensures hasClient ==> store.projects == ProjectsAfterSync(old(store.projects), f, faults)
    ensures hasClient ==> store.mergeRequests == MergeRequestsAfterSync(old(store.mergeRequests), userID, f, faults)
  {
    steps := [];
    if !hasClient {
      return;
    }
    var projectSteps: seq<Step> := [];
    if |f.projects| > 0 {
      var _ := store.UpsertProjects(f.projects, faults.projectsWrite);
      projectSteps := [WriteProjects(|f.projects|)];
    }
    var _ := store.ClearMergeRequests(faults.clearFails);
    var assignedSteps := WriteBatch(store, f.assignedMRs, AssignedRole, faults.assignedWrite);
    var authoredSteps := WriteBatch(store, f.authoredMRs, AuthoredRole, faults.authoredWrite);
    var reviewingSteps: seq<Step> := [];
    if userID > 0 {
      reviewingSteps := WriteBatch(store, f.reviewingMRs, ReviewingRole, faults.reviewingWrite);
    }
    steps := projectSteps + [ClearMergeRequestTable] + assignedSteps + authoredSteps + reviewingSteps;
  }

  /** One merge-request listing written under its role, unless it is empty. */
  method WriteBatch(store: Store, batch: seq<MergeRequest>, role: string, fault: WriteFault)
    returns (steps: seq<Step>)
    requires store.Valid()
    modifies store
    ensures store.Valid()
    ensures steps == if |batch| > 0 then [WriteMergeRequests(role, |batch|)] else []
    ensures store.mergeRequests == ApplyBatch(old(store.mergeRequests), batch, role, fault)
    ensures store.projects == old(store.projects)
  {
    steps := [];
    if |batch| > 0 {
      var _ := store.UpsertMergeRequests(batch, role, fault);
      steps := [WriteMergeRequests(role, |batch|)];
    }
  }

  /**
   * The clear comes after the project write and before every merge-request
   * write, and the merge-request writes come in the order assigned,
   * authored, reviewing, the last only for a known user.
   */
  lemma StepOrder(userID: int, f: Fetched)
    ensures var s := PlannedSteps(userID, f);
            var c := if |f.projects| > 0 then 1 else 0;
            && c < |s| && s[c] == ClearMergeRequestTable
            && (forall i :: 0 <= i < c ==> s[i].WriteProjects?)
            && (forall i :: c < i < |s| ==> s[i].WriteMergeRequests?)
            && (forall i, j :: c < i < j < |s| ==> RoleRank(s[i].role) < RoleRank(s[j].role))
            && (userID <= 0 ==> forall i :: 0 <= i < |s| && s[i].WriteMergeRequests? ==> s[i].role != ReviewingRole)
  {
  }

  function RoleRank(role: string): int {
    if role == AssignedRole then 0 else if role == AuthoredRole then 1 else 2
  }

  /** A cycle never deletes a project, whatever fails. */
  lemma ProjectsNeverDeleted(m: map<int, ProjectRow>, f: Fetched, faults: Faults)
    ensures m.Keys <= ProjectsAfterSync(m, f, faults).Keys
  {
    UpsertKeepsKeys(m, ProjectEntries(f.projects));
  }

  /** The role the cycle gives a merge request: that of the last listing that holds it. */
  function RoleOf(userID: int, f: Fetched, id: int): string {
    if userID > 0 && HasId(f.reviewingMRs, id) then ReviewingRole
    else if HasId(f.authoredMRs, id) then AuthoredRole
    else AssignedRole
  }

  /**
   * When every write succeeds, the merge-request table holds exactly the ids
   * of the three listings (the reviewing one only for a known user), and an
   * id listed more than once carries the role of the last listing holding it.
   */
  lemma SyncedMergeRequests(m: map<int, MergeRequestRow>, userID: int, f: Fetched)
    ensures var r := MergeRequestsAfterSync(m, userID, f, NoFaults);
            && (forall id :: id in r <==>
                  HasId(f.assignedMRs, id) || HasId(f.authoredMRs, id) || (userID > 0 && HasId(f.reviewingMRs, id)))
            && (forall id :: id in r ==> r[id].role == RoleOf(userID, f, id))
  {
    var empty: map<int, MergeRequestRow> := map[];
    var m1 := ApplyBatch(empty, f.assignedMRs, AssignedRole, NoFault);
    var m2 := ApplyBatch(m1, f.authoredMRs, AuthoredRole, NoFault);
    MergeRequestBatchEffect(empty, f.assignedMRs, AssignedRole);
    MergeRequestBatchEffect(m1, f.authoredMRs, AuthoredRole);
    if |f.assignedMRs| == 0 {
      assert forall id :: !HasId(f.assignedMRs, id);
    }
    if |f.authoredMRs| == 0 {
      assert forall id :: !HasId(f.authoredMRs, id);
    }
    if userID > 0 {
      MergeRequestBatchEffect(m2, f.reviewingMRs, ReviewingRole);
      if |f.reviewingMRs| == 0 {
        assert forall id :: !HasId(f.reviewingMRs, id);
      }
    }
  }
}
