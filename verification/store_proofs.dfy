/** What the store operations promise beyond a single call: the invariant they keep,
    the operations that undo or repeat themselves, and the order deletion keeps. */
module ProjectStoreProofs {
  import opened Types
  import opened Progress
  import opened SubtaskLists
  import opened ProjectStore

  /** The sample store the provider starts from already satisfies the invariant. */
  lemma InitialProjectsValid()
    ensures Valid(InitialProjects)
  {
    var s0 := InitialProjects[0].subtasks;
    var s1 := InitialProjects[1].subtasks;
    assert CompletedCount(s0) == 1 by {
      assert s0 == (s0[..1] + [s0[1]]) + s0[2..];
      CountAroundOne(s0[..1], s0[1], s0[2..]);
      assert s0[2..] == [s0[2]] + [s0[3]];
      CountConcat([s0[2]], [s0[3]]);
      assert [s0[1]][..0] == [];
    }
    assert CalculateProgress(s0) == 25;
    assert CompletedCount(s1) == 1 by {
      assert s1[..1][..0] == [];
    }
    assert CalculateProgress(s1) == 50;
  }

  /** Adding a project under a fresh id keeps the invariant. */
  lemma AddProjectKeepsValid(ps: seq<Project>, id: int, goal: string, date: string)
    requires Valid(ps) && Fresh(ps, id)
    ensures Valid(AddProject(ps, id, goal, date))
  {
    var r := AddProject(ps, id, goal, date);
    assert CompletedCount(r[0].subtasks) == 0;
    forall k | 0 <= k < |r|
      ensures InSync(r[k])
    {
      if k > 0 {
        assert r[k] == ps[k - 1];
      }
    }
  }

  /** Toggling a subtask of a project that is still open keeps the invariant. */
  lemma ToggleSubtaskKeepsValid(ps: seq<Project>, id: int, i: nat)
    requires Valid(ps) && IndexInRange(ps, id, i) && OpenTarget(ps, id)
    ensures Valid(ToggleSubtask(ps, id, i))
  {
    var r := ToggleSubtask(ps, id, i);
    assert forall k :: 0 <= k < |r| ==> r[k].id == ps[k].id;
  }

  /** Toggling the same subtask twice restores the subtask list; the progress is the
      one computed from that list. */
  lemma ToggleTwiceRestoresSubtasks(ps: seq<Project>, id: int, i: nat)
    requires IndexInRange(ps, id, i)
    ensures IndexInRange(ToggleSubtask(ps, id, i), id, i)
    ensures OthersUnchanged(ps, ToggleSubtask(ToggleSubtask(ps, id, i), id, i), id)
    ensures forall k :: 0 <= k < |ps| && ps[k].id == id ==>
      var q := ToggleSubtask(ToggleSubtask(ps, id, i), id, i)[k];
      && SameHeader(q, ps[k])
      && q.subtasks == ps[k].subtasks
      && q.progress == CalculateProgress(ps[k].subtasks)
  {
    var r1 := ToggleSubtask(ps, id, i);
    var r2 := ToggleSubtask(r1, id, i);
    forall k | 0 <= k < |ps| && ps[k].id == id
      ensures r2[k].subtasks == ps[k].subtasks
    {
      assert r1[k].id == id;
      assert |r2[k].subtasks| == |ps[k].subtasks|;
      assert forall j :: 0 <= j < |ps[k].subtasks| ==> r2[k].subtasks[j] == ps[k].subtasks[j];
    }
  }

  /** On a valid store whose targeted projects are open, a double toggle changes nothing. */
  lemma ToggleTwiceIsIdentity(ps: seq<Project>, id: int, i: nat)
    requires Valid(ps) && IndexInRange(ps, id, i) && OpenTarget(ps, id)
    ensures IndexInRange(ToggleSubtask(ps, id, i), id, i)
    ensures ToggleSubtask(ToggleSubtask(ps, id, i), id, i) == ps
  {
    ToggleTwiceRestoresSubtasks(ps, id, i);
    var r2 := ToggleSubtask(ToggleSubtask(ps, id, i), id, i);
    forall k | 0 <= k < |ps|
      ensures r2[k] == ps[k]
    {
      if ps[k].id == id {
        assert InSync(ps[k]);
      }
    }
  }

  /** Starting work twice is starting it once. */
  lemma StartWorkIdempotent(ps: seq<Project>, id: int)
    ensures StartWork(StartWork(ps, id), id) == StartWork(ps, id)
  {
    var r1 := StartWork(ps, id);
    var r2 := StartWork(r1, id);
    forall k | 0 <= k < |ps|
      ensures r2[k] == r1[k]
    {
      assert r1[k].id == ps[k].id;
    }
  }

  /** Starting work keeps the invariant. */
  lemma StartWorkKeepsValid(ps: seq<Project>, id: int)
    requires Valid(ps)
    ensures Valid(StartWork(ps, id))
  {
    var r := StartWork(ps, id);
    assert forall k :: 0 <= k < |r| ==> r[k].id == ps[k].id;
  }

  /** Completing twice is completing once. */
  lemma CompleteProjectIdempotent(ps: seq<Project>, id: int)
    ensures CompleteProject(CompleteProject(ps, id), id) == CompleteProject(ps, id)
  {
    var r1 := CompleteProject(ps, id);
    var r2 := CompleteProject(r1, id);
    forall k | 0 <= k < |ps|
      ensures r2[k] == r1[k]
    {
      if ps[k].id == id {
        assert r2[k].subtasks == r1[k].subtasks;
      }
    }
  }

  /** Completing keeps the invariant, whatever state the project was in. */
  lemma CompleteProjectKeepsValid(ps: seq<Project>, id: int)
    requires Valid(ps)
    ensures Valid(CompleteProject(ps, id))
  {
    var r := CompleteProject(ps, id);
    assert forall k :: 0 <= k < |r| ==> r[k].id == ps[k].id;
  }

  /** Renaming a subtask keeps the invariant, completed project or not. */
  lemma UpdateSubtaskKeepsValid(ps: seq<Project>, id: int, i: nat, title: string)
    requires Valid(ps) && IndexInRange(ps, id, i)
    ensures Valid(UpdateSubtask(ps, id, i, title))
  {
    var r := UpdateSubtask(ps, id, i, title);
    forall k | 0 <= k < |r|
      ensures r[k].id == ps[k].id && InSync(r[k])
    {
      if ps[k].id == id {
        SameFlagsSameCount(r[k].subtasks, ps[k].subtasks);
        assert InSync(ps[k]);
      }
    }
  }

  /** Appending a blank subtask to a project whose progress matches its subtasks never
      raises that progress. */
  lemma AddSubtaskNeverRaisesProgress(ps: seq<Project>, id: int)
    requires forall k :: 0 <= k < |ps| && ps[k].id == id ==> ps[k].progress == CalculateProgress(ps[k].subtasks)
    ensures forall k :: 0 <= k < |ps| && ps[k].id == id ==> AddSubtask(ps, id)[k].progress <= ps[k].progress
  {
    forall k | 0 <= k < |ps| && ps[k].id == id
      ensures AddSubtask(ps, id)[k].progress <= ps[k].progress
    {
      AppendUncheckedNeverRaises(ps[k].subtasks, Blank);
    }
  }

  /** The same bound for every project of a valid store, completed ones included: a
      completed project sits at 100, which no recomputed progress exceeds. */
  lemma ValidAddSubtaskNeverRaisesProgress(ps: seq<Project>, id: int)
    requires Valid(ps)
    ensures forall k :: 0 <= k < |ps| && ps[k].id == id ==> AddSubtask(ps, id)[k].progress <= ps[k].progress
  {
    forall k | 0 <= k < |ps| && ps[k].id == id
      ensures AddSubtask(ps, id)[k].progress <= ps[k].progress
    {
      assert InSync(ps[k]);
      AppendUncheckedNeverRaises(ps[k].subtasks, Blank);
    }
  }

  /** Appending a subtask to an open project keeps the invariant. */
  lemma AddSubtaskKeepsValid(ps: seq<Project>, id: int)
    requires Valid(ps) && OpenTarget(ps, id)
    ensures Valid(AddSubtask(ps, id))
  {
    var r := AddSubtask(ps, id);
    assert forall k :: 0 <= k < |r| ==> r[k].id == ps[k].id;
  }

  /** Removing a subtask keeps the invariant unless it empties a completed project: a
      completed project whose remaining subtasks are all checked recomputes to 100. */
  lemma DeleteSubtaskKeepsValid(ps: seq<Project>, id: int, i: int)
    requires Valid(ps) && KeepsCompletedNonEmpty(ps, id, i)
    ensures Valid(DeleteSubtask(ps, id, i))
  {
    var r := DeleteSubtask(ps, id, i);
    assert forall k :: 0 <= k < |r| ==> r[k].id == ps[k].id;
    forall k | 0 <= k < |r|
      ensures InSync(r[k])
    {
      if ps[k].id == id {
        assert InSync(ps[k]);
        if ps[k].isCompleted {
          assert CompletedCount(r[k].subtasks) == |r[k].subtasks|;
        }
      }
    }
  }

  /** Once the last subtask is deleted its index is out of range, so deleting at that
      index again keeps every subtask list as it is. */
  lemma DeleteLastAgainKeepsSubtasks(ps: seq<Project>, id: int, i: int)
    requires forall k :: 0 <= k < |ps| && ps[k].id == id ==> i == |ps[k].subtasks| - 1
    ensures forall k :: 0 <= k < |ps| ==>
      DeleteSubtask(DeleteSubtask(ps, id, i), id, i)[k].subtasks == DeleteSubtask(ps, id, i)[k].subtasks
    ensures DeleteSubtask(DeleteSubtask(ps, id, i), id, i) == DeleteSubtask(ps, id, i)
  {
    var r1 := DeleteSubtask(ps, id, i);
    forall k | 0 <= k < |ps|
      ensures DeleteSubtask(r1, id, i)[k].subtasks == r1[k].subtasks
    {
      if ps[k].id == id {
        assert r1[k].id == id;
        assert !(0 <= i < |r1[k].subtasks|);
      }
    }
  }

  /** Deleting a project twice is deleting it once. */
  lemma {:induction false} DeleteProjectIdempotent(ps: seq<Project>, id: int)
    ensures DeleteProject(DeleteProject(ps, id), id) == DeleteProject(ps, id)
  {
    var r := DeleteProject(ps, id);
    assert Fresh(r, id) by {
      forall k | 0 <= k < |r|
        ensures r[k].id != id
      {
        assert r[k] in r;
      }
    }
  }

  /** Deletion works piecewise: the survivors of a concatenation are the survivors of
      each part, in order. */
  lemma {:induction false} DeleteProjectDistributes(a: seq<Project>, b: seq<Project>, id: int)
    ensures DeleteProject(a + b, id) == DeleteProject(a, id) + DeleteProject(b, id)
    decreases |a|
  {
    if |a| == 0 {
      assert a + b == b;
    } else {
      assert (a + b)[1..] == a[1..] + b;
      DeleteProjectDistributes(a[1..], b, id);
    }
  }

  /** With unique ids, deleting a present id removes exactly that one position. */
  lemma DeleteProjectRemovesOne(ps: seq<Project>, id: int, j: nat)
    requires UniqueIds(ps) && j < |ps| && ps[j].id == id
    ensures DeleteProject(ps, id) == ps[..j] + ps[j + 1..]
  {
    var front, x, back := ps[..j], ps[j], ps[j + 1..];
    assert Fresh(front, id) by {
      forall k | 0 <= k < |front|
        ensures front[k].id != id
      {
        assert front[k] == ps[k];
      }
    }
    assert Fresh(back, id) by {
      forall k | 0 <= k < |back|
        ensures back[k].id != id
      {
        assert back[k] == ps[j + 1 + k];
      }
    }
    assert DeleteProject([x], id) == [] by {
      assert [x][1..] == [];
    }
    assert ps == front + ([x] + back);
    DeleteProjectDistributes(front, [x] + back, id);
    DeleteProjectDistributes([x], back, id);
  }

  /** Taking one project out of a valid store leaves a valid store. */
  lemma RemoveAtKeepsValid(ps: seq<Project>, j: nat)
    requires Valid(ps) && j < |ps|
    ensures Valid(ps[..j] + ps[j + 1..])
  {
    var r := ps[..j] + ps[j + 1..];
    assert forall k :: 0 <= k < |r| ==> r[k] == ps[if k < j then k else k + 1];
  }

  /** Deleting a project keeps the invariant. */
  lemma DeleteProjectKeepsValid(ps: seq<Project>, id: int)
    requires Valid(ps)
    ensures Valid(DeleteProject(ps, id))
  {
    if j :| 0 <= j < |ps| && ps[j].id == id {
      DeleteProjectRemovesOne(ps, id, j);
      RemoveAtKeepsValid(ps, j);
    }
  }

  /** The store does not protect a completed project: appending a subtask to one always
      leaves an unchecked subtask on a completed project, breaking the invariant. */
  lemma AddSubtaskBreaksCompleted(ps: seq<Project>, id: int, k: nat)
    requires k < |ps| && ps[k].id == id && ps[k].isCompleted
    ensures !Valid(AddSubtask(ps, id))
  {
    var r := AddSubtask(ps, id);
    var n := |ps[k].subtasks|;
    assert r[k].isCompleted && !r[k].subtasks[n].completed;
    assert !InSync(r[k]);
  }

  /** Likewise, removing the last remaining subtask of a completed project recomputes its
      progress over the empty list, to 0, breaking the invariant. */
  lemma DeleteSubtaskBreaksEmptiedCompleted(ps: seq<Project>, id: int, k: nat, i: int)
    requires k < |ps| && ps[k].id == id && ps[k].isCompleted
    requires |ps[k].subtasks| == 0 || (|ps[k].subtasks| == 1 && i == 0)
    ensures !Valid(DeleteSubtask(ps, id, i))
  {
    var r := DeleteSubtask(ps, id, i);
    assert |r[k].subtasks| == 0;
    assert r[k].progress == 0;
    assert !InSync(r[k]);
  }

  /** Every call the view can make, under its guard, keeps the store invariant. */
  lemma ApplyKeepsValid(ps: seq<Project>, a: Action)
    requires Valid(ps) && Allowed(ps, a) && Guarded(ps, a)
    ensures Valid(Apply(ps, a))
  {
    match a
    case AddProjectCall(newId, goal, date) => AddProjectKeepsValid(ps, newId, goal, date);
    case ToggleSubtaskCall(id, i) => ToggleSubtaskKeepsValid(ps, id, i);
    case StartWorkCall(id) => StartWorkKeepsValid(ps, id);
    case CompleteProjectCall(id) => CompleteProjectKeepsValid(ps, id);
    case UpdateSubtaskCall(id, i, title) => UpdateSubtaskKeepsValid(ps, id, i, title);
    case AddSubtaskCall(id) => AddSubtaskKeepsValid(ps, id);
    case DeleteSubtaskCall(id, i) => DeleteSubtaskKeepsValid(ps, id, i);
    case DeleteProjectCall(id) => DeleteProjectKeepsValid(ps, id);
  }

  /** Whatever the call, a project that keeps its id keeps its lifecycle flags set:
      neither started nor completed is ever undone. */
  lemma ApplyNeverClearsFlags(ps: seq<Project>, a: Action)
    requires Valid(ps) && Allowed(ps, a) && Guarded(ps, a)
    ensures forall k, j :: 0 <= k < |ps| && 0 <= j < |Apply(ps, a)| && ps[k].id == Apply(ps, a)[j].id ==>
      && (ps[k].isStarted ==> Apply(ps, a)[j].isStarted)
      && (ps[k].isCompleted ==> Apply(ps, a)[j].isCompleted)
  {
    var r := Apply(ps, a);
    forall k, j | 0 <= k < |ps| && 0 <= j < |r| && ps[k].id == r[j].id
      ensures ps[k].isStarted ==> r[j].isStarted
      ensures ps[k].isCompleted ==> r[j].isCompleted
    {
      match a
      case AddProjectCall(newId, goal, date) =>
        assert j != 0;
        assert r[j] == ps[j - 1];
      case DeleteProjectCall(id) =>
        assert r[j] in r;
        var m :| 0 <= m < |ps| && ps[m] == r[j];
        assert m == k;
      case _ =>
        assert r[j].id == ps[j].id;
        assert j == k;
    }
  }

  /** The worked example: a new project's first toggle shows 33%, the second 67%, and
      completing shows 100% with all three subtasks checked. */
  lemma LaunchScenario(id: int, date: string)
    ensures
      var p0 := AddProject([], id, "Launch site", date);
      var p1 := ToggleSubtask(p0, id, 0);
      var p2 := ToggleSubtask(p1, id, 1);
      var p3 := CompleteProject(p2, id);
      && |p0| == 1 && p0[0].title == "Launch site" && p0[0].progress == 0
      && p1[0].progress == 33 && p2[0].progress == 67
      && p3[0].progress == 100
      && forall j :: 0 <= j < |p3[0].subtasks| ==> p3[0].subtasks[j].completed
  {
    var p0 := AddProject([], id, "Launch site", date);
    var p1 := ToggleSubtask(p0, id, 0);
    var p2 := ToggleSubtask(p1, id, 1);
    FlipShiftsCount(p0[0].subtasks, 0);
    FlipShiftsCount(p1[0].subtasks, 1);
    assert CompletedCount(p0[0].subtasks) == 0;
    assert CalculateProgress(p1[0].subtasks) == RoundPercent(1, 3);
    assert CalculateProgress(p2[0].subtasks) == RoundPercent(2, 3);
  }

  /** The second worked example: a blank subtask added to an open project whose two
      subtasks are both checked brings it from 100% to 67%. */
  lemma AddToFinishedPairScenario(p: Project)
    requires |p.subtasks| == 2 && p.subtasks[0].completed && p.subtasks[1].completed
    ensures CalculateProgress(p.subtasks) == 100
    ensures AddSubtask([p], p.id)[0].progress == 67
  {
    AppendUncheckedNeverRaises(p.subtasks, Blank);
    assert CompletedCount(p.subtasks + [Blank]) == 2;
    assert CalculateProgress(p.subtasks + [Blank]) == RoundPercent(2, 3);
  }

  /** Removing one of two checked subtasks from a completed project leaves it at 100%
      and the store valid: a removal on a completed project need not break the invariant. */
  lemma DeleteFromFinishedPairScenario(p: Project, i: int)
    requires p.isCompleted && p.progress == 100
    requires |p.subtasks| == 2 && p.subtasks[0].completed && p.subtasks[1].completed
    requires 0 <= i < 2
    ensures DeleteSubtask([p], p.id, i)[0].progress == 100
    ensures Valid(DeleteSubtask([p], p.id, i))
  {
    assert InSync(p);
    assert |DropIndex(p.subtasks, i)| == 1;
    DeleteSubtaskKeepsValid([p], p.id, i);
  }
}
