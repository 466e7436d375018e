/** The project store: an ordered list of projects, newest first, and the eight
    snapshot-to-snapshot operations the views call. Each operation maps the current
    list to the next one; none of them can fail. */
module ProjectStore {
  import opened Types
  import opened Progress
  import opened SubtaskLists

  /** The two projects agree on every field except `progress` and `subtasks`. */
  predicate SameHeader(p: Project, q: Project) {
    && p.id == q.id && p.title == q.title && p.date == q.date
    && p.isStarted == q.isStarted && p.isCompleted == q.isCompleted
  }

  /** `r` has the shape of `ps` and differs from it at most at positions holding `id`. */
  predicate OthersUnchanged(ps: seq<Project>, r: seq<Project>, id: int) {
    && |r| == |ps|
    && forall k :: 0 <= k < |ps| && ps[k].id != id ==> r[k] == ps[k]
  }

  /** Every project carrying `id` has a subtask at position `i`. */
  predicate IndexInRange(ps: seq<Project>, id: int, i: nat) {
    forall k :: 0 <= k < |ps| && ps[k].id == id ==> i < |ps[k].subtasks|
  }

  /** Ids never repeat within the list. */
  predicate UniqueIds(ps: seq<Project>) {
    forall j, k :: 0 <= j < k < |ps| ==> ps[j].id != ps[k].id
  }

  /** No project in the list carries `id`. */
  predicate Fresh(ps: seq<Project>, id: int) {
    forall k :: 0 <= k < |ps| ==> ps[k].id != id
  }

  /** The stored percentage agrees with the subtasks: a completed project shows 100
      with every subtask checked, any other shows the rounded share checked. */
  predicate InSync(p: Project) {
    if p.isCompleted then
      p.progress == 100 && forall j :: 0 <= j < |p.subtasks| ==> p.subtasks[j].completed
    else
      p.progress == CalculateProgress(p.subtasks)
  }

  /** The store invariant: unique ids and every project in sync. */
  predicate Valid(ps: seq<Project>) {
    UniqueIds(ps) && forall k :: 0 <= k < |ps| ==> InSync(ps[k])
  }

  /** No project carrying `id` is completed: the guard the card applies before it
      forwards a subtask edit. */
  predicate OpenTarget(ps: seq<Project>, id: int) {
    forall k :: 0 <= k < |ps| && ps[k].id == id ==> !ps[k].isCompleted
  }

  /** Removing subtask `i` leaves every completed project carrying `id` with at least one
      subtask: the only removal that breaks the invariant empties a completed project. */
  predicate KeepsCompletedNonEmpty(ps: seq<Project>, id: int, i: int) {
    forall k :: 0 <= k < |ps| && ps[k].id == id && ps[k].isCompleted ==>
      |DropIndex(ps[k].subtasks, i)| > 0
  }

  /** The two sample projects the store starts with. */
  const InitialProjects: seq<Project> := [
    Project(1, "Удвоить вовлечённость в блоге", "15 янв", 25, false, false,
      [Subtask("Анализ текущей аудитории", true), Subtask("Создание контент-плана", false),
       Subtask("Настройка аналитики", false), Subtask("Запуск А/Б тестов", false)]),
    Project(2, "Запустить новый продукт", "1 фев", 50, false, false,
      [Subtask("Исследование рынка", true), Subtask("Прототипирование MVP", false)])
  ]

  /** Puts a new, unstarted project with three blank subtasks at the front. The id and
      the formatted date come from the environment and are parameters here. */
  function AddProject(ps: seq<Project>, id: int, goal: string, date: string): (r: seq<Project>)
    ensures |r| == |ps| + 1
    ensures r[1..] == ps
    ensures r[0].id == id && r[0].title == goal && r[0].date == date
    ensures r[0].progress == 0 && !r[0].isStarted && !r[0].isCompleted
    ensures |r[0].subtasks| == 3
    ensures forall j :: 0 <= j < 3 ==> r[0].subtasks[j].title == "" && !r[0].subtasks[j].completed
  {
    [Project(id, goal, date, 0, false, false, [Blank, Blank, Blank])] + ps
  }

  /** Flips subtask `i` of every project carrying `id` and recomputes its progress. */
  function ToggleSubtask(ps: seq<Project>, id: int, i: nat): (r: seq<Project>)
    requires IndexInRange(ps, id, i)
    ensures OthersUnchanged(ps, r, id)
    ensures forall k :: 0 <= k < |ps| && ps[k].id == id ==>
      && SameHeader(r[k], ps[k])
      && |r[k].subtasks| == |ps[k].subtasks|
      && r[k].subtasks[i].title == ps[k].subtasks[i].title
      && r[k].subtasks[i].completed == !ps[k].subtasks[i].completed
      && (forall j :: 0 <= j < |ps[k].subtasks| && j != i ==> r[k].subtasks[j] == ps[k].subtasks[j])
      && r[k].progress == CalculateProgress(r[k].subtasks)
  {
    seq(|ps|, k requires 0 <= k < |ps| =>
      if ps[k].id == id then
        var s := FlipAt(ps[k].subtasks, i);
        ps[k].(subtasks := s, progress := CalculateProgress(s))
      else ps[k])
  }

  /** Marks every project carrying `id` as started, nothing else. */
  function StartWork(ps: seq<Project>, id: int): (r: seq<Project>)
    ensures OthersUnchanged(ps, r, id)
    ensures forall k :: 0 <= k < |ps| && ps[k].id == id ==>
      r[k].isStarted && r[k].(isStarted := ps[k].isStarted) == ps[k]
  {
    seq(|ps|, k requires 0 <= k < |ps| =>
      if ps[k].id == id then ps[k].(isStarted := true) else ps[k])
  }

  /** Completes every project carrying `id`: full progress and every subtask checked. */
  function CompleteProject(ps: seq<Project>, id: int): (r: seq<Project>)
    ensures OthersUnchanged(ps, r, id)
    ensures forall k :: 0 <= k < |ps| && ps[k].id == id ==>
      && r[k].isCompleted && r[k].progress == 100
      && r[k].id == ps[k].id && r[k].title == ps[k].title && r[k].date == ps[k].date
      && r[k].isStarted == ps[k].isStarted
      && |r[k].subtasks| == |ps[k].subtasks|
      && (forall j :: 0 <= j < |ps[k].subtasks| ==>
            r[k].subtasks[j].completed && r[k].subtasks[j].title == ps[k].subtasks[j].title)
  {
    seq(|ps|, k requires 0 <= k < |ps| =>
      if ps[k].id == id then
        ps[k].(isCompleted := true, progress := 100, subtasks := CompleteAll(ps[k].subtasks))
      else ps[k])
  }

  /** Renames subtask `i` of every project carrying `id`; marks and progress stay. */
  function UpdateSubtask(ps: seq<Project>, id: int, i: nat, title: string): (r: seq<Project>)
    requires IndexInRange(ps, id, i)
    ensures OthersUnchanged(ps, r, id)
    ensures forall k :: 0 <= k < |ps| && ps[k].id == id ==>
      && SameHeader(r[k], ps[k])
      && r[k].progress == ps[k].progress
      && |r[k].subtasks| == |ps[k].subtasks|
      && r[k].subtasks[i].title == title
      && (forall j :: 0 <= j < |ps[k].subtasks| ==>
            r[k].subtasks[j].completed == ps[k].subtasks[j].completed)
      && (forall j :: 0 <= j < |ps[k].subtasks| && j != i ==> r[k].subtasks[j] == ps[k].subtasks[j])
  {
    seq(|ps|, k requires 0 <= k < |ps| =>
      if ps[k].id == id then ps[k].(subtasks := RetitleAt(ps[k].subtasks, i, title))
      else ps[k])
  }

  /** Appends a blank subtask to every project carrying `id` and recomputes its progress. */
  function AddSubtask(ps: seq<Project>, id: int): (r: seq<Project>)
    ensures OthersUnchanged(ps, r, id)
    ensures forall k :: 0 <= k < |ps| && ps[k].id == id ==>
      && SameHeader(r[k], ps[k])
      && r[k].subtasks == ps[k].subtasks + [Blank]
      && r[k].progress == CalculateProgress(r[k].subtasks)
  {
    seq(|ps|, k requires 0 <= k < |ps| =>
      if ps[k].id == id then
        var s := ps[k].subtasks + [Blank];
        ps[k].(subtasks := s, progress := CalculateProgress(s))
      else ps[k])
  }

  /** Removes subtask `i` from every project carrying `id` (any out-of-range `i` removes
      nothing) and recomputes its progress either way. */
  function DeleteSubtask(ps: seq<Project>, id: int, i: int): (r: seq<Project>)
    ensures OthersUnchanged(ps, r, id)
    ensures forall k :: 0 <= k < |ps| && ps[k].id == id ==>
      && SameHeader(r[k], ps[k])
      && (0 <= i < |ps[k].subtasks| ==>
            r[k].subtasks == ps[k].subtasks[..i] + ps[k].subtasks[i + 1..])
      && (!(0 <= i < |ps[k].subtasks|) ==> r[k].subtasks == ps[k].subtasks)
      && r[k].progress == CalculateProgress(r[k].subtasks)
  {
    seq(|ps|, k requires 0 <= k < |ps| =>
      if ps[k].id == id then
        var s := DropIndex(ps[k].subtasks, i);
        ps[k].(subtasks := s, progress := CalculateProgress(s))
      else ps[k])
  }

  /** Keeps exactly the projects whose id differs from `id`, in their order. */
  function DeleteProject(ps: seq<Project>, id: int): (r: seq<Project>)
    ensures |r| <= |ps|
    ensures forall p :: p in r <==> p in ps && p.id != id
    ensures Fresh(ps, id) ==> r == ps
  {
    if |ps| == 0 then []
    else
      var rest := DeleteProject(ps[1..], id);
      if ps[0].id == id then rest
      else
        assert Fresh(ps, id) ==> [ps[0]] + ps[1..] == ps;
        [ps[0]] + rest
  }

  /** One call into the store, with the arguments the view passes. `AddProjectCall` also
      carries the id and date the environment would supply. */
  datatype Action =
    | AddProjectCall(newId: int, goal: string, date: string)
    | ToggleSubtaskCall(id: int, index: nat)
    | StartWorkCall(id: int)
    | CompleteProjectCall(id: int)
    | UpdateSubtaskCall(id: int, index: nat, title: string)
    | AddSubtaskCall(id: int)
    | DeleteSubtaskCall(id: int, at: int)
    | DeleteProjectCall(id: int)

  /** The index-taking edits need their index to exist in every targeted project. */
  predicate Allowed(ps: seq<Project>, a: Action) {
    match a
    case ToggleSubtaskCall(id, i) => IndexInRange(ps, id, i)
    case UpdateSubtaskCall(id, i, _) => IndexInRange(ps, id, i)
    case _ => true
  }

  /** What the store relies on its callers for, on top of Allowed: a fresh id for a new
      project, no subtask toggle or append aimed at a completed project, and no removal
      that empties a completed project. The card, if wired to the store, meets this for
      toggles; no caller of append or removal is known, and the store does not check the
      flag itself. */
  predicate Guarded(ps: seq<Project>, a: Action) {
    match a
    case AddProjectCall(newId, _, _) => Fresh(ps, newId)
    case ToggleSubtaskCall(id, _) => OpenTarget(ps, id)
    case AddSubtaskCall(id) => OpenTarget(ps, id)
    case DeleteSubtaskCall(id, i) => KeepsCompletedNonEmpty(ps, id, i)
    case _ => true
  }

  /** Dispatches one call to its operation. */
  function Apply(ps: seq<Project>, a: Action): (r: seq<Project>)
    requires Allowed(ps, a)
    ensures a.AddProjectCall? ==> |r| == |ps| + 1
    ensures a.DeleteProjectCall? ==> |r| <= |ps|
    ensures !a.AddProjectCall? && !a.DeleteProjectCall? ==> OthersUnchanged(ps, r, a.id)
  {
    match a
    case AddProjectCall(newId, goal, date) => AddProject(ps, newId, goal, date)
    case ToggleSubtaskCall(id, i) => ToggleSubtask(ps, id, i)
    case StartWorkCall(id) => StartWork(ps, id)
    case CompleteProjectCall(id) => CompleteProject(ps, id)
    case UpdateSubtaskCall(id, i, title) => UpdateSubtask(ps, id, i, title)
    case AddSubtaskCall(id) => AddSubtask(ps, id)
    case DeleteSubtaskCall(id, i) => DeleteSubtask(ps, id, i)
    case DeleteProjectCall(id) => DeleteProject(ps, id)
  }
}
