# Project store, card gesture and habit toggle — a Dafny model

This project models the state logic of a small Telegram Mini App for founders. A user
states a goal. The app creates a *project* with three placeholder *subtasks*. Progress
is tracked by checking subtasks off and by holding a button for three seconds to
complete the project.

The model covers three pieces:

- **The project store** (`src/context/ProjectsContext.tsx`). It holds an ordered list of
  projects, newest first, and has eight snapshot-to-snapshot operations: add project,
  toggle subtask, start work, complete project, update subtask, add subtask, delete
  subtask and delete project. It also has the derived progress percentage. Each is a pure
  Dafny function over `seq<Project>`. The datatypes follow `src/components/ProjectCard.tsx`.
- **The project card's interaction logic** (`src/components/ProjectCard.tsx`). This is
  the long-press state machine: press arms a timer, release clears it, and an expiring
  timer invokes the completion callback. It also covers the start-button guard and the
  guard on forwarded subtask clicks. Timers are abstract events, not real time.
- **The habit list** (`src/pages/Habits.tsx`): toggling a habit's mark for today and
  counting the marked habits.

Files, one module each:

- `types.dfy`: `Subtask` and `Project`.
- `progress.dfy`: the completed count and the rounded percentage.
- `subtasks.dfy`: the per-project list edits.
- `store.dfy`: the store operations and their dispatcher.
- `store_proofs.dfy`: lemmas about the store invariant, idempotence, involution and ordering.
- `card.dfy`: the card's gesture machine.
- `card_proofs.dfy`: its invariant and the timer finding.
- `card_store.dfy`: the card and the store together, with the store's answers fed back
  to the card as its project prop.
- `habits.dfy`: the habit toggle and count.

The store invariant `Valid` has two parts. Ids are unique. Every project's stored
`progress` matches its subtasks: 100 with every subtask checked once completed, otherwise
`CalculateProgress` of the subtasks. `ApplyKeepsValid` proves that every operation keeps
it, under two conditions the store relies on its callers for:

- a fresh id for a new project;
- no subtask toggle or append on a completed project, and no removal that leaves a
  completed project with no subtasks (`ProjectStore.KeepsCompletedNonEmpty`).

No available file calls `useProjects` or renders `ProjectCard`: App.tsx:22-26 routes
only to the create and projects pages, and Projects.tsx:76 renders the page's own
`mockProjects`. The card's callbacks are assumed to be wired to the store operations of
the same names. Under that assumption, only the toggle part of the second condition has a
known caller that meets it: the card forwards a subtask toggle only while its project is
not completed (ProjectCard.tsx:70-75), and `CardWithStore.ForwardedToggleGuarded` proves
that a forwarded toggle meets both premises. No caller of `addSubtask`, `deleteSubtask`
or `updateSubtask` is known, and the store does not check the flag itself. So for append
and removal, the second condition is an assumption that no known caller meets.

Rounding: `Math.round((c / n) * 100)` is modelled as exact round-half-up on rationals,
`(200c + n) div (2n)`. `Progress.RoundingIsUnique` shows it is the only whole number
within one half of `100c/n`, counting the half upwards.

How the code behaves at its edges:

- An out-of-range index is not a no-op. `toggleSubtask` reads `.completed` of a missing
  entry and throws a TypeError inside the state update (ProjectsContext.tsx:80).
  `updateSubtask` writes a title-only entry at that index (ProjectsContext.tsx:114). The
  model requires the index to be in range instead (see "Left out").
- `deleteSubtask` recomputes `progress` even when the index is out of range and nothing
  is removed. On a completed project with no subtasks this changes 100 to 0.
- Nothing in the store keeps a completed project unchanged. `addSubtask` on a completed
  project always breaks the invariant (`ProjectStoreProofs.AddSubtaskBreaksCompleted`).
  `deleteSubtask` breaks it only when it leaves a completed project with no subtasks, so
  that progress is recomputed to 0 (`ProjectStoreProofs.DeleteSubtaskBreaksEmptiedCompleted`).
  Removing one of two checked subtasks of a completed project keeps it at 100
  (`ProjectStoreProofs.DeleteFromFinishedPairScenario`).

## Model

| member | source | states |
|---|---|---|
| Progress.CompletedCount | src/context/ProjectsContext.tsx:52 | the count of checked subtasks is at most the length; it equals the length exactly when every subtask is checked, and is 0 exactly when none is |
| Progress.RoundPercent | src/context/ProjectsContext.tsx:53 | the result lies in [0,100] and within one half of 100c/n, the half rounding upwards |
| Progress.CalculateProgress | src/context/ProjectsContext.tsx:50-54 | an empty list gives 0; otherwise the result is the half-up rounding of 100 × checked / total, in [0,100]; none checked gives 0 and all checked gives 100 |
| Progress.RoundingIsUnique | src/context/ProjectsContext.tsx:53 | any whole number in the half-up rounding window equals RoundPercent, so the percentage is fully determined by the counts |
| Progress.AppendUncheckedNeverRaises | src/context/ProjectsContext.tsx:125 | appending an unchecked subtask keeps the checked count and never raises the progress |
| SubtaskLists.FlipAt | src/context/ProjectsContext.tsx:77-81 | the subtask at i keeps its title and has its mark inverted; every other position and the length are unchanged |
| SubtaskLists.RetitleAt | src/context/ProjectsContext.tsx:113-114 | the subtask at i takes the new title and keeps its mark; every other position is unchanged |
| SubtaskLists.DropIndex | src/context/ProjectsContext.tsx:133 | filtering out position i is the splice s[..i] + s[i+1..] when i is in range, and the list itself otherwise |
| SubtaskLists.CompleteAll | src/context/ProjectsContext.tsx:104 | every subtask becomes checked with its title, count and order kept, so the checked count equals the length |
| SubtaskLists.FlipTwice | src/context/ProjectsContext.tsx:77-81 | flipping the same position twice restores the list |
| SubtaskLists.FlipShiftsCount | src/context/ProjectsContext.tsx:77-86 | a flip moves the checked count by exactly one, down if the subtask was checked, up otherwise |
| SubtaskLists.RetitleKeepsProgress | src/context/ProjectsContext.tsx:110-116 | retitling keeps the checked count and the progress |
| SubtaskLists.DropShiftsCount | src/context/ProjectsContext.tsx:133-137 | removing an in-range subtask lowers the checked count by its own mark |
| SubtaskLists.CompleteAllIdempotent | src/context/ProjectsContext.tsx:104 | checking all subtasks twice equals doing it once |
| ProjectStore.AddProject | src/context/ProjectsContext.tsx:56-71 | exactly one project is put at index 0 with the given id, goal and date, progress 0, not started, not completed and three empty unchecked subtasks; the old list follows unchanged and the length grows by one |
| ProjectStore.ToggleSubtask | src/context/ProjectsContext.tsx:73-89 | in every project with the id only subtask i's mark flips, its title is kept and progress is recomputed from the new subtasks; every other project is identical |
| ProjectStore.StartWork | src/context/ProjectsContext.tsx:91-95 | projects with the id become started and differ in nothing else; the others are identical |
| ProjectStore.CompleteProject | src/context/ProjectsContext.tsx:97-108 | projects with the id become completed with progress 100 and every subtask checked, keeping subtask count, order and titles and the other fields; the others are identical |
| ProjectStore.UpdateSubtask | src/context/ProjectsContext.tsx:110-117 | only the title at i changes in projects with the id; all marks and the progress stay; the others are identical |
| ProjectStore.AddSubtask | src/context/ProjectsContext.tsx:119-128 | projects with the id get one blank unchecked subtask appended and progress recomputed over the longer list; the others are identical |
| ProjectStore.DeleteSubtask | src/context/ProjectsContext.tsx:130-140 | projects with the id lose exactly the subtask at i, the rest in order, or keep the list when i is out of range; progress is recomputed either way; the others are identical |
| ProjectStore.DeleteProject | src/context/ProjectsContext.tsx:142-144 | the survivors are exactly the projects whose id differs; the list is unchanged when no project has the id |
| ProjectStore.Apply | src/context/ProjectsContext.tsx:4-14 | each store call maps to its operation: adding grows the list by one, deleting a project never grows it, and every other call changes only the projects with the targeted id |
| ProjectStoreProofs.InitialProjectsValid | src/context/ProjectsContext.tsx:16-43 | the two sample projects satisfy the store invariant (1 of 4 checked shows 25, 1 of 2 shows 50) |
| ProjectStoreProofs.AddProjectKeepsValid | src/context/ProjectsContext.tsx:56-71 | adding a project under a fresh id keeps ids unique and every progress in sync |
| ProjectStoreProofs.ToggleSubtaskKeepsValid | src/context/ProjectsContext.tsx:73-89 | toggling a subtask of a project that is not completed keeps the invariant |
| ProjectStoreProofs.ToggleTwiceRestoresSubtasks | src/context/ProjectsContext.tsx:77-87 | toggling the same subtask twice restores every subtask list, leaves the other fields alone and gives a progress computed from the restored list |
| ProjectStoreProofs.ToggleTwiceIsIdentity | src/context/ProjectsContext.tsx:73-89 | on a valid store with the target not completed, a double toggle returns exactly the original store |
| ProjectStoreProofs.StartWorkIdempotent | src/context/ProjectsContext.tsx:91-95 | starting work twice equals starting it once |
| ProjectStoreProofs.StartWorkKeepsValid | src/context/ProjectsContext.tsx:91-95 | starting work keeps the invariant |
| ProjectStoreProofs.CompleteProjectIdempotent | src/context/ProjectsContext.tsx:97-108 | completing twice equals completing once |
| ProjectStoreProofs.CompleteProjectKeepsValid | src/context/ProjectsContext.tsx:97-108 | completing keeps the invariant from any prior state of the project |
| ProjectStoreProofs.UpdateSubtaskKeepsValid | src/context/ProjectsContext.tsx:110-117 | renaming a subtask keeps the invariant, completed project or not |
| ProjectStoreProofs.AddSubtaskNeverRaisesProgress | src/context/ProjectsContext.tsx:119-128 | for a project whose progress matches its subtasks, adding a subtask never increases the progress |
| ProjectStoreProofs.ValidAddSubtaskNeverRaisesProgress | src/context/ProjectsContext.tsx:119-128 | in a valid store, completed projects included, adding a subtask never increases any targeted project's progress |
| ProjectStoreProofs.AddSubtaskKeepsValid | src/context/ProjectsContext.tsx:119-128 | adding a subtask to a project that is not completed keeps the invariant |
| ProjectStoreProofs.DeleteSubtaskKeepsValid | src/context/ProjectsContext.tsx:130-140 | removing a subtask keeps the invariant unless it leaves a completed project with no subtasks |
| ProjectStoreProofs.AddSubtaskBreaksCompleted | src/context/ProjectsContext.tsx:119-128 | the store does not guard completed projects: appending a subtask to a completed project always leaves the store invalid (an unchecked subtask on a completed project) |
| ProjectStoreProofs.DeleteSubtaskBreaksEmptiedCompleted | src/context/ProjectsContext.tsx:130-140 | removing the only subtask of a completed project, or deleting on one with none, recomputes its progress to 0 and leaves the store invalid |
| ProjectStoreProofs.DeleteLastAgainKeepsSubtasks | src/context/ProjectsContext.tsx:130-140 | after the last subtask is deleted its index is out of range, so deleting at it again leaves every subtask list, and the whole store, unchanged |
| ProjectStoreProofs.DeleteProjectIdempotent | src/context/ProjectsContext.tsx:142-144 | deleting a project twice equals deleting it once |
| ProjectStoreProofs.DeleteProjectDistributes | src/context/ProjectsContext.tsx:143 | the survivors of a concatenation are the survivors of each part, in order, so deletion keeps the relative order |
| ProjectStoreProofs.DeleteProjectRemovesOne | src/context/ProjectsContext.tsx:142-144 | with unique ids, deleting a present id removes exactly its one position and keeps the rest in order |
| ProjectStoreProofs.DeleteProjectKeepsValid | src/context/ProjectsContext.tsx:142-144 | deleting a project keeps the invariant |
| ProjectStoreProofs.ApplyKeepsValid | src/context/ProjectsContext.tsx:56-144 | every store call, with a fresh id for a new project, no subtask toggle or append on a completed project and no removal that empties one, keeps ids unique and every progress in sync |
| ProjectStoreProofs.ApplyNeverClearsFlags | src/context/ProjectsContext.tsx:91-108 | on a valid store, for every call that meets `Allowed` and `Guarded` (in particular a new project with a fresh id), no project that keeps its id has its started or completed flag taken back |
| ProjectStoreProofs.LaunchScenario | src/context/ProjectsContext.tsx:50-108 | a new project starts at 0%; one toggle gives 33%, a second 67%, and completing gives 100% with all three subtasks checked |
| ProjectStoreProofs.AddToFinishedPairScenario | src/context/ProjectsContext.tsx:119-128 | a project with both of its two subtasks checked shows 100%, and after one blank subtask is added it shows 67% |
| ProjectStoreProofs.DeleteFromFinishedPairScenario | src/context/ProjectsContext.tsx:130-140 | removing either of two checked subtasks from a completed project keeps it at 100% and the store valid |
| ProjectCardGesture.CancelPress | src/components/ProjectCard.tsx:62-68 | release always leaves the card not pressing with an empty ref; the held timer, if any, is cleared, and no other timer is touched |
| ProjectCardGesture.StartPressAsWritten | src/components/ProjectCard.tsx:52-60 | a press is ignored unless the project is started and not completed; otherwise the card is pressing and a new timer is scheduled whose handle overwrites the ref, with the old scheduled timers kept |
| ProjectCardGesture.StartPress | src/components/ProjectCard.tsx:52-60 | the same guard, but a held timer is cleared before the new one is armed |
| ProjectCardGesture.Fire | src/components/ProjectCard.tsx:55-59 | a scheduled timer's expiry invokes the completion callback once with this card's project id and stops pressing, removes only that timer from the schedule and keeps the ref and the handle counter; an unscheduled timer does nothing |
| ProjectCardGesture.ButtonClickCalls | src/components/ProjectCard.tsx:169 | the button click asks to start work exactly when the project is not started |
| ProjectCardGesture.SubtaskClickCalls | src/components/ProjectCard.tsx:70-75 | a subtask click is forwarded as a toggle for this project and index exactly when the project is not completed |
| ProjectCardGesture.Step | src/components/ProjectCard.tsx:168-174 | press and release handlers act only on a started project; a press arms only when the project is also not completed; a release invokes nothing; only a timer expiry can complete a project |
| ProjectCardProofs.IdleIsTidy | src/components/ProjectCard.tsx:49-50 | a freshly mounted card has no orphaned timer |
| ProjectCardProofs.FixedStepKeepsTidy | src/components/ProjectCard.tsx:52-68 | with the fix, every event keeps every scheduled timer held by the ref |
| ProjectCardProofs.AsWrittenStepKeepsTidyUnlessRepressed | src/components/ProjectCard.tsx:52-60 | as written, an event orphans a timer exactly when it is a press that arms while a timer is still pending |
| ProjectCardProofs.StepKeepsWellNumbered | src/components/ProjectCard.tsx:52-68 | in either variant every event keeps every scheduled timer numbered below the next handle, so a newly armed timer is never one already scheduled |
| ProjectCardProofs.RunKeepsWellNumbered | src/components/ProjectCard.tsx:52-68 | the same numbering holds over every event sequence, so the premise of the as-written step lemma holds along any run from a fresh card |
| ProjectCardProofs.FixedRunKeepsTidy | src/components/ProjectCard.tsx:52-68 | with the fix, no event sequence ever orphans a timer |
| ProjectCardProofs.QuietWithoutPress | src/components/ProjectCard.tsx:52-68 | with nothing scheduled, no sequence of events without a press leads to a completion call |
| ProjectCardProofs.ReleaseSilencesTimer | src/components/ProjectCard.tsx:62-68 | with the fix, after a release no completion call follows until the next press |
| ProjectCardProofs.HeldPressCompletes | src/components/ProjectCard.tsx:52-59 | on a started, open project a press arms a timer the ref holds, and its expiry invokes completion with the card's project id and ends the press |
| ProjectCardProofs.CancelPressIdempotent | src/components/ProjectCard.tsx:62-68 | releasing twice equals releasing once |
| ProjectCardProofs.OrphanTimerFiresAfterRelease | src/components/ProjectCard.tsx:52-60 | as written, press, press, release and the first timer's expiry invoke completion after the release; with the fix the same events invoke nothing |
| CardWithStore.ForwardedToggleGuarded | src/components/ProjectCard.tsx:70-75 | a subtask click the card forwards on a rendered subtask is a toggle whose index exists and whose project is open, so it meets both premises under which the store keeps its invariant |
| CardWithStore.StartedButtonInert | src/components/ProjectCard.tsx:169 | once the store has started a project, the card's button no longer asks to start it |
| CardWithStore.AfterCall | src/context/ProjectsContext.tsx:73-108 | the store's answer to a card callback keeps the project's id and never clears a flag; a completion call leaves the prop completed at 100%, a start call leaves it started |
| CardWithStore.CompletedCardStaysQuiet | src/components/ProjectCard.tsx:52-53 | a card re-rendered with a completed project and no timer scheduled makes no completion call over any event sequence |
| CardWithStore.LiveRunCompletesAtMostOnce | src/components/ProjectCard.tsx:52-68 | with the fix, and the prop re-rendered from the store after every event, the completion callback is invoked at most once over any run |
| CardWithStore.SecondPressAfterCompletionInert | src/components/ProjectCard.tsx:52-59 | press, expiry, press, expiry invokes completion once: the second press finds the project completed and arms nothing |
| Habits.ToggleHabit | src/pages/Habits.tsx:35-41 | the list keeps its length and order; a habit's mark changes exactly when its id matches, and its id, title and streak always stay |
| Habits.TotalCompleted | src/pages/Habits.tsx:43 | the count never exceeds the number of habits; it equals it exactly when all are marked and is 0 exactly when none is |
| Habits.TotalCompletedCountsMarks | src/pages/Habits.tsx:43 | the count equals the number of positions holding a marked habit |
| Habits.ToggleHabitTwice | src/pages/Habits.tsx:36-40 | toggling the same id twice restores the habit list |
| Habits.ToggleAbsentHabit | src/pages/Habits.tsx:37-39 | toggling an id no habit carries changes nothing |
| Habits.ToggleMovesTotalByOne | src/pages/Habits.tsx:35-43 | with unique ids, toggling a present habit moves the completed count by exactly one, towards its new mark |

## Left out

- Environment values. `Date.now()` ids and `toLocaleDateString` dates are parameters of `AddProject`. The source does not check that the id is unique (two adds in the same millisecond would collide), so freshness is a premise of `AddProjectKeepsValid` and not a precondition of the operation.
- ProjectStore.ToggleSubtask: requires the index to exist in every targeted project. With an out-of-range index the code throws a TypeError at ProjectsContext.tsx:80; that thrown-exception error path is not modelled.
- ProjectStore.UpdateSubtask: requires the index to exist in every targeted project. With an out-of-range index the code writes a title-only entry `{title}` at that index (ProjectsContext.tsx:114), padding the array with holes; JavaScript sparse-array semantics are not modelled.
- Progress.RoundPercent: exact rational half-up rounding. `Math.round` on the floating-point product may differ when the product lands just below a half. Under IEEE double arithmetic, 23 checked of 40 gives `(23/40)*100 = 57.49999999999999`, which `Math.round` takes to 57 where the model gives 58; 29 of 200 gives 14 against the model's 15.
- React plumbing is not modelled: `useState` and re-render, the context provider, and the `useProjects` error thrown outside the provider.
- Real time is not modelled. `setTimeout`/`clearTimeout` become timer numbers and a `TimerFires` event, and the 3000 ms duration is not represented.
- ProjectCardGesture.Run: holds the project prop fixed for the whole sequence, so a completion does not make later presses inert there. `CardWithStore.LiveRun` feeds the store's answer back after every event and is the run the completion-once property is proved about.
- Unmounting is not modelled. The card has no cleanup on unmount, so a pending timer can outlive the card; the model has no unmount event.
- The `isPressing`-driven animation, haptic feedback (`triggerHaptic`), colours, icons and all rendering are left out.
- Habits: the floating-point `completionPercentage`, the static week grid and quote, and the notifications switch are presentation only.
- Host-bridge theme and haptics (`src/hooks/useTelegramTheme.ts`), routing and layout (`src/App.tsx`, `src/components/Layout.tsx`), and the remaining pages (`src/pages/Create.tsx`, `src/pages/Projects.tsx`, `src/pages/Finance.tsx`) are left out. They hold presentation, mock data or foreign calls only.

## Findings

| source | as written | input that shows it | evidently intended | confidence | as-written member | corrected member |
|---|---|---|---|---|---|---|
| src/components/ProjectCard.tsx:52-60 | `startPress` arms a new timer and overwrites the ref without clearing a timer the ref still holds | Two presses without a release in between, then release before 3 s: a second mouse button pressed while the first is held, or a second finger touching. The release clears only the second timer. The first still expires and completes the project. | releasing the button cancels every pending completion, so a press should clear a held timer (or be ignored while pressing) | medium; not executed | ProjectCardProofs.OrphanTimerFiresAfterRelease | ProjectCardProofs.ReleaseSilencesTimer |
