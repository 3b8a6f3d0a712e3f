/**
 * The task page: the in-memory task list, the project and priority caches,
 * the user's preferences, the new-task form, and the grace window in which a
 * just-completed task stays in the active list.
 *
 * Every remote call is an input: `ok` says whether the store accepted it, and
 * the rows or ids the store assigns are parameters. Each method returns the
 * writes it sends (`sent`) and, where the page reloads on failure, `reload`.
 * Timers are handles: `timers` holds the grace callbacks still scheduled (each
 * fires through `Expire`, 4000 ms after it was set) and `timeoutRefs` is the
 * page's `Map` from task id to handle.
 */
module TasksPage {
  import opened Wrappers
  import opened Records
  import opened Seqs
  import opened Text
  import opened TaskViews
  import Tag

  /** The colours a new project is given, one of them picked at random. */
  const Palette: seq<string> := ["#ef4444", "#f59e0b", "#10b981", "#3b82f6", "#8b5cf6", "#ec4899"]

  /** The store's error code for "no row", on which defaults are stored. */
  const NotFoundCode: string := "PGRST116"

  /** The reply to the settings query. */
  datatype SettingsReply = Found(row: Settings) | Failed(code: string)

  /** `id ? parseInt(id) : null` and `id || null`: a falsy id is stored as null. */
  function StoredId(id: Option<int>): (r: Option<int>)
    ensures r.Some? <==> Truthy(id)
    ensures r.Some? ==> r == id
  {
    if Truthy(id) then id else None
  }

  /** The store returns tasks newest first (`created_at` descending). */
  predicate NewestFirst(rows: seq<Task>) {
    forall i, j :: 0 <= i < j < |rows| ==> rows[i].createdAt >= rows[j].createdAt
  }

  /** The store returns priorities by descending level. */
  predicate ByLevel(rows: seq<Priority>) {
    forall i, j :: 0 <= i < j < |rows| ==> rows[i].level >= rows[j].level
  }

  /** The store returns projects most recently used first, never-used ones last. */
  predicate RecentFirst(rows: seq<Project>) {
    && (forall i, j :: 0 <= i < j < |rows| && rows[i].lastUsedAt.None? ==> rows[j].lastUsedAt.None?)
    && (forall i, j :: 0 <= i < j < |rows| && rows[i].lastUsedAt.Some? && rows[j].lastUsedAt.Some? ==>
          rows[i].lastUsedAt.value >= rows[j].lastUsedAt.value)
  }

  /** The record the store returns for an inserted task: the text, the owner,
      and defaults everywhere else (no project, no priority). */
  function NewTaskRecord(id: int, text: string, owner: string, createdAt: int): (t: Task)
    ensures WellFormed(t) && !t.completed && t.projectId.None? && t.priorityId.None?
  {
    Task(id, text, false, None, None, None, None, None, owner, createdAt)
  }

  /** A task appended locally sits at the end, so a newer task breaks the
      store's newest-first order until the next reload moves it to the top. */
  lemma AppendedTaskIsOutOfOrder(tasks: seq<Task>, t: Task)
    requires tasks != [] && t.createdAt > tasks[0].createdAt
    ensures !NewestFirst(tasks + [t])
    ensures NewestFirst(tasks) ==> NewestFirst([t] + tasks)
  {
    assert (tasks + [t])[0] == tasks[0] && (tasks + [t])[|tasks|] == t;
    if NewestFirst(tasks) {
      var r := [t] + tasks;
      forall i, j | 0 <= i < j < |r| ensures r[i].createdAt >= r[j].createdAt {
        assert r[j] == tasks[j - 1];
        if i > 0 {
          assert r[i] == tasks[i - 1];
        } else {
          assert tasks[0].createdAt >= tasks[j - 1].createdAt;
        }
      }
    }
  }

  /** Every palette colour is a well-formed `#rrggbb` colour, so the tag of a
      new project always renders real channel values. */
  lemma PaletteIsHex(i: nat)
    requires i < |Palette|
    ensures Tag.IsHexColor(Palette[i])
  {
  }

  /** Writing a completion into the list: every task with the id gets the new
      flag, and a well-formed list stays well formed. */
  lemma CompletionEditFacts(tasks: seq<Task>, id: int, completed: bool, now: int)
    ensures forall t :: t in EditWhere(tasks, id, CompletionPatch(completed, now)) && t.id == id ==>
              t.completed == completed
    ensures AllWellFormed(tasks) ==> AllWellFormed(EditWhere(tasks, id, CompletionPatch(completed, now)))
  {
    var r := EditWhere(tasks, id, CompletionPatch(completed, now));
    forall t | t in r && t.id == id ensures t.completed == completed {
      var i :| 0 <= i < |r| && r[i] == t;
      CompletionPatchKeepsWellFormed(tasks[i], completed, now);
    }
    if AllWellFormed(tasks) {
      EditWhereKeepsWellFormed(tasks, id, completed, now);
    }
  }

  /** Appending a well-formed record keeps the list well formed. */
  lemma AppendKeepsWellFormed(tasks: seq<Task>, t: Task)
    requires WellFormed(t)
    ensures AllWellFormed(tasks) ==> AllWellFormed(tasks + [t])
  {
    var r := tasks + [t];
    if AllWellFormed(tasks) {
      forall i | 0 <= i < |r| ensures WellFormed(r[i]) {
        if i < |tasks| {
          assert r[i] == tasks[i];
        }
      }
    }
  }

  class Page {
    const userId: string
    var tasks: seq<Task>
    var projects: seq<Project>
    var priorities: seq<Priority>
    var loading: bool
    var settings: Settings
    var isAddingTask: bool
    var newTask: string
    var newProjectId: Option<int>
    var newPriorityId: Option<int>
    var pendingComplete: set<int>
    var timeoutRefs: map<int, nat>
    var timers: map<nat, int>
    var nextTimer: nat
    var mounted: bool

    /** The timer bookkeeping: `timeoutRefs` and the scheduled callbacks are
        inverse maps, handles are never reused, and while the page is mounted
        the ids with a timer are exactly the ids in their grace window. */
    ghost predicate Valid()
      reads this
    {
      && (forall id :: id in timeoutRefs ==> timeoutRefs[id] in timers && timers[timeoutRefs[id]] == id)
      && (forall h :: h in timers ==> timers[h] in timeoutRefs && timeoutRefs[timers[h]] == h)
      && (forall h :: h in timers ==> h < nextTimer)
      && (mounted ==> timeoutRefs.Keys == pendingComplete)
      && (!mounted ==> timers == map[] && timeoutRefs == map[])
    }

    constructor (userId: string)
      ensures Valid() && mounted && this.userId == userId
      ensures tasks == [] && projects == [] && priorities == [] && loading
      ensures settings == DefaultSettings
      ensures !isAddingTask && newTask == "" && newProjectId.None? && newPriorityId.None?
      ensures pendingComplete == {} && timeoutRefs == map[] && timers == map[]
    {
      this.userId := userId;
      tasks, projects, priorities, loading := [], [], [], true;
      settings := DefaultSettings;
      isAddingTask, newTask, newProjectId, newPriorityId := false, "", None, None;
      pendingComplete, timeoutRefs, timers, nextTimer, mounted := {}, map[], map[], 0, true;
    }

    // ---- Derived views ------------------------------------------------------

    function Active(): seq<Task>
      reads this
    {
      ActiveTasks(tasks, pendingComplete)
    }

    function TodayCompleted(now: int): seq<Task>
      reads this
    {
      TodayCompletedTasks(tasks, pendingComplete, now)
    }

    function HistoryCompleted(now: int): seq<Task>
      reads this
    {
      HistoryCompletedTasks(tasks, pendingComplete, now)
    }

    /** The rows of the active table. */
    function SortedActive(): seq<Task>
      reads this
    {
      SortedActiveTasks(Active(), settings.sortByPriority)
    }

    // ---- Loading --------------------------------------------------------------

    /** `fetchTasks`: the store's rows replace the list on success; either way
        the page stops showing "Loading...". The rows come newest first and
        obey the store's completion rule. */
    method FetchTasks(ok: bool, rows: seq<Task>)
      requires NewestFirst(rows) && AllWellFormed(rows)
      modifies this`tasks, this`loading
      ensures tasks == if ok then rows else old(tasks)
      ensures !loading
      ensures AllWellFormed(old(tasks)) ==> AllWellFormed(tasks)
    {
      if ok {
        tasks := rows;
      }
      loading := false;
    }

    /** `fetchProjects` on mount. */
    method FetchProjects(ok: bool, rows: seq<Project>)
      requires RecentFirst(rows)
      modifies this`projects
      ensures projects == if ok then rows else old(projects)
    {
      if ok {
        projects := rows;
      }
    }

    /** `fetchPriorities` on mount. */
    method FetchPriorities(ok: bool, rows: seq<Priority>)
      requires ByLevel(rows)
      modifies this`priorities
      ensures priorities == if ok then rows else old(priorities)
    {
      if ok {
        priorities := rows;
      }
    }

    // ---- Completion and the grace window --------------------------------------

    /** `toggleTask`. An unknown id does nothing. Otherwise the new state is
        the negated flag; completing from a click fires confetti and sound as
        the preferences allow, before the write. Only when the store accepts
        the write does the page change: the task gets the new flag and
        completion time, and a completion (re)starts its grace timer while an
        un-completion ends its grace window. */
    method ToggleTask(taskId: int, fromClick: bool, now: int, ok: bool)
      returns (sent: seq<Write>, confetti: bool, sound: bool)
      requires Valid() && mounted
      modifies this`tasks, this`pendingComplete, this`timeoutRefs, this`timers, this`nextTimer
      ensures Valid()
      ensures FindTask(old(tasks), taskId).None? ==>
                sent == [] && !confetti && !sound && unchanged(this)
      ensures FindTask(old(tasks), taskId).Some? ==>
                var completing := !FindTask(old(tasks), taskId).value.completed;
                && sent == [UpdateTask(taskId, CompletionPatch(completing, now))]
                && confetti == (completing && fromClick && settings.confettiEnabled)
                && sound == (completing && fromClick && settings.soundEnabled)
                && (!ok ==> unchanged(this))
                && (ok ==> tasks == EditWhere(old(tasks), taskId, CompletionPatch(completing, now)))
                && (ok && completing ==>
                      && pendingComplete == old(pendingComplete) + {taskId}
                      && nextTimer == old(nextTimer) + 1
                      && timers == (if taskId in old(timeoutRefs) then old(timers) - {old(timeoutRefs)[taskId]}
                                    else old(timers))[old(nextTimer) := taskId]
                      && timeoutRefs == old(timeoutRefs)[taskId := old(nextTimer)]
                      && (forall t :: t in tasks && t.id == taskId ==> t.completed && IsActive(t, pendingComplete)))
                && (ok && !completing ==>
                      && pendingComplete == old(pendingComplete) - {taskId}
                      && timeoutRefs == old(timeoutRefs) - {taskId}
                      && timers == (if taskId in old(timeoutRefs) then old(timers) - {old(timeoutRefs)[taskId]}
                                    else old(timers))
                      && nextTimer == old(nextTimer))
      ensures AllWellFormed(old(tasks)) ==> AllWellFormed(tasks)
    {
      sent, confetti, sound := [], false, false;
      var found := FindTask(tasks, taskId);
      if found.None? {
        return;
      }
      var completing := !found.value.completed;
      if completing && fromClick {
        confetti := settings.confettiEnabled;
        sound := settings.soundEnabled;
      }
      var patch := CompletionPatch(completing, now);
      sent := [UpdateTask(taskId, patch)];
      if ok {
        ApplyCompletion(taskId, completing, now);
      }
    }

    /** The accepted write of a toggle: the list takes the new flag, and the
        grace window starts or ends. */
    method ApplyCompletion(taskId: int, completing: bool, now: int)
      requires Valid() && mounted
      modifies this`tasks, this`pendingComplete, this`timeoutRefs, this`timers, this`nextTimer
      ensures Valid()
      ensures tasks == EditWhere(old(tasks), taskId, CompletionPatch(completing, now))
      ensures completing ==>
                && pendingComplete == old(pendingComplete) + {taskId}
                && nextTimer == old(nextTimer) + 1
                && timers == (if taskId in old(timeoutRefs) then old(timers) - {old(timeoutRefs)[taskId]}
                              else old(timers))[old(nextTimer) := taskId]
                && timeoutRefs == old(timeoutRefs)[taskId := old(nextTimer)]
                && (forall t :: t in tasks && t.id == taskId ==> t.completed && IsActive(t, pendingComplete))
      ensures !completing ==>
                && pendingComplete == old(pendingComplete) - {taskId}
                && timeoutRefs == old(timeoutRefs) - {taskId}
                && timers == (if taskId in old(timeoutRefs) then old(timers) - {old(timeoutRefs)[taskId]}
                              else old(timers))
                && nextTimer == old(nextTimer)
      ensures AllWellFormed(old(tasks)) ==> AllWellFormed(tasks)
    {
      if completing {
        StartGraceWindow(taskId);
      } else {
        EndGraceWindow(taskId);
      }
      CompletionEditFacts(tasks, taskId, completing, now);
      tasks := EditWhere(tasks, taskId, CompletionPatch(completing, now));
    }

    /** A successful completion: any running timer of the task is cleared,
        the task enters its grace window, and exactly one new timer is set. */
    method StartGraceWindow(taskId: int)
      requires Valid() && mounted
      modifies this`pendingComplete, this`timeoutRefs, this`timers, this`nextTimer
      ensures Valid()
      ensures pendingComplete == old(pendingComplete) + {taskId}
      ensures nextTimer == old(nextTimer) + 1
      ensures timers == (if taskId in old(timeoutRefs) then old(timers) - {old(timeoutRefs)[taskId]}
                         else old(timers))[old(nextTimer) := taskId]
      ensures timeoutRefs == old(timeoutRefs)[taskId := old(nextTimer)]
    {
      if taskId in timeoutRefs {
        timers := timers - {timeoutRefs[taskId]};
      }
      pendingComplete := pendingComplete + {taskId};
      var h := nextTimer;
      nextTimer := nextTimer + 1;
      timers := timers[h := taskId];
      timeoutRefs := timeoutRefs[taskId := h];
    }

    /** A successful un-completion: the task's timer, if any, is cleared and
        forgotten, and its grace window ends. */
    method EndGraceWindow(taskId: int)
      requires Valid() && mounted
      modifies this`pendingComplete, this`timeoutRefs, this`timers
      ensures Valid()
      ensures pendingComplete == old(pendingComplete) - {taskId}
      ensures timeoutRefs == old(timeoutRefs) - {taskId}
      ensures timers == if taskId in old(timeoutRefs) then old(timers) - {old(timeoutRefs)[taskId]} else old(timers)
    {
      if taskId in timeoutRefs {
        timers := timers - {timeoutRefs[taskId]};
      }
      timeoutRefs := timeoutRefs - {taskId};
      pendingComplete := pendingComplete - {taskId};
    }

    /** The grace timer of a task fires: the task leaves its grace window, so
        a completed task moves from the active list to today's list or the
        history. */
    method Expire(h: nat) returns (taskId: int)
      requires Valid() && h in timers
      modifies this`pendingComplete, this`timeoutRefs, this`timers
      ensures Valid()
      ensures taskId == old(timers)[h] && old(timeoutRefs)[taskId] == h
      ensures pendingComplete == old(pendingComplete) - {taskId}
      ensures timeoutRefs == old(timeoutRefs) - {taskId} && timers == old(timers) - {h}
      ensures forall t :: t in tasks && t.id == taskId ==> (IsActive(t, pendingComplete) <==> !t.completed)
    {
      taskId := timers[h];
      pendingComplete := pendingComplete - {taskId};
      timeoutRefs := timeoutRefs - {taskId};
      timers := timers - {h};
    }

    /** The unmount cleanup: every timer in `timeoutRefs` is cleared, then the
        map is emptied. */
    method Unmount()
      requires Valid() && mounted
      modifies this`timeoutRefs, this`timers, this`mounted
      ensures Valid() && !mounted && timers == map[] && timeoutRefs == map[]
    {
      var rest := timeoutRefs.Keys;
      ghost var scheduled := timers;
      while rest != {}
        invariant rest <= timeoutRefs.Keys && timeoutRefs == old(timeoutRefs)
        invariant forall id :: id in timeoutRefs ==> timeoutRefs[id] in scheduled && scheduled[timeoutRefs[id]] == id
        invariant forall h :: h in timers <==> h in scheduled && scheduled[h] in rest
        invariant forall h :: h in timers ==> timers[h] == scheduled[h]
        decreases rest
      {
        var id: int :| id in rest;
        timers := timers - {timeoutRefs[id]};
        rest := rest - {id};
      }
      timeoutRefs := map[];
      mounted := false;
    }

    // ---- Optimistic edits ---------------------------------------------------

    /** `updateTaskProject`: the task's project id and display copy change at
        once; the write follows; a failed write asks for a reload and stops;
        otherwise a chosen project is marked as used now, locally even when
        the store rejects that second write. */
    method UpdateTaskProject(taskId: int, projectId: Option<int>, now: int, ok: bool)
      returns (sent: seq<Write>, reload: bool)
      modifies this`tasks, this`projects
      ensures tasks == EditWhere(old(tasks), taskId,
                                 [ProjectId(StoredId(projectId)), Projects(FindProject(old(projects), projectId))])
      ensures reload == !ok
      ensures !ok ==> sent == [UpdateTask(taskId, [ProjectId(StoredId(projectId))])] && projects == old(projects)
      ensures ok && !Truthy(projectId) ==>
                sent == [UpdateTask(taskId, [ProjectId(StoredId(projectId))])] && projects == old(projects)
      ensures ok && Truthy(projectId) ==>
                && sent == [UpdateTask(taskId, [ProjectId(projectId)]), TouchProjectUsage(projectId.value, now)]
                && projects == TouchProject(old(projects), projectId.value, now)
      ensures AllWellFormed(old(tasks)) ==> AllWellFormed(tasks)
    {
      var patch := [ProjectId(StoredId(projectId)), Projects(FindProject(projects, projectId))];
      assert !TouchesCompletion(patch);
      if AllWellFormed(tasks) {
        EditWhereKeepsAllWellFormed(tasks, taskId, patch);
      }
      tasks := EditWhere(tasks, taskId, patch);
      sent := [UpdateTask(taskId, [ProjectId(StoredId(projectId))])];
      reload := false;
      if !ok {
        reload := true;
        return;
      }
      if Truthy(projectId) {
        sent := sent + [TouchProjectUsage(projectId.value, now)];
        projects := TouchProject(projects, projectId.value, now);
      }
    }

    /** `updateTaskPriority`: the task's priority id and display copy change at
        once, the write follows, and a failed write asks for a reload. */
    method UpdateTaskPriority(taskId: int, priorityId: Option<int>, ok: bool)
      returns (sent: seq<Write>, reload: bool)
      modifies this`tasks
      ensures tasks == EditWhere(old(tasks), taskId,
                                 [PriorityId(StoredId(priorityId)), Priorities(FindPriority(priorities, priorityId))])
      ensures sent == [UpdateTask(taskId, [PriorityId(StoredId(priorityId))])]
      ensures reload == !ok
      ensures AllWellFormed(old(tasks)) ==> AllWellFormed(tasks)
    {
      var patch := [PriorityId(StoredId(priorityId)), Priorities(FindPriority(priorities, priorityId))];
      assert !TouchesCompletion(patch);
      if AllWellFormed(tasks) {
        EditWhereKeepsAllWellFormed(tasks, taskId, patch);
      }
      tasks := EditWhere(tasks, taskId, patch);
      sent := [UpdateTask(taskId, [PriorityId(StoredId(priorityId))])];
      reload := !ok;
    }

    // ---- Confirmed edits ----------------------------------------------------

    /** `addNewProject`: the project is stored with a palette colour (`pick` is
        the random choice) and, once the store has assigned `newId`, appended
        to the cache and returned; on failure nothing changes and nothing is
        returned. */
    method AddNewProject(name: string, pick: nat, ok: bool, newId: int)
      returns (sent: seq<Write>, created: Option<Project>)
      requires pick < |Palette|
      modifies this`projects
      ensures sent == [InsertProject(name, Palette[pick], userId)]
      ensures !ok ==> created.None? && projects == old(projects)
      ensures ok ==>
                && created == Some(Project(newId, name, Palette[pick], None, userId))
                && projects == old(projects) + [created.value]
      ensures created.Some? ==> created.value.color in Palette && Tag.IsHexColor(created.value.color)
    {
      var color := Palette[pick];
      PaletteIsHex(pick);
      sent := [InsertProject(name, color, userId)];
      created := None;
      if ok {
        var p := Project(newId, name, color, None, userId);
        projects := projects + [p];
        created := Some(p);
      }
    }

    /** `addTask`: blank text does nothing. Otherwise the text as typed (not
        trimmed) is inserted with no project and no priority, whatever the
        form has chosen; on success the returned record is appended and the
        form is reset, on failure nothing changes. */
    method AddTask(ok: bool, newId: int, createdAt: int) returns (sent: seq<Write>)
      modifies this`tasks, this`isAddingTask, this`newTask, this`newProjectId, this`newPriorityId
      ensures IsBlank(old(newTask)) ==> sent == [] && unchanged(this)
      ensures !IsBlank(old(newTask)) ==> sent == [InsertTask(old(newTask), userId)]
      ensures !IsBlank(old(newTask)) && !ok ==> unchanged(this)
      ensures !IsBlank(old(newTask)) && ok ==>
                && tasks == old(tasks) + [NewTaskRecord(newId, old(newTask), userId, createdAt)]
                && newTask == "" && !isAddingTask && newProjectId.None? && newPriorityId.None?
      ensures AllWellFormed(old(tasks)) ==> AllWellFormed(tasks)
    {
      var text := newTask;
      sent := [];
      if IsBlank(text) {
        return;
      }
      sent := [InsertTask(text, userId)];
      if !ok {
        return;
      }
      var record := NewTaskRecord(newId, text, userId, createdAt);
      AppendKeepsWellFormed(tasks, record);
      tasks := tasks + [record];
      newTask := "";
      isAddingTask := false;
      newProjectId := None;
      newPriorityId := None;
    }

    /** `deleteTask`: nothing happens unless the user confirms; then the delete
        is sent, and only on success are the tasks with that id removed. A
        failure is reported to the user (`alerted`). */
    method DeleteTask(taskId: int, confirmed: bool, ok: bool) returns (sent: seq<Write>, alerted: bool)
      modifies this`tasks
      ensures !confirmed ==> sent == [] && !alerted && tasks == old(tasks)
      ensures confirmed ==> sent == [Write.DeleteTask(taskId)] && alerted == !ok
      ensures tasks == if confirmed && ok then WithoutId(old(tasks), taskId) else old(tasks)
      ensures confirmed && ok ==>
                && IsSubsequence(tasks, old(tasks))
                && forall u :: multiset(tasks)[u] == if u.id == taskId then 0 else multiset(old(tasks))[u]
      ensures AllWellFormed(old(tasks)) ==> AllWellFormed(tasks)
    {
      sent, alerted := [], false;
      if !confirmed {
        return;
      }
      sent := [Write.DeleteTask(taskId)];
      if ok {
        WithoutIdIsSubsequence(tasks, taskId);
        forall u {
          WithoutIdCounts(tasks, taskId, u);
        }
        tasks := WithoutId(tasks, taskId);
      } else {
        alerted := true;
      }
    }

    /** `updateTask(taskId, field, value)`: one field is written, and set
        locally only once the store has accepted it. */
    method UpdateTaskField(taskId: int, f: Field, ok: bool) returns (sent: seq<Write>)
      modifies this`tasks
      ensures sent == [UpdateTask(taskId, [f])]
      ensures tasks == if ok then EditWhere(old(tasks), taskId, [f]) else old(tasks)
      ensures AllWellFormed(old(tasks)) && !(f.Completed? || f.CompletedAt?) ==> AllWellFormed(tasks)
    {
      sent := [UpdateTask(taskId, [f])];
      if ok {
        if AllWellFormed(tasks) && !(f.Completed? || f.CompletedAt?) {
          EditWhereKeepsAllWellFormed(tasks, taskId, [f]);
        }
        tasks := EditWhere(tasks, taskId, [f]);
      }
    }

    // ---- Preferences ----------------------------------------------------------

    /** `fetchSettings`: a stored row replaces all five preferences; a missing
        row ("PGRST116") makes the page store the defaults without changing
        what it holds; any other error changes nothing. */
    method FetchSettings(reply: SettingsReply) returns (sent: seq<Write>)
      modifies this`settings
      ensures reply.Found? ==> sent == [] && settings == reply.row
      ensures reply.Failed? && reply.code == NotFoundCode ==>
                sent == [InsertSettings(userId, DefaultSettings)] && settings == old(settings)
      ensures reply.Failed? && reply.code != NotFoundCode ==> sent == [] && settings == old(settings)
    {
      sent := [];
      match reply {
        case Found(row) =>
          settings := row;
        case Failed(code) =>
          if code == NotFoundCode {
            sent := [InsertSettings(userId, DefaultSettings)];
          }
      }
    }

    /** `updateSetting(key, value)`: the write is sent; a failure is only
        logged. */
    method UpdateSetting(key: SettingKey, value: bool) returns (sent: seq<Write>)
      ensures sent == [Write.UpdateSetting(userId, key, value)]
    {
      sent := [Write.UpdateSetting(userId, key, value)];
    }

    /** `handleToggleConfetti`, `handleToggleSound`, `handleToggleCompleted`,
        `handleToggleHistory`: the preference flips in memory and the new
        value is persisted, with no rollback should the write fail. */
    method ToggleSetting(key: SettingKey) returns (sent: seq<Write>)
      modifies this`settings
      ensures settings == Set(old(settings), key, !Get(old(settings), key))
      ensures sent == [Write.UpdateSetting(userId, key, Get(settings, key))]
    {
      var newValue := !Get(settings, key);
      settings := Set(settings, key, newValue);
      sent := UpdateSetting(key, newValue);
    }
  }

  /** Flipping a preference twice restores the preferences and persists
      the original value last. */
  lemma ToggleTwiceRestores(s: Settings, key: SettingKey)
    ensures Set(Set(s, key, !Get(s, key)), key, !Get(Set(s, key, !Get(s, key)), key)) == s
  {
  }
}
