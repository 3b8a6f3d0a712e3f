/**
 * The records the task page keeps in memory and the writes it sends to the
 * remote store (tables `tasks`, `projects`, `priorities`, `settings`).
 */
module Records {
  import opened Wrappers
  import opened Seqs

  /** JavaScript truthiness of an id: null and 0 are falsy. */
  predicate Truthy(id: Option<int>) {
    id.Some? && id.value != 0
  }

  datatype Project = Project(id: int, name: string, color: string, lastUsedAt: Option<int>, userId: string)

  /** Priorities are reference data; a higher `level` is more urgent. */
  datatype Priority = Priority(id: int, name: string, color: string, level: int)

  /** A task row with its denormalised display copies `project` and `priority`
      (the `projects` and `priorities` objects of the joined query). */
  datatype Task = Task(
    id: int,
    text: string,
    completed: bool,
    completedAt: Option<int>,
    projectId: Option<int>,
    priorityId: Option<int>,
    project: Option<Project>,
    priority: Option<Priority>,
    userId: string,
    createdAt: int)

  /** The store's invariant for a task: it has a completion time iff it is completed. */
  predicate WellFormed(t: Task) {
    t.completed == t.completedAt.Some?
  }

  predicate AllWellFormed(tasks: seq<Task>) {
    forall i :: 0 <= i < |tasks| ==> WellFormed(tasks[i])
  }

  /** One `key: value` entry of an object spread `{ ...t, key: value }`. */
  datatype Field =
    | Text(text: string)
    | Completed(completed: bool)
    | CompletedAt(completedAt: Option<int>)
    | ProjectId(projectId: Option<int>)
    | PriorityId(priorityId: Option<int>)
    | Projects(project: Option<Project>)
    | Priorities(priority: Option<Priority>)

  function ApplyField(t: Task, f: Field): (r: Task)
    ensures r.id == t.id && r.userId == t.userId && r.createdAt == t.createdAt
  {
    match f
    case Text(s) => t.(text := s)
    case Completed(b) => t.(completed := b)
    case CompletedAt(at) => t.(completedAt := at)
    case ProjectId(p) => t.(projectId := p)
    case PriorityId(p) => t.(priorityId := p)
    case Projects(p) => t.(project := p)
    case Priorities(p) => t.(priority := p)
  }

  /** `{ ...t, f1, f2, ... }`: the entries applied left to right. */
  function ApplyPatch(t: Task, patch: seq<Field>): (r: Task)
    ensures r.id == t.id && r.userId == t.userId && r.createdAt == t.createdAt
    decreases |patch|
  {
    if patch == [] then t else ApplyPatch(ApplyField(t, patch[0]), patch[1..])
  }

  /** A one-entry spread sets just that entry. */
  lemma ApplySingleField(t: Task, f: Field)
    ensures ApplyPatch(t, [f]) == ApplyField(t, f)
  {
    assert [f][1..] == [];
  }

  /** `tasks.map(t => t.id === id ? { ...t, ...patch } : t)`: every task with the
      id is patched, every other task is left as it was, in place. */
  function EditWhere(tasks: seq<Task>, id: int, patch: seq<Field>): (r: seq<Task>)
    ensures |r| == |tasks|
    ensures forall i :: 0 <= i < |r| ==>
              r[i] == if tasks[i].id == id then ApplyPatch(tasks[i], patch) else tasks[i]
  {
    if tasks == [] then []
    else [if tasks[0].id == id then ApplyPatch(tasks[0], patch) else tasks[0]]
         + EditWhere(tasks[1..], id, patch)
  }

  /** The fields `toggleTask` writes: the new flag and, when completing, the
      completion time `now` (null when un-completing). */
  function CompletionPatch(completed: bool, now: int): seq<Field> {
    [Completed(completed), CompletedAt(if completed then Some(now) else None)]
  }

  /** Writing a completion patch leaves a task well formed and changes nothing
      but the two completion fields. */
  lemma CompletionPatchKeepsWellFormed(t: Task, completed: bool, now: int)
    ensures var r := ApplyPatch(t, CompletionPatch(completed, now));
            && WellFormed(r) && r.completed == completed
            && r.completedAt == (if completed then Some(now) else None)
            && r.(completed := t.completed, completedAt := t.completedAt) == t
  {
    var p := CompletionPatch(completed, now);
    var t1 := ApplyField(t, p[0]);
    var t2 := ApplyField(t1, p[1..][0]);
    assert p[1..][1..] == [];
    assert ApplyPatch(t1, p[1..]) == ApplyPatch(t2, p[1..][1..]) == t2;
  }

  /** Patching every task with a completion patch keeps the whole list well formed. */
  lemma EditWhereKeepsWellFormed(tasks: seq<Task>, id: int, completed: bool, now: int)
    requires AllWellFormed(tasks)
    ensures AllWellFormed(EditWhere(tasks, id, CompletionPatch(completed, now)))
  {
    var r := EditWhere(tasks, id, CompletionPatch(completed, now));
    forall i | 0 <= i < |r| ensures WellFormed(r[i]) {
      CompletionPatchKeepsWellFormed(tasks[i], completed, now);
    }
  }

  /** A patch that neither names `completed` nor `completed_at` keeps a task well formed. */
  predicate TouchesCompletion(patch: seq<Field>) {
    exists i :: 0 <= i < |patch| && (patch[i].Completed? || patch[i].CompletedAt?)
  }

  lemma PatchKeepsWellFormed(t: Task, patch: seq<Field>)
    requires WellFormed(t) && !TouchesCompletion(patch)
    ensures WellFormed(ApplyPatch(t, patch))
    decreases |patch|
  {
    if patch != [] {
      assert !TouchesCompletion(patch[1..]) by {
        forall i | 0 <= i < |patch[1..]| ensures !(patch[1..][i].Completed? || patch[1..][i].CompletedAt?) {
          assert patch[1..][i] == patch[i + 1];
        }
      }
      assert !(patch[0].Completed? || patch[0].CompletedAt?);
      PatchKeepsWellFormed(ApplyField(t, patch[0]), patch[1..]);
    }
  }

  lemma EditWhereKeepsAllWellFormed(tasks: seq<Task>, id: int, patch: seq<Field>)
    requires AllWellFormed(tasks) && !TouchesCompletion(patch)
    ensures AllWellFormed(EditWhere(tasks, id, patch))
  {
    var r := EditWhere(tasks, id, patch);
    forall i | 0 <= i < |r| ensures WellFormed(r[i]) {
      if tasks[i].id == id {
        PatchKeepsWellFormed(tasks[i], patch);
      }
    }
  }

  /** `tasks.filter(t => t.id !== id)` */
  function WithoutId(tasks: seq<Task>, id: int): (r: seq<Task>)
    ensures |r| <= |tasks|
    ensures forall t :: t in r <==> t in tasks && t.id != id
  {
    if tasks == [] then []
    else (if tasks[0].id != id then [tasks[0]] else []) + WithoutId(tasks[1..], id)
  }

  /** Deleting keeps the other tasks in their order. */
  lemma {:induction false} WithoutIdIsSubsequence(tasks: seq<Task>, id: int)
    ensures IsSubsequence(WithoutId(tasks, id), tasks)
  {
    if tasks != [] {
      var x, t := tasks[0], tasks[1..];
      WithoutIdIsSubsequence(t, id);
      var rest := WithoutId(t, id);
      if x.id != id {
        assert WithoutId(tasks, id) == [x] + rest;
        assert ([x] + rest)[1..] == rest;
      } else {
        assert WithoutId(tasks, id) == rest;
      }
    }
  }

  /** Deleting drops every occurrence of a task with the id and keeps every
      other task as often as it was there. */
  lemma {:induction false} WithoutIdCounts(tasks: seq<Task>, id: int, u: Task)
    ensures multiset(WithoutId(tasks, id))[u] == if u.id == id then 0 else multiset(tasks)[u]
  {
    if tasks != [] {
      var x, t := tasks[0], tasks[1..];
      WithoutIdCounts(t, id, u);
      assert tasks == [x] + t;
      assert multiset(tasks) == multiset{x} + multiset(t);
    }
  }

  /** `tasks.find(t => t.id === id)` */
  function FindTask(tasks: seq<Task>, id: int): (r: Option<Task>)
    ensures r.Some? ==> r.value in tasks && r.value.id == id
    ensures r.None? <==> forall t :: t in tasks ==> t.id != id
    ensures r.Some? ==> exists i :: 0 <= i < |tasks| && tasks[i] == r.value
                                    && forall j :: 0 <= j < i ==> tasks[j].id != id
  {
    if tasks == [] then None
    else if tasks[0].id == id then Some(tasks[0])
    else
      FindTask(tasks[1..], id)
  }

  /** A record of `projects.find(p => p.id === id)`; a null id matches nothing. */
  function FindProject(projects: seq<Project>, id: Option<int>): (r: Option<Project>)
    ensures r.Some? ==> r.value in projects && id == Some(r.value.id)
    ensures r.None? <==> id.None? || forall p :: p in projects ==> p.id != id.value
  {
    if id.None? || projects == [] then None
    else if projects[0].id == id.value then Some(projects[0])
    else FindProject(projects[1..], id)
  }

  /** `priorities.find(p => p.id === id)`; a null id matches nothing. */
  function FindPriority(priorities: seq<Priority>, id: Option<int>): (r: Option<Priority>)
    ensures r.Some? ==> r.value in priorities && id == Some(r.value.id)
    ensures r.None? <==> id.None? || forall p :: p in priorities ==> p.id != id.value
  {
    if id.None? || priorities == [] then None
    else if priorities[0].id == id.value then Some(priorities[0])
    else FindPriority(priorities[1..], id)
  }

  /** `projects.map(p => p.id === id ? { ...p, last_used_at: now } : p)` */
  function TouchProject(projects: seq<Project>, id: int, now: int): (r: seq<Project>)
    ensures |r| == |projects|
    ensures forall i :: 0 <= i < |r| ==>
              r[i] == if projects[i].id == id then projects[i].(lastUsedAt := Some(now)) else projects[i]
  {
    if projects == [] then []
    else [if projects[0].id == id then projects[0].(lastUsedAt := Some(now)) else projects[0]]
         + TouchProject(projects[1..], id, now)
  }

  /** The five user preferences of a `settings` row. */
  datatype Settings = Settings(
    confettiEnabled: bool,
    soundEnabled: bool,
    showCompleted: bool,
    showHistory: bool,
    sortByPriority: bool)

  /** What the page starts with and what it stores for a user without a row. */
  const DefaultSettings := Settings(true, true, true, true, false)

  datatype SettingKey = ConfettiEnabled | SoundEnabled | ShowCompleted | ShowHistory | SortByPriority {
    /** The column in the `settings` table. */
    function Column(): string {
      match this
      case ConfettiEnabled => "confetti_enabled"
      case SoundEnabled => "sound_enabled"
      case ShowCompleted => "show_completed"
      case ShowHistory => "show_history"
      case SortByPriority => "sort_by_priority"
    }
  }

  function Get(s: Settings, k: SettingKey): bool {
    match k
    case ConfettiEnabled => s.confettiEnabled
    case SoundEnabled => s.soundEnabled
    case ShowCompleted => s.showCompleted
    case ShowHistory => s.showHistory
    case SortByPriority => s.sortByPriority
  }

  /** The settings with one preference replaced and the other four kept. */
  function Set(s: Settings, k: SettingKey, v: bool): (r: Settings)
    ensures Get(r, k) == v
    ensures forall k' :: k' != k ==> Get(r, k') == Get(s, k')
  {
    match k
    case ConfettiEnabled => s.(confettiEnabled := v)
    case SoundEnabled => s.(soundEnabled := v)
    case ShowCompleted => s.(showCompleted := v)
    case ShowHistory => s.(showHistory := v)
    case SortByPriority => s.(sortByPriority := v)
  }

  /** The writes the page issues to the remote store. */
  datatype Write =
    | UpdateTask(taskId: int, fields: seq<Field>)
    | InsertTask(text: string, owner: string)
    | DeleteTask(taskId: int)
    | InsertProject(name: string, color: string, owner: string)
    | TouchProjectUsage(projectId: int, at: int)
    | InsertSettings(owner: string, settings: Settings)
    | UpdateSetting(owner: string, key: SettingKey, value: bool)
}
