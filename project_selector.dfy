/**
 * The project dropdown of a task row or the new-task form: which project is
 * shown, the recency order of the list, and the select / add-new / open
 * handlers with their `isOpen`, `isAddingNew` and `newProjectName` state.
 *
 * `localeCompare` is modelled as a code-point lexicographic comparison.
 */
module ProjectSelector {
  import opened Wrappers
  import opened Records
  import opened Text
  import opened Keyboard

  /** `task?.project_id ?? projectId`: the task's project when it has one,
      the `projectId` prop otherwise. */
  function SelectedProjectId(task: Option<Task>, projectId: Option<int>): Option<int> {
    if task.Some? && task.value.projectId.Some? then task.value.projectId else projectId
  }

  /** `projects.find(p => p.id === selectedProjectId)` */
  function CurrentProject(projects: seq<Project>, task: Option<Task>, projectId: Option<int>): (r: Option<Project>)
    ensures r.Some? ==> r.value in projects && Some(r.value.id) == SelectedProjectId(task, projectId)
    ensures r.Some? && task.Some? && task.value.projectId.Some? ==> Some(r.value.id) == task.value.projectId
    ensures r.None? <==> SelectedProjectId(task, projectId).None?
                         || forall p :: p in projects ==> Some(p.id) != SelectedProjectId(task, projectId)
  {
    FindProject(projects, SelectedProjectId(task, projectId))
  }

  // ---- Recency order --------------------------------------------------------

  /** `a.localeCompare(b)`, as a lexicographic comparison of code points:
      negative, zero or positive. */
  function NameCompare(a: string, b: string): (c: int)
    ensures -1 <= c <= 1
  {
    if a == [] && b == [] then 0
    else if a == [] then -1
    else if b == [] then 1
    else if a[0] < b[0] then -1
    else if a[0] > b[0] then 1
    else NameCompare(a[1..], b[1..])
  }

  lemma {:induction false} NameCompareAntisymmetric(a: string, b: string)
    ensures NameCompare(a, b) == -NameCompare(b, a)
    ensures NameCompare(a, b) == 0 <==> a == b
  {
    if a != [] && b != [] && a[0] == b[0] {
      NameCompareAntisymmetric(a[1..], b[1..]);
      if a[1..] == b[1..] {
        assert a == [a[0]] + a[1..] && b == [b[0]] + b[1..];
      }
    }
  }

  lemma {:induction false} NameCompareTransitive(a: string, b: string, c: string)
    requires NameCompare(a, b) <= 0 && NameCompare(b, c) <= 0
    ensures NameCompare(a, c) <= 0
  {
    if a != [] && b != [] && c != [] && a[0] == b[0] == c[0] {
      NameCompareTransitive(a[1..], b[1..], c[1..]);
    }
  }

  /** The comparator of `sortedProjects`: recently used projects first, more
      recent first; projects never used after them, by name. */
  function ProjectCompare(a: Project, b: Project): int {
    if a.lastUsedAt.Some? && b.lastUsedAt.Some? then b.lastUsedAt.value - a.lastUsedAt.value
    else if a.lastUsedAt.Some? then -1
    else if b.lastUsedAt.Some? then 1
    else NameCompare(a.name, b.name)
  }

  /** The class of projects the comparator cannot tell apart: used at the
      same instant, or never used and of the same name. */
  datatype RecencyKey = UsedAt(at: int) | Unused(name: string)

  function Key(p: Project): RecencyKey {
    if p.lastUsedAt.Some? then UsedAt(p.lastUsedAt.value) else Unused(p.name)
  }

  /** The comparator is consistent: a total preorder whose ties are exactly
      the projects of one key. */
  lemma ProjectCompareIsTotalPreorder(a: Project, b: Project, c: Project)
    ensures ProjectCompare(a, b) <= 0 || ProjectCompare(b, a) <= 0
    ensures ProjectCompare(a, b) > 0 ==> ProjectCompare(b, a) < 0
    ensures ProjectCompare(a, b) == 0 <==> Key(a) == Key(b)
    ensures ProjectCompare(a, b) <= 0 && ProjectCompare(b, c) <= 0 ==> ProjectCompare(a, c) <= 0
  {
    NameCompareAntisymmetric(a.name, b.name);
    if ProjectCompare(a, b) <= 0 && ProjectCompare(b, c) <= 0 && a.lastUsedAt.None? {
      NameCompareTransitive(a.name, b.name, c.name);
    }
  }

  /** The projects of `s` with key `k`, in their order in `s`. */
  function WithKey(s: seq<Project>, k: RecencyKey): seq<Project> {
    if s == [] then [] else (if Key(s[0]) == k then [s[0]] else []) + WithKey(s[1..], k)
  }

  predicate SortedByRecency(s: seq<Project>) {
    forall i, j :: 0 <= i < j < |s| ==> ProjectCompare(s[i], s[j]) <= 0
  }

  /** Places `x` before the first project that does not sort strictly before it. */
  function InsertByRecency(x: Project, s: seq<Project>): seq<Project> {
    if s == [] || ProjectCompare(x, s[0]) <= 0 then [x] + s else [s[0]] + InsertByRecency(x, s[1..])
  }

  /** `[...projects].sort(comparator)`: JavaScript's sort is stable and the
      comparator is consistent, so the result is the stable sorted order. */
  function SortedProjects(projects: seq<Project>): seq<Project> {
    if projects == [] then [] else InsertByRecency(projects[0], SortedProjects(projects[1..]))
  }

  lemma {:induction false} InsertByRecencyMembers(x: Project, s: seq<Project>)
    ensures multiset(InsertByRecency(x, s)) == multiset(s) + multiset{x}
    ensures forall y :: y in InsertByRecency(x, s) <==> y == x || y in s
  {
    if s != [] && ProjectCompare(x, s[0]) > 0 {
      InsertByRecencyMembers(x, s[1..]);
      assert s == [s[0]] + s[1..];
    }
  }

  lemma PrependSortedByRecency(x: Project, s: seq<Project>)
    requires SortedByRecency(s)
    requires forall y :: y in s ==> ProjectCompare(x, y) <= 0
    ensures SortedByRecency([x] + s)
  {
    var r := [x] + s;
    forall i, j | 0 <= i < j < |r| ensures ProjectCompare(r[i], r[j]) <= 0 {
      assert r[j] == s[j - 1];
      if i > 0 {
        assert r[i] == s[i - 1];
      }
    }
  }

  lemma {:induction false} InsertByRecencySorted(x: Project, s: seq<Project>)
    requires SortedByRecency(s)
    ensures SortedByRecency(InsertByRecency(x, s))
  {
    if s == [] || ProjectCompare(x, s[0]) <= 0 {
      forall y | y in s ensures ProjectCompare(x, y) <= 0 {
        var k :| 0 <= k < |s| && s[k] == y;
        ProjectCompareIsTotalPreorder(x, s[0], y);
      }
      PrependSortedByRecency(x, s);
    } else {
      var rest := InsertByRecency(x, s[1..]);
      assert SortedByRecency(s[1..]) by {
        forall i, j | 0 <= i < j < |s[1..]| ensures ProjectCompare(s[1..][i], s[1..][j]) <= 0 {
          assert s[1..][i] == s[i + 1] && s[1..][j] == s[j + 1];
        }
      }
      InsertByRecencySorted(x, s[1..]);
      InsertByRecencyMembers(x, s[1..]);
      ProjectCompareIsTotalPreorder(x, s[0], x);
      forall y | y in rest ensures ProjectCompare(s[0], y) <= 0 {
        if y != x {
          var k :| 0 <= k < |s[1..]| && s[1..][k] == y;
          assert s[k + 1] == y;
        }
      }
      PrependSortedByRecency(s[0], rest);
    }
  }

  lemma WithKeyCons(y: Project, t: seq<Project>, k: RecencyKey)
    ensures WithKey([y] + t, k) == (if Key(y) == k then [y] else []) + WithKey(t, k)
  {
    assert ([y] + t)[1..] == t;
  }

  lemma {:induction false} InsertByRecencyStable(x: Project, s: seq<Project>, k: RecencyKey)
    ensures WithKey(InsertByRecency(x, s), k) == (if Key(x) == k then [x] else []) + WithKey(s, k)
  {
    if s == [] || ProjectCompare(x, s[0]) <= 0 {
      WithKeyCons(x, s, k);
    } else {
      var y, t := s[0], s[1..];
      var rest := InsertByRecency(x, t);
      assert InsertByRecency(x, s) == [y] + rest;
      InsertByRecencyStable(x, t, k);
      ProjectCompareIsTotalPreorder(x, y, x);
      assert Key(x) != Key(y);
      WithKeyCons(y, rest, k);
      WithKeyCons(y, t, k);
      assert s == [y] + t;
    }
  }

  /** The sorted list is a permutation of `projects`. */
  lemma {:induction false} SortedProjectsPermutes(projects: seq<Project>)
    ensures multiset(SortedProjects(projects)) == multiset(projects)
  {
    if projects != [] {
      var p, t := projects[0], projects[1..];
      SortedProjectsPermutes(t);
      InsertByRecencyMembers(p, SortedProjects(t));
      assert projects == [p] + t;
    }
  }

  /** The sorted list is ordered by the comparator. */
  lemma {:induction false} SortedProjectsSorted(projects: seq<Project>)
    ensures SortedByRecency(SortedProjects(projects))
  {
    if projects != [] {
      SortedProjectsSorted(projects[1..]);
      InsertByRecencySorted(projects[0], SortedProjects(projects[1..]));
    }
  }

  /** The sort is stable: projects the comparator ties keep their order. */
  lemma {:induction false} SortedProjectsStable(projects: seq<Project>, k: RecencyKey)
    ensures WithKey(SortedProjects(projects), k) == WithKey(projects, k)
  {
    if projects != [] {
      var p, t := projects[0], projects[1..];
      SortedProjectsStable(t, k);
      InsertByRecencyStable(p, SortedProjects(t), k);
      WithKeyCons(p, t, k);
      assert projects == [p] + t;
    }
  }

  /** What the dropdown's order means: a permutation in which used projects
      come before unused ones, more recent first, unused ones by name, and
      projects with the same timestamp (or unused with the same name) in the
      order of `projects` — equal timestamps are not broken by name. */
  lemma SortedProjectsOrder(projects: seq<Project>)
    ensures var r := SortedProjects(projects);
            && multiset(r) == multiset(projects)
            && (forall i, j :: 0 <= i < j < |r| && r[i].lastUsedAt.None? ==> r[j].lastUsedAt.None?)
            && (forall i, j :: 0 <= i < j < |r| && r[i].lastUsedAt.Some? && r[j].lastUsedAt.Some?
                  ==> r[i].lastUsedAt.value >= r[j].lastUsedAt.value)
            && (forall i, j :: 0 <= i < j < |r| && r[i].lastUsedAt.None? && r[j].lastUsedAt.None?
                  ==> NameCompare(r[i].name, r[j].name) <= 0)
            && (forall k :: WithKey(r, k) == WithKey(projects, k))
  {
    var r := SortedProjects(projects);
    SortedProjectsPermutes(projects);
    SortedProjectsSorted(projects);
    forall k ensures WithKey(r, k) == WithKey(projects, k) {
      SortedProjectsStable(projects, k);
    }
  }

  // ---- Dropdown state -------------------------------------------------------

  /** The arguments of an `onUpdate(taskId, projectId)` call. */
  datatype Update = Update(taskId: Option<int>, projectId: Option<int>)

  /** `task?.id ?? null` */
  function TaskIdOf(task: Option<Task>): Option<int> {
    if task.Some? then Some(task.value.id) else None
  }

  class Selector {
    var isOpen: bool
    var isAddingNew: bool
    var newProjectName: string
    /** The project whose context menu is open, if any. */
    var contextMenuOpen: Option<int>

    constructor ()
      ensures !isOpen && !isAddingNew && newProjectName == "" && contextMenuOpen.None?
    {
      isOpen, isAddingNew, newProjectName, contextMenuOpen := false, false, "", None;
    }

    /** A click on the trigger opens the list unless the selector is disabled. */
    method HandleOpen(disabled: bool)
      modifies this`isOpen
      ensures isOpen == (old(isOpen) || !disabled)
    {
      if disabled {
        return;
      }
      isOpen := true;
    }

    /** Choosing a project (or "No project", `None`) reports the task and the
        choice to `onUpdate`, closes the list, and passes the choice to
        `onComplete` when the parent gave one. */
    method HandleSelect(task: Option<Task>, newProjectId: Option<int>, hasOnComplete: bool)
      returns (call: Update, completed: Option<Option<int>>)
      modifies this`isOpen
      ensures call == Update(TaskIdOf(task), newProjectId)
      ensures completed == (if hasOnComplete then Some(newProjectId) else None)
      ensures !isOpen
    {
      call := Update(TaskIdOf(task), newProjectId);
      isOpen := false;
      completed := if hasOnComplete then Some(newProjectId) else None;
    }

    /** A mousedown anywhere while the list is open: ignored while a context
        menu is open (the menu handles it); outside the trigger and the list
        it closes the list and hides the name input. "Open" is the truthiness
        of `contextMenuOpen`, so a menu of the project with id 0 does not
        count. */
    method HandleClickOutside(outside: bool)
      modifies this`isOpen, this`isAddingNew
      ensures old(isOpen) && !Truthy(contextMenuOpen) && outside ==> !isOpen && !isAddingNew
      ensures !(old(isOpen) && !Truthy(contextMenuOpen) && outside) ==>
                isOpen == old(isOpen) && isAddingNew == old(isAddingNew)
    {
      if !isOpen || Truthy(contextMenuOpen) {
        return;
      }
      if outside {
        isOpen := false;
        isAddingNew := false;
      }
    }

    /** The three-dots button of a row opens that project's context menu. */
    method OpenContextMenu(projectId: int)
      modifies this`contextMenuOpen
      ensures contextMenuOpen == Some(projectId)
    {
      contextMenuOpen := Some(projectId);
    }

    /** The context menu's `onClose`. */
    method CloseContextMenu()
      modifies this`contextMenuOpen
      ensures contextMenuOpen.None?
    {
      contextMenuOpen := None;
    }

    /** A window resize closes an open context menu; the listener is only
        installed while `contextMenuOpen` is truthy. */
    method HandleWindowResize()
      modifies this`contextMenuOpen
      ensures Truthy(old(contextMenuOpen)) ==> contextMenuOpen.None?
      ensures !Truthy(old(contextMenuOpen)) ==> contextMenuOpen == old(contextMenuOpen)
    {
      if Truthy(contextMenuOpen) {
        contextMenuOpen := None;
      }
    }

    /** The "+ Add new project" row shows the name input. */
    method StartAddingNew()
      modifies this`isAddingNew
      ensures isAddingNew
    {
      isAddingNew := true;
    }

    /** Typing in the name input. */
    method SetName(name: string)
      modifies this`newProjectName
      ensures newProjectName == name
    {
      newProjectName := name;
    }

    /** `handleAddNew`: a blank name does nothing; otherwise `onAddNew` is asked
        for the trimmed name (`request`), and when it answers with a project
        (`created`) that project is chosen through `onUpdate`; then the name is
        cleared and the list closed, and a created project's id goes to
        `onComplete` when the parent gave one. */
    method HandleAddNew(task: Option<Task>, created: Option<Project>, hasOnComplete: bool)
      returns (request: Option<string>, call: Option<Update>, completed: Option<int>)
      modifies this`newProjectName, this`isAddingNew, this`isOpen
      ensures IsBlank(old(newProjectName)) ==>
                request.None? && call.None? && completed.None? && isOpen == old(isOpen)
                && isAddingNew == old(isAddingNew) && newProjectName == old(newProjectName)
      ensures !IsBlank(old(newProjectName)) ==>
                && request == Some(Trim(old(newProjectName)))
                && call == (if created.Some? then Some(Update(TaskIdOf(task), Some(created.value.id))) else None)
                && completed == (if created.Some? && hasOnComplete then Some(created.value.id) else None)
                && newProjectName == "" && !isAddingNew && !isOpen
    {
      request, call, completed := None, None, None;
      var name := newProjectName;
      if IsBlank(name) {
        return;
      }
      request := Some(Trim(name));
      if created.Some? {
        call := Some(Update(TaskIdOf(task), Some(created.value.id)));
      }
      newProjectName := "";
      isAddingNew := false;
      isOpen := false;
      if hasOnComplete && created.Some? {
        completed := Some(created.value.id);
      }
    }

    /** Enter in the name input adds the project; Escape hides the input and
        clears the name. */
    method HandleKeyDown(key: Key, task: Option<Task>, created: Option<Project>, hasOnComplete: bool)
      returns (request: Option<string>, call: Option<Update>, completed: Option<int>)
      modifies this`newProjectName, this`isAddingNew, this`isOpen
      ensures key == Enter && IsBlank(old(newProjectName)) ==>
                request.None? && call.None? && completed.None? && isAddingNew == old(isAddingNew)
                && newProjectName == old(newProjectName) && isOpen == old(isOpen)
      ensures key == Enter && !IsBlank(old(newProjectName)) ==>
                && request == Some(Trim(old(newProjectName)))
                && call == (if created.Some? then Some(Update(TaskIdOf(task), Some(created.value.id))) else None)
                && completed == (if created.Some? && hasOnComplete then Some(created.value.id) else None)
                && newProjectName == "" && !isAddingNew && !isOpen
      ensures key == Escape ==>
                request.None? && call.None? && completed.None? && !isAddingNew && newProjectName == ""
                && isOpen == old(isOpen)
      ensures key != Enter && key != Escape ==>
                request.None? && call.None? && completed.None? && isAddingNew == old(isAddingNew)
                && newProjectName == old(newProjectName) && isOpen == old(isOpen)
    {
      request, call, completed := None, None, None;
      if key == Enter {
        request, call, completed := HandleAddNew(task, created, hasOnComplete);
      }
      if key == Escape {
        isAddingNew := false;
        newProjectName := "";
      }
    }
  }
}
