/**
 * The task table's handlers, which act on the page's state: the priority-sort
 * button, the inline save of a task's text, the new-task row (keys, blur,
 * typing, its project and priority pickers), and the rule that a row in its
 * grace window cannot be edited.
 */
module TaskTable {
  import opened Wrappers
  import opened Records
  import opened Text
  import opened Keyboard
  import opened TaskViews
  import TasksPage

  /** Every editor of a row (text, project, priority) is disabled while the
      row's task is in its grace window. */
  predicate EditorsDisabled(t: Task, pendingComplete: set<int>) {
    t.id in pendingComplete
  }

  /** In the active table the editable rows are exactly the tasks that are
      not completed: a completed task shown there is in its grace window, so
      its editors are disabled, and a task in its grace window is shown there. */
  lemma ActiveRowsEditableIffOpen(tasks: seq<Task>, pendingComplete: set<int>, t: Task)
    requires t in tasks
    ensures t in ActiveTasks(tasks, pendingComplete) && !EditorsDisabled(t, pendingComplete) <==>
            !t.completed && t.id !in pendingComplete
    ensures EditorsDisabled(t, pendingComplete) ==> t in ActiveTasks(tasks, pendingComplete)
  {
  }

  /** `handleSortToggle`: the sort order flips and the new value is persisted
      under `sort_by_priority`. */
  method HandleSortToggle(page: TasksPage.Page) returns (sent: seq<Write>)
    modifies page`settings
    ensures page.settings == old(page.settings).(sortByPriority := !old(page.settings.sortByPriority))
    ensures sent == [Write.UpdateSetting(page.userId, SortByPriority, page.settings.sortByPriority)]
  {
    sent := page.ToggleSetting(SortByPriority);
  }

  /** `handleTaskSave`: the text changes at once; a failed write asks for a
      reload. */
  method HandleTaskSave(page: TasksPage.Page, taskId: int, newValue: string, ok: bool)
    returns (sent: seq<Write>, reload: bool)
    modifies page`tasks
    ensures page.tasks == EditWhere(old(page.tasks), taskId, [Field.Text(newValue)])
    ensures forall i :: 0 <= i < |page.tasks| ==>
              page.tasks[i] == if old(page.tasks)[i].id == taskId then old(page.tasks)[i].(text := newValue)
                               else old(page.tasks)[i]
    ensures sent == [UpdateTask(taskId, [Field.Text(newValue)])]
    ensures reload == !ok
    ensures AllWellFormed(old(page.tasks)) ==> AllWellFormed(page.tasks)
  {
    var patch := [Field.Text(newValue)];
    assert !TouchesCompletion(patch);
    if AllWellFormed(page.tasks) {
      EditWhereKeepsAllWellFormed(page.tasks, taskId, patch);
    }
    forall t: Task {
      ApplySingleField(t, patch[0]);
    }
    page.tasks := EditWhere(page.tasks, taskId, patch);
    sent := [UpdateTask(taskId, patch)];
    reload := !ok;
  }

  /** The "+" row opens the new-task form. */
  method HandleStartAddingTask(page: TasksPage.Page)
    modifies page`isAddingTask
    ensures page.isAddingTask
  {
    page.isAddingTask := true;
  }

  /** Typing in the new-task input. */
  method SetNewTask(page: TasksPage.Page, s: string)
    modifies page`newTask
    ensures page.newTask == s
  {
    page.newTask := s;
  }

  /** The form's project picker (shown once the text is not blank) records
      the choice in `newProjectId`. */
  method ChooseNewProject(page: TasksPage.Page, projectId: Option<int>)
    modifies page`newProjectId
    ensures page.newProjectId == projectId
  {
    page.newProjectId := projectId;
  }

  /** The form's priority picker records the choice in `newPriorityId`. */
  method ChooseNewPriority(page: TasksPage.Page, priorityId: Option<int>)
    modifies page`newPriorityId
    ensures page.newPriorityId == priorityId
  {
    page.newPriorityId := priorityId;
  }

  /** `handleNewTaskKeyDown`: Enter with non-blank text adds the task; Escape
      closes the form and clears it; other keys do nothing. */
  method HandleNewTaskKeyDown(page: TasksPage.Page, key: Key, ok: bool, newId: int, createdAt: int)
    returns (sent: seq<Write>)
    modifies page`tasks, page`isAddingTask, page`newTask, page`newProjectId, page`newPriorityId
    ensures key == Enter && !IsBlank(old(page.newTask)) ==>
              && sent == [InsertTask(old(page.newTask), page.userId)]
              && (!ok ==> unchanged(page))
              && (ok ==> page.tasks == old(page.tasks) + [TasksPage.NewTaskRecord(newId, old(page.newTask), page.userId, createdAt)]
                         && page.newTask == "" && !page.isAddingTask
                         && page.newProjectId.None? && page.newPriorityId.None?)
    ensures key == Escape ==>
              && sent == [] && page.tasks == old(page.tasks)
              && !page.isAddingTask && page.newTask == "" && page.newProjectId.None? && page.newPriorityId.None?
    ensures (key == Enter && IsBlank(old(page.newTask))) || (key != Enter && key != Escape) ==>
              sent == [] && unchanged(page)
  {
    sent := [];
    if key == Enter && !IsBlank(page.newTask) {
      sent := page.AddTask(ok, newId, createdAt);
    }
    if key == Escape {
      page.isAddingTask := false;
      page.newTask := "";
      page.newProjectId := None;
      page.newPriorityId := None;
    }
  }

  /** `handleNewTaskBlur`: leaving the input with non-blank text adds the
      task; with blank text it only closes the form. */
  method HandleNewTaskBlur(page: TasksPage.Page, ok: bool, newId: int, createdAt: int)
    returns (sent: seq<Write>)
    modifies page`tasks, page`isAddingTask, page`newTask, page`newProjectId, page`newPriorityId
    ensures !IsBlank(old(page.newTask)) ==>
              && sent == [InsertTask(old(page.newTask), page.userId)]
              && (!ok ==> unchanged(page))
              && (ok ==> page.tasks == old(page.tasks) + [TasksPage.NewTaskRecord(newId, old(page.newTask), page.userId, createdAt)]
                         && page.newTask == "" && !page.isAddingTask
                         && page.newProjectId.None? && page.newPriorityId.None?)
    ensures IsBlank(old(page.newTask)) ==>
              && sent == [] && !page.isAddingTask
              && page.tasks == old(page.tasks) && page.newTask == old(page.newTask)
              && page.newProjectId == old(page.newProjectId) && page.newPriorityId == old(page.newPriorityId)
  {
    if !IsBlank(page.newTask) {
      sent := page.AddTask(ok, newId, createdAt);
    } else {
      sent := [];
      page.isAddingTask := false;
    }
  }
}
