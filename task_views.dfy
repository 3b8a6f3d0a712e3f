/**
 * The derived views of the task page: the active list, today's completions and
 * the history, and the optional "sort by priority" order of the active list.
 */
module TaskViews {
  import opened Wrappers
  import opened Records
  import opened Seqs
  import DayBoundary

  /** `!task.completed || pendingComplete.has(task.id)`: a task stays active
      through its grace window even though it is completed in storage. */
  predicate IsActive(t: Task, pending: set<int>) {
    !t.completed || t.id in pending
  }

  predicate IsTodayCompleted(t: Task, pending: set<int>, now: int) {
    t.completed && t.id !in pending && DayBoundary.IsToday(t.completedAt, now)
  }

  predicate IsHistoryCompleted(t: Task, pending: set<int>, now: int) {
    t.completed && t.id !in pending && !DayBoundary.IsToday(t.completedAt, now)
  }

  /** The three lists the page renders; the completed ones depend on the instant
      `now` at which `isToday` is evaluated. */
  datatype View = Active | TodayCompleted(now: int) | HistoryCompleted(now: int)

  predicate InView(v: View, t: Task, pending: set<int>) {
    match v
    case Active => IsActive(t, pending)
    case TodayCompleted(now) => IsTodayCompleted(t, pending, now)
    case HistoryCompleted(now) => IsHistoryCompleted(t, pending, now)
  }

  /** `tasks.filter(...)` with the view's predicate. */
  function Select(tasks: seq<Task>, v: View, pending: set<int>): (r: seq<Task>)
    ensures |r| <= |tasks|
    ensures forall t :: t in r <==> t in tasks && InView(v, t, pending)
  {
    if tasks == [] then []
    else (if InView(v, tasks[0], pending) then [tasks[0]] else []) + Select(tasks[1..], v, pending)
  }

  function ActiveTasks(tasks: seq<Task>, pending: set<int>): seq<Task> {
    Select(tasks, Active, pending)
  }

  function TodayCompletedTasks(tasks: seq<Task>, pending: set<int>, now: int): seq<Task> {
    Select(tasks, TodayCompleted(now), pending)
  }

  function HistoryCompletedTasks(tasks: seq<Task>, pending: set<int>, now: int): seq<Task> {
    Select(tasks, HistoryCompleted(now), pending)
  }

  /** Every view keeps the relative order of `tasks`. */
  lemma {:induction false} SelectIsSubsequence(tasks: seq<Task>, v: View, pending: set<int>)
    ensures IsSubsequence(Select(tasks, v, pending), tasks)
  {
    if tasks != [] {
      SelectIsSubsequence(tasks[1..], v, pending);
      var rest := Select(tasks[1..], v, pending);
      if InView(v, tasks[0], pending) {
        assert Select(tasks, v, pending) == [tasks[0]] + rest;
        assert ([tasks[0]] + rest)[1..] == rest;
      } else {
        assert Select(tasks, v, pending) == rest;
      }
    }
  }

  lemma SelectCons(x: Task, t: seq<Task>, v: View, pending: set<int>)
    ensures Select([x] + t, v, pending) == (if InView(v, x, pending) then [x] else []) + Select(t, v, pending)
  {
    assert ([x] + t)[1..] == t;
  }

  /** The three views together hold every task as often as the list does. */
  lemma {:induction false} ViewsCount(tasks: seq<Task>, pending: set<int>, now: int)
    ensures multiset(ActiveTasks(tasks, pending)) + multiset(TodayCompletedTasks(tasks, pending, now))
              + multiset(HistoryCompletedTasks(tasks, pending, now)) == multiset(tasks)
  {
    if tasks != [] {
      var t, rest := tasks[0], tasks[1..];
      ViewsCount(rest, pending, now);
      assert tasks == [t] + rest;
      SelectCons(t, rest, Active, pending);
      SelectCons(t, rest, TodayCompleted(now), pending);
      SelectCons(t, rest, HistoryCompleted(now), pending);
      assert multiset(tasks) == multiset{t} + multiset(rest);
    }
  }

  /** Every task lies in exactly one of the three views, a task in its grace
      window is always active, and the three views together hold every task of
      the list as often as the list holds it. */
  lemma ViewsPartition(tasks: seq<Task>, pending: set<int>, now: int)
    ensures var a, d, h := ActiveTasks(tasks, pending), TodayCompletedTasks(tasks, pending, now),
                           HistoryCompletedTasks(tasks, pending, now);
            && multiset(a) + multiset(d) + multiset(h) == multiset(tasks)
            && |a| + |d| + |h| == |tasks|
            && (forall t :: t in tasks ==> (t in a || t in d || t in h))
            && (forall t :: t in a ==> t !in d && t !in h)
            && (forall t :: t in d ==> t !in h)
            && (forall t :: t in tasks && t.id in pending ==> t in a)
  {
    var a, d, h := ActiveTasks(tasks, pending), TodayCompletedTasks(tasks, pending, now),
                   HistoryCompletedTasks(tasks, pending, now);
    ViewsCount(tasks, pending, now);
    assert |multiset(a) + multiset(d) + multiset(h)| == |multiset(tasks)|;
  }

  /** When the grace timer of a completed task expires, the task leaves the
      active view and lands in exactly one completed view, the one `isToday`
      picks. */
  lemma ExpiryMovesTask(tasks: seq<Task>, pending: set<int>, t: Task, now: int)
    requires t in tasks && t.completed && t.id in pending
    ensures t in ActiveTasks(tasks, pending)
    ensures var after := pending - {t.id};
            && t !in ActiveTasks(tasks, after)
            && (t in TodayCompletedTasks(tasks, after, now) <==> DayBoundary.IsToday(t.completedAt, now))
            && (t in HistoryCompletedTasks(tasks, after, now) <==> !DayBoundary.IsToday(t.completedAt, now))
  {
  }

  // ---- Sorting by priority ------------------------------------------------

  /** `a.priority_id` is truthy: a null id and an id of 0 both count as
      no priority. */
  predicate HasPriority(t: Task) {
    Truthy(t.priorityId)
  }

  /** `a.priorities?.level || 0`: the level of the display copy, 0 without one. */
  function Level(t: Task): int {
    if t.priority.Some? then t.priority.value.level else 0
  }

  function Prioritised(s: seq<Task>): (r: seq<Task>)
    ensures forall t :: t in r <==> t in s && HasPriority(t)
  {
    if s == [] then [] else (if HasPriority(s[0]) then [s[0]] else []) + Prioritised(s[1..])
  }

  function Unprioritised(s: seq<Task>): (r: seq<Task>)
    ensures forall t :: t in r <==> t in s && !HasPriority(t)
  {
    if s == [] then [] else (if HasPriority(s[0]) then [] else [s[0]]) + Unprioritised(s[1..])
  }

  /** The tasks of `s` whose level is `level`, in their order in `s`. */
  function AtLevel(s: seq<Task>, level: int): seq<Task> {
    if s == [] then [] else (if Level(s[0]) == level then [s[0]] else []) + AtLevel(s[1..], level)
  }

  predicate LevelsNonIncreasing(s: seq<Task>) {
    forall i, j :: 0 <= i < j < |s| ==> Level(s[i]) >= Level(s[j])
  }

  /** Places `x` after the tasks of higher level and before the first task
      whose level is not higher. */
  function InsertByLevel(x: Task, s: seq<Task>): seq<Task> {
    if s == [] || Level(s[0]) <= Level(x) then [x] + s else [s[0]] + InsertByLevel(x, s[1..])
  }

  /** A stable sort by descending level. */
  function ByLevelDesc(s: seq<Task>): seq<Task> {
    if s == [] then [] else InsertByLevel(s[0], ByLevelDesc(s[1..]))
  }

  /** The sorted active list: the active list itself when sorting is off;
      otherwise the prioritised tasks by descending level, then the others.
      The page's comparator answers 1 for two unprioritised tasks in both
      orders, so their mutual order is left open by the page; this definition
      keeps them in list order, which is one of the orders it may produce. */
  function SortedActiveTasks(active: seq<Task>, sortByPriority: bool): seq<Task> {
    if sortByPriority then ByLevelDesc(Prioritised(active)) + Unprioritised(active) else active
  }

  /** What the page's priority sort promises of a result `r` for the active
      list `active`: a permutation in which every prioritised task precedes
      every unprioritised one, prioritised tasks appear by non-increasing
      level, and prioritised tasks of equal level keep their order. */
  ghost predicate PriorityOrdered(r: seq<Task>, active: seq<Task>) {
    && multiset(r) == multiset(active)
    && (forall i, j :: 0 <= i < j < |r| && !HasPriority(r[i]) ==> !HasPriority(r[j]))
    && (forall i, j :: 0 <= i < j < |r| && HasPriority(r[i]) && HasPriority(r[j]) ==> Level(r[i]) >= Level(r[j]))
    && (forall level :: AtLevel(Prioritised(r), level) == AtLevel(Prioritised(active), level))
  }

  lemma {:induction false} InsertByLevelPermutes(x: Task, s: seq<Task>)
    ensures multiset(InsertByLevel(x, s)) == multiset(s) + multiset{x}
  {
    if s != [] && Level(s[0]) > Level(x) {
      var y, t := s[0], s[1..];
      InsertByLevelPermutes(x, t);
      assert InsertByLevel(x, s) == [y] + InsertByLevel(x, t);
      assert s == [y] + t;
    }
  }

  lemma {:induction false} InsertByLevelMembers(x: Task, s: seq<Task>)
    ensures forall y :: y in InsertByLevel(x, s) <==> y == x || y in s
  {
    if s != [] && Level(s[0]) > Level(x) {
      InsertByLevelMembers(x, s[1..]);
      assert s == [s[0]] + s[1..];
    }
  }

  /** A task of at least the levels of everything after it keeps a sorted list sorted. */
  lemma PrependSorted(x: Task, s: seq<Task>)
    requires LevelsNonIncreasing(s)
    requires forall y :: y in s ==> Level(x) >= Level(y)
    ensures LevelsNonIncreasing([x] + s)
  {
    var r := [x] + s;
    forall i, j | 0 <= i < j < |r| ensures Level(r[i]) >= Level(r[j]) {
      assert r[j] == s[j - 1];
      if i > 0 {
        assert r[i] == s[i - 1];
      }
    }
  }

  lemma {:induction false} InsertByLevelSorted(x: Task, s: seq<Task>)
    requires LevelsNonIncreasing(s)
    ensures LevelsNonIncreasing(InsertByLevel(x, s))
  {
    if s == [] || Level(s[0]) <= Level(x) {
      forall y | y in s ensures Level(x) >= Level(y) {
        var k :| 0 <= k < |s| && s[k] == y;
        assert Level(s[0]) >= Level(s[k]);
      }
      PrependSorted(x, s);
    } else {
      var rest := InsertByLevel(x, s[1..]);
      assert LevelsNonIncreasing(s[1..]) by {
        forall i, j | 0 <= i < j < |s[1..]| ensures Level(s[1..][i]) >= Level(s[1..][j]) {
          assert s[1..][i] == s[i + 1] && s[1..][j] == s[j + 1];
        }
      }
      InsertByLevelSorted(x, s[1..]);
      InsertByLevelMembers(x, s[1..]);
      forall y | y in rest ensures Level(s[0]) >= Level(y) {
        if y != x {
          var k :| 0 <= k < |s[1..]| && s[1..][k] == y;
          assert s[k + 1] == y;
        }
      }
      PrependSorted(s[0], rest);
    }
  }

  lemma AtLevelCons(y: Task, t: seq<Task>, level: int)
    ensures AtLevel([y] + t, level) == (if Level(y) == level then [y] else []) + AtLevel(t, level)
  {
    assert ([y] + t)[1..] == t;
  }

  lemma {:induction false} InsertByLevelStable(x: Task, s: seq<Task>, level: int)
    ensures AtLevel(InsertByLevel(x, s), level) == (if Level(x) == level then [x] else []) + AtLevel(s, level)
  {
    if s == [] || Level(s[0]) <= Level(x) {
      AtLevelCons(x, s, level);
    } else {
      var y, t := s[0], s[1..];
      assert s == [y] + t;
      var rest := InsertByLevel(x, t);
      assert InsertByLevel(x, s) == [y] + rest;
      InsertByLevelStable(x, t, level);
      AtLevelCons(y, rest, level);
      AtLevelCons(y, t, level);
    }
  }

  /** `ByLevelDesc` is a permutation of its input, sorted by non-increasing
      level, and stable: the tasks of each level keep their order. */
  lemma {:induction false} ByLevelDescFacts(s: seq<Task>, level: int)
    ensures multiset(ByLevelDesc(s)) == multiset(s)
    ensures LevelsNonIncreasing(ByLevelDesc(s))
    ensures AtLevel(ByLevelDesc(s), level) == AtLevel(s, level)
  {
    if s != [] {
      ByLevelDescFacts(s[1..], level);
      InsertByLevelPermutes(s[0], ByLevelDesc(s[1..]));
      InsertByLevelSorted(s[0], ByLevelDesc(s[1..]));
      InsertByLevelStable(s[0], ByLevelDesc(s[1..]), level);
      assert s == [s[0]] + s[1..];
    }
  }

  lemma {:induction false} PrioritisedSplit(s: seq<Task>)
    ensures multiset(Prioritised(s)) + multiset(Unprioritised(s)) == multiset(s)
  {
    if s != [] {
      PrioritisedSplit(s[1..]);
      assert s == [s[0]] + s[1..];
    }
  }

  lemma PrioritisedCons(x: Task, t: seq<Task>)
    ensures Prioritised([x] + t) == (if HasPriority(x) then [x] else []) + Prioritised(t)
  {
    assert ([x] + t)[1..] == t;
  }

  lemma {:induction false} PrioritisedAppend(a: seq<Task>, b: seq<Task>)
    ensures Prioritised(a + b) == Prioritised(a) + Prioritised(b)
  {
    if a == [] {
      assert a + b == b;
    } else {
      var x, t := a[0], a[1..];
      var px := if HasPriority(x) then [x] else [];
      assert a == [x] + t;
      assert a + b == [x] + (t + b);
      calc {
        Prioritised(a + b);
        { PrioritisedCons(x, t + b); }
        px + Prioritised(t + b);
        { PrioritisedAppend(t, b); }
        px + (Prioritised(t) + Prioritised(b));
        (px + Prioritised(t)) + Prioritised(b);
        { PrioritisedCons(x, t); }
        Prioritised(a) + Prioritised(b);
      }
    }
  }

  lemma {:induction false} PrioritisedOfPrioritised(s: seq<Task>)
    requires forall t :: t in s ==> HasPriority(t)
    ensures Prioritised(s) == s
  {
    if s != [] {
      PrioritisedOfPrioritised(s[1..]);
    }
  }

  lemma {:induction false} PrioritisedOfUnprioritised(s: seq<Task>)
    requires forall t :: t in s ==> !HasPriority(t)
    ensures Prioritised(s) == []
  {
    if s != [] {
      PrioritisedOfUnprioritised(s[1..]);
    }
  }

  /** Prioritised tasks in non-increasing level, followed by unprioritised ones. */
  lemma ConcatIsOrdered(sp: seq<Task>, u: seq<Task>)
    requires forall t :: t in sp ==> HasPriority(t)
    requires forall t :: t in u ==> !HasPriority(t)
    requires LevelsNonIncreasing(sp)
    ensures var r := sp + u;
            && (forall i, j :: 0 <= i < j < |r| && !HasPriority(r[i]) ==> !HasPriority(r[j]))
            && (forall i, j :: 0 <= i < j < |r| && HasPriority(r[i]) && HasPriority(r[j]) ==> Level(r[i]) >= Level(r[j]))
  {
    var r := sp + u;
    forall i, j | 0 <= i < j < |r| && !HasPriority(r[i]) ensures !HasPriority(r[j]) {
      if i >= |sp| {
        assert r[j] == u[j - |sp|];
      }
    }
    forall i, j | 0 <= i < j < |r| && HasPriority(r[i]) && HasPriority(r[j])
      ensures Level(r[i]) >= Level(r[j])
    {
      if j < |sp| {
        assert r[i] == sp[i] && r[j] == sp[j];
      }
    }
  }

  /** With sorting off the sorted view is the active view; with it on, the
      sorted view meets everything the page's priority sort promises. */
  lemma SortedActiveTasksIsPriorityOrdered(active: seq<Task>, sortByPriority: bool)
    ensures !sortByPriority ==> SortedActiveTasks(active, sortByPriority) == active
    ensures sortByPriority ==> PriorityOrdered(SortedActiveTasks(active, sortByPriority), active)
  {
    if sortByPriority {
      var p, u := Prioritised(active), Unprioritised(active);
      var sp := ByLevelDesc(p);
      var r := sp + u;
      ByLevelDescFacts(p, 0);
      PrioritisedSplit(active);
      assert multiset(r) == multiset(active);
      forall t | t in sp ensures HasPriority(t) {
        assert t in multiset(sp);
      }
      ConcatIsOrdered(sp, u);
      PrioritisedAppend(sp, u);
      PrioritisedOfPrioritised(sp);
      PrioritisedOfUnprioritised(u);
      assert Prioritised(r) == sp;
      forall level ensures AtLevel(Prioritised(r), level) == AtLevel(Prioritised(active), level) {
        ByLevelDescFacts(p, level);
      }
    }
  }
}
