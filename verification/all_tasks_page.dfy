/**
 * The all-tasks page (app/dashboard/all-tasks/page.tsx): the user's tasks
 * split into an open and a completed list, the two badges counting them, the
 * legend of six task types with their counts, and the empty state.
 */
module AllTasksPage {
  import opened Basics
  import opened Schema
  import Actions

  // ---------------------------------------------------------------------------
  // The two lists
  // ---------------------------------------------------------------------------

  /** The open list (open or in progress) and the completed list. */
  datatype Lists = Lists(open: seq<TaskRow>, completed: seq<TaskRow>)

  /**
   * The two filters: open and in-progress tasks in the first list, completed
   * ones in the second, each in the order fetched. Archived tasks are in
   * neither.
   */
  function Split(ts: seq<TaskRow>): (r: Lists)
    ensures forall i :: 0 <= i < |r.open| ==> r.open[i] in ts && IsActive(r.open[i].status)
    ensures forall i :: 0 <= i < |r.completed| ==> r.completed[i] in ts && r.completed[i].status == Completed
    ensures forall i :: 0 <= i < |ts| && IsActive(ts[i].status) ==> ts[i] in r.open
    ensures forall i :: 0 <= i < |ts| && ts[i].status == Completed ==> ts[i] in r.completed
    ensures |r.open| + |r.completed| == |ts| - Count(ts, Actions.IsArchivedTask)
  {
    Actions.ArchivedCount(ts);
    FilterSubset(ts, Actions.IsActiveTask);
    FilterComplete(ts, Actions.IsActiveTask);
    FilterSubset(ts, Actions.IsCompletedTask);
    FilterComplete(ts, Actions.IsCompletedTask);
    Lists(Filter(ts, Actions.IsActiveTask), Filter(ts, Actions.IsCompletedTask))
  }

  /** No task is in both lists, and an archived task is in none. */
  lemma SplitDisjoint(ts: seq<TaskRow>, t: TaskRow)
    ensures !(t in Split(ts).open && t in Split(ts).completed)
    ensures t.status == Archived ==> t !in Split(ts).open && t !in Split(ts).completed
  {
    var r := Split(ts);
    if t in r.open {
      var i :| 0 <= i < |r.open| && r.open[i] == t;
    }
    if t in r.completed {
      var i :| 0 <= i < |r.completed| && r.completed[i] == t;
    }
  }

  /** Splitting keeps the fetched order: a later stretch of tasks lands after an earlier one in each list. */
  lemma SplitKeepsOrder(a: seq<TaskRow>, b: seq<TaskRow>)
    ensures Split(a + b) == Lists(Split(a).open + Split(b).open, Split(a).completed + Split(b).completed)
  {
    FilterAppend(a, b, Actions.IsActiveTask);
    FilterAppend(a, b, Actions.IsCompletedTask);
  }

  /** The page's "N open" and "N done" badges agree with the dashboard's open and completed counts. */
  lemma BadgesMatchDashboard(uid: string, db: Actions.Db, now: Timestamp)
    ensures var lists := Split(Actions.UserTasks(db, uid));
      var stats := Actions.GetDashboardStats(Some(uid), db, now).value;
      |lists.open| == stats.openTasks && |lists.completed| == stats.completedTasks
  {
  }

  // ---------------------------------------------------------------------------
  // The legend
  // ---------------------------------------------------------------------------

  /** The six types the legend lists, in its order. */
  const LegendKinds: seq<TaskType> := [Todo, Fixme, Bug, Security, Optimize, Note]

  /** One legend chip: a type and how many tasks have it. */
  datatype Chip = Chip(kind: TaskType, count: nat)

  function OfKind(k: TaskType): TaskRow -> bool {
    (t: TaskRow) => t.kind == k
  }

  /** A type's place in the legend; the four types it does not list come after. */
  function Rank(k: TaskType): nat {
    match k
    case Todo => 0
    case Fixme => 1
    case Bug => 2
    case Security => 3
    case Optimize => 4
    case Note => 5
    case _ => 6
  }

  /** A chip per type of `kinds`, in that order, with the number of tasks of the type. */
  function ChipsOf(ts: seq<TaskRow>, kinds: seq<TaskType>): (r: seq<Chip>)
    ensures |r| == |kinds|
    ensures forall i :: 0 <= i < |r| ==> r[i] == Chip(kinds[i], Count(ts, OfKind(kinds[i])))
  {
    if kinds == [] then [] else [Chip(kinds[0], Count(ts, OfKind(kinds[0])))] + ChipsOf(ts, kinds[1..])
  }

  function HasTasks(c: Chip): bool {
    c.count > 0
  }

  function ChipRank(c: Chip): int {
    Rank(c.kind)
  }

  /**
   * The legend: for TODO, FIXME, BUG, SECURITY, OPTIMIZE and NOTE in that
   * order, a chip with the number of tasks of that type, left out when the
   * number is 0. ALERT, HACK, DEPRECATED and REVIEW never get a chip.
   */
  function Legend(ts: seq<TaskRow>): (r: seq<Chip>)
    ensures forall i :: 0 <= i < |r| ==> r[i].kind in LegendKinds
    ensures forall i :: 0 <= i < |r| ==> r[i].count == Count(ts, OfKind(r[i].kind)) && r[i].count > 0
    ensures forall i, j :: 0 <= i < j < |r| ==> Rank(r[i].kind) < Rank(r[j].kind)
  {
    var all := ChipsOf(ts, LegendKinds);
    var r := Filter(all, HasTasks);
    LegendKindsRanked();
    assert forall i :: 0 <= i < |all| ==> ChipRank(all[i]) == i;
    FilterSorted(all, HasTasks, ChipRank);
    FilteredChips(ts, LegendKinds);
    r
  }

  /** The chips kept by the filter are chips of the given types with their true counts. */
  lemma FilteredChips(ts: seq<TaskRow>, kinds: seq<TaskType>)
    ensures forall i :: 0 <= i < |Filter(ChipsOf(ts, kinds), HasTasks)| ==>
      var c := Filter(ChipsOf(ts, kinds), HasTasks)[i];
      c.kind in kinds && c.count == Count(ts, OfKind(c.kind))
  {
    var all := ChipsOf(ts, kinds);
    var r := Filter(all, HasTasks);
    FilterSubset(all, HasTasks);
    forall i | 0 <= i < |r| ensures r[i].kind in kinds && r[i].count == Count(ts, OfKind(r[i].kind)) {
      var j :| 0 <= j < |all| && all[j] == r[i];
    }
  }

  /** Every listed type with at least one task gets a chip, and only those do. */
  lemma LegendComplete(ts: seq<TaskRow>, k: TaskType)
    requires k in LegendKinds
    ensures Count(ts, OfKind(k)) > 0 <==> exists i :: 0 <= i < |Legend(ts)| && Legend(ts)[i].kind == k
  {
    var all := ChipsOf(ts, LegendKinds);
    var r := Legend(ts);
    assert r == Filter(all, HasTasks);
    if Count(ts, OfKind(k)) > 0 {
      FilterComplete(all, HasTasks);
      var j :| 0 <= j < |LegendKinds| && LegendKinds[j] == k;
      assert HasTasks(all[j]);
      var i :| 0 <= i < |r| && r[i] == all[j];
    }
  }

  /** Each listed type's rank is its place in the legend. */
  lemma LegendKindsRanked()
    ensures forall i :: 0 <= i < |LegendKinds| ==> Rank(LegendKinds[i]) == i
  {
    assert LegendKinds[0] == Todo && LegendKinds[1] == Fixme && LegendKinds[2] == Bug;
    assert LegendKinds[3] == Security && LegendKinds[4] == Optimize && LegendKinds[5] == Note;
  }

  /** Filtering a sequence strictly ordered by a key leaves it strictly ordered. */
  lemma {:induction false} FilterSorted<T>(s: seq<T>, p: T -> bool, key: T -> int)
    requires forall i, j :: 0 <= i < j < |s| ==> key(s[i]) < key(s[j])
    ensures forall i, j :: 0 <= i < j < |Filter(s, p)| ==> key(Filter(s, p)[i]) < key(Filter(s, p)[j])
  {
    if s != [] {
      var r, rest := Filter(s, p), Filter(s[1..], p);
      FilterSorted(s[1..], p, key);
      if p(s[0]) {
        FilterKeysAbove(s[1..], p, key, key(s[0]));
        assert r == [s[0]] + rest;
        forall i, j | 0 <= i < j < |r| ensures key(r[i]) < key(r[j]) {
          assert r[j] == rest[j - 1];
          if i == 0 {
            assert r[i] == s[0];
          } else {
            assert r[i] == rest[i - 1];
          }
        }
      } else {
        assert r == rest;
      }
    }
  }

  /** Filtering keeps every key above a bound all keys were above. */
  lemma {:induction false} FilterKeysAbove<T>(s: seq<T>, p: T -> bool, key: T -> int, b: int)
    requires forall i :: 0 <= i < |s| ==> b < key(s[i])
    ensures forall i :: 0 <= i < |Filter(s, p)| ==> b < key(Filter(s, p)[i])
  {
    if s != [] {
      FilterKeysAbove(s[1..], p, key, b);
      var r, rest := Filter(s, p), Filter(s[1..], p);
      if p(s[0]) {
        assert r == [s[0]] + rest;
        forall i | 0 <= i < |r| ensures b < key(r[i]) {
          if i == 0 {
            assert r[i] == s[0];
          } else {
            assert r[i] == rest[i - 1];
          }
        }
      } else {
        assert r == rest;
      }
    }
  }

  /** The chips' counts add up to the tasks of the six listed types. */
  lemma LegendTotal(ts: seq<TaskRow>)
    ensures ChipTotal(Legend(ts)) == Count(ts, InKinds(LegendKinds))
  {
    var all := ChipsOf(ts, LegendKinds);
    FilterChipTotal(all);
    ChipsOfTotal(ts, LegendKinds);
  }

  function ChipTotal(r: seq<Chip>): nat {
    if r == [] then 0 else r[0].count + ChipTotal(r[1..])
  }

  /** The tasks whose type is among `kinds`. */
  function InKinds(kinds: seq<TaskType>): TaskRow -> bool {
    (t: TaskRow) => t.kind in kinds
  }

  /** Dropping the chips with no tasks loses nothing from the total. */
  lemma {:induction false} FilterChipTotal(r: seq<Chip>)
    ensures ChipTotal(Filter(r, HasTasks)) == ChipTotal(r)
  {
    if r != [] {
      FilterChipTotal(r[1..]);
      var f := Filter(r[1..], HasTasks);
      if HasTasks(r[0]) {
        assert Filter(r, HasTasks) == [r[0]] + f && ([r[0]] + f)[1..] == f;
      } else {
        assert Filter(r, HasTasks) == f;
      }
    }
  }

  /** Over distinct types, the chip counts add up to the tasks of those types. */
  lemma {:induction false} ChipsOfTotal(ts: seq<TaskRow>, kinds: seq<TaskType>)
    requires forall i, j :: 0 <= i < j < |kinds| ==> kinds[i] != kinds[j]
    ensures ChipTotal(ChipsOf(ts, kinds)) == Count(ts, InKinds(kinds))
  {
    if kinds == [] {
      assert forall i :: 0 <= i < |ts| ==> !InKinds(kinds)(ts[i]);
    } else {
      var r := ChipsOf(ts, kinds);
      assert r[1..] == ChipsOf(ts, kinds[1..]);
      ChipsOfTotal(ts, kinds[1..]);
      var k0, rest := kinds[0], kinds[1..];
      assert kinds == [k0] + rest;
      assert k0 !in rest;
      forall i | 0 <= i < |ts|
        ensures InKinds(kinds)(ts[i]) <==> OfKind(k0)(ts[i]) || InKinds(rest)(ts[i])
        ensures !(OfKind(k0)(ts[i]) && InKinds(rest)(ts[i]))
      {
      }
      CountSplit(ts, InKinds(kinds), OfKind(kinds[0]), InKinds(kinds[1..]));
    }
  }

  /** A predicate that is the disjoint union of two others counts as their sum. */
  lemma {:induction false} CountSplit<T>(s: seq<T>, p: T -> bool, q: T -> bool, r: T -> bool)
    requires forall i :: 0 <= i < |s| ==> (p(s[i]) <==> q(s[i]) || r(s[i]))
    requires forall i :: 0 <= i < |s| ==> !(q(s[i]) && r(s[i]))
    ensures Count(s, p) == Count(s, q) + Count(s, r)
  {
    if s != [] {
      CountSplit(s[1..], p, q, r);
    }
  }

  // ---------------------------------------------------------------------------
  // The page
  // ---------------------------------------------------------------------------

  /** Below the legend: the empty state, or a section per non-empty list. */
  datatype Body = EmptyState | Sections(open: Option<seq<TaskRow>>, completed: Option<seq<TaskRow>>)

  /** What the page shows for the fetched tasks. */
  datatype View = View(openBadge: nat, doneBadge: nat, legend: seq<Chip>, body: Body)

  /**
   * The page: the badges count the two lists, and below the legend the
   * empty state when there are no tasks at all, otherwise the "In Progress"
   * and "Completed" sections, each only when its list is not empty.
   */
  function Render(ts: seq<TaskRow>): (v: View)
    ensures v.body == EmptyState <==> ts == []
    ensures v.legend == Legend(ts)
    ensures v.openBadge == Count(ts, Actions.IsActiveTask) && v.doneBadge == Count(ts, Actions.IsCompletedTask)
    ensures v.body.Sections? ==> (v.body.open.Some? <==> v.openBadge > 0) && (v.body.completed.Some? <==> v.doneBadge > 0)
    ensures v.body.Sections? && v.body.open.Some? ==> v.body.open.value == Split(ts).open
    ensures v.body.Sections? && v.body.completed.Some? ==> v.body.completed.value == Split(ts).completed
  {
    var lists := Split(ts);
    var body :=
      if |ts| > 0 then
        Sections(if |lists.open| > 0 then Some(lists.open) else None,
                 if |lists.completed| > 0 then Some(lists.completed) else None)
      else EmptyState;
    View(|lists.open|, |lists.completed|, Legend(ts), body)
  }

  /**
   * The empty state depends on the fetched tasks, not on the lists: when
   * every task is archived the page shows neither the empty state nor a
   * section.
   */
  lemma ArchivedOnlyShowsNothing(ts: seq<TaskRow>)
    requires ts != [] && forall i :: 0 <= i < |ts| ==> ts[i].status == Archived
    ensures Render(ts).body == Sections(None, None)
  {
    assert Count(ts, Actions.IsActiveTask) == 0 && Count(ts, Actions.IsCompletedTask) == 0;
  }

  /** Every card the page shows is a task of the user's, shown once per list it belongs to. */
  lemma RenderShowsOwnTasks(uid: string, db: Actions.Db, t: TaskRow)
    requires t in db.tasks && t.userId == uid && t.status != Archived
    ensures var v := Render(Actions.UserTasks(db, uid));
      v.body.Sections? &&
      (IsActive(t.status) ==> v.body.open.Some? && t in v.body.open.value) &&
      (t.status == Completed ==> v.body.completed.Some? && t in v.body.completed.value)
  {
    var ts := Actions.UserTasks(db, uid);
    var i :| 0 <= i < |db.tasks| && db.tasks[i] == t;
    assert Actions.OwnedBy(uid)(db.tasks[i]);
    FilterComplete(db.tasks, Actions.OwnedBy(uid));
    assert t in ts;
    var j :| 0 <= j < |ts| && ts[j] == t;
    if IsActive(t.status) {
      assert Actions.IsActiveTask(ts[j]);
    } else {
      assert Actions.IsCompletedTask(ts[j]);
    }
  }
}
