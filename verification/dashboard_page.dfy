/**
 * The overview page (app/dashboard/page.tsx): the status icon and type tint
 * of each recent-activity entry, and the completion figure drawn from the
 * dashboard counts. Its relative-time label is `TimeAgo.ActivityTimeAgo`.
 */
module DashboardPage {
  import opened Basics
  import opened Schema
  import Actions

  // ---------------------------------------------------------------------------
  // Status icon
  // ---------------------------------------------------------------------------

  const DoneIcon := "\U{2705}"
  const WorkingIcon := "\U{1F504}"
  const ListIcon := "\U{1F4CB}"

  /** `getStatusEmoji`: a tick for "completed", arrows for "in_progress", a clipboard for anything else. */
  function StatusEmoji(status: string): (icon: string)
    ensures icon == DoneIcon <==> status == "completed"
    ensures icon == WorkingIcon <==> status == "in_progress"
    ensures icon == ListIcon <==> status != "completed" && status != "in_progress"
  {
    if status == "completed" then DoneIcon
    else if status == "in_progress" then WorkingIcon
    else ListIcon
  }

  /** Over the four statuses a row can hold, open and archived entries look alike and the other two stand apart. */
  lemma StatusEmojiOfStatus(s: Status, u: Status)
    ensures StatusEmoji(StatusName(s)) == ListIcon <==> s == Open || s == Archived
    ensures StatusEmoji(StatusName(s)) == StatusEmoji(StatusName(u)) <==> s == u || (s in {Open, Archived} && u in {Open, Archived})
  {
  }

  // ---------------------------------------------------------------------------
  // Type tint
  // ---------------------------------------------------------------------------

  /** The colour family of an entry's type badge; `Garden` is the page's default palette. */
  datatype Tint = Red | Orange | Purple | Blue | Garden

  /** `getTypeColor`: BUG red, FIXME orange, SECURITY purple, OPTIMIZE blue, every other string the default. */
  function TypeColor(kind: string): (c: Tint)
    ensures c == Red <==> kind == "BUG"
    ensures c == Orange <==> kind == "FIXME"
    ensures c == Purple <==> kind == "SECURITY"
    ensures c == Blue <==> kind == "OPTIMIZE"
    ensures c == Garden <==> kind !in {"BUG", "FIXME", "SECURITY", "OPTIMIZE"}
  {
    if kind == "BUG" then Red
    else if kind == "FIXME" then Orange
    else if kind == "SECURITY" then Purple
    else if kind == "OPTIMIZE" then Blue
    else Garden
  }

  /** Over the ten task types: four get a tint of their own, the other six share the default. */
  lemma TypeColorOfType(t: TaskType, u: TaskType)
    ensures TypeColor(TypeName(t)) == Garden <==> t !in {Bug, Fixme, Security, Optimize}
    ensures TypeColor(TypeName(t)) != Garden && TypeColor(TypeName(t)) == TypeColor(TypeName(u)) ==> t == u
  {
  }

  // ---------------------------------------------------------------------------
  // Completion
  // ---------------------------------------------------------------------------

  /** `totalTasks`: open plus completed, 0 while there are no stats. */
  function TotalTasks(stats: Option<Actions.Stats>): (t: nat)
    ensures stats.None? ==> t == 0
    ensures stats.Some? ==> t == stats.value.openTasks + stats.value.completedTasks
  {
    match stats
    case None => 0
    case Some(s) => s.openTasks + s.completedTasks
  }

  function CompletedTasks(stats: Option<Actions.Stats>): nat {
    match stats
    case None => 0
    case Some(s) => s.completedTasks
  }

  /**
   * `completionRate`: 0 when there are no tasks, otherwise completed over
   * total as a percentage rounded to the nearest whole number, halves up,
   * in exact arithmetic: `floor(100c/t + 1/2)`.
   */
  function CompletionRate(stats: Option<Actions.Stats>): (r: nat)
    ensures r <= 100
    ensures TotalTasks(stats) == 0 ==> r == 0
    ensures var t, c := TotalTasks(stats), CompletedTasks(stats);
      t > 0 ==> 2 * t * r <= 200 * c + t < 2 * t * r + 2 * t
  {
    var t, c := TotalTasks(stats), CompletedTasks(stats);
    if t > 0 then
      RoundedPercent(c, t)
    else 0
  }

  /** `c` out of `t` as a whole percentage, rounded to the nearest, halves up. */
  function RoundedPercent(c: nat, t: nat): (r: nat)
    requires c <= t && t > 0
    ensures r <= 100
    ensures 2 * t * r <= 200 * c + t < 2 * t * r + 2 * t
  {
    var r := (200 * c + t) / (2 * t);
    assert 200 * c + t == 2 * t * r + (200 * c + t) % (2 * t);
    MulLe(2 * t, 101, r);
    r
  }

  /** The percentage is no figure other than the nearest one: two whole numbers within half a point of the true ratio are the same. */
  lemma {:induction false} RoundedPercentUnique(c: nat, t: nat, x: int)
    requires c <= t && t > 0
    requires 2 * t * x <= 200 * c + t < 2 * t * x + 2 * t
    ensures x == RoundedPercent(c, t)
  {
    var r := RoundedPercent(c, t);
    MulLe(2 * t, x + 1, r);
    MulLe(2 * t, r + 1, x);
  }

  lemma MulLe(k: nat, a: int, b: int)
    ensures a <= b ==> k * a <= k * b
  {
  }

  /** More completed tasks out of the same total never lower the figure. */
  lemma {:induction false} RoundedPercentMonotone(c1: nat, c2: nat, t: nat)
    requires c1 <= c2 <= t && t > 0
    ensures RoundedPercent(c1, t) <= RoundedPercent(c2, t)
  {
    var r1, r2 := RoundedPercent(c1, t), RoundedPercent(c2, t);
    MulLe(2 * t, r2 + 1, r1);
  }

  /** The figure reads 0 only below half a percent completed, and 100 from ninety-nine and a half percent on. */
  lemma RoundedPercentEnds(c: nat, t: nat)
    requires c <= t && t > 0
    ensures RoundedPercent(c, t) == 0 <==> 200 * c < t
    ensures RoundedPercent(c, t) == 100 <==> 199 * t <= 200 * c
  {
    var r := RoundedPercent(c, t);
    MulLe(2 * t, 1, r);
    MulLe(2 * t, r, 99);
  }

  /**
   * On the dashboard, the figure is the share of the user's tasks that are
   * completed among those that are not archived; nothing is shown as done
   * while no task is completed, and everything only once no task is open
   * or at most one in two hundred is.
   */
  lemma DashboardCompletion(uid: string, db: Actions.Db, now: Timestamp)
    ensures var stats := Actions.GetDashboardStats(Some(uid), db, now);
      var ts := Actions.UserTasks(db, uid);
      var r := CompletionRate(stats);
      && TotalTasks(stats) == |ts| - Count(ts, Actions.IsArchivedTask)
      && (CompletedTasks(stats) == 0 ==> r == 0)
      && (TotalTasks(stats) > 0 && stats.value.openTasks == 0 ==> r == 100)
  {
    var stats := Actions.GetDashboardStats(Some(uid), db, now);
    Actions.ArchivedCount(Actions.UserTasks(db, uid));
    if TotalTasks(stats) > 0 {
      RoundedPercentEnds(CompletedTasks(stats), TotalTasks(stats));
    }
  }
}
