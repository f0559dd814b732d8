/**
 * The server actions of lib/db/actions.ts, over an in-memory store. The
 * store is the two tables as sequences of rows; the signed-in user is a
 * `Session` (absent when nobody is signed in); a thrown error is an `Err`.
 * Every write succeeds: failures reported by the database itself are not
 * modelled.
 */
module Actions {
  import opened Basics
  import opened Schema

  /** The two tables. */
  datatype Db = Db(repos: seq<RepoRow>, tasks: seq<TaskRow>)

  /** The id of the signed-in user, if any. */
  type Session = Option<string>

  /** The errors the actions throw. */
  datatype Failure = Unauthorized | TaskNotFound | RepositoryNotFound

  /** The store after an action, and what the action returned or threw. */
  datatype Step<T> = Step(db: Db, result: Result<T, Failure>)

  /** One day in milliseconds: "yesterday" is this long before now. */
  const DayMs: int := 86400000

  /** `s` used as a condition: present and not the empty string. */
  predicate Truthy(s: Option<string>) {
    s.Some? && s.value != ""
  }

  function OwnedBy(uid: string): TaskRow -> bool {
    (t: TaskRow) => t.userId == uid
  }

  function RepoOwnedBy(uid: string): RepoRow -> bool {
    (r: RepoRow) => r.userId == uid
  }

  /** The rows of `tasks` the user owns (`.eq("user_id", …)`), in table order. */
  function UserTasks(db: Db, uid: string): seq<TaskRow> {
    Filter(db.tasks, OwnedBy(uid))
  }

  function UserRepos(db: Db, uid: string): seq<RepoRow> {
    Filter(db.repos, RepoOwnedBy(uid))
  }

  // ---------------------------------------------------------------------------
  // getDashboardStats
  // ---------------------------------------------------------------------------

  datatype Stats = Stats(totalRepos: nat, openTasks: nat, completedTasks: nat, anchors: nat, newOpenSinceYesterday: nat)

  function IsActiveTask(t: TaskRow): bool {
    IsActive(t.status)
  }

  function IsCompletedTask(t: TaskRow): bool {
    t.status == Completed
  }

  function HasAnchor(t: TaskRow): bool {
    Truthy(t.filePath)
  }

  /** Active and created strictly after `since`. */
  function IsNewActive(since: Timestamp): TaskRow -> bool {
    (t: TaskRow) => t.createdAt > since && IsActive(t.status)
  }

  /**
   * `getDashboardStats` at time `now`: nothing without a session; otherwise
   * the user's repository count and four counts over the user's tasks.
   */
  function GetDashboardStats(session: Session, db: Db, now: Timestamp): (r: Option<Stats>)
    ensures r.None? <==> session.None?
    ensures r.Some? ==>
      var ts := UserTasks(db, session.value);
      && r.value.openTasks + r.value.completedTasks <= |ts|
      && r.value.newOpenSinceYesterday <= r.value.openTasks
      && r.value.anchors <= |ts|
      && r.value.totalRepos <= |db.repos|
  ensures r.Some? ==>
      var uid := session.value;
      var ts := UserTasks(db, uid);
      && r.value.totalRepos == Count(db.repos, RepoOwnedBy(uid))
      && r.value.openTasks == Count(ts, IsActiveTask)
      && r.value.completedTasks == Count(ts, IsCompletedTask)
      && r.value.anchors == Count(ts, HasAnchor)
      && r.value.newOpenSinceYesterday == Count(ts, IsNewActive(now - DayMs))
  {
    match session
    case None => None
    case Some(uid) =>
      var ts := UserTasks(db, uid);
      CountDisjoint(ts, IsActiveTask, IsCompletedTask);
      CountMonotone(ts, IsNewActive(now - DayMs), IsActiveTask);
      Some(Stats(
        Count(db.repos, RepoOwnedBy(uid)),
        Count(ts, IsActiveTask),
        Count(ts, IsCompletedTask),
        Count(ts, HasAnchor),
        Count(ts, IsNewActive(now - DayMs))))
  }

  /**
   * What each count counts: a task counts as open exactly when it is neither
   * completed nor archived, and a task without a file path, or with an empty
   * one, is not an anchor.
   */
  lemma StatsMeaning(uid: string, db: Db, now: Timestamp)
    ensures var s := GetDashboardStats(Some(uid), db, now).value;
      var ts := UserTasks(db, uid);
      && (s.openTasks == 0 <==> forall i :: 0 <= i < |ts| ==> ts[i].status == Completed || ts[i].status == Archived)
      && (s.completedTasks == 0 <==> forall i :: 0 <= i < |ts| ==> ts[i].status != Completed)
      && (s.anchors == 0 <==> forall i :: 0 <= i < |ts| ==> ts[i].filePath.None? || ts[i].filePath.value == "")
  {
    var ts := UserTasks(db, uid);
    assert forall i :: 0 <= i < |ts| ==> (!IsActiveTask(ts[i]) <==> ts[i].status == Completed || ts[i].status == Archived);
    assert forall i :: 0 <= i < |ts| ==> (!HasAnchor(ts[i]) <==> ts[i].filePath.None? || ts[i].filePath.value == "");
  }

  /** Open and completed tasks make up all of the user's tasks exactly when none is archived. */
  lemma StatsNoArchived(uid: string, db: Db, now: Timestamp)
    ensures var s := GetDashboardStats(Some(uid), db, now).value;
      var ts := UserTasks(db, uid);
      s.openTasks + s.completedTasks == |ts| <==> forall i :: 0 <= i < |ts| ==> ts[i].status != Archived
  {
    ArchivedCount(UserTasks(db, uid));
  }

  function IsArchivedTask(t: TaskRow): bool {
    t.status == Archived
  }

  /** Open, completed and archived tasks together are all tasks. */
  lemma {:induction false} ArchivedCount(ts: seq<TaskRow>)
    ensures Count(ts, IsActiveTask) + Count(ts, IsCompletedTask) + Count(ts, IsArchivedTask) == |ts|
  {
    if ts != [] {
      ArchivedCount(ts[1..]);
    }
  }

  // ---------------------------------------------------------------------------
  // getTaskCountsByRepo
  // ---------------------------------------------------------------------------

  datatype Counts = Counts(total: nat, open: nat, completed: nat)

  /** `idToGithubId`: repository id to GitHub id; a later row overrides an earlier one. */
  function GithubIdIndex(repos: seq<RepoRow>): (m: map<string, int>)
    ensures forall i :: 0 <= i < |repos| ==> repos[i].id in m
    ensures forall id :: id in m ==> exists i :: 0 <= i < |repos| && repos[i].id == id && repos[i].githubId == m[id]
  {
    if repos == [] then map[]
    else
      var init := repos[..|repos| - 1];
      var last := repos[|repos| - 1];
      var m := GithubIdIndex(init);
      assert forall i :: 0 <= i < |init| ==> repos[i] == init[i];
      m[last.id := last.githubId]
  }

  /** The GitHub id a task is counted under, if any: its repository's, when that is known and not 0. */
  function KeyOf(gh: map<string, int>, t: TaskRow): Option<int> {
    if t.repositoryId in gh && gh[t.repositoryId] != 0 then Some(gh[t.repositoryId]) else None
  }

  /** One task of the `forEach`: create the entry if needed, then bump its counters. */
  function Bump(m: map<int, Counts>, gh: map<string, int>, t: TaskRow): map<int, Counts> {
    match KeyOf(gh, t)
    case None => m
    case Some(k) =>
      var c := if k in m then m[k] else Counts(0, 0, 0);
      m[k := Counts(
        c.total + 1,
        c.open + (if IsActive(t.status) then 1 else 0),
        c.completed + (if !IsActive(t.status) && t.status == Completed then 1 else 0))]
  }

  /** The counts map after the `forEach` has run over `ts`. */
  function Tally(ts: seq<TaskRow>, gh: map<string, int>): map<int, Counts> {
    if ts == [] then map[] else Bump(Tally(ts[..|ts| - 1], gh), gh, ts[|ts| - 1])
  }

  function HitsKey(gh: map<string, int>, k: int): TaskRow -> bool {
    (t: TaskRow) => KeyOf(gh, t) == Some(k)
  }

  function HitsKeyActive(gh: map<string, int>, k: int): TaskRow -> bool {
    (t: TaskRow) => KeyOf(gh, t) == Some(k) && IsActive(t.status)
  }

  function HitsKeyCompleted(gh: map<string, int>, k: int): TaskRow -> bool {
    (t: TaskRow) => KeyOf(gh, t) == Some(k) && t.status == Completed
  }

  /**
   * The tally, independently of the loop: a key is present exactly when some
   * task is counted under it, and its three counters count the tasks counted
   * under it, those of them that are active, and those that are completed.
   */
  lemma {:induction false} TallyMeaning(ts: seq<TaskRow>, gh: map<string, int>, k: int)
    ensures k in Tally(ts, gh) <==> Count(ts, HitsKey(gh, k)) > 0
    ensures k in Tally(ts, gh) ==>
      && Tally(ts, gh)[k].total == Count(ts, HitsKey(gh, k))
      && Tally(ts, gh)[k].open == Count(ts, HitsKeyActive(gh, k))
      && Tally(ts, gh)[k].completed == Count(ts, HitsKeyCompleted(gh, k))
  {
    if ts != [] {
      var init, last := ts[..|ts| - 1], ts[|ts| - 1];
      assert ts == init + [last];
      TallyMeaning(init, gh, k);
      CountSnoc(init, last, HitsKey(gh, k));
      CountSnoc(init, last, HitsKeyActive(gh, k));
      CountSnoc(init, last, HitsKeyCompleted(gh, k));
      BumpAt(Tally(init, gh), gh, last, k);
    }
  }

  /** What one step of the `forEach` does to the entry under `k`. */
  lemma BumpAt(m: map<int, Counts>, gh: map<string, int>, t: TaskRow, k: int)
    ensures k in Bump(m, gh, t) <==> k in m || KeyOf(gh, t) == Some(k)
    ensures k in Bump(m, gh, t) ==>
      var c := if k in m then m[k] else Counts(0, 0, 0);
      var hit := KeyOf(gh, t) == Some(k);
      Bump(m, gh, t)[k] == Counts(
        c.total + (if hit then 1 else 0),
        c.open + (if hit && IsActive(t.status) then 1 else 0),
        c.completed + (if hit && t.status == Completed then 1 else 0))
  {
  }

  /** Every entry of a tally has its open and completed counts within its total, under a non-zero key. */
  lemma TallyBounded(ts: seq<TaskRow>, gh: map<string, int>, k: int)
    requires k in Tally(ts, gh)
    ensures k != 0
    ensures Tally(ts, gh)[k].open + Tally(ts, gh)[k].completed <= Tally(ts, gh)[k].total
  {
    TallyMeaning(ts, gh, k);
    CountTogether(ts, gh, k);
  }

  /** The active and the completed tasks under a key are together at most all tasks under it. */
  lemma {:induction false} CountTogether(ts: seq<TaskRow>, gh: map<string, int>, k: int)
    ensures Count(ts, HitsKeyActive(gh, k)) + Count(ts, HitsKeyCompleted(gh, k)) <= Count(ts, HitsKey(gh, k))
  {
    if ts != [] {
      CountTogether(ts[1..], gh, k);
    }
  }

  /**
   * `getTaskCountsByRepo`: `{}` without a session or when the user has no
   * repositories; otherwise the tally of the user's tasks under the GitHub
   * ids of the user's repositories.
   */
  method TaskCountsByRepo(session: Session, db: Db) returns (m: map<int, Counts>)
    ensures session.None? ==> m == map[]
    ensures session.Some? && UserRepos(db, session.value) == [] ==> m == map[]
    ensures session.Some? && UserRepos(db, session.value) != [] ==>
      m == Tally(UserTasks(db, session.value), GithubIdIndex(UserRepos(db, session.value)))
  {
    if session.None? {
      return map[];
    }
    var repos := UserRepos(db, session.value);
    if |repos| == 0 {
      return map[];
    }
    var ts := UserTasks(db, session.value);
    var gh := GithubIdIndex(repos);
    m := map[];
    var i := 0;
    while i < |ts|
      invariant 0 <= i <= |ts|
      invariant m == Tally(ts[..i], gh)
    {
      assert ts[..i + 1][..i] == ts[..i];
      m := Bump(m, gh, ts[i]);
      i := i + 1;
    }
    assert ts[..|ts|] == ts;
  }

  // ---------------------------------------------------------------------------
  // toggleTaskStar / toggleRepoPin
  // ---------------------------------------------------------------------------

  function HasTaskId(id: string): TaskRow -> bool {
    (t: TaskRow) => t.id == id
  }

  function HasRepoId(id: string): RepoRow -> bool {
    (r: RepoRow) => r.id == id
  }

  /**
   * `toggleTaskStar`: reads the row with `taskId` (`.single()`: exactly one
   * must match), stores the negated flag on it and returns that flag; throws
   * "Task not found" and changes nothing otherwise. No session is required.
   */
  function ToggleTaskStar(db: Db, taskId: string): (s: Step<bool>)
    ensures s.result.Err? <==> Count(db.tasks, HasTaskId(taskId)) != 1
    ensures s.result.Err? ==> s.result.error == TaskNotFound && s.db == db
    ensures s.result.Ok? ==>
      && s.db.repos == db.repos
      && |s.db.tasks| == |db.tasks|
      && forall i :: 0 <= i < |db.tasks| ==>
        if db.tasks[i].id == taskId then
          s.result.value == !db.tasks[i].isStarred && s.db.tasks[i] == db.tasks[i].(isStarred := s.result.value)
        else s.db.tasks[i] == db.tasks[i]
  {
    match Single(db.tasks, HasTaskId(taskId))
    case None => Step(db, Err(TaskNotFound))
    case Some(t) =>
      var b := !t.isStarred;
      Step(db.(tasks := MapWhere(db.tasks, HasTaskId(taskId), (x: TaskRow) => x.(isStarred := b))), Ok(b))
  }

  /** Starring twice restores the store, and the two calls return opposite flags. */
  lemma ToggleTaskStarTwice(db: Db, taskId: string)
    requires ToggleTaskStar(db, taskId).result.Ok?
    ensures var s1 := ToggleTaskStar(db, taskId);
      var s2 := ToggleTaskStar(s1.db, taskId);
      s2.result.Ok? && s2.result.value == !s1.result.value && s2.db == db
  {
    var s1 := ToggleTaskStar(db, taskId);
    SameIdsCount(db.tasks, s1.db.tasks, taskId);
    var s2 := ToggleTaskStar(s1.db, taskId);
    assert exists i :: 0 <= i < |db.tasks| && db.tasks[i].id == taskId by {
      assert Count(db.tasks, HasTaskId(taskId)) != 0;
    }
    StarFlipRestores(db.tasks, s1.db.tasks, s2.db.tasks, taskId, s1.result.value, s2.result.value);
  }

  /** Two flips of the star on the rows carrying `id` give back the rows. */
  lemma StarFlipRestores(a: seq<TaskRow>, b: seq<TaskRow>, c: seq<TaskRow>, id: string, v1: bool, v2: bool)
    requires |b| == |a| && |c| == |a|
    requires forall i :: 0 <= i < |a| ==>
      if a[i].id == id then v1 == !a[i].isStarred && b[i] == a[i].(isStarred := v1) else b[i] == a[i]
    requires forall i :: 0 <= i < |b| ==>
      if b[i].id == id then v2 == !b[i].isStarred && c[i] == b[i].(isStarred := v2) else c[i] == b[i]
    requires exists i :: 0 <= i < |a| && a[i].id == id
    ensures c == a && v2 == !v1
  {
    var k :| 0 <= k < |a| && a[k].id == id;
    assert b[k].id == id;
    assert forall i :: 0 <= i < |a| ==> c[i] == a[i];
  }

  /** Rewriting rows without changing ids keeps the number of rows carrying an id. */
  lemma {:induction false} SameIdsCount(a: seq<TaskRow>, b: seq<TaskRow>, id: string)
    requires |a| == |b| && forall i :: 0 <= i < |a| ==> a[i].id == b[i].id
    ensures Count(a, HasTaskId(id)) == Count(b, HasTaskId(id))
  {
    if a != [] {
      SameIdsCount(a[1..], b[1..], id);
    }
  }

  /**
   * `toggleRepoPin`: the same flip on the `is_pinned` flag of the repository
   * with `repoId`; throws "Repository not found" otherwise.
   */
  function ToggleRepoPin(db: Db, repoId: string): (s: Step<bool>)
    ensures s.result.Err? <==> Count(db.repos, HasRepoId(repoId)) != 1
    ensures s.result.Err? ==> s.result.error == RepositoryNotFound && s.db == db
    ensures s.result.Ok? ==>
      && s.db.tasks == db.tasks
      && |s.db.repos| == |db.repos|
      && forall i :: 0 <= i < |db.repos| ==>
        if db.repos[i].id == repoId then
          s.result.value == !db.repos[i].isPinned && s.db.repos[i] == db.repos[i].(isPinned := s.result.value)
        else s.db.repos[i] == db.repos[i]
  {
    match Single(db.repos, HasRepoId(repoId))
    case None => Step(db, Err(RepositoryNotFound))
    case Some(r) =>
      var b := !r.isPinned;
      Step(db.(repos := MapWhere(db.repos, HasRepoId(repoId), (x: RepoRow) => x.(isPinned := b))), Ok(b))
  }

  /** Pinning twice restores the store, and the two calls return opposite flags. */
  lemma ToggleRepoPinTwice(db: Db, repoId: string)
    requires ToggleRepoPin(db, repoId).result.Ok?
    ensures var s1 := ToggleRepoPin(db, repoId);
      var s2 := ToggleRepoPin(s1.db, repoId);
      s2.result.Ok? && s2.result.value == !s1.result.value && s2.db == db
  {
    var s1 := ToggleRepoPin(db, repoId);
    SameRepoIdsCount(db.repos, s1.db.repos, repoId);
    var s2 := ToggleRepoPin(s1.db, repoId);
    assert exists i :: 0 <= i < |db.repos| && db.repos[i].id == repoId by {
      assert Count(db.repos, HasRepoId(repoId)) != 0;
    }
    PinFlipRestores(db.repos, s1.db.repos, s2.db.repos, repoId, s1.result.value, s2.result.value);
  }

  /** Two flips of the pin on the rows carrying `id` give back the rows. */
  lemma PinFlipRestores(a: seq<RepoRow>, b: seq<RepoRow>, c: seq<RepoRow>, id: string, v1: bool, v2: bool)
    requires |b| == |a| && |c| == |a|
    requires forall i :: 0 <= i < |a| ==>
      if a[i].id == id then v1 == !a[i].isPinned && b[i] == a[i].(isPinned := v1) else b[i] == a[i]
    requires forall i :: 0 <= i < |b| ==>
      if b[i].id == id then v2 == !b[i].isPinned && c[i] == b[i].(isPinned := v2) else c[i] == b[i]
    requires exists i :: 0 <= i < |a| && a[i].id == id
    ensures c == a && v2 == !v1
  {
    var k :| 0 <= k < |a| && a[k].id == id;
    assert b[k].id == id;
    assert forall i :: 0 <= i < |a| ==> c[i] == a[i];
  }

  lemma {:induction false} SameRepoIdsCount(a: seq<RepoRow>, b: seq<RepoRow>, id: string)
    requires |a| == |b| && forall i :: 0 <= i < |a| ==> a[i].id == b[i].id
    ensures Count(a, HasRepoId(id)) == Count(b, HasRepoId(id))
  {
    if a != [] {
      SameRepoIdsCount(a[1..], b[1..], id);
    }
  }

  // ---------------------------------------------------------------------------
  // updateTaskStatus / deleteTask
  // ---------------------------------------------------------------------------

  /**
   * `updateTaskStatus`: every row with `taskId` gets status completed when
   * `completed` holds and open otherwise, whatever its status was. A missing
   * id updates nothing and is not an error; no session is required.
   */
  function UpdateTaskStatus(db: Db, taskId: string, completed: bool): (r: Db)
    ensures r.repos == db.repos && |r.tasks| == |db.tasks|
    ensures forall i :: 0 <= i < |db.tasks| && db.tasks[i].id == taskId ==>
      r.tasks[i] == db.tasks[i].(status := if completed then Completed else Open)
    ensures forall i :: 0 <= i < |db.tasks| && db.tasks[i].id != taskId ==> r.tasks[i] == db.tasks[i]
  {
    var st := if completed then Completed else Open;
    db.(tasks := MapWhere(db.tasks, HasTaskId(taskId), (t: TaskRow) => t.(status := st)))
  }

  /** The last status update wins: the earlier one leaves no trace. */
  lemma UpdateTaskStatusLastWins(db: Db, taskId: string, first: bool, second: bool)
    ensures UpdateTaskStatus(UpdateTaskStatus(db, taskId, first), taskId, second) == UpdateTaskStatus(db, taskId, second)
  {
    var a := UpdateTaskStatus(UpdateTaskStatus(db, taskId, first), taskId, second);
    var b := UpdateTaskStatus(db, taskId, second);
    assert a.tasks == b.tasks by {
      forall i | 0 <= i < |db.tasks| ensures a.tasks[i] == b.tasks[i] {
      }
    }
  }

  /** Un-ticking a task reopens it even when it was in progress before. */
  lemma ReopenAfterComplete(db: Db, taskId: string, i: nat)
    requires i < |db.tasks| && db.tasks[i].id == taskId
    ensures UpdateTaskStatus(UpdateTaskStatus(db, taskId, true), taskId, false).tasks[i].status == Open
    ensures UpdateTaskStatus(db, taskId, true).tasks[i].status == Completed
  {
  }

  /**
   * `deleteTask`: removes every row with `taskId` and keeps the others in
   * order. A missing id deletes nothing and is not an error.
   */
  function DeleteTask(db: Db, taskId: string): (r: Db)
    ensures r.repos == db.repos
    ensures |r.tasks| == |db.tasks| - Count(db.tasks, HasTaskId(taskId))
    ensures forall i :: 0 <= i < |r.tasks| ==> r.tasks[i].id != taskId && r.tasks[i] in db.tasks
    ensures forall i :: 0 <= i < |db.tasks| && db.tasks[i].id != taskId ==> db.tasks[i] in r.tasks
  {
    CountComplement(db.tasks, HasTaskId(taskId), NotTaskId(taskId));
    FilterSubset(db.tasks, NotTaskId(taskId));
    FilterComplete(db.tasks, NotTaskId(taskId));
    db.(tasks := Filter(db.tasks, NotTaskId(taskId)))
  }

  function NotTaskId(id: string): TaskRow -> bool {
    (t: TaskRow) => t.id != id
  }

  /** Deleting an id no row carries changes nothing; deleting twice is deleting once. */
  lemma DeleteTaskIdempotent(db: Db, taskId: string)
    ensures Count(db.tasks, HasTaskId(taskId)) == 0 ==> DeleteTask(db, taskId) == db
    ensures DeleteTask(DeleteTask(db, taskId), taskId) == DeleteTask(db, taskId)
  {
    var once := DeleteTask(db, taskId);
    FilterAll(once.tasks, NotTaskId(taskId));
    if Count(db.tasks, HasTaskId(taskId)) == 0 {
      FilterAll(db.tasks, NotTaskId(taskId));
    }
  }

  // ---------------------------------------------------------------------------
  // ensureRepository
  // ---------------------------------------------------------------------------

  /** The repository as the GitHub API describes it. */
  datatype GitHubRepo = GitHubRepo(
    id: int,
    name: string,
    fullName: string,
    description: Option<string>,
    htmlUrl: string,
    defaultBranch: string,
    isPrivate: bool,
    language: Option<string>)

  function HasGithubId(ghId: int): RepoRow -> bool {
    (r: RepoRow) => r.githubId == ghId
  }

  /** The insert `ensureRepository` sends for the user `uid`. */
  function RepoInsertOf(uid: string, g: GitHubRepo): RepoInsert {
    RepoInsert(None, uid, g.id, g.name, g.fullName, g.description, g.htmlUrl,
      Some(g.defaultBranch), Some(g.isPrivate), g.language, None, None, None, None)
  }

  /**
   * `ensureRepository` as written: throws "Unauthorized" without a session;
   * returns the one row with the same GitHub id, whoever owns it; otherwise
   * inserts a row for the user under the fresh id `newId` and returns it.
   */
  function EnsureRepository(session: Session, db: Db, g: GitHubRepo, newId: string, now: Timestamp, d: ColumnDefaults): (s: Step<RepoRow>)
    ensures s.result.Err? <==> session.None?
    ensures s.result.Err? ==> s.result.error == Unauthorized && s.db == db
    ensures session.Some? && Count(db.repos, HasGithubId(g.id)) == 1 ==>
      s.db == db && s.result.value in db.repos && s.result.value.githubId == g.id
    ensures session.Some? && Count(db.repos, HasGithubId(g.id)) != 1 ==>
      var r := s.result.value;
      && s.db == db.(repos := db.repos + [r])
      && r.id == newId && r.userId == session.value && r.githubId == g.id
      && r.name == g.name && r.fullName == g.fullName && r.url == g.htmlUrl
      && r.description == g.description && r.defaultBranch == g.defaultBranch
      && r.isPrivate == g.isPrivate && r.language == g.language
  {
    match session
    case None => Step(db, Err(Unauthorized))
    case Some(uid) =>
      match Single(db.repos, HasGithubId(g.id))
      case Some(existing) => Step(db, Ok(existing))
      case None =>
        var row := RepoRowOf(RepoInsertOf(uid, g), newId, now, d);
        Step(db.(repos := db.repos + [row]), Ok(row))
  }

  /**
   * While at most one row carries the GitHub id, a second call changes
   * nothing and returns the row the first call returned.
   */
  lemma EnsureRepositoryIdempotent(session: Session, db: Db, g: GitHubRepo, id1: string, id2: string, t1: Timestamp, t2: Timestamp, d: ColumnDefaults)
    requires Count(db.repos, HasGithubId(g.id)) <= 1
    ensures var s1 := EnsureRepository(session, db, g, id1, t1, d);
      var s2 := EnsureRepository(session, s1.db, g, id2, t2, d);
      s2 == Step(s1.db, s1.result)
  {
    var s1 := EnsureRepository(session, db, g, id1, t1, d);
    if session.Some? && Count(db.repos, HasGithubId(g.id)) == 0 {
      var r := s1.result.value;
      CountAppend(db.repos, [r], HasGithubId(g.id));
      assert [r][1..] == [];
    }
  }

  /**
   * The lookup is not restricted to the user: a repository another user
   * synced is handed back to a second user instead of one of their own.
   */
  lemma EnsureRepositoryReturnsOtherUsersRow(g: GitHubRepo, d: ColumnDefaults)
    ensures var alices := RepoRowOf(RepoInsertOf("alice", g), "r1", 0, d);
      var s := EnsureRepository(Some("bob"), Db([alices], []), g, "r2", 1, d);
      s.result.Ok? && s.result.value.userId == "alice"
  {
    var alices := RepoRowOf(RepoInsertOf("alice", g), "r1", 0, d);
    assert [alices][1..] == [];
  }

  /**
   * `ensureRepository` with the lookup restricted to the signed-in user's rows,
   * as the rest of the user's data is: the row returned always belongs to the user.
   */
  function EnsureOwnRepository(session: Session, db: Db, g: GitHubRepo, newId: string, now: Timestamp, d: ColumnDefaults): (s: Step<RepoRow>)
    ensures s.result.Err? <==> session.None?
    ensures s.result.Err? ==> s.result.error == Unauthorized && s.db == db
    ensures s.result.Ok? ==> s.result.value.userId == session.value && s.result.value.githubId == g.id
    ensures s.result.Ok? ==> s.db == db || s.db == db.(repos := db.repos + [s.result.value])
  {
    match session
    case None => Step(db, Err(Unauthorized))
    case Some(uid) =>
      var mine := (r: RepoRow) => r.githubId == g.id && r.userId == uid;
      match Single(db.repos, mine)
      case Some(existing) => Step(db, Ok(existing))
      case None =>
        var row := RepoRowOf(RepoInsertOf(uid, g), newId, now, d);
        Step(db.(repos := db.repos + [row]), Ok(row))
  }

  /** While the user has at most one row for the GitHub id, the corrected action is idempotent. */
  lemma EnsureOwnRepositoryIdempotent(uid: string, db: Db, g: GitHubRepo, id1: string, id2: string, t1: Timestamp, t2: Timestamp, d: ColumnDefaults)
    requires Count(db.repos, (r: RepoRow) => r.githubId == g.id && r.userId == uid) <= 1
    ensures var s1 := EnsureOwnRepository(Some(uid), db, g, id1, t1, d);
      var s2 := EnsureOwnRepository(Some(uid), s1.db, g, id2, t2, d);
      s2 == Step(s1.db, s1.result)
  {
    var mine := (r: RepoRow) => r.githubId == g.id && r.userId == uid;
    var s1 := EnsureOwnRepository(Some(uid), db, g, id1, t1, d);
    if Count(db.repos, mine) == 0 {
      var r := s1.result.value;
      CountAppend(db.repos, [r], mine);
      assert [r][1..] == [];
    }
  }

  // ---------------------------------------------------------------------------
  // createTask
  // ---------------------------------------------------------------------------

  /** Where a new task was found: a file at a commit, optionally a line range. */
  datatype TaskContext = TaskContext(file: string, sha: string, lineStart: Option<int>, lineEnd: Option<int>)

  /** `s || null` for an optional string: absent and `""` both become null. */
  function OrNullString(s: Option<string>): (r: Option<string>)
    ensures r.Some? <==> Truthy(s)
    ensures r.Some? ==> r == s
  {
    if Truthy(s) then s else None
  }

  /** `n || null` for an optional number: absent and `0` both become null. */
  function OrNullNumber(n: Option<int>): (r: Option<int>)
    ensures r.Some? <==> n.Some? && n.value != 0
    ensures r.Some? ==> r == n
  {
    if n.Some? && n.value != 0 then n else None
  }

  /** The insert `createTask` sends, with its default arguments applied. */
  function TaskInsertOf(uid: string, repoId: string, content: string, kind: Option<TaskType>, priority: Option<Priority>, context: Option<TaskContext>): TaskInsert {
    TaskInsert(None, uid, repoId, content, None, kind.GetOr(Todo), Some(priority.GetOr(Medium)), Some(Open),
      OrNullString(if context.Some? then Some(context.value.file) else None),
      OrNullNumber(if context.Some? then context.value.lineStart else None),
      OrNullNumber(if context.Some? then context.value.lineEnd else None),
      None,
      OrNullString(if context.Some? then Some(context.value.sha) else None),
      None, None, None, None, None, None, None)
  }

  /**
   * `createTask`: throws "Unauthorized" without a session; otherwise inserts
   * one open task for the user, type TODO and priority medium unless given,
   * with each anchor field passed through `|| null`.
   */
  function CreateTask(session: Session, db: Db, repoId: string, content: string, kind: Option<TaskType>, priority: Option<Priority>,
                      context: Option<TaskContext>, newId: string, now: Timestamp, d: ColumnDefaults): (s: Step<TaskRow>)
    ensures s.result.Err? <==> session.None?
    ensures s.result.Err? ==> s.result.error == Unauthorized && s.db == db
    ensures s.result.Ok? ==>
      var t := s.result.value;
      && s.db == db.(tasks := db.tasks + [t])
      && t.id == newId && t.userId == session.value && t.repositoryId == repoId && t.title == content
      && t.status == Open
      && (kind.None? ==> t.kind == Todo) && (kind.Some? ==> t.kind == kind.value)
      && (priority.None? ==> t.priority == Medium) && (priority.Some? ==> t.priority == priority.value)
      && (t.filePath.Some? <==> context.Some? && context.value.file != "")
      && (t.commitSha.Some? <==> context.Some? && context.value.sha != "")
      && (t.lineStart.Some? <==> context.Some? && context.value.lineStart.Some? && context.value.lineStart.value != 0)
      && (t.lineEnd.Some? <==> context.Some? && context.value.lineEnd.Some? && context.value.lineEnd.value != 0)
      && (t.filePath.Some? ==> t.filePath.value == context.value.file)
      && (t.commitSha.Some? ==> t.commitSha.value == context.value.sha)
      && (t.lineStart.Some? ==> t.lineStart == context.value.lineStart)
      && (t.lineEnd.Some? ==> t.lineEnd == context.value.lineEnd)
  {
    match session
    case None => Step(db, Err(Unauthorized))
    case Some(uid) =>
      var row := TaskRowOf(TaskInsertOf(uid, repoId, content, kind, priority, context), newId, now, d);
      Step(db.(tasks := db.tasks + [row]), Ok(row))
  }

  /**
   * A created task shows up in the user's dashboard counts: one more open
   * task, no more completed ones, and one more anchor exactly when it has a
   * non-empty file.
   */
  lemma CreateTaskStats(uid: string, db: Db, repoId: string, content: string, kind: Option<TaskType>, priority: Option<Priority>,
                        context: Option<TaskContext>, newId: string, now: Timestamp, d: ColumnDefaults)
    ensures var s := CreateTask(Some(uid), db, repoId, content, kind, priority, context, newId, now, d);
      var before := GetDashboardStats(Some(uid), db, now).value;
      var after := GetDashboardStats(Some(uid), s.db, now).value;
      && after.openTasks == before.openTasks + 1
      && after.completedTasks == before.completedTasks
      && after.anchors == before.anchors + (if context.Some? && context.value.file != "" then 1 else 0)
      && after.newOpenSinceYesterday == before.newOpenSinceYesterday + 1
      && after.totalRepos == before.totalRepos
  {
    var s := CreateTask(Some(uid), db, repoId, content, kind, priority, context, newId, now, d);
    var t := s.result.value;
    var ts := UserTasks(db, uid);
    OwnTaskAppended(db, uid, t);
    CountSnoc(ts, t, IsActiveTask);
    CountSnoc(ts, t, IsCompletedTask);
    CountSnoc(ts, t, HasAnchor);
    CountSnoc(ts, t, IsNewActive(now - DayMs));
  }

  /** A row the user owns, appended to the table, is appended to the user's tasks. */
  lemma OwnTaskAppended(db: Db, uid: string, t: TaskRow)
    requires t.userId == uid
    ensures UserTasks(db.(tasks := db.tasks + [t]), uid) == UserTasks(db, uid) + [t]
  {
    FilterAppend(db.tasks, [t], OwnedBy(uid));
    assert Filter([t], OwnedBy(uid)) == [t] by {
      assert [t][1..] == [];
    }
  }
}
