/**
 * The `tasks` and `repositories` tables of types/database.ts: their row
 * shapes, the shapes accepted on insert, and the three enumerations a task
 * row carries. Timestamps (ISO strings in the database) are modelled as
 * milliseconds since the epoch.
 */
module Schema {
  import opened Basics

  /** Milliseconds since the epoch. */
  type Timestamp = int

  // ---------------------------------------------------------------------------
  // Enumerations
  // ---------------------------------------------------------------------------

  /** The ten task types. */
  datatype TaskType = Todo | Fixme | Bug | Alert | Hack | Note | Optimize | Security | Deprecated | Review

  /** The four priorities. */
  datatype Priority = Low | Medium | High | Critical

  /** The four statuses. */
  datatype Status = Open | InProgress | Completed | Archived

  function TypeName(t: TaskType): string {
    match t
    case Todo => "TODO"
    case Fixme => "FIXME"
    case Bug => "BUG"
    case Alert => "ALERT"
    case Hack => "HACK"
    case Note => "NOTE"
    case Optimize => "OPTIMIZE"
    case Security => "SECURITY"
    case Deprecated => "DEPRECATED"
    case Review => "REVIEW"
  }

  /** The type a column value denotes; any string outside the ten is rejected. */
  function ParseType(s: string): (r: Option<TaskType>)
    ensures r.Some? ==> TypeName(r.value) == s
  {
    if s == "TODO" then Some(Todo)
    else if s == "FIXME" then Some(Fixme)
    else if s == "BUG" then Some(Bug)
    else if s == "ALERT" then Some(Alert)
    else if s == "HACK" then Some(Hack)
    else if s == "NOTE" then Some(Note)
    else if s == "OPTIMIZE" then Some(Optimize)
    else if s == "SECURITY" then Some(Security)
    else if s == "DEPRECATED" then Some(Deprecated)
    else if s == "REVIEW" then Some(Review)
    else None
  }

  /** A type column holds exactly one of the ten names, and each name denotes one type. */
  lemma TypeNameRoundTrip(t: TaskType, s: string)
    ensures ParseType(TypeName(t)) == Some(t)
    ensures ParseType(s) == Some(t) <==> s == TypeName(t)
  {
  }

  function PriorityName(p: Priority): string {
    match p
    case Low => "low"
    case Medium => "medium"
    case High => "high"
    case Critical => "critical"
  }

  function ParsePriority(s: string): (r: Option<Priority>)
    ensures r.Some? ==> PriorityName(r.value) == s
  {
    if s == "low" then Some(Low)
    else if s == "medium" then Some(Medium)
    else if s == "high" then Some(High)
    else if s == "critical" then Some(Critical)
    else None
  }

  lemma PriorityNameRoundTrip(p: Priority, s: string)
    ensures ParsePriority(PriorityName(p)) == Some(p)
    ensures ParsePriority(s) == Some(p) <==> s == PriorityName(p)
  {
  }

  function StatusName(s: Status): string {
    match s
    case Open => "open"
    case InProgress => "in_progress"
    case Completed => "completed"
    case Archived => "archived"
  }

  function ParseStatus(s: string): (r: Option<Status>)
    ensures r.Some? ==> StatusName(r.value) == s
  {
    if s == "open" then Some(Open)
    else if s == "in_progress" then Some(InProgress)
    else if s == "completed" then Some(Completed)
    else if s == "archived" then Some(Archived)
    else None
  }

  lemma StatusNameRoundTrip(st: Status, s: string)
    ensures ParseStatus(StatusName(st)) == Some(st)
    ensures ParseStatus(s) == Some(st) <==> s == StatusName(st)
  {
  }

  /** The statuses every count and filter of the dashboard treats as open work. */
  predicate IsActive(s: Status) {
    s == Open || s == InProgress
  }

  // ---------------------------------------------------------------------------
  // Rows
  // ---------------------------------------------------------------------------

  /** A `repositories` row; nullable columns are `Option`s. */
  datatype RepoRow = RepoRow(
    id: string,
    userId: string,
    githubId: int,
    name: string,
    fullName: string,
    description: Option<string>,
    url: string,
    defaultBranch: string,
    isPrivate: bool,
    language: Option<string>,
    isPinned: bool,
    lastSyncedAt: Option<Timestamp>,
    createdAt: Timestamp,
    updatedAt: Timestamp)

  /**
   * A `tasks` row. Each anchor column (`filePath`, `lineStart`, `lineEnd`,
   * `commitSha`) is nullable on its own; nothing ties them together.
   */
  datatype TaskRow = TaskRow(
    id: string,
    userId: string,
    repositoryId: string,
    title: string,
    description: Option<string>,
    kind: TaskType,
    priority: Priority,
    status: Status,
    filePath: Option<string>,
    lineStart: Option<int>,
    lineEnd: Option<int>,
    branch: Option<string>,
    commitSha: Option<string>,
    permalink: Option<string>,
    dueDate: Option<string>,
    tags: Option<seq<string>>,
    isStarred: bool,
    orderIndex: int,
    createdAt: Timestamp,
    updatedAt: Timestamp)

  // ---------------------------------------------------------------------------
  // Inserts
  // ---------------------------------------------------------------------------

  /**
   * The values the database supplies for columns an insert leaves out. The
   * table definitions are not part of this model, so they are a parameter.
   */
  datatype ColumnDefaults = ColumnDefaults(
    priority: Priority,
    status: Status,
    isStarred: bool,
    orderIndex: int,
    defaultBranch: string,
    isPrivate: bool,
    isPinned: bool)

  /**
   * A `repositories` insert: `userId`, `githubId`, `name`, `fullName` and
   * `url` are required, every other column optional. An omitted nullable
   * column and an explicit null are both `None`.
   */
  datatype RepoInsert = RepoInsert(
    id: Option<string>,
    userId: string,
    githubId: int,
    name: string,
    fullName: string,
    description: Option<string>,
    url: string,
    defaultBranch: Option<string>,
    isPrivate: Option<bool>,
    language: Option<string>,
    isPinned: Option<bool>,
    lastSyncedAt: Option<Timestamp>,
    createdAt: Option<Timestamp>,
    updatedAt: Option<Timestamp>)

  /**
   * A `tasks` insert: `userId`, `repositoryId`, `title` and `kind` are
   * required, every other column optional. An omitted nullable column and
   * an explicit null are both `None`.
   */
  datatype TaskInsert = TaskInsert(
    id: Option<string>,
    userId: string,
    repositoryId: string,
    title: string,
    description: Option<string>,
    kind: TaskType,
    priority: Option<Priority>,
    status: Option<Status>,
    filePath: Option<string>,
    lineStart: Option<int>,
    lineEnd: Option<int>,
    branch: Option<string>,
    commitSha: Option<string>,
    permalink: Option<string>,
    dueDate: Option<string>,
    tags: Option<seq<string>>,
    isStarred: Option<bool>,
    orderIndex: Option<int>,
    createdAt: Option<Timestamp>,
    updatedAt: Option<Timestamp>)

  /**
   * The row an insert creates at time `now`, under `id` unless the insert
   * names its own; an omitted column takes its default.
   */
  function RepoRowOf(ins: RepoInsert, id: string, now: Timestamp, d: ColumnDefaults): (r: RepoRow)
    ensures ins.id.Some? ==> r.id == ins.id.value
    ensures ins.id.None? ==> r.id == id
    ensures r.userId == ins.userId && r.githubId == ins.githubId
    ensures r.name == ins.name && r.fullName == ins.fullName && r.url == ins.url
    ensures r.description == ins.description && r.language == ins.language
    ensures ins.defaultBranch.Some? ==> r.defaultBranch == ins.defaultBranch.value
    ensures ins.defaultBranch.None? ==> r.defaultBranch == d.defaultBranch
    ensures ins.isPrivate.Some? ==> r.isPrivate == ins.isPrivate.value
    ensures ins.isPrivate.None? ==> r.isPrivate == d.isPrivate
    ensures ins.isPinned.Some? ==> r.isPinned == ins.isPinned.value
    ensures ins.isPinned.None? ==> r.isPinned == d.isPinned
    ensures r.lastSyncedAt == ins.lastSyncedAt
    ensures ins.createdAt.Some? ==> r.createdAt == ins.createdAt.value
    ensures ins.createdAt.None? ==> r.createdAt == now
    ensures ins.updatedAt.Some? ==> r.updatedAt == ins.updatedAt.value
    ensures ins.updatedAt.None? ==> r.updatedAt == now
  {
    RepoRow(ins.id.GetOr(id), ins.userId, ins.githubId, ins.name, ins.fullName, ins.description, ins.url,
      ins.defaultBranch.GetOr(d.defaultBranch), ins.isPrivate.GetOr(d.isPrivate), ins.language,
      ins.isPinned.GetOr(d.isPinned), ins.lastSyncedAt, ins.createdAt.GetOr(now), ins.updatedAt.GetOr(now))
  }

  /**
   * The row a task insert creates at time `now`, under `id` unless the
   * insert names its own; an omitted column takes its default.
   */
  function TaskRowOf(ins: TaskInsert, id: string, now: Timestamp, d: ColumnDefaults): (r: TaskRow)
    ensures ins.id.Some? ==> r.id == ins.id.value
    ensures ins.id.None? ==> r.id == id
    ensures r.userId == ins.userId && r.repositoryId == ins.repositoryId
    ensures r.title == ins.title && r.description == ins.description && r.kind == ins.kind
    ensures ins.priority.Some? ==> r.priority == ins.priority.value
    ensures ins.priority.None? ==> r.priority == d.priority
    ensures ins.status.Some? ==> r.status == ins.status.value
    ensures ins.status.None? ==> r.status == d.status
    ensures r.filePath == ins.filePath && r.commitSha == ins.commitSha
    ensures r.lineStart == ins.lineStart && r.lineEnd == ins.lineEnd
    ensures r.branch == ins.branch && r.permalink == ins.permalink
    ensures r.dueDate == ins.dueDate && r.tags == ins.tags
    ensures ins.isStarred.Some? ==> r.isStarred == ins.isStarred.value
    ensures ins.isStarred.None? ==> r.isStarred == d.isStarred
    ensures ins.orderIndex.Some? ==> r.orderIndex == ins.orderIndex.value
    ensures ins.orderIndex.None? ==> r.orderIndex == d.orderIndex
    ensures ins.createdAt.Some? ==> r.createdAt == ins.createdAt.value
    ensures ins.createdAt.None? ==> r.createdAt == now
    ensures ins.updatedAt.Some? ==> r.updatedAt == ins.updatedAt.value
    ensures ins.updatedAt.None? ==> r.updatedAt == now
  {
    TaskRow(ins.id.GetOr(id), ins.userId, ins.repositoryId, ins.title, ins.description, ins.kind,
      ins.priority.GetOr(d.priority), ins.status.GetOr(d.status),
      ins.filePath, ins.lineStart, ins.lineEnd, ins.branch, ins.commitSha, ins.permalink, ins.dueDate, ins.tags,
      ins.isStarred.GetOr(d.isStarred), ins.orderIndex.GetOr(d.orderIndex),
      ins.createdAt.GetOr(now), ins.updatedAt.GetOr(now))
  }

  /** The insert that supplies every column of `r`. */
  function RepoInsertOf(r: RepoRow): RepoInsert {
    RepoInsert(Some(r.id), r.userId, r.githubId, r.name, r.fullName, r.description, r.url,
      Some(r.defaultBranch), Some(r.isPrivate), r.language, Some(r.isPinned),
      r.lastSyncedAt, Some(r.createdAt), Some(r.updatedAt))
  }

  /**
   * Every repository row can be inserted as it is: supplying all of its
   * values recreates it, whatever the fresh id, the clock and the column
   * defaults.
   */
  lemma RepoRowOfInsertOf(r: RepoRow, id: string, now: Timestamp, d: ColumnDefaults)
    ensures RepoRowOf(RepoInsertOf(r), id, now, d) == r
  {
  }

  /** Inserting the same values under two sets of column defaults differs only in the columns left out. */
  lemma RepoRowOfDefaults(ins: RepoInsert, id: string, now: Timestamp, d1: ColumnDefaults, d2: ColumnDefaults)
    ensures var r1, r2 := RepoRowOf(ins, id, now, d1), RepoRowOf(ins, id, now, d2);
      r1 == r2 <==>
        && (ins.defaultBranch.None? ==> d1.defaultBranch == d2.defaultBranch)
        && (ins.isPrivate.None? ==> d1.isPrivate == d2.isPrivate)
        && (ins.isPinned.None? ==> d1.isPinned == d2.isPinned)
  {
  }

  /** The insert that supplies every column of `r`. */
  function TaskInsertOf(r: TaskRow): TaskInsert {
    TaskInsert(Some(r.id), r.userId, r.repositoryId, r.title, r.description, r.kind,
      Some(r.priority), Some(r.status), r.filePath, r.lineStart, r.lineEnd,
      r.branch, r.commitSha, r.permalink, r.dueDate, r.tags,
      Some(r.isStarred), Some(r.orderIndex), Some(r.createdAt), Some(r.updatedAt))
  }

  /**
   * Every task row can be inserted as it is: supplying all of its values
   * recreates it, whatever the fresh id, the clock and the column defaults.
   */
  lemma TaskRowOfInsertOf(r: TaskRow, id: string, now: Timestamp, d: ColumnDefaults)
    ensures TaskRowOf(TaskInsertOf(r), id, now, d) == r
  {
  }

  /** Inserting the same values under two sets of column defaults differs only in the columns left out. */
  lemma TaskRowOfDefaults(ins: TaskInsert, id: string, now: Timestamp, d1: ColumnDefaults, d2: ColumnDefaults)
    ensures var r1, r2 := TaskRowOf(ins, id, now, d1), TaskRowOf(ins, id, now, d2);
      r1 == r2 <==>
        && (ins.priority.None? ==> d1.priority == d2.priority)
        && (ins.status.None? ==> d1.status == d2.status)
        && (ins.isStarred.None? ==> d1.isStarred == d2.isStarred)
        && (ins.orderIndex.None? ==> d1.orderIndex == d2.orderIndex)
  {
  }
}
