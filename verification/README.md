# git-todo-s dashboard, modelled in Dafny

git-todo-s is a Next.js dashboard. It lists a user's GitHub repositories and
the code tasks (TODO, FIXME, BUG, …) attached to them. Those tasks are kept in
two tables, `repositories` and `tasks`. This project models the dashboard's
logic as pure Dafny functions over immutable data and proves what that logic
promises:

- the repository file browser: turning the flat tree listing into a sorted
  forest (`buildFileTree`) and the local todo panel;
- the store actions of `lib/db/actions.ts`: the dashboard counts, the per-repo
  counts, the star and pin toggles, `ensureRepository`, `createTask`,
  `updateTaskStatus` and `deleteTask`;
- the row shapes and enumerations of `types/database.ts`;
- the task card: its relative time, border, icons, file anchor label, and the
  optimistic buttons with their rollback;
- the all-tasks page: the two lists, the legend and the empty state;
- the overview page: the status icon, the type tint, the completion figure
  and its own relative time;
- the settings screen: load over the defaults, the controls, save, reset and
  the theme class.

The store is a `Db` of two sequences of rows. A Supabase query that must match
one row (`.single()`) succeeds exactly when one row matches. A session is an
optional user id. Clock readings, fresh ids and the database's column
defaults are parameters.

Modules, one per file:

- `Basics`: `Option`, `Result`, counting and filtering.
- `Decimal`: rendering numbers as text.
- `Paths`: splitting a path and ordering names.
- `FileTree` and `RepoTodos`: components/dashboard/repo-manager.tsx.
- `Schema`: types/database.ts.
- `Actions`: lib/db/actions.ts.
- `TimeAgo`: both relative-time helpers.
- `TaskCard`: app/dashboard/all-tasks/task-card.tsx.
- `AllTasksPage`: app/dashboard/all-tasks/page.tsx.
- `DashboardPage`: app/dashboard/page.tsx.
- `Settings`: app/dashboard/settings/settings-content.tsx.

## Model

| member | source | states |
|---|---|---|
| Paths.Parent | components/dashboard/repo-manager.tsx:83-85 | The parent path is everything before the last slash, and the empty string when there is no slash. |
| Paths.BaseName | components/dashboard/repo-manager.tsx:76 | The name has no slash. A path with a slash is its parent, a slash and its name. |
| Paths.SplitInjective | components/dashboard/repo-manager.tsx:83-85 | Two nested paths with the same parent and the same name are equal, so the split loses nothing. |
| Paths.NameLeTotal | components/dashboard/repo-manager.tsx:101-104 | Any two sibling names are comparable in the name order. |
| Paths.NameLeAntisymmetric | components/dashboard/repo-manager.tsx:101-104 | Names that are each no greater than the other are equal. |
| Paths.NameLeTransitive | components/dashboard/repo-manager.tsx:101-104 | The name order is transitive. |
| FileTree.Index | components/dashboard/repo-manager.tsx:71-80 | The cache holds one node per listed path. Each node comes from an entry with that path, and the last entry wins. |
| FileTree.IndexLastWins | components/dashboard/repo-manager.tsx:73-80 | When a path is listed more than once, its last entry is the one cached. |
| FileTree.IndexDistinct | components/dashboard/repo-manager.tsx:73-80 | With distinct paths, every entry is the one cached under its own path. |
| FileTree.ChildEntries | components/dashboard/repo-manager.tsx:82-97 | The entries attached under a path are exactly the listed entries whose parent is that path. |
| FileTree.BuildFileTree | components/dashboard/repo-manager.tsx:69-110 | An empty listing yields no roots. |
| FileTree.SortNodes | components/dashboard/repo-manager.tsx:100-104 | The sorted level is a permutation of the level and is ordered: directories first, then by name. |
| FileTree.InsertSorted | components/dashboard/repo-manager.tsx:101-104 | Inserting a node into a sorted level keeps it sorted. |
| FileTree.NodeLeTotal | components/dashboard/repo-manager.tsx:101-104 | The sibling order (type first, then name) compares any two nodes. |
| FileTree.NodeLeTransitive | components/dashboard/repo-manager.tsx:101-104 | The sibling order is transitive. |
| FileTree.LevelMembers | components/dashboard/repo-manager.tsx:82-108 | Each level is sorted. It holds only cached nodes whose parent is the level's path, and it holds every such entry's node. |
| FileTree.BuildFileTreeShaped | components/dashboard/repo-manager.tsx:69-110 | The result is a well-formed forest. Every node's path is listed, and every child's path is its parent's path, a slash and its name. |
| FileTree.RootIff | components/dashboard/repo-manager.tsx:87-88 | An entry's node is a root exactly when its parent path is empty: the path has no slash, or only a leading one. |
| FileTree.ChildIff | components/dashboard/repo-manager.tsx:89-91 | One entry's node is a child of another's exactly when the second's path is the first's parent. |
| FileTree.ForestPathsAnchored | components/dashboard/repo-manager.tsx:82-97 | Every path in the forest was listed, and its parent is either empty or listed too. |
| FileTree.OrphanDropped | components/dashboard/repo-manager.tsx:90-95 | An entry whose parent directory is not listed appears nowhere in the forest. |
| FileTree.LevelOnce | components/dashboard/repo-manager.tsx:82-97 | With distinct paths, each node appears once under its parent's level and in no other level. |
| RepoTodos.InitialTodos | components/dashboard/repo-manager.tsx:130-139 | The panel starts with three todos with distinct ids, two of them open. |
| RepoTodos.TrimStart | components/dashboard/repo-manager.tsx:171 | Trimming drops exactly the leading whitespace. |
| RepoTodos.TrimEnd | components/dashboard/repo-manager.tsx:171 | Trimming drops exactly the trailing whitespace. |
| RepoTodos.BlankIff | components/dashboard/repo-manager.tsx:171 | A draft is refused exactly when it consists only of whitespace. |
| RepoTodos.ContextOf | components/dashboard/repo-manager.tsx:174-179 | A todo gets a context exactly when a file is selected, and the context is that file's path and sha. |
| RepoTodos.AddTodo | components/dashboard/repo-manager.tsx:170-192 | A blank draft changes nothing. Otherwise one open TODO is appended with the draft's text, the clock as its id and the selected file's context, and the box is cleared. |
| RepoTodos.ToggleTodo | components/dashboard/repo-manager.tsx:272-276 | Only todos carrying the id have `completed` flipped; the rest and the length stay as they were. |
| RepoTodos.ToggleTwice | components/dashboard/repo-manager.tsx:272-276 | Ticking the same box twice restores the list. |
| RepoTodos.ToggleNoMatch | components/dashboard/repo-manager.tsx:272-276 | Toggling an id no todo carries changes nothing. |
| RepoTodos.OpenCount | components/dashboard/repo-manager.tsx:258 | The badge is at most the list's length, and it is 0 exactly when every todo is completed. |
| RepoTodos.OpenPlusDone | components/dashboard/repo-manager.tsx:258 | Open and completed todos make up the whole list. |
| RepoTodos.ToggleOpenCount | components/dashboard/repo-manager.tsx:258-276 | Toggling a unique todo moves the badge by exactly one, up or down as the todo was completed or open. |
| RepoTodos.AddTodoOpenCount | components/dashboard/repo-manager.tsx:170-192 | Adding a todo raises the badge by one exactly when the draft was not blank. |
| Schema.ParseType | types/database.ts:111-121 | A type column names exactly one of the ten types. |
| Schema.TypeNameRoundTrip | types/database.ts:111-121 | Naming a type and reading the name back gives the type, and only its own name denotes it. |
| Schema.PriorityNameRoundTrip | types/database.ts:122 | The four priority names and the priorities correspond one to one. |
| Schema.StatusNameRoundTrip | types/database.ts:123 | The four status names and the statuses correspond one to one. |
| Schema.RepoRowOf | types/database.ts:46-77 | An inserted repository row keeps every value supplied, its own id and timestamps included. An omitted id takes the fresh one and omitted timestamps take the clock. An omitted default branch, privacy flag or pin takes the column default. |
| Schema.RepoRowOfInsertOf | types/database.ts:46-77 | Every repository row can be inserted as it is: supplying all its values recreates it, whatever the fresh id, clock and column defaults. |
| Schema.RepoRowOfDefaults | types/database.ts:62-77 | Two sets of column defaults give the same row exactly when they agree on every optional column the insert leaves out. |
| Schema.TaskRowOf | types/database.ts:105-168 | An inserted task row keeps every value supplied. That covers anchor columns, description, branch, permalink, due date, tags, its own id and timestamps. An omitted nullable column is empty and an omitted id or timestamp takes the fresh id or the clock. An omitted priority, status, star or order takes the column default. |
| Schema.TaskRowOfInsertOf | types/database.ts:105-168 | Every task row can be inserted as it is: supplying all its values recreates it, whatever the fresh id, clock and column defaults. |
| Schema.TaskRowOfDefaults | types/database.ts:137-168 | Two sets of column defaults give the same task row exactly when they agree on the priority, status, star and order the insert leaves out. |
| Actions.GetDashboardStats | lib/db/actions.ts:21-64 | There are no stats without a session. Otherwise the figures are the user's repositories and the user's active, completed, anchored and new-active-since-yesterday tasks. Open plus completed never exceeds the user's tasks, and new-open never exceeds open. |
| Actions.StatsMeaning | lib/db/actions.ts:44-58 | The open count is 0 exactly when every task is completed or archived. The same kind of iff holds for completed and for anchors (empty path = no anchor). |
| Actions.StatsNoArchived | lib/db/actions.ts:44-58 | Open plus completed equals the user's task count exactly when none is archived. |
| Actions.ArchivedCount | lib/db/actions.ts:44-58 | Open, completed and archived tasks partition the tasks. |
| Actions.GithubIdIndex | lib/db/actions.ts:139-142 | The repository-id to GitHub-id map covers every repository, and each value is that repository's GitHub id. |
| Actions.TallyMeaning | lib/db/actions.ts:144-155 | The per-repo counts, independently of the loop: a key is present exactly when some task counts under it, and its three counters count its tasks, its active ones and its completed ones. |
| Actions.TallyBounded | lib/db/actions.ts:144-155 | No count is filed under GitHub id 0, and open plus completed never exceed the total. |
| Actions.TaskCountsByRepo | lib/db/actions.ts:112-158 | With no session or no repositories the map is empty. Otherwise it is the tally of the user's tasks. |
| Actions.ToggleTaskStar | lib/db/actions.ts:165-189 | Without exactly one row of that id it fails with "not found" and changes nothing. Otherwise it flips that row's star, returns the new value and leaves every other row alone. |
| Actions.ToggleTaskStarTwice | lib/db/actions.ts:165-189 | Toggling a star twice restores the store and returns opposite values. |
| Actions.ToggleRepoPin | lib/db/actions.ts:214-238 | The same as the star, for a repository's pin. |
| Actions.ToggleRepoPinTwice | lib/db/actions.ts:214-238 | Toggling a pin twice restores the store. |
| Actions.UpdateTaskStatus | lib/db/actions.ts:409-420 | Every row of the id becomes completed or open and nothing else changes. |
| Actions.UpdateTaskStatusLastWins | lib/db/actions.ts:409-420 | Of two status updates, the last one decides. |
| Actions.ReopenAfterComplete | lib/db/actions.ts:409-420 | Completing and then reopening leaves the task open. |
| Actions.DeleteTask | lib/db/actions.ts:422-426 | Exactly the rows of the id are removed. Every other row stays, and the repositories are untouched. |
| Actions.DeleteTaskIdempotent | lib/db/actions.ts:422-426 | Deleting an absent id changes nothing, and deleting twice is deleting once. |
| Actions.EnsureRepository | lib/db/actions.ts:309-351 | Without a session it fails unauthorized. With exactly one row of that GitHub id it returns that row, whoever owns it. Otherwise it inserts and returns a row for the user carrying the GitHub data. |
| Actions.EnsureRepositoryIdempotent | lib/db/actions.ts:317-326 | While at most one row has the GitHub id, a second call returns the same result and changes nothing. |
| Actions.EnsureRepositoryReturnsOtherUsersRow | lib/db/actions.ts:317-326 | A row of another user with the same GitHub id is returned as the caller's repository. |
| Actions.EnsureOwnRepository | lib/db/actions.ts:309-351 | Corrected lookup: a repository that is returned belongs to the caller and carries the GitHub id. The store is left alone or gains exactly that row. |
| Actions.EnsureOwnRepositoryIdempotent | lib/db/actions.ts:309-351 | The corrected lookup is idempotent while the caller has at most one row for the GitHub id. |
| Actions.OrNullString | lib/db/actions.ts:397-398 | `\|\| null` keeps a non-empty string and turns an empty or missing one into null. |
| Actions.OrNullNumber | lib/db/actions.ts:399-400 | `\|\| null` keeps a non-zero line number and turns 0 or a missing one into null. |
| Actions.CreateTask | lib/db/actions.ts:376-407 | Without a session it fails unauthorized. Otherwise it appends one open task for the user, type TODO and priority medium unless given, and each anchor field is set exactly when it was given non-empty (non-zero for line numbers). |
| Actions.CreateTaskStats | lib/db/actions.ts:21-64 | A created task raises the open and new-open counts by one and the anchor count by one exactly when it has a file. The other counts stay the same. |
| Actions.OwnTaskAppended | lib/db/actions.ts:30-37 | A row appended for the user is the last of the user's tasks. |
| TimeAgo.CardTimeAgo | app/dashboard/all-tasks/task-card.tsx:309-322 | The card label falls in exactly one bucket by elapsed time: just now below a minute (future times included), minutes, hours, days below a week, then the date. Each count is the floor of the elapsed time in that unit. |
| TimeAgo.ActivityTimeAgo | app/dashboard/page.tsx:28-40 | The same buckets with no week cutoff: any elapsed time of a day or more is counted in whole days. |
| TimeAgo.CardAgreesWithActivity | app/dashboard/page.tsx:28-40 | The two labels agree below a week. From a week on, the card shows the date while the list counts days. |
| TimeAgo.ActivityTimeAgoMonotone | app/dashboard/page.tsx:28-40 | As the clock advances, an activity label never moves to an earlier bucket or a smaller count. |
| TimeAgo.Label | app/dashboard/all-tasks/task-card.tsx:317-321 | Only a date has no fixed text. |
| TimeAgo.LabelInjective | app/dashboard/all-tasks/task-card.tsx:317-320 | Different buckets or counts never render as the same text. |
| TaskCard.TypeIcon | app/dashboard/all-tasks/task-card.tsx:231-256 | The clipboard icon is shown exactly for TODO and for strings that name no type. |
| TaskCard.TypeIconDistinct | app/dashboard/all-tasks/task-card.tsx:231-256 | The ten types get ten different icons. |
| TaskCard.PriorityIcon | app/dashboard/all-tasks/task-card.tsx:258-269 | The seedling icon is shown exactly for strings other than critical, high and medium. |
| TaskCard.PriorityIconDistinct | app/dashboard/all-tasks/task-card.tsx:258-269 | The four priorities get four different icons. |
| TaskCard.CardBorder | app/dashboard/all-tasks/task-card.tsx:70-87 | Critical and high priority each get their own frame, exactly. Otherwise BUG, SECURITY and ALERT get their stripes and every other type no border. |
| TaskCard.PriorityWinsOverType | app/dashboard/all-tasks/task-card.tsx:70-87 | Under critical or high priority the type does not matter, and low and medium look alike. |
| TaskCard.AnchorLabelAsWritten | app/dashboard/all-tasks/task-card.tsx:173-183 | The anchor is shown exactly when the file path is non-empty, and it starts with the icon and the path. |
| TaskCard.AnchorLabelStrayZero | app/dashboard/all-tasks/task-card.tsx:177 | A row with line start 0 and no line end shows a stray "0" after the path. |
| TaskCard.AnchorLabel | app/dashboard/all-tasks/task-card.tsx:173-183 | Corrected label: shown exactly for a non-empty path. It starts with the icon and the path. Nothing follows the path when no line number is shown. Otherwise the next character is ":" or "-", never a stray digit. |
| TaskCard.AnchorLabelAsWrittenAgrees | app/dashboard/all-tasks/task-card.tsx:177-180 | Without a zero line number, the label as written and the corrected one coincide. |
| TaskCard.CreatedTaskLabel | lib/db/actions.ts:399-400 | Rows written by `createTask` never hold a 0 line, so both labels agree on them. |
| TaskCard.AnchorLabelReadsBack | app/dashboard/all-tasks/task-card.tsx:176-180 | For non-negative line numbers, the corrected label determines which start and end lines it shows. |
| TaskCard.LinesTextInjective | app/dashboard/all-tasks/task-card.tsx:177-180 | The `:start-end` suffix of non-negative lines is never ambiguous. |
| TaskCard.Handle | app/dashboard/all-tasks/task-card.tsx:20-65 | A click changes the card at once and starts the matching call: flip the tick and send the new status, flip the star, or, once confirmed, hide the card and delete. A cancelled delete does nothing. |
| TaskCard.Settle | app/dashboard/all-tasks/task-card.tsx:24-64 | A successful call keeps the optimistic state. A failed one returns a card that was not deleted to its state before the click. |
| TaskCard.SettledCardMirrorsStore | app/dashboard/all-tasks/task-card.tsx:20-67 | A card that matches its row still matches the store after any click has settled. A hidden card's row is gone. |
| TaskCard.InitialCardMirrors | app/dashboard/all-tasks/task-card.tsx:14-17 | A freshly rendered card matches its row: ticked exactly when completed, starred as the row, and shown. |
| AllTasksPage.Split | app/dashboard/all-tasks/page.tsx:24-27 | The open list holds exactly the open and in-progress tasks and the completed list exactly the completed ones. Together they hold all tasks but the archived. |
| AllTasksPage.SplitDisjoint | app/dashboard/all-tasks/page.tsx:24-27 | No task is in both lists, and an archived task is in neither. |
| AllTasksPage.SplitKeepsOrder | app/dashboard/all-tasks/page.tsx:24-27 | Splitting commutes with concatenation, so each list keeps the fetched order. |
| AllTasksPage.BadgesMatchDashboard | app/dashboard/all-tasks/page.tsx:44-48 | The open and done badges equal the dashboard's open and completed counts. |
| AllTasksPage.ChipsOf | app/dashboard/all-tasks/page.tsx:55-57 | One chip per legend type, in order, with that type's task count. |
| AllTasksPage.Legend | app/dashboard/all-tasks/page.tsx:55-70 | Chips are only for the six listed types, each with its true, positive count, in the legend's order. |
| AllTasksPage.LegendComplete | app/dashboard/all-tasks/page.tsx:55-70 | A listed type gets a chip exactly when some task has it. |
| AllTasksPage.LegendTotal | app/dashboard/all-tasks/page.tsx:55-70 | The chip counts add up to the tasks of the six listed types. |
| AllTasksPage.FilterSorted | app/dashboard/all-tasks/page.tsx:58 | Dropping zero-count chips keeps the legend strictly ordered. |
| AllTasksPage.Render | app/dashboard/all-tasks/page.tsx:44-115 | The empty state is shown exactly when there are no tasks at all. Each section is shown exactly when its list is non-empty and holds that list. |
| AllTasksPage.ArchivedOnlyShowsNothing | app/dashboard/all-tasks/page.tsx:73-115 | When every task is archived, neither the empty state nor any section is shown. |
| AllTasksPage.RenderShowsOwnTasks | app/dashboard/all-tasks/page.tsx:22-113 | Each non-archived task of the user's is shown in the section of its status. |
| DashboardPage.StatusEmoji | app/dashboard/page.tsx:42-51 | Completed and in_progress each get their own icon, exactly. Every other string gets the clipboard. |
| DashboardPage.StatusEmojiOfStatus | app/dashboard/page.tsx:42-51 | Over the four statuses, open and archived share an icon and the others are distinct. |
| DashboardPage.TypeColor | app/dashboard/page.tsx:53-66 | BUG, FIXME, SECURITY and OPTIMIZE each get their own tint, exactly. Every other string gets the default. |
| DashboardPage.TypeColorOfType | app/dashboard/page.tsx:53-66 | Over the ten types, the four tinted ones are told apart and the other six share the default. |
| DashboardPage.TotalTasks | app/dashboard/page.tsx:69 | Open plus completed, and 0 without stats. |
| DashboardPage.CompletionRate | app/dashboard/page.tsx:70-73 | The figure lies in 0..100, is 0 without tasks, and is within half a point of 100·completed/total. |
| DashboardPage.RoundedPercentUnique | app/dashboard/page.tsx:72 | Only one whole number lies within half a point of the ratio, so the figure is determined. |
| DashboardPage.RoundedPercentMonotone | app/dashboard/page.tsx:72 | More completed tasks out of the same total never lower the figure. |
| DashboardPage.RoundedPercentEnds | app/dashboard/page.tsx:72 | The figure is 0 exactly below half a percent and 100 exactly from 99.5 percent on. |
| DashboardPage.DashboardCompletion | app/dashboard/page.tsx:69-73 | The total is the user's non-archived tasks. No completed task means 0, and no open task means 100. |
| Settings.OrString | app/dashboard/settings/settings-content.tsx:111-119 | `\|\|` on a string falls back exactly for a missing or empty value, and otherwise keeps it. |
| Settings.OrNumber | app/dashboard/settings/settings-content.tsx:113 | `\|\|` on the size falls back exactly for a missing value or 0. |
| Settings.Coalesce | app/dashboard/settings/settings-content.tsx:120-130 | `??` falls back only for a missing value, so `false` is kept. |
| Settings.Load | app/dashboard/settings/settings-content.tsx:106-139 | No entry or an unparseable one gives the defaults. In a parsed entry, each of the five strings and the size is kept when truthy and falls back otherwise. Each of the five switches is kept when present, `false` included, and falls back only when missing. |
| Settings.FalsyValues | app/dashboard/settings/settings-content.tsx:111-130 | A stored empty theme and size 0 are replaced by the defaults, while stored `false` switches survive. |
| Settings.LoadTakesUnofferedValues | app/dashboard/settings/settings-content.tsx:111-119 | A stored value outside the offered choices is taken as it is. |
| Settings.Save | app/dashboard/settings/settings-content.tsx:163-178 | The save writes all eleven preferences. |
| Settings.SaveLoadRoundTrip | app/dashboard/settings/settings-content.tsx:106-178 | Loading what was saved gives the same preferences exactly when no string is empty and the size is not 0. |
| Settings.OfferedRestorable | app/dashboard/settings/settings-content.tsx:389-394 | Preferences made of offered values, size in 10..20, always survive a save and load. |
| Settings.Reset | app/dashboard/settings/settings-content.tsx:190-204 | Reset gives the defaults and removes the entry, so the next load gives the defaults too. |
| Settings.SliderValue | app/dashboard/settings/settings-content.tsx:389-394 | The slider's value is always within 10..20. |
| Settings.Apply | app/dashboard/settings/settings-content.tsx:274-394 | A choice sets its own preference to the chosen value. The slider sets the size, and a switch negates its own preference. No other preference changes. |
| Settings.ApplyKeepsOffered | app/dashboard/settings/settings-content.tsx:274-394 | The controls keep every preference among the offered values. |
| Settings.FlipTwice | app/dashboard/settings/settings-content.tsx:332 | Flipping a switch twice restores the preferences. |
| Settings.DarkClass | app/dashboard/settings/settings-content.tsx:142-161 | "dark" sets the class, "light" clears it, and anything else follows the system preference. |
| Settings.Mount | app/dashboard/settings/settings-content.tsx:106-161 | Mounting loads the entry and applies the loaded theme. |
| Settings.Change | app/dashboard/settings/settings-content.tsx:142-161 | A control leaves the class alone unless it changed the theme. When it changed the theme, the effect sets the class for the new theme. |
| Settings.SaveScreen | app/dashboard/settings/settings-content.tsx:163-188 | Saving keeps the preferences, and loading the entry restores them when they are restorable. An explicit "dark" or "light" sets or clears the class. Any other theme leaves the class as it was. |
| Settings.ResetScreen | app/dashboard/settings/settings-content.tsx:190-204 | Resetting shows the defaults with no entry. |
| Settings.ClassStaysInSync | app/dashboard/settings/settings-content.tsx:142-204 | Mount, every control, save and reset keep the class in step with the theme. Save never changes the class, and reset clears it. |
| Settings.SaveIgnoresAuto | app/dashboard/settings/settings-content.tsx:181-187 | Under "auto", save leaves a class that disagrees with the system preference as it is. |
| Settings.SaveThenMount | app/dashboard/settings/settings-content.tsx:106-188 | Saving and mounting afresh shows the same screen, given restorable preferences and an unchanged system preference. |

## Left out

- Network, authentication, clocks, `Date.now()` ids, toasts, `router.refresh()` and `confirm()`. Sessions, clock readings, fresh ids and the dialog's answer are parameters.
- Database errors: every query is taken to succeed. Only the "not found", "Unauthorized" and insert paths are modelled. Row ordering (`order`) and `limit` in the read actions are not modelled.
- Column defaults of the tables: the table definitions are not part of this model, so they are the `ColumnDefaults` parameter.
- Schema.TaskRowOf: an omitted nullable column (description, anchors, branch, permalink, due date, tags) is taken to be null. An omitted or null value cannot be told apart in the model. Any other default the table definitions might give is not modelled.
- Schema.RepoRowOf: likewise, an omitted description, language or sync time is taken to be null.
- `localeCompare`: modelled as code-point order, since the locale's collation is not available.
- Submodule (`commit`) entries of the tree listing: only `blob` and `tree` are modelled.
- The first `buildTree` of repo-manager.tsx: it is dead code, and only `buildFileTree` is modelled.
- File content fetching and the image check of repo-manager.tsx: I/O.
- `toLocaleDateString`: locale-dependent, so a date label is `OnDate(timestamp)` with no text.
- CSS class strings and JSX layout: borders, tints and icons are modelled as datatypes or emoji constants, not as class names.
- The emoji in app/dashboard/page.tsx appear there in a mis-decoded form. The model uses the decoded emoji.
- DashboardPage.CompletionRate: `Math.round` of a floating-point quotient is modelled in exact arithmetic, rounding halves up. A float that lands just beside an exact half could round the other way.
- TimeAgo.CardTimeAgo: elapsed times are whole milliseconds. `Math.floor` of a float quotient is Dafny's `/` by a positive divisor.
- Settings.Load: a stored field is taken to hold a string, an integer or a boolean, as the save writes them. A stored value of another JSON type, a fractional size and NaN are not modelled.
- Settings.SliderValue: the clamping to 10..20 is the range input's own behaviour, not code of the screen.
- The star and pin toggles race if clicked twice before the first call returns; concurrency is not modelled.
- The settings screen's profile card only displays user data, and its two danger-zone buttons only show a message; neither is modelled.
- Actions.GetDashboardStats: "yesterday" is taken as exactly 24 hours before `now`. The source steps the local calendar day back by one, which differs by an hour across a daylight-saving change.

## Findings

| source | as written | input that shows it | evidently intended | confidence | as-written member | corrected member |
|---|---|---|---|---|---|---|
| app/dashboard/all-tasks/task-card.tsx:177-180 | `{task.line_start && …}` renders the number itself when it is 0, so "0" follows the path | a row with file_path "a.ts", line_start 0, line_end null shows "📄 a.ts0" | show `:start` only for a truthy start and nothing otherwise | not executed; `createTask` never stores a 0 line, so only rows written another way show it | TaskCard.AnchorLabelAsWritten, TaskCard.AnchorLabelStrayZero | TaskCard.AnchorLabel |
| lib/db/actions.ts:317-326 | the existing-repository lookup filters on `github_id` only, not on the user | user "bob" syncs a GitHub repository that user "alice" already has; bob gets alice's row back | look up the caller's own row (`user_id` and `github_id`) | not executed; row-level security policies of the database, which could hide other users' rows, are not part of this model | Actions.EnsureRepository, Actions.EnsureRepositoryReturnsOtherUsersRow | Actions.EnsureOwnRepository |
