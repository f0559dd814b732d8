/**
 * The in-memory todo panel of components/dashboard/repo-manager.tsx: a list
 * of todos, the text being typed, adding a todo (linked to the selected file
 * when there is one), ticking a todo's checkbox and the "N open" badge.
 */
module RepoTodos {
  import opened Basics
  import FileTree

  /** The file a todo was written against. */
  datatype TodoContext = TodoContext(file: string, sha: string)

  /** One todo of the panel; `kind` is its free-form type label (`TODO`, `BUG`, ...). */
  datatype Todo = Todo(id: int, text: string, kind: string, completed: bool, context: Option<TodoContext>)

  /** The panel's state: the todos and the text of the input box. */
  datatype Panel = Panel(todos: seq<Todo>, draft: string)

  /**
   * The three todos the panel starts with: distinct ids, so each toggle
   * moves the badge by exactly one, and two of them open.
   */
  function InitialTodos(): (ts: seq<Todo>)
    ensures |ts| == 3
    ensures forall i, j :: 0 <= i < j < |ts| ==> ts[i].id != ts[j].id
    ensures OpenCount(ts) == 2
  {
    var ts := [Todo(1, "Fix authentication bug", "BUG", false, None),
               Todo(2, "Refactor file tree component", "TODO", true, None),
               Todo(3, "Add test cases for API", "TEST", false, None)];
    assert ts[1..] == [ts[1], ts[2]] && [ts[1], ts[2]][1..] == [ts[2]] && [ts[2]][1..] == [];
    ts
  }

  // ---------------------------------------------------------------------------
  // `String.prototype.trim`
  // ---------------------------------------------------------------------------

  /** The characters `trim` removes: ECMAScript white space and line terminators. */
  predicate IsJsWhitespace(c: char) {
    c == '\t' || c == '\n' || c == '\U{000B}' || c == '\U{000C}' || c == '\r' || c == ' '
    || c == '\U{00A0}' || c == '\U{1680}' || ('\U{2000}' <= c <= '\U{200A}')
    || c == '\U{2028}' || c == '\U{2029}' || c == '\U{202F}' || c == '\U{205F}'
    || c == '\U{3000}' || c == '\U{FEFF}'
  }

  /** `s` without its leading white space. */
  function TrimStart(s: string): (r: string)
    ensures |r| <= |s| && r == s[|s| - |r|..]
    ensures forall i :: 0 <= i < |s| - |r| ==> IsJsWhitespace(s[i])
    ensures r != [] ==> !IsJsWhitespace(r[0])
  {
    if s != [] && IsJsWhitespace(s[0]) then TrimStart(s[1..]) else s
  }

  /** `s` without its trailing white space. */
  function TrimEnd(s: string): (r: string)
    ensures |r| <= |s| && r == s[..|r|]
    ensures forall i :: |r| <= i < |s| ==> IsJsWhitespace(s[i])
    ensures r != [] ==> !IsJsWhitespace(r[|r| - 1])
  {
    if s != [] && IsJsWhitespace(s[|s| - 1]) then TrimEnd(s[..|s| - 1]) else s
  }

  function Trim(s: string): string {
    TrimEnd(TrimStart(s))
  }

  /** `!s.trim()`: the text is empty or white space only. */
  predicate Blank(s: string) {
    Trim(s) == ""
  }

  /** Trimming leaves nothing exactly when every character is white space. */
  lemma BlankIff(s: string)
    ensures Blank(s) <==> forall i :: 0 <= i < |s| ==> IsJsWhitespace(s[i])
  {
    var t := TrimStart(s);
    assert Blank(s) <==> t == [] by {
      if t != [] {
        assert !IsJsWhitespace(t[0]);
      }
    }
    if t != [] {
      assert t[0] == s[|s| - |t|];
    }
  }

  // ---------------------------------------------------------------------------
  // Adding a todo
  // ---------------------------------------------------------------------------

  /** The context of a new todo: the selected file's path and blob sha, if a file is selected. */
  function ContextOf(selected: Option<FileTree.Node>): (c: Option<TodoContext>)
    ensures c.Some? <==> selected.Some?
    ensures c.Some? ==> c.value.file == selected.value.path && c.value.sha == selected.value.sha
  {
    match selected
    case None => None
    case Some(n) => Some(TodoContext(n.path, n.sha))
  }

  /**
   * `addTodo`: blank text changes nothing; otherwise one open `TODO` with the
   * typed text, the clock reading `now` as its id and the selected file as its
   * context is appended, and the input box is cleared.
   */
  function AddTodo(panel: Panel, selected: Option<FileTree.Node>, now: int): (r: Panel)
    ensures Blank(panel.draft) ==> r == panel
    ensures !Blank(panel.draft) ==>
      && |r.todos| == |panel.todos| + 1
      && r.todos[..|panel.todos|] == panel.todos
      && r.draft == ""
    ensures !Blank(panel.draft) ==>
      var t := r.todos[|panel.todos|];
      && t.id == now && t.text == panel.draft && t.kind == "TODO" && !t.completed
      && (t.context.Some? <==> selected.Some?)
      && (selected.Some? ==> t.context.value == TodoContext(selected.value.path, selected.value.sha))
  {
    if Blank(panel.draft) then panel
    else
      var todos := panel.todos + [Todo(now, panel.draft, "TODO", false, ContextOf(selected))];
      assert todos[..|panel.todos|] == panel.todos;
      Panel(todos, "")
  }

  // ---------------------------------------------------------------------------
  // The checkbox and the badge
  // ---------------------------------------------------------------------------

  /** The checkbox handler: every todo carrying `id` has `completed` flipped. */
  function ToggleTodo(todos: seq<Todo>, id: int): (r: seq<Todo>)
    ensures |r| == |todos|
    ensures forall i :: 0 <= i < |todos| && todos[i].id != id ==> r[i] == todos[i]
    ensures forall i :: 0 <= i < |todos| && todos[i].id == id ==>
      r[i] == todos[i].(completed := !todos[i].completed)
  {
    if todos == [] then []
    else
      var t := todos[0];
      [if t.id == id then t.(completed := !t.completed) else t] + ToggleTodo(todos[1..], id)
  }

  function IsOpen(t: Todo): bool {
    !t.completed
  }

  function IsDone(t: Todo): bool {
    t.completed
  }

  /** The badge: the number of todos not completed. */
  function OpenCount(todos: seq<Todo>): (n: nat)
    ensures n <= |todos|
    ensures n == 0 <==> forall i :: 0 <= i < |todos| ==> todos[i].completed
  {
    Count(todos, IsOpen)
  }

  /** Every todo is either open or completed. */
  lemma OpenPlusDone(todos: seq<Todo>)
    ensures OpenCount(todos) + Count(todos, IsDone) == |todos|
  {
    CountComplement(todos, IsOpen, IsDone);
  }

  /** Ticking the same checkbox twice restores the list. */
  lemma ToggleTwice(todos: seq<Todo>, id: int)
    ensures ToggleTodo(ToggleTodo(todos, id), id) == todos
  {
    var r := ToggleTodo(ToggleTodo(todos, id), id);
    assert forall i :: 0 <= i < |todos| ==> r[i] == todos[i];
  }

  /** With one todo carrying `id`, ticking it moves the badge by one in the right direction. */
  lemma {:induction false} ToggleOpenCount(todos: seq<Todo>, id: int, k: nat)
    requires k < |todos| && todos[k].id == id
    requires forall i :: 0 <= i < |todos| && i != k ==> todos[i].id != id
    ensures OpenCount(ToggleTodo(todos, id)) == if todos[k].completed then OpenCount(todos) + 1 else OpenCount(todos) - 1
  {
    var r := ToggleTodo(todos, id);
    assert r[0] == (if todos[0].id == id then todos[0].(completed := !todos[0].completed) else todos[0]);
    assert r[1..] == ToggleTodo(todos[1..], id);
    if k == 0 {
      assert forall i :: 0 <= i < |todos[1..]| ==> todos[1..][i].id != id;
      ToggleNoMatch(todos[1..], id);
    } else {
      ToggleOpenCount(todos[1..], id, k - 1);
    }
  }

  /** Ticking an id no todo carries changes nothing. */
  lemma ToggleNoMatch(todos: seq<Todo>, id: int)
    requires forall i :: 0 <= i < |todos| ==> todos[i].id != id
    ensures ToggleTodo(todos, id) == todos
  {
    var r := ToggleTodo(todos, id);
    assert forall i :: 0 <= i < |todos| ==> r[i] == todos[i];
  }

  /** Adding a todo raises the badge by exactly one; blank text leaves it as it was. */
  lemma AddTodoOpenCount(panel: Panel, selected: Option<FileTree.Node>, now: int)
    ensures OpenCount(AddTodo(panel, selected, now).todos)
      == if Blank(panel.draft) then OpenCount(panel.todos) else OpenCount(panel.todos) + 1
  {
    var r := AddTodo(panel, selected, now);
    if !Blank(panel.draft) {
      var t := r.todos[|panel.todos|];
      assert r.todos == panel.todos + [t];
      CountAppend(panel.todos, [t], IsOpen);
      assert [t][1..] == [];
    }
  }
}
