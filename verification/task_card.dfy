/**
 * One card of the all-tasks page (app/dashboard/all-tasks/task-card.tsx):
 * the icons beside the type and priority, the border the card is drawn with,
 * the `file:start-end` anchor label, and the three buttons that change the
 * card's look at once and put it back when the server call fails.
 */
module TaskCard {
  import opened Basics
  import Decimal
  import opened Schema
  import Actions

  // ---------------------------------------------------------------------------
  // Icons
  // ---------------------------------------------------------------------------

  /** 📋, the icon of TODO and of every type the card does not know. */
  const ClipboardIcon := "\U{1F4CB}"

  /** The emoji before a type; a type outside the nine listed ones gets the TODO icon. */
  function TypeIcon(kind: string): (icon: string)
    ensures icon == ClipboardIcon <==> kind == "TODO" || ParseType(kind).None?
  {
    if kind == "BUG" then "\U{1F41B}"                 // 🐛
    else if kind == "FIXME" then "\U{1F527}"          // 🔧
    else if kind == "SECURITY" then "\U{1F512}"       // 🔒
    else if kind == "OPTIMIZE" then "\U{26A1}"        // ⚡
    else if kind == "HACK" then "\U{1F4A1}"           // 💡
    else if kind == "DEPRECATED" then "\U{1F5D1}\U{FE0F}"  // 🗑️
    else if kind == "REVIEW" then "\U{1F440}"         // 👀
    else if kind == "NOTE" then "\U{1F4DD}"           // 📝
    else if kind == "ALERT" then "\U{26A0}\U{FE0F}"   // ⚠️
    else ClipboardIcon
  }

  /** Each of the ten task types has an icon of its own. */
  lemma TypeIconDistinct(a: TaskType, b: TaskType)
    requires TypeIcon(TypeName(a)) == TypeIcon(TypeName(b))
    ensures a == b
  {
  }

  /** 🌱, the icon of low priority and of every priority the card does not know. */
  const SeedlingIcon := "\U{1F331}"

  /** The emoji before a priority; anything but critical, high or medium gets the low icon. */
  function PriorityIcon(priority: string): (icon: string)
    ensures icon == SeedlingIcon <==> priority != "critical" && priority != "high" && priority != "medium"
  {
    if priority == "critical" then "\U{1F6A8}"     // 🚨
    else if priority == "high" then "\U{1F525}"    // 🔥
    else if priority == "medium" then "\U{1F33F}"  // 🌿
    else SeedlingIcon
  }

  /** Each of the four priorities has an icon of its own. */
  lemma PriorityIconDistinct(a: Priority, b: Priority)
    requires PriorityIcon(PriorityName(a)) == PriorityIcon(PriorityName(b))
    ensures a == b
  {
  }

  // ---------------------------------------------------------------------------
  // The border
  // ---------------------------------------------------------------------------

  /** The card's border: a full border for urgent priorities, a left stripe for three types. */
  datatype Border = CriticalFrame | HighFrame | BugStripe | SecurityStripe | AlertStripe | NoBorder

  /**
   * `getCardBorderClass`: critical, then high priority, then the types BUG,
   * SECURITY and ALERT in that order; the first that applies wins.
   */
  function CardBorder(priority: Priority, kind: TaskType): (b: Border)
    ensures b == CriticalFrame <==> priority == Critical
    ensures b == HighFrame <==> priority == High
    ensures b == BugStripe ==> kind == Bug
    ensures b == SecurityStripe ==> kind == Security
    ensures b == AlertStripe ==> kind == Alert
    ensures b == NoBorder ==> kind != Bug && kind != Security && kind != Alert
  {
    if priority == Critical then CriticalFrame
    else if priority == High then HighFrame
    else if kind == Bug then BugStripe
    else if kind == Security then SecurityStripe
    else if kind == Alert then AlertStripe
    else NoBorder
  }

  /**
   * Priority always wins over type: an urgent card looks the same whatever
   * its type, and below that low and medium priority cards look alike.
   */
  lemma PriorityWinsOverType(p: Priority, k1: TaskType, k2: TaskType)
    ensures (p == Critical || p == High) ==> CardBorder(p, k1) == CardBorder(p, k2)
    ensures CardBorder(Low, k1) == CardBorder(Medium, k1)
    ensures CardBorder(Low, k1) == CardBorder(Low, k2) <==>
      (k1 == k2 || ((k1 !in {Bug, Security, Alert}) && (k2 !in {Bug, Security, Alert})))
  {
  }

  // ---------------------------------------------------------------------------
  // The anchor label
  // ---------------------------------------------------------------------------

  /** 📄, before the file path. */
  const PageIcon := "\U{1F4C4}"

  /** A JavaScript number's truthiness: absent and 0 are falsy. */
  predicate TruthyNumber(n: Option<int>) {
    n.Some? && n.value != 0
  }

  /**
   * What React prints for `{n && `${mark}${n}`}` when `n` is a number:
   * nothing for a null, the number itself for a 0, and the marked number
   * otherwise.
   */
  function AndText(n: Option<int>, mark: string): string {
    if n.None? then "" else if n.value == 0 then "0" else mark + Decimal.IntToString(n.value)
  }

  /**
   * The anchor label AS WRITTEN: nothing without a (non-empty) file path;
   * otherwise the path, then `:start` guarded by `line_start &&`, then
   * `-end` guarded by `line_end && line_end !== line_start &&`. A line
   * number of 0 is falsy, so the guard itself is printed: "0".
   */
  function AnchorLabelAsWritten(t: TaskRow): (shown: Option<string>)
    ensures shown.Some? <==> Actions.Truthy(t.filePath)
    ensures shown.Some? ==>
      |shown.value| >= |PageIcon| + 1 + |t.filePath.value| &&
      shown.value[..|PageIcon| + 1 + |t.filePath.value|] == PageIcon + " " + t.filePath.value
  {
    if !Actions.Truthy(t.filePath) then None
    else
      var start := AndText(t.lineStart, ":");
      var end := if t.lineEnd.Some? && t.lineEnd.value != 0 && t.lineEnd == t.lineStart then ""
        else AndText(t.lineEnd, "-");
      var prefix := PageIcon + " " + t.filePath.value;
      assert (prefix + start + end)[..|prefix|] == prefix;
      Some(prefix + start + end)
  }

  /**
   * The discrepancy: a task at line 0 of "a.ts" is labelled "📄 a.ts0", a
   * digit glued to the path that reads as part of the file name.
   */
  lemma AnchorLabelStrayZero(t: TaskRow)
    requires t.filePath == Some("a.ts") && t.lineStart == Some(0) && t.lineEnd.None?
    ensures AnchorLabelAsWritten(t) == Some(PageIcon + " a.ts0")
  {
    assert PageIcon + " " + "a.ts" + "0" + "" == PageIcon + " a.ts0";
  }

  /** The line number the label shows first: a truthy `line_start`. */
  function ShownStart(t: TaskRow): Option<int> {
    if TruthyNumber(t.lineStart) then t.lineStart else None
  }

  /** The line number the label shows second: a truthy `line_end` other than `line_start`. */
  function ShownEnd(t: TaskRow): Option<int> {
    if TruthyNumber(t.lineEnd) && t.lineEnd != t.lineStart then t.lineEnd else None
  }

  /** `:start` and `-end`, each when its number is shown. */
  function LinesText(start: Option<int>, end: Option<int>): string {
    (if start.Some? then ":" + Decimal.IntToString(start.value) else "")
    + (if end.Some? then "-" + Decimal.IntToString(end.value) else "")
  }

  /**
   * The anchor label as evidently intended: the guards only decide whether a
   * part is shown (`line_start ? text : null`), so nothing but `:start` and
   * `-end` ever follows the path.
   */
  function AnchorLabel(t: TaskRow): (shown: Option<string>)
    ensures shown.Some? <==> Actions.Truthy(t.filePath)
    ensures shown.Some? ==>
      var prefix := PageIcon + " " + t.filePath.value;
      && |prefix| <= |shown.value| && shown.value[..|prefix|] == prefix
      && (shown.value == prefix <==> ShownStart(t).None? && ShownEnd(t).None?)
      && (|prefix| < |shown.value| ==> shown.value[|prefix|] == ':' || shown.value[|prefix|] == '-')
  {
    if !Actions.Truthy(t.filePath) then None
    else
      var prefix := PageIcon + " " + t.filePath.value;
      var lines := LinesText(ShownStart(t), ShownEnd(t));
      assert (prefix + lines)[..|prefix|] == prefix;
      assert |prefix| < |prefix + lines| ==> (prefix + lines)[|prefix|] == lines[0];
      Some(prefix + lines)
  }

  /** The two labels differ only where a line number is 0. */
  lemma AnchorLabelAsWrittenAgrees(t: TaskRow)
    requires t.lineStart != Some(0) && t.lineEnd != Some(0)
    ensures AnchorLabelAsWritten(t) == AnchorLabel(t)
  {
    if Actions.Truthy(t.filePath) {
      var prefix := PageIcon + " " + t.filePath.value;
      var start := AndText(t.lineStart, ":");
      var end := if t.lineEnd.Some? && t.lineEnd.value != 0 && t.lineEnd == t.lineStart then ""
        else AndText(t.lineEnd, "-");
      assert start + end == LinesText(ShownStart(t), ShownEnd(t));
      assert prefix + start + end == prefix + (start + end);
    }
  }

  /** A task made by `createTask` never has a line 0, so both labels read alike on it. */
  lemma CreatedTaskLabel(session: Actions.Session, db: Actions.Db, repoId: string, content: string,
                         kind: Option<TaskType>, priority: Option<Priority>, context: Option<Actions.TaskContext>,
                         newId: string, now: Timestamp, d: ColumnDefaults)
    requires session.Some?
    ensures var t := Actions.CreateTask(session, db, repoId, content, kind, priority, context, newId, now, d).result.value;
      AnchorLabelAsWritten(t) == AnchorLabel(t)
  {
    var t := Actions.CreateTask(session, db, repoId, content, kind, priority, context, newId, now, d).result.value;
    AnchorLabelAsWrittenAgrees(t);
  }

  /**
   * The corrected label can be read back: for one file and non-negative line
   * numbers, equal labels show equal line numbers.
   */
  lemma AnchorLabelReadsBack(t1: TaskRow, t2: TaskRow)
    requires t1.filePath == t2.filePath && Actions.Truthy(t1.filePath)
    requires NonNegative(t1.lineStart) && NonNegative(t1.lineEnd) && NonNegative(t2.lineStart) && NonNegative(t2.lineEnd)
    requires AnchorLabel(t1) == AnchorLabel(t2)
    ensures ShownStart(t1) == ShownStart(t2) && ShownEnd(t1) == ShownEnd(t2)
  {
    var prefix := PageIcon + " " + t1.filePath.value;
    var l1, l2 := LinesText(ShownStart(t1), ShownEnd(t1)), LinesText(ShownStart(t2), ShownEnd(t2));
    assert prefix + l1 == prefix + l2;
    assert l1 == (prefix + l1)[|prefix|..] && l2 == (prefix + l2)[|prefix|..];
    LinesTextInjective(ShownStart(t1), ShownEnd(t1), ShownStart(t2), ShownEnd(t2));
  }

  /** No line number, or one that is not negative. */
  predicate NonNegative(n: Option<int>) {
    n.None? || n.value >= 0
  }

  /** The text of non-negative line numbers, with the sign case ruled out. */
  lemma LinesTextNatural(start: Option<int>, end: Option<int>)
    requires NonNegative(start) && NonNegative(end)
    ensures LinesText(start, end) == StartText(start) + EndText(end)
    ensures start.Some? ==> LinesText(start, end)[0] == ':'
    ensures start.None? ==> LinesText(start, end) == EndText(end)
    ensures EndText(end) == "" <==> end.None?
    ensures EndText(end) != "" ==> EndText(end)[0] == '-'
  {
  }

  function StartText(start: Option<int>): string
    requires NonNegative(start)
  {
    if start.Some? then ":" + Decimal.NatToString(start.value) else ""
  }

  function EndText(end: Option<int>): string
    requires NonNegative(end)
  {
    if end.Some? then "-" + Decimal.NatToString(end.value) else ""
  }

  /** Non-negative line numbers are told apart by their text. */
  lemma LinesTextInjective(s1: Option<int>, e1: Option<int>, s2: Option<int>, e2: Option<int>)
    requires NonNegative(s1) && NonNegative(e1) && NonNegative(s2) && NonNegative(e2)
    requires LinesText(s1, e1) == LinesText(s2, e2)
    ensures s1 == s2 && e1 == e2
  {
    LinesTextNatural(s1, e1);
    LinesTextNatural(s2, e2);
    StartTextInjective(s1, EndText(e1), s2, EndText(e2));
    EndTextInjective(e1, e2);
  }

  /** The start part is delimited by the `-` of the end part, or by the end of the text. */
  lemma StartTextInjective(s1: Option<int>, x1: string, s2: Option<int>, x2: string)
    requires NonNegative(s1) && NonNegative(s2)
    requires x1 != [] ==> x1[0] == '-'
    requires x2 != [] ==> x2[0] == '-'
    requires StartText(s1) + x1 == StartText(s2) + x2
    ensures s1 == s2 && x1 == x2
  {
    if s1.Some? && s2.Some? {
      MarkedNumeralPrefix(s1.value, x1, s2.value, x2);
    } else {
      StartTextShape(s1, x1);
      StartTextShape(s2, x2);
    }
  }

  /** A shown start line opens the text with `:`; an absent one adds nothing. */
  lemma StartTextShape(s: Option<int>, x: string)
    requires NonNegative(s)
    ensures s.Some? ==> |StartText(s) + x| > 0 && (StartText(s) + x)[0] == ':'
    ensures s.None? ==> StartText(s) + x == x
  {
  }

  lemma MarkedNumeralPrefix(a: nat, x: string, b: nat, y: string)
    requires x != [] ==> x[0] == '-'
    requires y != [] ==> y[0] == '-'
    requires ":" + Decimal.NatToString(a) + x == ":" + Decimal.NatToString(b) + y
    ensures a == b && x == y
  {
    var l := ":" + Decimal.NatToString(a) + x;
    assert Decimal.NatToString(a) + x == l[1..];
    assert Decimal.NatToString(b) + y == l[1..];
    Decimal.NumeralPrefix(a, x, b, y);
  }

  lemma EndTextInjective(e1: Option<int>, e2: Option<int>)
    requires NonNegative(e1) && NonNegative(e2)
    requires EndText(e1) == EndText(e2)
    ensures e1 == e2
  {
    if e1.Some? && e2.Some? {
      assert EndText(e1)[1..] == Decimal.NatToString(e1.value);
      assert EndText(e2)[1..] == Decimal.NatToString(e2.value);
      Decimal.NatToStringInjective(e1.value, e2.value);
    }
  }

  // ---------------------------------------------------------------------------
  // The buttons
  // ---------------------------------------------------------------------------

  /** What the card shows: ticked, starred, and whether it is hidden after a delete. */
  datatype CardState = CardState(completed: bool, starred: bool, deleted: bool)

  /** A card starts from its row: ticked when completed, starred when the flag is set, shown. */
  function InitialCard(t: TaskRow): CardState {
    CardState(t.status == Completed, t.isStarred, false)
  }

  /** A click on one of the buttons; a delete is confirmed or cancelled in the dialog. */
  datatype Click = ToggleClick | StarClick | DeleteClick(confirmed: bool)

  /** The server action a click starts, if any. */
  datatype Call = NoCall | SetCompleted(completed: bool) | FlipStar | Remove

  /** A click's immediate effect: the card as shown at once, and the call started. */
  datatype Handled = Handled(shown: CardState, call: Call)

  /**
   * The three handlers: flip the tick and send the new status, flip the star
   * and ask the server to flip it too, or (only once confirmed) hide the card
   * and delete the task.
   */
  function Handle(s: CardState, c: Click): (h: Handled)
    ensures c == DeleteClick(false) ==> h == Handled(s, NoCall)
    ensures c == ToggleClick ==> h.shown == s.(completed := !s.completed) && h.call == SetCompleted(!s.completed)
    ensures c == StarClick ==> h.shown == s.(starred := !s.starred) && h.call == FlipStar
    ensures c == DeleteClick(true) ==> h.shown == s.(deleted := true) && h.call == Remove
  {
    match c
    case ToggleClick =>
      var newStatus := !s.completed;
      Handled(s.(completed := newStatus), SetCompleted(newStatus))
    case StarClick => Handled(s.(starred := !s.starred), FlipStar)
    case DeleteClick(confirmed) =>
      if !confirmed then Handled(s, NoCall) else Handled(s.(deleted := true), Remove)
  }

  /**
   * The card once the call has finished: kept as shown when it succeeded;
   * when it failed, the field the click changed is set back from the value
   * captured at the click (`!newStatus`, the old `isStarred`, not deleted).
   */
  function Settle(s: CardState, c: Click, ok: bool): (r: CardState)
    ensures ok ==> r == Handle(s, c).shown
    ensures !ok && !s.deleted ==> r == s
  {
    var h := Handle(s, c);
    if ok then h.shown
    else match c
      case ToggleClick => h.shown.(completed := !h.call.completed)
      case StarClick => h.shown.(starred := s.starred)
      case DeleteClick(_) => h.shown.(deleted := false)
  }

  /** The card agrees with a row: ticked exactly when completed, starred exactly when flagged, shown. */
  predicate Mirrors(s: CardState, t: TaskRow) {
    s.completed == (t.status == Completed) && s.starred == t.isStarred && !s.deleted
  }

  /** A freshly rendered card mirrors its row, so the agreement kept by every settled click holds from the start. */
  lemma InitialCardMirrors(t: TaskRow)
    ensures Mirrors(InitialCard(t), t)
  {
  }

  /**
   * The store after a call: `updateTaskStatus`, `toggleTaskStar` or
   * `deleteTask` on the card's task, and whether the call succeeded. Only the
   * star toggle can fail here; store errors are not part of this model.
   */
  function Perform(db: Actions.Db, id: string, call: Call): (Actions.Db, bool) {
    match call
    case NoCall => (db, true)
    case SetCompleted(b) => (Actions.UpdateTaskStatus(db, id, b), true)
    case FlipStar =>
      var st := Actions.ToggleTaskStar(db, id);
      (st.db, st.result.Ok?)
    case Remove => (Actions.DeleteTask(db, id), true)
  }

  /**
   * A card that mirrors its row still mirrors it after any click has
   * settled: the optimistic change is what the store ends up with, and a
   * rolled-back change is matched by a store left as it was. A deleted card
   * stays hidden exactly when its row is gone.
   */
  lemma SettledCardMirrorsStore(s: CardState, c: Click, db: Actions.Db, i: nat)
    requires i < |db.tasks| && Mirrors(s, db.tasks[i])
    requires forall j :: 0 <= j < |db.tasks| && j != i ==> db.tasks[j].id != db.tasks[i].id
    ensures var id := db.tasks[i].id;
      var (db2, ok) := Perform(db, id, Handle(s, c).call);
      var r := Settle(s, c, ok);
      if r.deleted then forall j :: 0 <= j < |db2.tasks| ==> db2.tasks[j].id != id
      else |db2.tasks| == |db.tasks| && Mirrors(r, db2.tasks[i])
  {
    var id := db.tasks[i].id;
    match c
    case StarClick =>
      OnlyRow(db.tasks, i);
    case DeleteClick(confirmed) =>
      if confirmed {
        var db2 := Actions.DeleteTask(db, id);
        assert forall j :: 0 <= j < |db2.tasks| ==> db2.tasks[j].id != id;
      }
    case ToggleClick =>
  }

  /** A row whose id no other row carries is the one row `.single()` finds. */
  lemma OnlyRow(ts: seq<TaskRow>, i: nat)
    requires i < |ts|
    requires forall j :: 0 <= j < |ts| && j != i ==> ts[j].id != ts[i].id
    ensures Count(ts, Actions.HasTaskId(ts[i].id)) == 1
  {
    CountOnlyAt(ts, Actions.HasTaskId(ts[i].id), i);
  }
}
