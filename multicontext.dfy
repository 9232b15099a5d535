/** MultiMessageItem and MultiContextItem: one row of the side-by-side view
    of several translation files, and one context of it. A cell of model
    (column) `i` stands for the MessageItem pointer Qt Linguist stores, as the index
    of that message inside the column's context; the context pointer of
    column `i` is the index of that context inside the column's DataModel. */
module MultiContext {
  import opened Wrappers
  import opened Text
  import opened DataModel

  /** A row: the identity of a message and four counters over its cells. */
  datatype MultiMessageItem = MultiMessageItem(
    id: UString,
    text: UString,
    pluralText: UString,
    comment: UString,
    nonnullCount: int,
    nonobsoleteCount: int,
    editableCount: int,
    unfinishedCount: int)
  {
    /** The row without its counters: what identifies the message. */
    function Ident(): MultiMessageItem {
      this.(nonnullCount := 0, nonobsoleteCount := 0, editableCount := 0, unfinishedCount := 0)
    }

    /** isEmpty: no model holds this message. */
    predicate IsEmpty() { nonnullCount == 0 }
    predicate IsUnfinished() { unfinishedCount != 0 }
  }

  /** MultiMessageItem(m): the identity of `m`, all counters zero. */
  function NewMultiMessage(m: MessageItem): (r: MultiMessageItem)
    ensures r.id == m.Id() && r.text == m.Text() && r.pluralText == m.PluralText() && r.comment == m.Comment()
    ensures r.IsEmpty() && !r.IsUnfinished() && r.nonobsoleteCount == 0 && r.editableCount == 0
  {
    MultiMessageItem(m.Id(), m.Text(), m.PluralText(), m.Comment(), 0, 0, 0, 0)
  }

  /** The first row with identifier `id`, if any. */
  function FirstById(rows: seq<MultiMessageItem>, id: UString): (r: Option<nat>)
    ensures r.Some? ==> r.value < |rows| && rows[r.value].id == id
    ensures r.Some? ==> forall j | 0 <= j < r.value :: rows[j].id != id
    ensures r.None? <==> forall j | 0 <= j < |rows| :: rows[j].id != id
  {
    if rows == [] then None
    else if rows[0].id == id then Some(0)
    else
      var t := FirstById(rows[1..], id);
      if t.None? then None else Some(t.value + 1)
  }

  /** The first row showing `text` with `comment`, if any. */
  function FirstByText(rows: seq<MultiMessageItem>, text: UString, comment: UString): (r: Option<nat>)
    ensures r.Some? ==> r.value < |rows| && rows[r.value].text == text && rows[r.value].comment == comment
    ensures r.Some? ==> forall j | 0 <= j < r.value :: !(rows[j].text == text && rows[j].comment == comment)
    ensures r.None? <==> forall j | 0 <= j < |rows| :: !(rows[j].text == text && rows[j].comment == comment)
  {
    if rows == [] then None
    else if rows[0].text == text && rows[0].comment == comment then Some(0)
    else
      var t := FirstByText(rows[1..], text, comment);
      if t.None? then None else Some(t.value + 1)
  }

  // ---------------------------------------------------------------------
  // What a cell counts as

  /** How a cell enters the counters: no message, an obsolete one, a live one
      in a read-only model, or a finished or unfinished live one in a
      writable model. */
  datatype CellKind = NoItem | ObsoleteItem | ReadOnlyItem | FinishedItem | UnfinishedItem

  function KindOf(m: Option<MessageItem>, writable: bool): CellKind {
    match m
    case None => NoItem
    case Some(item) =>
      if item.IsObsolete() then ObsoleteItem
      else if !writable then ReadOnlyItem
      else if item.IsFinished() then FinishedItem
      else UnfinishedItem
  }

  /** The four per-row counters. */
  datatype CellTally = NonnullCells | NonobsoleteCells | EditableCells | UnfinishedCells

  predicate Tallied(k: CellKind, t: CellTally) {
    match t
    case NonnullCells => k != NoItem
    case NonobsoleteCells => k != NoItem && k != ObsoleteItem
    case EditableCells => k == FinishedItem || k == UnfinishedItem
    case UnfinishedCells => k == UnfinishedItem
  }

  /** The number of kinds in `ks` that `t` counts, leaving out position
      `skip` (-1 leaves out nothing). */
  function TallyOf(ks: seq<CellKind>, skip: int, t: CellTally): (n: nat)
    ensures n <= |ks|
  {
    if ks == [] then 0
    else TallyOf(ks[..|ks| - 1], skip, t) + (if |ks| - 1 != skip && Tallied(ks[|ks| - 1], t) then 1 else 0)
  }

  /** The message a cell points at: column model `dm`, its context `ref`,
      message `cell`; nothing for a null pointer. */
  function CellItem(dm: DataModel, ref: Option<nat>, cell: Option<nat>): (r: Option<MessageItem>)
    ensures r.Some? ==> cell.Some? && ref.Some? && ref.value < |dm.contexts|
    ensures r.Some? ==> cell.value < |dm.contexts[ref.value].messages|
    ensures r.Some? ==> r.value == dm.contexts[ref.value].messages[cell.value]
  {
    if ref.Some? && cell.Some? && ref.value < |dm.contexts| && cell.value < |dm.contexts[ref.value].messages|
    then Some(dm.contexts[ref.value].messages[cell.value])
    else None
  }

  // ---------------------------------------------------------------------
  // Row-level counters of a context

  /** Which rows a context counter counts: rows some writable model holds
      live, and of those the ones no writable model holds unfinished. */
  datatype RowTally = EditableRows | FinishedRows

  predicate RowCounted(mm: MultiMessageItem, t: RowTally) {
    match t
    case EditableRows => mm.editableCount != 0
    case FinishedRows => mm.editableCount != 0 && mm.unfinishedCount == 0
  }

  function CountRows(rows: seq<MultiMessageItem>, t: RowTally): (n: nat)
    ensures n <= |rows|
  {
    if rows == [] then 0
    else CountRows(rows[..|rows| - 1], t) + (if RowCounted(rows[|rows| - 1], t) then 1 else 0)
  }

  function SumNonobsolete(rows: seq<MultiMessageItem>): int {
    if rows == [] then 0 else SumNonobsolete(rows[..|rows| - 1]) + rows[|rows| - 1].nonobsoleteCount
  }

  datatype MultiContextItem = MultiContextItem(
    context: UString,
    comment: UString,
    rows: seq<MultiMessageItem>,
    contextRefs: seq<Option<nat>>,
    messageLists: seq<seq<Option<nat>>>,
    finishedCount: int,
    editableCount: int,
    nonobsoleteCount: int)
  {
    /** One context pointer and one message list per model, every list as
        long as there are rows. */
    predicate Shaped(n: nat) {
      && |contextRefs| == n
      && |messageLists| == n
      && forall i | 0 <= i < n :: |messageLists[i]| == |rows|
    }

    /** The kind of cell (model `i`, row `j`). */
    function Kind(models: seq<DataModel>, i: nat, j: nat): CellKind {
      if i < |models| && i < |contextRefs| && i < |messageLists| && j < |messageLists[i]|
      then KindOf(CellItem(models[i], contextRefs[i], messageLists[i][j]), models[i].writable)
      else NoItem
    }

    /** The kinds of row `j`, one per model. */
    function RowKinds(models: seq<DataModel>, j: nat): (ks: seq<CellKind>)
      ensures |ks| == |models|
      ensures forall i | 0 <= i < |models| :: ks[i] == Kind(models, i, j)
    {
      seq(|models|, i requires 0 <= i < |models| => Kind(models, i, j))
    }

    /** Row `j`'s counters count its cells, leaving out model `skip`. */
    predicate RowAgrees(models: seq<DataModel>, j: nat, skip: int) {
      && j < |rows|
      && var ks := RowKinds(models, j);
      && rows[j].nonnullCount == TallyOf(ks, skip, NonnullCells)
      && rows[j].nonobsoleteCount == TallyOf(ks, skip, NonobsoleteCells)
      && rows[j].editableCount == TallyOf(ks, skip, EditableCells)
      && rows[j].unfinishedCount == TallyOf(ks, skip, UnfinishedCells)
    }

    /** Every row's counters count its cells, leaving out model `skip`. */
    predicate RowsAgree(models: seq<DataModel>, skip: int) {
      forall j | 0 <= j < |rows| :: RowAgrees(models, j, skip)
    }

    /** The pointers of every model lead into that model: the context pointer
        to a context of this name, each message pointer to a message of that
        context, and no message is held by two rows. */
    predicate Linked(models: seq<DataModel>) {
      && Shaped(|models|)
      && forall i | 0 <= i < |models| :: ColumnLinked(models[i], contextRefs[i], messageLists[i], context)
    }

    /** The context without any counters: its name, rows and pointers. */
    function Layout(): (r: MultiContextItem)
      ensures |r.rows| == |rows|
    {
      MultiContextItem(context, comment, seq(|rows|, j requires 0 <= j < |rows| => rows[j].Ident()),
                       contextRefs, messageLists, 0, 0, 0)
    }

    /** The context's own counters count its rows. */
    predicate CountersAgree() {
      && finishedCount == CountRows(rows, FinishedRows)
      && editableCount == CountRows(rows, EditableRows)
      && nonobsoleteCount == SumNonobsolete(rows)
    }

    /** appendEmptyModel: a new model that holds none of the rows. */
    function AppendEmptyModel(): (r: MultiContextItem)
      ensures r.contextRefs == contextRefs + [None]
      ensures r.messageLists == messageLists + [Nulls(|rows|)]
      ensures r.(contextRefs := contextRefs, messageLists := messageLists) == this
    {
      this.(contextRefs := contextRefs + [None], messageLists := messageLists + [Nulls(|rows|)])
    }

    /** assignLastModel: the last model's context pointer. */
    function AssignLastModel(ref: nat): (r: MultiContextItem)
      requires contextRefs != []
      ensures |r.contextRefs| == |contextRefs| && r.contextRefs[|contextRefs| - 1] == Some(ref)
      ensures r.contextRefs[..|contextRefs| - 1] == contextRefs[..|contextRefs| - 1]
      ensures r.(contextRefs := contextRefs) == this
    {
      this.(contextRefs := contextRefs[|contextRefs| - 1 := Some(ref)])
    }

    /** removeModel: drops model `pos` from every per-model list. */
    function RemoveModel(pos: nat): (r: MultiContextItem)
      requires pos < |contextRefs| && pos < |messageLists|
      ensures r.contextRefs == contextRefs[..pos] + contextRefs[pos + 1..]
      ensures r.messageLists == messageLists[..pos] + messageLists[pos + 1..]
      ensures r.(contextRefs := contextRefs, messageLists := messageLists) == this
    {
      this.(contextRefs := contextRefs[..pos] + contextRefs[pos + 1..],
            messageLists := messageLists[..pos] + messageLists[pos + 1..])
    }

    /** putMessageItem: the last model holds message `cell` at row `pos`. */
    function PutMessageItem(pos: nat, cell: nat): (r: MultiContextItem)
      requires messageLists != [] && pos < |messageLists[|messageLists| - 1]|
      ensures |r.messageLists| == |messageLists|
      ensures r.messageLists[..|messageLists| - 1] == messageLists[..|messageLists| - 1]
      ensures r.messageLists[|messageLists| - 1] == messageLists[|messageLists| - 1][pos := Some(cell)]
      ensures r.(messageLists := messageLists) == this
    {
      var last := |messageLists| - 1;
      this.(messageLists := messageLists[last := messageLists[last][pos := Some(cell)]])
    }

    /** appendMessageItems: new rows for `items`, held only by the last model,
        which holds them as messages `cells`. */
    function AppendMessageItems(cells: seq<nat>, items: seq<MessageItem>): (r: MultiContextItem)
      requires |cells| == |items| && messageLists != []
      ensures |r.messageLists| == |messageLists|
      ensures forall i | 0 <= i < |messageLists| - 1 :: r.messageLists[i] == messageLists[i] + Nulls(|cells|)
      ensures r.messageLists[|messageLists| - 1] == messageLists[|messageLists| - 1] + SomeCells(cells)
      ensures r.rows == rows + NewRows(items)
      ensures r.(rows := rows, messageLists := messageLists) == this
    {
      var last := |messageLists| - 1;
      this.(rows := rows + NewRows(items),
            messageLists := seq(|messageLists|, i requires 0 <= i < |messageLists| =>
                                 if i < last then messageLists[i] + Nulls(|cells|)
                                 else messageLists[i] + SomeCells(cells)))
    }

    /** removeMultiMessageItem: drops row `pos` everywhere. */
    function RemoveMultiMessageItem(pos: nat): (r: MultiContextItem)
      requires pos < |rows| && forall i | 0 <= i < |messageLists| :: pos < |messageLists[i]|
      ensures r.rows == rows[..pos] + rows[pos + 1..]
      ensures |r.messageLists| == |messageLists|
      ensures forall i | 0 <= i < |messageLists| ::
                r.messageLists[i] == messageLists[i][..pos] + messageLists[i][pos + 1..]
      ensures r.(rows := rows, messageLists := messageLists) == this
    {
      this.(rows := rows[..pos] + rows[pos + 1..],
            messageLists := seq(|messageLists|, i requires 0 <= i < |messageLists| =>
                                 messageLists[i][..pos] + messageLists[i][pos + 1..]))
    }

    /** findMessage: the first row showing `text` with `comment`. */
    method FindMessage(text: UString, comment: UString) returns (r: Option<nat>)
      ensures r == FirstByText(rows, text, comment)
    {
      for i := 0 to |rows|
        invariant forall j | 0 <= j < i :: !(rows[j].text == text && rows[j].comment == comment)
      {
        if rows[i].text == text && rows[i].comment == comment {
          return Some(i);
        }
      }
      return None;
    }

    /** findMessageById: the first row with identifier `id`. */
    method FindMessageById(id: UString) returns (r: Option<nat>)
      ensures r == FirstById(rows, id)
    {
      for i := 0 to |rows|
        invariant forall j | 0 <= j < i :: rows[j].id != id
      {
        if rows[i].id == id {
          return Some(i);
        }
      }
      return None;
    }

    /** firstNonobsoleteMessageIndex: the first model holding row `msgIdx`
        as a message that is not obsolete. */
    method FirstNonobsoleteModel(models: seq<DataModel>, msgIdx: nat) returns (r: Option<nat>)
      requires Shaped(|models|) && msgIdx < |rows|
      ensures r.Some? ==> r.value < |models| && Live(models, r.value, msgIdx)
      ensures r.Some? ==> forall i | 0 <= i < r.value :: !Live(models, i, msgIdx)
      ensures r.None? <==> forall i | 0 <= i < |models| :: !Live(models, i, msgIdx)
    {
      for i := 0 to |messageLists|
        invariant forall k | 0 <= k < i :: !Live(models, k, msgIdx)
      {
        var m := CellItem(models[i], contextRefs[i], messageLists[i][msgIdx]);
        assert Live(models, i, msgIdx) <==> m.Some? && !m.value.IsObsolete();
        if m.Some? && !m.value.IsObsolete() {
          return Some(i);
        }
      }
      return None;
    }

    /** Model `i` holds row `j` as a message that is not obsolete. */
    predicate Live(models: seq<DataModel>, i: nat, j: nat) {
      var k := Kind(models, i, j);
      k != NoItem && k != ObsoleteItem
    }
  }

  /** The pointers of one model into model `dm` for the context `name`. */
  predicate ColumnLinked(dm: DataModel, ref: Option<nat>, cells: seq<Option<nat>>, name: UString) {
    && (ref.Some? ==> ref.value < |dm.contexts| && dm.contexts[ref.value].context == name)
    && (forall j | 0 <= j < |cells| && cells[j].Some? :: CellItem(dm, ref, cells[j]).Some?)
    && (forall j1, j2 | 0 <= j1 < j2 < |cells| && cells[j1].Some? :: cells[j1] != cells[j2])
  }

  /** `n` null message pointers. */
  function Nulls(n: nat): (r: seq<Option<nat>>)
    ensures |r| == n && forall j | 0 <= j < n :: r[j] == None
  {
    seq(n, j => None)
  }

  function SomeCells(cells: seq<nat>): (r: seq<Option<nat>>)
    ensures |r| == |cells| && forall j | 0 <= j < |cells| :: r[j] == Some(cells[j])
  {
    seq(|cells|, j requires 0 <= j < |cells| => Some(cells[j]))
  }

  function NewRows(items: seq<MessageItem>): (r: seq<MultiMessageItem>)
    ensures |r| == |items| && forall j | 0 <= j < |items| :: r[j] == NewMultiMessage(items[j])
  {
    seq(|items|, j requires 0 <= j < |items| => NewMultiMessage(items[j]))
  }

  /** MultiContextItem(oldCount, ctx, writable): a context first seen in model
      `oldCount`, whose context is number `ref` of that model; the earlier
      models hold none of its rows. */
  function NewMultiContext(oldCount: nat, c: ContextItem, ref: nat): (r: MultiContextItem)
    ensures r.Shaped(oldCount + 1)
    ensures r.context == c.context && r.comment == c.comment
    ensures r.rows == NewRows(c.messages)
    ensures forall i | 0 <= i < oldCount :: r.contextRefs[i] == None && r.messageLists[i] == Nulls(|c.messages|)
    ensures r.contextRefs[oldCount] == Some(ref)
    ensures r.messageLists[oldCount] == SomeCells(Range(|c.messages|))
    ensures r.finishedCount == 0 && r.editableCount == 0 && r.nonobsoleteCount == 0
  {
    var n := |c.messages|;
    MultiContextItem(c.context, c.comment, NewRows(c.messages),
                     seq(oldCount, i => None) + [Some(ref)],
                     seq(oldCount, i => Nulls(n)) + [SomeCells(Range(n))],
                     0, 0, 0)
  }

  /** 0, 1, ..., n - 1. */
  function Range(n: nat): (r: seq<nat>)
    ensures |r| == n && forall j | 0 <= j < n :: r[j] == j
  {
    seq(n, j => j)
  }

  // ---------------------------------------------------------------------
  // Counting one cell in or out (the bodies of updateCountsOnAdd and
  // updateCountsOnRemove)

  function Ind(b: bool): int { if b then 1 else 0 }

  /** A row's counters as a tally of cells always keep unfinished <= editable. */
  predicate CountersSane(mm: MultiMessageItem) {
    0 <= mm.unfinishedCount <= mm.editableCount
  }

  /** The counter of a row that tally `t` is kept in. */
  function RowCount(mm: MultiMessageItem, t: CellTally): int {
    match t
    case NonnullCells => mm.nonnullCount
    case NonobsoleteCells => mm.nonobsoleteCount
    case EditableCells => mm.editableCount
    case UnfinishedCells => mm.unfinishedCount
  }

  /** `mm'` is row `mm` with a cell of kind `k` counted in. */
  predicate AddsCell(mm: MultiMessageItem, mm': MultiMessageItem, k: CellKind) {
    && mm'.Ident() == mm.Ident()
    && forall t: CellTally :: RowCount(mm', t) == RowCount(mm, t) + Ind(Tallied(k, t))
  }

  /** `mm'` is row `mm` with a cell of kind `k` counted out. */
  predicate DropsCell(mm: MultiMessageItem, mm': MultiMessageItem, k: CellKind) {
    && mm'.Ident() == mm.Ident()
    && forall t: CellTally :: RowCount(mm', t) == RowCount(mm, t) - Ind(Tallied(k, t))
  }

  /** The counter changes for one cell `cell` of a model that is `writable`
      or not, newly counted: each row counter grows by whether the cell
      counts for it, and the context deltas are exactly the changes of the
      row's standing. */
  method CountIn(mm: MultiMessageItem, cell: Option<MessageItem>, writable: bool)
    returns (mm': MultiMessageItem, dEditable: int, dFinished: int, dNonobsolete: int)
    requires CountersSane(mm)
    ensures AddsCell(mm, mm', KindOf(cell, writable))
    ensures CountersSane(mm')
    ensures dEditable == Ind(RowCounted(mm', EditableRows)) - Ind(RowCounted(mm, EditableRows))
    ensures dFinished == Ind(RowCounted(mm', FinishedRows)) - Ind(RowCounted(mm, FinishedRows))
    ensures dNonobsolete == mm'.nonobsoleteCount - mm.nonobsoleteCount
  {
    mm', dEditable, dFinished, dNonobsolete := mm, 0, 0, 0;
    if cell.Some? {
      var m := cell.value;
      mm' := mm'.(nonnullCount := mm'.nonnullCount + 1);
      if !m.IsObsolete() {
        if writable {
          if mm'.editableCount == 0 {
            dEditable := dEditable + 1;
            if m.IsFinished() {
              dFinished := dFinished + 1;
            } else {
              mm' := mm'.(unfinishedCount := mm'.unfinishedCount + 1);
            }
          } else if !m.IsFinished() {
            if !mm'.IsUnfinished() {
              dFinished := dFinished - 1;
            }
            mm' := mm'.(unfinishedCount := mm'.unfinishedCount + 1);
          }
          mm' := mm'.(editableCount := mm'.editableCount + 1);
        }
        dNonobsolete := dNonobsolete + 1;
        mm' := mm'.(nonobsoleteCount := mm'.nonobsoleteCount + 1);
      }
    }
  }

  /** The counter changes for one cell `cell` that stops being counted:
      each row counter shrinks by whether the cell counted for it, and the
      context deltas are the changes of the row's standing. */
  method CountOut(mm: MultiMessageItem, cell: Option<MessageItem>, writable: bool)
    returns (mm': MultiMessageItem, dEditable: int, dFinished: int, dNonobsolete: int)
    requires CountersSane(mm)
    requires var k := KindOf(cell, writable);
      && mm.editableCount >= Ind(Tallied(k, EditableCells))
      && mm.unfinishedCount >= Ind(Tallied(k, UnfinishedCells))
      && mm.unfinishedCount - Ind(Tallied(k, UnfinishedCells)) <= mm.editableCount - Ind(Tallied(k, EditableCells))
    ensures DropsCell(mm, mm', KindOf(cell, writable))
    ensures CountersSane(mm')
    ensures dEditable == Ind(RowCounted(mm', EditableRows)) - Ind(RowCounted(mm, EditableRows))
    ensures dFinished == Ind(RowCounted(mm', FinishedRows)) - Ind(RowCounted(mm, FinishedRows))
    ensures dNonobsolete == mm'.nonobsoleteCount - mm.nonobsoleteCount
  {
    mm', dEditable, dFinished, dNonobsolete := mm, 0, 0, 0;
    if cell.Some? {
      var m := cell.value;
      mm' := mm'.(nonnullCount := mm'.nonnullCount - 1);
      if !m.IsObsolete() {
        mm' := mm'.(nonobsoleteCount := mm'.nonobsoleteCount - 1);
        dNonobsolete := dNonobsolete - 1;
        if writable {
          mm' := mm'.(editableCount := mm'.editableCount - 1);
          if mm'.editableCount == 0 {
            dEditable := dEditable - 1;
            if m.IsFinished() {
              dFinished := dFinished - 1;
            } else {
              mm' := mm'.(unfinishedCount := mm'.unfinishedCount - 1);
            }
          } else if !m.IsFinished() {
            mm' := mm'.(unfinishedCount := mm'.unfinishedCount - 1);
            if !mm'.IsUnfinished() {
              dFinished := dFinished + 1;
            }
          }
        }
      }
    }
  }

  // ---------------------------------------------------------------------
  // Tallies

  /** Counting a left-out position adds its own contribution. */
  lemma {:induction false} TallyUnskip(ks: seq<CellKind>, s: nat, t: CellTally)
    requires s < |ks|
    ensures TallyOf(ks, -1, t) == TallyOf(ks, s, t) + Ind(Tallied(ks[s], t))
  {
    if s < |ks| - 1 {
      TallyUnskip(ks[..|ks| - 1], s, t);
    } else {
      TallySkipNone(ks[..|ks| - 1], s, t);
    }
  }

  /** Leaving out a position past the end changes nothing. */
  lemma {:induction false} TallySkipNone(ks: seq<CellKind>, s: int, t: CellTally)
    requires s < 0 || s >= |ks|
    ensures TallyOf(ks, s, t) == TallyOf(ks, -1, t)
  {
    if ks != [] {
      TallySkipNone(ks[..|ks| - 1], s, t);
    }
  }

  /** What sits at the left-out position does not matter. */
  lemma {:induction false} TallyIgnoresSkipped(ks: seq<CellKind>, s: nat, k: CellKind, t: CellTally)
    requires s < |ks|
    ensures TallyOf(ks[s := k], s, t) == TallyOf(ks, s, t)
  {
    if s < |ks| - 1 {
      assert ks[s := k][..|ks| - 1] == ks[..|ks| - 1][s := k];
      TallyIgnoresSkipped(ks[..|ks| - 1], s, k, t);
    } else {
      assert ks[s := k][..|ks| - 1] == ks[..|ks| - 1];
    }
  }

  /** Deleting a left-out position leaves the tally as it was. */
  lemma {:induction false} TallyDelete(ks: seq<CellKind>, s: nat, t: CellTally)
    requires s < |ks|
    ensures TallyOf(ks[..s] + ks[s + 1..], -1, t) == TallyOf(ks, s, t)
  {
    if s == |ks| - 1 {
      assert ks[..s] + ks[s + 1..] == ks[..|ks| - 1];
      TallySkipNone(ks[..|ks| - 1], s, t);
    } else {
      var last := |ks| - 1;
      var init := ks[..last];
      var del := init[..s] + init[s + 1..];
      var d := del + [ks[last]];
      TallyDelete(init, s, t);
      assert ks[..s] + ks[s + 1..] == d;
      assert d[..|d| - 1] == del;
      assert TallyOf(d, -1, t) == TallyOf(del, -1, t) + Ind(Tallied(ks[last], t));
      assert TallyOf(ks, s, t) == TallyOf(init, s, t) + Ind(Tallied(ks[last], t));
    }
  }

  /** Unfinished cells are editable cells. */
  lemma {:induction false} UnfinishedWithinEditable(ks: seq<CellKind>, s: int)
    ensures TallyOf(ks, s, UnfinishedCells) <= TallyOf(ks, s, EditableCells)
  {
    if ks != [] {
      UnfinishedWithinEditable(ks[..|ks| - 1], s);
    }
  }

  /** Nothing is counted on a row whose cells are all null. */
  lemma {:induction false} NoCellsNoTally(ks: seq<CellKind>, s: int, t: CellTally)
    requires TallyOf(ks, s, NonnullCells) == 0
    ensures TallyOf(ks, s, t) == 0
  {
    if ks != [] {
      NoCellsNoTally(ks[..|ks| - 1], s, t);
    }
  }

  // ---------------------------------------------------------------------
  // Row sums

  lemma {:induction false} CountRowsUpdate(rows: seq<MultiMessageItem>, j: nat, mm: MultiMessageItem, t: RowTally)
    requires j < |rows|
    ensures CountRows(rows[j := mm], t) == CountRows(rows, t) - Ind(RowCounted(rows[j], t)) + Ind(RowCounted(mm, t))
  {
    var last := |rows| - 1;
    if j < last {
      assert rows[j := mm][..last] == rows[..last][j := mm];
      CountRowsUpdate(rows[..last], j, mm, t);
    } else {
      assert rows[j := mm][..last] == rows[..last];
    }
  }

  lemma {:induction false} SumNonobsoleteUpdate(rows: seq<MultiMessageItem>, j: nat, mm: MultiMessageItem)
    requires j < |rows|
    ensures SumNonobsolete(rows[j := mm]) == SumNonobsolete(rows) - rows[j].nonobsoleteCount + mm.nonobsoleteCount
  {
    var last := |rows| - 1;
    if j < last {
      assert rows[j := mm][..last] == rows[..last][j := mm];
      SumNonobsoleteUpdate(rows[..last], j, mm);
    } else {
      assert rows[j := mm][..last] == rows[..last];
    }
  }

  /** Rows that count for nothing add nothing to the context counters. */
  lemma {:induction false} ZeroRowsAppend(rows: seq<MultiMessageItem>, more: seq<MultiMessageItem>)
    requires forall j | 0 <= j < |more| :: more[j].editableCount == 0 && more[j].nonobsoleteCount == 0
    ensures CountRows(rows + more, EditableRows) == CountRows(rows, EditableRows)
    ensures CountRows(rows + more, FinishedRows) == CountRows(rows, FinishedRows)
    ensures SumNonobsolete(rows + more) == SumNonobsolete(rows)
    decreases |more|
  {
    if more != [] {
      var init := more[..|more| - 1];
      ZeroRowsAppend(rows, init);
      assert (rows + more)[..|rows + more| - 1] == rows + init;
      assert (rows + more)[|rows + more| - 1] == more[|more| - 1];
    } else {
      assert rows + more == rows;
    }
  }

  lemma {:induction false} ZeroRowDelete(rows: seq<MultiMessageItem>, j: nat)
    requires j < |rows| && rows[j].editableCount == 0 && rows[j].nonobsoleteCount == 0
    ensures CountRows(rows[..j] + rows[j + 1..], EditableRows) == CountRows(rows, EditableRows)
    ensures CountRows(rows[..j] + rows[j + 1..], FinishedRows) == CountRows(rows, FinishedRows)
    ensures SumNonobsolete(rows[..j] + rows[j + 1..]) == SumNonobsolete(rows)
  {
    var last := |rows| - 1;
    if j == last {
      assert rows[..j] + rows[j + 1..] == rows[..last];
    } else {
      var init := rows[..last];
      ZeroRowDelete(init, j);
      assert rows[..j] + rows[j + 1..] == (init[..j] + init[j + 1..]) + [rows[last]];
    }
  }
}
