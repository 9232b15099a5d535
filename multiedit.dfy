/** setFinished and setDanger: one message of one model changes its type or
    its danger flag, and the counters of its row, its MultiContextItem, its
    ContextItem and the whole MultiDataModel follow. */
module MultiEdit {
  import opened Wrappers
  import opened Text
  import opened DataModel
  import DM = DataModel
  import opened MultiContext
  import opened MultiState

  /** MultiDataIndex: a cell, as model (column), context and message (row). */
  datatype MultiDataIndex = MultiDataIndex(model: nat, context: nat, message: nat)

  /** The state of a MultiDataModel as a value. */
  datatype Multi = Multi(
    models: seq<DataModel>,
    contexts: seq<MultiContextItem>,
    numMessages: int,
    numFinished: int,
    numEditable: int,
    modified: bool)
  {
    /** Every pointer leads into its model and every counter counts all
        models. */
    ghost predicate Valid() {
      Consistent(models, contexts, -1, numMessages, numFinished, numEditable)
    }

    /** The cell `x` exists and holds a message. */
    predicate Holds(x: MultiDataIndex) {
      && x.context < |contexts| && x.model < |models|
      && var mc := contexts[x.context];
      && x.message < |mc.rows| && x.model < |mc.contextRefs| && x.model < |mc.messageLists|
      && x.message < |mc.messageLists[x.model]|
      && CellItem(models[x.model], mc.contextRefs[x.model], mc.messageLists[x.model][x.message]).Some?
    }

    /** The index of the cell's context inside its model. */
    function Ref(x: MultiDataIndex): (r: nat)
      requires Holds(x)
      ensures r < |models[x.model].contexts|
    {
      contexts[x.context].contextRefs[x.model].value
    }

    /** The index of the cell's message inside that context. */
    function Cell(x: MultiDataIndex): (r: nat)
      requires Holds(x)
      ensures r < |models[x.model].contexts[Ref(x)].messages|
    {
      contexts[x.context].messageLists[x.model][x.message].value
    }

    /** messageItem(index): the message of cell `x`, or nothing for a cell
        out of range or a null pointer. */
    function MessageItemAt(x: MultiDataIndex): (r: Option<MessageItem>)
      ensures r.Some? <==> Holds(x)
      ensures r.Some? ==> r.value == models[x.model].contexts[Ref(x)].messages[Cell(x)]
    {
      if x.context < |contexts| && x.model < |models|
         && x.message < |contexts[x.context].rows|
         && x.model < |contexts[x.context].contextRefs| && x.model < |contexts[x.context].messageLists|
         && x.message < |contexts[x.context].messageLists[x.model]|
      then CellItem(models[x.model], contexts[x.context].contextRefs[x.model],
                    contexts[x.context].messageLists[x.model][x.message])
      else None
    }
  }

  /** Model `dm` with message `cell` of its context `ref` replaced by `m`,
      that context's counters moved by the given amounts, and the modified
      flag set to `modified`. */
  function WithMessage(dm: DataModel, ref: nat, cell: nat, m: MessageItem,
                       dFinished: int, dFinishedDanger: int, dUnfinishedDanger: int, modified: bool): (r: DataModel)
    requires ref < |dm.contexts| && cell < |dm.contexts[ref].messages|
    ensures |r.contexts| == |dm.contexts| && r.contexts[ref].messages == dm.contexts[ref].messages[cell := m]
  {
    var c := dm.contexts[ref];
    dm.(contexts := dm.contexts[ref := c.(messages := c.messages[cell := m],
                                          finishedCount := c.finishedCount + dFinished,
                                          finishedDangerCount := c.finishedDangerCount + dFinishedDanger,
                                          unfinishedDangerCount := c.unfinishedDangerCount + dUnfinishedDanger)],
        modified := modified)
  }

  /** The model of setFinished: message `cell` retyped, its context's
      finished counters moved by one, the model marked modified. */
  function Refinished(dm: DataModel, ref: nat, cell: nat, finished: bool): (r: DataModel)
    requires ref < |dm.contexts| && cell < |dm.contexts[ref].messages|
  {
    var m := dm.contexts[ref].messages[cell];
    var d := if finished then 1 else -1;
    WithMessage(dm, ref, cell, Retyped(m, finished), d, d * Ind(m.danger), -d * Ind(m.danger), true)
  }

  /** The model of setDanger: message `cell` with its danger flag set, its
      context's danger counters moved by one. */
  function Endangered(dm: DataModel, ref: nat, cell: nat, danger: bool): (r: DataModel)
    requires ref < |dm.contexts| && cell < |dm.contexts[ref].messages|
  {
    var m := dm.contexts[ref].messages[cell];
    var d := if danger then 1 else -1;
    var fin := Ind(m.IsFinished());
    WithMessage(dm, ref, cell, m.(danger := danger), 0, d * fin, d * (1 - fin), dm.modified)
  }

  /** setFinished acts only on an unfinished message asked to be finished
      and on a finished one asked to be unfinished. */
  predicate Flips(m: MessageItem, finished: bool) {
    if finished then m.message.msgType == Unfinished else m.message.msgType == Finished
  }

  /** The message with its type set to Finished or Unfinished. */
  function Retyped(m: MessageItem, finished: bool): (r: MessageItem)
    ensures r.IsFinished() == finished && !r.IsObsolete() && r.danger == m.danger
  {
    m.(message := m.message.(msgType := if finished then Finished else Unfinished))
  }

  /** The row after one of its cells is finished (one unfinished cell less)
      or unfinished (one more). */
  function RowRetyped(mm: MultiMessageItem, finished: bool): (r: MultiMessageItem)
    ensures r.Ident() == mm.Ident() && r.editableCount == mm.editableCount
  {
    mm.(unfinishedCount := mm.unfinishedCount + (if finished then -1 else 1))
  }

  /** The change of the row's finished standing: it becomes finished when
      its last unfinished cell is finished and stops being finished when its
      first unfinished cell appears. */
  function RowFlip(mm: MultiMessageItem, finished: bool): int {
    var mm' := RowRetyped(mm, finished);
    if finished then Ind(mm'.unfinishedCount == 0) else -Ind(mm'.unfinishedCount == 1)
  }

  /** setFinished(index, finished): an unfinished message becomes finished
      or a finished one unfinished; the row's unfinished count, the context's
      finished counters and the model-wide finished count follow, and the
      model is marked modified. Any other message is left alone. */
  function SetFinishedState(s: Multi, x: MultiDataIndex, finished: bool): (r: Multi)
    requires s.Holds(x)
  {
    var mc := s.contexts[x.context];
    var mm := mc.rows[x.message];
    var ref, cell := s.Ref(x), s.Cell(x);
    var m := s.models[x.model].contexts[ref].messages[cell];
    if !Flips(m, finished) then s
    else
      var flip := RowFlip(mm, finished);
      Multi(s.models[x.model := Refinished(s.models[x.model], ref, cell, finished)],
            s.contexts[x.context := mc.(rows := mc.rows[x.message := RowRetyped(mm, finished)],
                                        finishedCount := mc.finishedCount + flip)],
            s.numMessages, s.numFinished + flip, s.numEditable, true)
  }

  /** setDanger(index, danger): the message's danger flag and its context's
      danger counters; nothing is marked modified. */
  function SetDangerState(s: Multi, x: MultiDataIndex, danger: bool): (r: Multi)
    requires s.Holds(x)
  {
    var dm := s.models[x.model];
    var ref, cell := s.Ref(x), s.Cell(x);
    var m := dm.contexts[ref].messages[cell];
    if m.danger == danger then s
    else s.(models := s.models[x.model := Endangered(dm, ref, cell, danger)])
  }

  // ---------------------------------------------------------------------
  // One message changed

  /** Two models with the same contexts, names and message counts. */
  predicate SameShape(dm: DataModel, dm': DataModel) {
    && |dm'.contexts| == |dm.contexts|
    && forall r | 0 <= r < |dm.contexts| ::
         dm'.contexts[r].context == dm.contexts[r].context && |dm'.contexts[r].messages| == |dm.contexts[r].messages|
  }

  /** `ms'` is `ms` with at most message `cell` of context `ref` of model
      `model` changed, besides that context's counters. */
  predicate OneMessage(ms: seq<DataModel>, ms': seq<DataModel>, model: nat, ref: nat, cell: nat) {
    && |ms'| == |ms| && model < |ms|
    && (forall i | 0 <= i < |ms| && i != model :: ms'[i] == ms[i])
    && SameShape(ms[model], ms'[model]) && ms'[model].writable == ms[model].writable
    && ref < |ms[model].contexts| && cell < |ms[model].contexts[ref].messages|
    && (forall r | 0 <= r < |ms[model].contexts| && r != ref ::
          ms'[model].contexts[r].messages == ms[model].contexts[r].messages)
    && (forall q | 0 <= q < |ms[model].contexts[ref].messages| && q != cell ::
          ms'[model].contexts[ref].messages[q] == ms[model].contexts[ref].messages[q])
  }

  lemma SameShapeLinked(dm: DataModel, dm': DataModel, ref: Option<nat>, cells: seq<Option<nat>>, name: UString)
    requires SameShape(dm, dm') && ColumnLinked(dm, ref, cells, name)
    ensures ColumnLinked(dm', ref, cells, name)
  {
    forall j | 0 <= j < |cells| && cells[j].Some? ensures CellItem(dm', ref, cells[j]).Some? {
      assert CellItem(dm, ref, cells[j]).Some?;
    }
  }

  /** A change of one model's messages that keeps its shape keeps every
      context linked. */
  lemma OneMessageLinked(ms: seq<DataModel>, ms': seq<DataModel>, model: nat, ref: nat, cell: nat,
                         cs: seq<MultiContextItem>)
    requires OneMessage(ms, ms', model, ref, cell)
    requires forall k | 0 <= k < |cs| :: cs[k].Linked(ms)
    ensures forall k | 0 <= k < |cs| :: cs[k].Linked(ms')
  {
    forall k, i | 0 <= k < |cs| && 0 <= i < |ms'|
      ensures ColumnLinked(ms'[i], cs[k].contextRefs[i], cs[k].messageLists[i], cs[k].context)
    {
      if i == model {
        SameShapeLinked(ms[i], ms'[i], cs[k].contextRefs[i], cs[k].messageLists[i], cs[k].context);
      }
    }
  }

  /** Only the cell that points at the changed message sees it: every other
      cell keeps its kind, because context names are unique and no message
      is held by two rows. */
  lemma KindsElsewhere(ms: seq<DataModel>, ms': seq<DataModel>, model: nat, ref: nat, cell: nat,
                       cs: seq<MultiContextItem>, ci: nat, j: nat, k: nat, r: nat)
    requires OneMessage(ms, ms', model, ref, cell) && Layout(ms, cs)
    requires ci < |cs| && cs[ci].contextRefs[model] == Some(ref)
    requires j < |cs[ci].messageLists[model]| && cs[ci].messageLists[model][j] == Some(cell)
    requires k < |cs| && !(k == ci && r == j)
    ensures cs[k].RowKinds(ms', r) == cs[k].RowKinds(ms, r)
  {
    var mc := cs[k];
    forall i | 0 <= i < |ms| ensures mc.Kind(ms', i, r) == mc.Kind(ms, i, r) {
      if i == model && r < |mc.messageLists[i]| {
        var ref', cell' := mc.contextRefs[i], mc.messageLists[i][r];
        var a, b := CellItem(ms[i], ref', cell'), CellItem(ms'[i], ref', cell');
        if ref' == Some(ref) && cell' == Some(cell) {
          assert false;
        } else if a.Some? || b.Some? {
          assert a == b;
        }
      }
    }
  }

  /** The cell that points at the changed message takes its new kind. */
  lemma KindAtTarget(ms: seq<DataModel>, ms': seq<DataModel>, model: nat, ref: nat, cell: nat,
                     mc: MultiContextItem, j: nat)
    requires OneMessage(ms, ms', model, ref, cell) && mc.Shaped(|ms|)
    requires mc.contextRefs[model] == Some(ref)
    requires j < |mc.messageLists[model]| && mc.messageLists[model][j] == Some(cell)
    ensures mc.RowKinds(ms', j)
         == mc.RowKinds(ms, j)[model := KindOf(Some(ms'[model].contexts[ref].messages[cell]), ms[model].writable)]
  {
    forall i | 0 <= i < |ms| && i != model ensures mc.Kind(ms', i, j) == mc.Kind(ms, i, j) {
    }
  }

  /** A tally with one kind replaced. */
  lemma TallyReplace(ks: seq<CellKind>, p: nat, k: CellKind, t: CellTally)
    requires p < |ks|
    ensures TallyOf(ks[p := k], -1, t) == TallyOf(ks, -1, t) - Ind(Tallied(ks[p], t)) + Ind(Tallied(k, t))
  {
    TallyUnskip(ks, p, t);
    TallyUnskip(ks[p := k], p, t);
    TallyIgnoresSkipped(ks, p, k, t);
  }

  /** A message count with one message replaced. */
  lemma {:induction false} CountOfReplace(ms: seq<MessageItem>, q: nat, m: MessageItem, t: Tally)
    requires q < |ms|
    ensures CountOf(ms[q := m], t) == CountOf(ms, t) - Ind(DM.Counted(ms[q], t)) + Ind(DM.Counted(m, t))
  {
    var last := |ms| - 1;
    if q < last {
      assert ms[q := m][..last] == ms[..last][q := m];
      CountOfReplace(ms[..last], q, m, t);
    } else {
      assert ms[q := m][..last] == ms[..last];
    }
  }

  /** A model whose message `cell` of context `ref` is replaced, with that
      context's counters moved by the change of each count, stays well
      formed. */
  lemma WithMessageWellformed(dm: DataModel, ref: nat, cell: nat, m: MessageItem, dF: int, dFD: int, dUD: int,
                              modified: bool)
    requires dm.Wellformed() && ref < |dm.contexts| && cell < |dm.contexts[ref].messages|
    requires var was := dm.contexts[ref].messages[cell];
      && dF == Ind(DM.Counted(m, FinishedMsgs)) - Ind(DM.Counted(was, FinishedMsgs))
      && dFD == Ind(DM.Counted(m, FinishedDanger)) - Ind(DM.Counted(was, FinishedDanger))
      && dUD == Ind(DM.Counted(m, UnfinishedDanger)) - Ind(DM.Counted(was, UnfinishedDanger))
      && DM.Counted(m, NonobsoleteMsgs) == DM.Counted(was, NonobsoleteMsgs)
    ensures WithMessage(dm, ref, cell, m, dF, dFD, dUD, modified).Wellformed()
  {
    var c := dm.contexts[ref];
    var c' := WithMessage(dm, ref, cell, m, dF, dFD, dUD, modified).contexts[ref];
    assert c.CountersAgree();
    CountOfReplace(c.messages, cell, m, FinishedMsgs);
    CountOfReplace(c.messages, cell, m, FinishedDanger);
    CountOfReplace(c.messages, cell, m, UnfinishedDanger);
    CountOfReplace(c.messages, cell, m, NonobsoleteMsgs);
    assert c'.CountersAgree();
    TotalUpdate(dm.contexts, ref, c');
  }

  /** Replacing one message of one model changes at most that message. */
  lemma WithMessageOne(ms: seq<DataModel>, model: nat, ref: nat, cell: nat, m: MessageItem,
                       dF: int, dFD: int, dUD: int, modified: bool)
    requires model < |ms| && ref < |ms[model].contexts| && cell < |ms[model].contexts[ref].messages|
    ensures OneMessage(ms, ms[model := WithMessage(ms[model], ref, cell, m, dF, dFD, dUD, modified)], model, ref, cell)
  {
  }

  /** One message changed and context `ci` given new counters: the layout
      stays sound. */
  lemma EditLayout(ms: seq<DataModel>, ms': seq<DataModel>, model: nat, ref: nat, cell: nat,
                   cs: seq<MultiContextItem>, ci: nat, mc': MultiContextItem)
    requires OneMessage(ms, ms', model, ref, cell) && Layout(ms, cs) && ms'[model].Wellformed()
    requires ci < |cs| && mc'.(rows := cs[ci].rows, finishedCount := cs[ci].finishedCount) == cs[ci]
    requires |mc'.rows| == |cs[ci].rows|
    ensures Layout(ms', cs[ci := mc'])
  {
    OneMessageLinked(ms, ms', model, ref, cell, cs);
    forall i | 0 <= i < |ms'| ensures ms'[i].Wellformed() {
      if i != model { assert ms'[i] == ms[i]; }
    }
    assert cs[ci].Linked(ms');
  }

  /** One message changed and row `j` of context `ci` recounted: every row
      still counts its cells. */
  lemma EditCounted(ms: seq<DataModel>, ms': seq<DataModel>, model: nat, ref: nat, cell: nat,
                    cs: seq<MultiContextItem>, ci: nat, j: nat, mc': MultiContextItem)
    requires OneMessage(ms, ms', model, ref, cell) && Layout(ms, cs) && MultiState.Counted(ms, cs, -1)
    requires ci < |cs| && cs[ci].contextRefs[model] == Some(ref)
    requires j < |cs[ci].messageLists[model]| && cs[ci].messageLists[model][j] == Some(cell)
    requires mc'.(rows := cs[ci].rows, finishedCount := cs[ci].finishedCount) == cs[ci]
    requires |mc'.rows| == |cs[ci].rows| && forall r | 0 <= r < |mc'.rows| && r != j :: mc'.rows[r] == cs[ci].rows[r]
    requires mc'.CountersAgree() && mc'.RowAgrees(ms', j, -1)
    ensures MultiState.Counted(ms', cs[ci := mc'], -1)
  {
    var cs' := cs[ci := mc'];
    forall k | 0 <= k < |cs'| ensures cs'[k].RowsAgree(ms', -1) {
      forall r | 0 <= r < |cs'[k].rows| ensures cs'[k].RowAgrees(ms', r, -1) {
        if !(k == ci && r == j) {
          KindsElsewhere(ms, ms', model, ref, cell, cs, ci, j, k, r);
          assert cs[k].RowAgrees(ms, r, -1);
          assert cs'[k].RowKinds(ms', r) == cs[k].RowKinds(ms', r);
        }
      }
    }
  }

  /** A row whose cell `p` flips between unfinished and finished: its
      unfinished count moves by one and nothing else changes. */
  lemma RowTallyStep(ks: seq<CellKind>, ks': seq<CellKind>, p: nat, finished: bool, mm: MultiMessageItem)
    requires p < |ks| && ks[p] == (if finished then UnfinishedItem else FinishedItem)
    requires ks' == ks[p := if finished then FinishedItem else UnfinishedItem]
    requires mm.nonnullCount == TallyOf(ks, -1, NonnullCells)
    requires mm.nonobsoleteCount == TallyOf(ks, -1, NonobsoleteCells)
    requires mm.editableCount == TallyOf(ks, -1, EditableCells)
    requires mm.unfinishedCount == TallyOf(ks, -1, UnfinishedCells)
    ensures var mm' := RowRetyped(mm, finished);
      && mm'.nonnullCount == TallyOf(ks', -1, NonnullCells)
      && mm'.nonobsoleteCount == TallyOf(ks', -1, NonobsoleteCells)
      && mm'.editableCount == TallyOf(ks', -1, EditableCells)
      && mm'.unfinishedCount == TallyOf(ks', -1, UnfinishedCells)
    ensures mm.editableCount >= 1 && mm.unfinishedCount >= 0 && (finished ==> mm.unfinishedCount >= 1)
  {
    var k' := ks'[p];
    TallyReplace(ks, p, k', NonnullCells);
    TallyReplace(ks, p, k', NonobsoleteCells);
    TallyReplace(ks, p, k', EditableCells);
    TallyReplace(ks, p, k', UnfinishedCells);
    TallyUnskip(ks, p, EditableCells);
    TallyUnskip(ks, p, UnfinishedCells);
  }

  /** The context counters of setFinished: the finished count moves by the
      row's change of standing. */
  lemma ContextRetypedAgrees(mc: MultiContextItem, j: nat, finished: bool)
    requires mc.CountersAgree() && j < |mc.rows| && mc.rows[j].editableCount >= 1 && mc.rows[j].unfinishedCount >= 0
    requires finished ==> mc.rows[j].unfinishedCount >= 1
    ensures mc.(rows := mc.rows[j := RowRetyped(mc.rows[j], finished)],
                finishedCount := mc.finishedCount + RowFlip(mc.rows[j], finished)).CountersAgree()
  {
    var mm, mm' := mc.rows[j], RowRetyped(mc.rows[j], finished);
    assert RowCounted(mm', EditableRows) == RowCounted(mm, EditableRows);
    assert Ind(RowCounted(mm', FinishedRows)) - Ind(RowCounted(mm, FinishedRows)) == RowFlip(mm, finished);
    CountRowsUpdate(mc.rows, j, mm', FinishedRows);
    CountRowsUpdate(mc.rows, j, mm', EditableRows);
    SumNonobsoleteUpdate(mc.rows, j, mm');
  }

  /** The kinds of a row depend on the pointers only. */
  lemma RowKindsOfPointers(mc: MultiContextItem, mc': MultiContextItem, ms: seq<DataModel>, j: nat)
    requires mc'.contextRefs == mc.contextRefs && mc'.messageLists == mc.messageLists
    ensures mc'.RowKinds(ms, j) == mc.RowKinds(ms, j)
  {
  }

  /** The row of setFinished, recounted: it counts its cells, and its
      context's counters count its rows. */
  lemma RetypedRowAgrees(ms: seq<DataModel>, ms': seq<DataModel>, model: nat, ref: nat, cell: nat,
                         mc: MultiContextItem, j: nat, finished: bool)
    requires OneMessage(ms, ms', model, ref, cell) && mc.Shaped(|ms|) && ms[model].writable
    requires mc.contextRefs[model] == Some(ref)
    requires j < |mc.messageLists[model]| && mc.messageLists[model][j] == Some(cell)
    requires mc.RowAgrees(ms, j, -1) && mc.CountersAgree()
    requires Flips(ms[model].contexts[ref].messages[cell], finished)
    requires ms'[model].contexts[ref].messages[cell] == Retyped(ms[model].contexts[ref].messages[cell], finished)
    ensures var mc' := mc.(rows := mc.rows[j := RowRetyped(mc.rows[j], finished)],
                           finishedCount := mc.finishedCount + RowFlip(mc.rows[j], finished));
            mc'.RowAgrees(ms', j, -1) && mc'.CountersAgree()
  {
    var mc' := mc.(rows := mc.rows[j := RowRetyped(mc.rows[j], finished)],
                   finishedCount := mc.finishedCount + RowFlip(mc.rows[j], finished));
    var ks := mc.RowKinds(ms, j);
    KindAtTarget(ms, ms', model, ref, cell, mc, j);
    RowTallyStep(ks, mc.RowKinds(ms', j), model, finished, mc.rows[j]);
    ContextRetypedAgrees(mc, j, finished);
    RowKindsOfPointers(mc, mc', ms', j);
  }

  /** One message replaced and its row recounted keeps the whole state
      consistent, the totals moving by the context's finished-count change. */
  lemma EditConsistent(ms: seq<DataModel>, ms': seq<DataModel>, model: nat, ref: nat, cell: nat,
                       cs: seq<MultiContextItem>, ci: nat, j: nat, mc': MultiContextItem,
                       nm: int, nf: int, ne: int)
    requires OneMessage(ms, ms', model, ref, cell) && Consistent(ms, cs, -1, nm, nf, ne) && ms'[model].Wellformed()
    requires ci < |cs| && cs[ci].contextRefs[model] == Some(ref)
    requires j < |cs[ci].messageLists[model]| && cs[ci].messageLists[model][j] == Some(cell)
    requires mc'.(rows := cs[ci].rows, finishedCount := cs[ci].finishedCount) == cs[ci]
    requires |mc'.rows| == |cs[ci].rows| && forall r | 0 <= r < |mc'.rows| && r != j :: mc'.rows[r] == cs[ci].rows[r]
    requires mc'.CountersAgree() && mc'.RowAgrees(ms', j, -1)
    ensures Consistent(ms', cs[ci := mc'], -1, nm, nf - cs[ci].finishedCount + mc'.finishedCount, ne)
  {
    EditLayout(ms, ms', model, ref, cell, cs, ci, mc');
    EditCounted(ms, ms', model, ref, cell, cs, ci, j, mc');
    TotalsUpdate(cs, ci, mc', nm, nf, ne);
  }

  /** What a consistent state says about the row and column of a held cell. */
  lemma HeldCell(s: Multi, x: MultiDataIndex)
    requires s.Valid() && s.Holds(x)
    ensures var mc := s.contexts[x.context];
            && mc.Shaped(|s.models|) && mc.CountersAgree() && mc.RowAgrees(s.models, x.message, -1)
            && mc.contextRefs[x.model] == Some(s.Ref(x))
            && mc.messageLists[x.model][x.message] == Some(s.Cell(x))
            && s.models[x.model].Wellformed()
  {
  }

  /** A cell `j` of context `ci` pointing at message `cell` of context `ref`
      of model `model`. */
  predicate Points(ms: seq<DataModel>, cs: seq<MultiContextItem>, model: nat, ref: nat, cell: nat, ci: nat, j: nat) {
    && model < |ms| && ref < |ms[model].contexts| && cell < |ms[model].contexts[ref].messages|
    && ci < |cs| && model < |cs[ci].contextRefs| && model < |cs[ci].messageLists|
    && j < |cs[ci].rows| && j < |cs[ci].messageLists[model]|
    && cs[ci].contextRefs[model] == Some(ref) && cs[ci].messageLists[model][j] == Some(cell)
  }

  /** The retyped model of setFinished keeps its own counters right. */
  lemma RetypedModel(ms: seq<DataModel>, model: nat, ref: nat, cell: nat, finished: bool, ms': seq<DataModel>)
    requires model < |ms| && ref < |ms[model].contexts| && cell < |ms[model].contexts[ref].messages|
    requires ms[model].Wellformed() && ms[model].writable
    requires Flips(ms[model].contexts[ref].messages[cell], finished)
    requires ms' == ms[model := Refinished(ms[model], ref, cell, finished)]
    ensures OneMessage(ms, ms', model, ref, cell) && ms'[model].Wellformed()
  {
    var m := ms[model].contexts[ref].messages[cell];
    var d := if finished then 1 else -1;
    WithMessageOne(ms, model, ref, cell, Retyped(m, finished), d, d * Ind(m.danger), -d * Ind(m.danger), true);
    WithMessageWellformed(ms[model], ref, cell, Retyped(m, finished), d, d * Ind(m.danger), -d * Ind(m.danger), true);
  }

  /** setFinished on values: consistency kept, the total finished count
      moving with the row's flip. */
  lemma FinishedEdit(ms: seq<DataModel>, cs: seq<MultiContextItem>, nm: int, nf: int, ne: int,
                     model: nat, ref: nat, cell: nat, ci: nat, j: nat, finished: bool,
                     ms': seq<DataModel>, mc': MultiContextItem)
    requires Consistent(ms, cs, -1, nm, nf, ne) && Points(ms, cs, model, ref, cell, ci, j) && ms[model].writable
    requires Flips(ms[model].contexts[ref].messages[cell], finished)
    requires ms' == ms[model := Refinished(ms[model], ref, cell, finished)]
    requires mc' == cs[ci].(rows := cs[ci].rows[j := RowRetyped(cs[ci].rows[j], finished)],
                            finishedCount := cs[ci].finishedCount + RowFlip(cs[ci].rows[j], finished))
    ensures Consistent(ms', cs[ci := mc'], -1, nm, nf + RowFlip(cs[ci].rows[j], finished), ne)
  {
    RetypedModel(ms, model, ref, cell, finished, ms');
    RetypedRowAgrees(ms, ms', model, ref, cell, cs[ci], j, finished);
    EditConsistent(ms, ms', model, ref, cell, cs, ci, j, mc', nm, nf, ne);
  }

  /** The state after setFinished, spelled out for a message that flips. */
  lemma SetFinishedUnfold(s: Multi, x: MultiDataIndex, finished: bool, ms': seq<DataModel>, mc': MultiContextItem)
    requires s.Holds(x)
    requires Flips(s.models[x.model].contexts[s.Ref(x)].messages[s.Cell(x)], finished)
    requires ms' == s.models[x.model := Refinished(s.models[x.model], s.Ref(x), s.Cell(x), finished)]
    requires var mc := s.contexts[x.context];
             mc' == mc.(rows := mc.rows[x.message := RowRetyped(mc.rows[x.message], finished)],
                        finishedCount := mc.finishedCount + RowFlip(mc.rows[x.message], finished))
    ensures SetFinishedState(s, x, finished)
         == Multi(ms', s.contexts[x.context := mc'], s.numMessages,
                  s.numFinished + mc'.finishedCount - s.contexts[x.context].finishedCount, s.numEditable, true)
  {
  }

  /** setFinished keeps every counter equal to its count over all models. */
  lemma SetFinishedValid(s: Multi, x: MultiDataIndex, finished: bool)
    requires s.Valid() && s.Holds(x) && s.models[x.model].writable
    ensures SetFinishedState(s, x, finished).Valid()
  {
    var model, ref, cell, ci, j := x.model, s.Ref(x), s.Cell(x), x.context, x.message;
    var m := s.models[model].contexts[ref].messages[cell];
    if Flips(m, finished) {
      HeldCell(s, x);
      var ms' := s.models[model := Refinished(s.models[model], ref, cell, finished)];
      var mc := s.contexts[ci];
      var mc' := mc.(rows := mc.rows[j := RowRetyped(mc.rows[j], finished)],
                     finishedCount := mc.finishedCount + RowFlip(mc.rows[j], finished));
      FinishedEdit(s.models, s.contexts, s.numMessages, s.numFinished, s.numEditable,
                   model, ref, cell, ci, j, finished, ms', mc');
      SetFinishedUnfold(s, x, finished, ms', mc');
    }
  }

  /** The model of setDanger keeps its own counters right. */
  lemma DangerModel(ms: seq<DataModel>, model: nat, ref: nat, cell: nat, danger: bool, ms': seq<DataModel>)
    requires model < |ms| && ref < |ms[model].contexts| && cell < |ms[model].contexts[ref].messages|
    requires ms[model].Wellformed()
    requires ms[model].contexts[ref].messages[cell].danger != danger
    requires ms' == ms[model := Endangered(ms[model], ref, cell, danger)]
    ensures OneMessage(ms, ms', model, ref, cell) && ms'[model].Wellformed()
  {
    var dm := ms[model];
    var m := dm.contexts[ref].messages[cell];
    var d := if danger then 1 else -1;
    var fin := Ind(m.IsFinished());
    WithMessageOne(ms, model, ref, cell, m.(danger := danger), 0, d * fin, d * (1 - fin), dm.modified);
    WithMessageWellformed(dm, ref, cell, m.(danger := danger), 0, d * fin, d * (1 - fin), dm.modified);
  }

  /** A changed danger flag leaves the kinds of the row as they were. */
  lemma DangerKinds(ms: seq<DataModel>, ms': seq<DataModel>, model: nat, ref: nat, cell: nat,
                    mc: MultiContextItem, j: nat)
    requires OneMessage(ms, ms', model, ref, cell) && mc.Shaped(|ms|)
    requires mc.contextRefs[model] == Some(ref)
    requires j < |mc.messageLists[model]| && mc.messageLists[model][j] == Some(cell)
    requires var m := ms[model].contexts[ref].messages[cell];
             ms'[model].contexts[ref].messages[cell] == m.(danger := !m.danger)
    ensures mc.RowKinds(ms', j) == mc.RowKinds(ms, j)
  {
    KindAtTarget(ms, ms', model, ref, cell, mc, j);
  }

  /** setDanger on values: consistency kept, no multi-model counter moves. */
  lemma DangerEdit(ms: seq<DataModel>, cs: seq<MultiContextItem>, nm: int, nf: int, ne: int,
                   model: nat, ref: nat, cell: nat, ci: nat, j: nat, danger: bool, ms': seq<DataModel>)
    requires Consistent(ms, cs, -1, nm, nf, ne) && Points(ms, cs, model, ref, cell, ci, j)
    requires ms[model].contexts[ref].messages[cell].danger != danger
    requires ms' == ms[model := Endangered(ms[model], ref, cell, danger)]
    ensures Consistent(ms', cs, -1, nm, nf, ne)
  {
    DangerModel(ms, model, ref, cell, danger, ms');
    var mc := cs[ci];
    assert mc.RowAgrees(ms, j, -1);
    DangerKinds(ms, ms', model, ref, cell, mc, j);
    EditConsistent(ms, ms', model, ref, cell, cs, ci, j, mc, nm, nf, ne);
    assert cs[ci := mc] == cs;
  }

  /** The state after setDanger, spelled out for a flag that changes. */
  lemma SetDangerUnfold(s: Multi, x: MultiDataIndex, danger: bool, ms': seq<DataModel>)
    requires s.Holds(x)
    requires s.models[x.model].contexts[s.Ref(x)].messages[s.Cell(x)].danger != danger
    requires ms' == s.models[x.model := Endangered(s.models[x.model], s.Ref(x), s.Cell(x), danger)]
    ensures SetDangerState(s, x, danger) == s.(models := ms')
  {
  }

  /** setDanger keeps every counter equal to its count over all models: the
      kind of a cell does not depend on danger. */
  lemma SetDangerValid(s: Multi, x: MultiDataIndex, danger: bool)
    requires s.Valid() && s.Holds(x)
    ensures SetDangerState(s, x, danger).Valid()
  {
    var model, ref, cell := x.model, s.Ref(x), s.Cell(x);
    var dm := s.models[model];
    var m := dm.contexts[ref].messages[cell];
    if m.danger != danger {
      HeldCell(s, x);
      var ms' := s.models[model := Endangered(dm, ref, cell, danger)];
      DangerEdit(s.models, s.contexts, s.numMessages, s.numFinished, s.numEditable,
                 model, ref, cell, x.context, x.message, danger, ms');
      SetDangerUnfold(s, x, danger, ms');
    }
  }

  /** The message of cell `x` after setFinished: finished exactly when
      asked to be, unless it is obsolete, in which case it stays as it was. */
  lemma SetFinishedSets(s: Multi, x: MultiDataIndex, finished: bool)
    requires s.Holds(x)
    ensures SetFinishedState(s, x, finished).Holds(x)
    ensures var m := s.MessageItemAt(x).value;
            var m' := SetFinishedState(s, x, finished).MessageItemAt(x).value;
            && m'.danger == m.danger
            && (m.IsObsolete() ==> m' == m)
            && (!m.IsObsolete() ==> m'.IsFinished() == finished && !m'.IsObsolete())
  {
  }

  /** setFinished changes nothing when the message already stands as asked. */
  lemma SetFinishedNoFlip(s: Multi, x: MultiDataIndex, finished: bool)
    requires s.Holds(x)
    requires s.MessageItemAt(x).value.IsFinished() == finished || s.MessageItemAt(x).value.IsObsolete()
    ensures SetFinishedState(s, x, finished) == s
  {
  }

  /** Replacing a message and then putting it back with the opposite counter
      moves restores the model but for its modified flag. */
  lemma WithMessageTwice(dm: DataModel, ref: nat, cell: nat, m: MessageItem, dF: int, dFD: int, dUD: int,
                         modified: bool, modified': bool)
    requires ref < |dm.contexts| && cell < |dm.contexts[ref].messages|
    ensures var dm1 := WithMessage(dm, ref, cell, m, dF, dFD, dUD, modified);
            WithMessage(dm1, ref, cell, dm.contexts[ref].messages[cell], -dF, -dFD, -dUD, modified')
              == dm.(modified := modified')
  {
    var c := dm.contexts[ref];
    assert c.messages[cell := m][cell := c.messages[cell]] == c.messages;
    assert dm.contexts[ref := dm.contexts[ref]] == dm.contexts;
  }

  /** Marking a message finished and then unfinished again restores every
      message and counter; only the modified flags stay set. */
  lemma SetFinishedToggle(s: Multi, x: MultiDataIndex)
    requires s.Holds(x) && s.MessageItemAt(x).value.message.msgType == Unfinished
    ensures SetFinishedState(s, x, true).Holds(x)
    ensures SetFinishedState(SetFinishedState(s, x, true), x, false)
         == s.(models := s.models[x.model := s.models[x.model].(modified := true)], modified := true)
  {
    var s1 := SetFinishedState(s, x, true);
    var dm := s.models[x.model];
    var ref, cell := s.Ref(x), s.Cell(x);
    var m := dm.contexts[ref].messages[cell];
    assert s1.Ref(x) == ref && s1.Cell(x) == cell;
    assert Retyped(Retyped(m, true), false) == m;
    WithMessageTwice(dm, ref, cell, Retyped(m, true), 1, Ind(m.danger), -Ind(m.danger), true, true);
    var mc := s.contexts[x.context];
    var mm := mc.rows[x.message];
    assert RowRetyped(RowRetyped(mm, true), false) == mm;
    assert RowFlip(RowRetyped(mm, true), false) == -RowFlip(mm, true);
    assert mc.rows[x.message := RowRetyped(mm, true)][x.message := mm] == mc.rows;
  }

  /** Setting danger and clearing it again restores the state. */
  lemma SetDangerToggle(s: Multi, x: MultiDataIndex)
    requires s.Holds(x) && !s.MessageItemAt(x).value.danger
    ensures SetDangerState(s, x, true).Holds(x)
    ensures SetDangerState(SetDangerState(s, x, true), x, false) == s
  {
    var s1 := SetDangerState(s, x, true);
    var dm := s.models[x.model];
    var ref, cell := s.Ref(x), s.Cell(x);
    var m := dm.contexts[ref].messages[cell];
    assert s1.Ref(x) == ref && s1.Cell(x) == cell;
    var fin := Ind(m.IsFinished());
    WithMessageTwice(dm, ref, cell, m.(danger := true), 0, fin, 1 - fin, dm.modified, dm.modified);
    assert s.models[x.model := dm] == s.models;
  }
}
