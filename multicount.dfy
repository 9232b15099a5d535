/** updateCountsOnAdd and updateCountsOnRemove: one model's cells counted into
    or out of every row and context counter, proved to land exactly on the
    counts taken from scratch. */
module MultiCount {
  import opened Wrappers
  import opened DataModel
  import opened MultiContext
  import opened MultiState

  /** Contexts that differ at most in their counters. */
  predicate SameLayout(cs: seq<MultiContextItem>, cs': seq<MultiContextItem>) {
    |cs| == |cs'| && forall k | 0 <= k < |cs| :: cs'[k].Layout() == cs[k].Layout()
  }

  /** Row `j` of `mc` with new counters `mm`, and the context counters moved
      by the given amounts. */
  function Recounted(mc: MultiContextItem, j: nat, mm: MultiMessageItem, dEditable: int, dFinished: int, dNonobsolete: int)
    : (r: MultiContextItem)
    requires j < |mc.rows|
    ensures r.rows == mc.rows[j := mm]
    ensures r.(rows := mc.rows, editableCount := mc.editableCount, finishedCount := mc.finishedCount,
               nonobsoleteCount := mc.nonobsoleteCount) == mc
  {
    mc.(rows := mc.rows[j := mm], editableCount := mc.editableCount + dEditable,
        finishedCount := mc.finishedCount + dFinished, nonobsoleteCount := mc.nonobsoleteCount + dNonobsolete)
  }

  /** The model that item `r` leaves out while a recount stands at `at`:
      the items already passed leave out `after`, the others `before`. */
  function SkipAt(before: int, after: int, at: nat, r: nat): int {
    if r < at then after else before
  }

  /** A recount of context `mc0` standing at row `j`: `mc` has the layout
      of `mc0` and counters that agree with its rows, and the rows before
      `j` leave out `after`, the others `before`. */
  ghost predicate RowsRecounting(ms: seq<DataModel>, mc0: MultiContextItem, mc: MultiContextItem,
                                 before: int, after: int, j: nat) {
    && mc.Layout() == mc0.Layout() && mc.Linked(ms) && j <= |mc.rows|
    && mc.CountersAgree()
    && forall r | 0 <= r < |mc.rows| :: mc.RowAgrees(ms, r, SkipAt(before, after, j, r))
  }

  /** A recount standing at context `i`: the contexts before it leave out
      `after`, the others `before`. */
  ghost predicate Recounting(ms: seq<DataModel>, cs: seq<MultiContextItem>, before: int, after: int, i: nat,
                             numMessages: int, numFinished: int, numEditable: int) {
    && Layout(ms, cs) && Totals(cs, numMessages, numFinished, numEditable) && i <= |cs|
    && (forall k | 0 <= k < |cs| :: cs[k].CountersAgree())
    && (forall k | 0 <= k < |cs| :: cs[k].RowsAgree(ms, SkipAt(before, after, i, k)))
  }

  lemma RecountStart(ms: seq<DataModel>, cs: seq<MultiContextItem>, before: int, after: int,
                     numMessages: int, numFinished: int, numEditable: int)
    requires Consistent(ms, cs, before, numMessages, numFinished, numEditable)
    ensures Recounting(ms, cs, before, after, 0, numMessages, numFinished, numEditable)
  {
    forall k | 0 <= k < |cs| ensures cs[k].RowsAgree(ms, SkipAt(before, after, 0, k)) {
      assert SkipAt(before, after, 0, k) == before;
    }
  }

  lemma RecountEnd(ms: seq<DataModel>, cs: seq<MultiContextItem>, before: int, after: int,
                   numMessages: int, numFinished: int, numEditable: int)
    requires Recounting(ms, cs, before, after, |cs|, numMessages, numFinished, numEditable)
    ensures Consistent(ms, cs, after, numMessages, numFinished, numEditable)
  {
    forall k | 0 <= k < |cs| ensures cs[k].RowsAgree(ms, after) {
      assert SkipAt(before, after, |cs|, k) == after;
    }
  }

  lemma RowsStart(ms: seq<DataModel>, mc: MultiContextItem, before: int, after: int)
    requires mc.Linked(ms) && mc.CountersAgree() && mc.RowsAgree(ms, before)
    ensures RowsRecounting(ms, mc, mc, before, after, 0)
  {
    forall r | 0 <= r < |mc.rows| ensures mc.RowAgrees(ms, r, SkipAt(before, after, 0, r)) {
      assert SkipAt(before, after, 0, r) == before;
    }
  }

  /** A context whose rows are all recounted takes its place among the
      recounted contexts. */
  lemma RecountContext(ms: seq<DataModel>, cs: seq<MultiContextItem>, before: int, after: int, i: nat,
                       mc: MultiContextItem, numMessages: int, numFinished: int, numEditable: int)
    requires Recounting(ms, cs, before, after, i, numMessages, numFinished, numEditable) && i < |cs|
    requires RowsRecounting(ms, cs[i], mc, before, after, |mc.rows|)
    ensures Recounting(ms, cs[i := mc], before, after, i + 1, numMessages,
                       numFinished - cs[i].finishedCount + mc.finishedCount,
                       numEditable - cs[i].editableCount + mc.editableCount)
  {
    assert |mc.rows| == |mc.Layout().rows| == |cs[i].rows|;
    TotalsUpdate(cs, i, mc, numMessages, numFinished, numEditable);
    LayoutUpdate(ms, cs, i, mc);
    var cs' := cs[i := mc];
    var i' := i + 1;
    forall k | 0 <= k < |cs'| ensures cs'[k].RowsAgree(ms, SkipAt(before, after, i', k)) {
      if k == i {
        forall r | 0 <= r < |mc.rows| ensures mc.RowAgrees(ms, r, after) {
          assert SkipAt(before, after, |mc.rows|, r) == after;
        }
      } else {
        assert SkipAt(before, after, i', k) == SkipAt(before, after, i, k);
      }
    }
  }

  lemma LayoutUpdate(ms: seq<DataModel>, cs: seq<MultiContextItem>, k: nat, mc: MultiContextItem)
    requires Layout(ms, cs) && k < |cs| && mc.Linked(ms) && mc.context == cs[k].context
    ensures Layout(ms, cs[k := mc])
  {
  }

  /** New counters for row `j` keep the recount of a context in step. */
  lemma RowRecount(ms: seq<DataModel>, mc0: MultiContextItem, mc: MultiContextItem, before: int, after: int, j: nat,
                   mm: MultiMessageItem, dEditable: int, dFinished: int, dNonobsolete: int)
    requires RowsRecounting(ms, mc0, mc, before, after, j) && j < |mc.rows|
    requires mc.(rows := mc.rows[j := mm]).RowAgrees(ms, j, after)
    requires mm.Ident() == mc.rows[j].Ident()
    requires dEditable == Ind(RowCounted(mm, EditableRows)) - Ind(RowCounted(mc.rows[j], EditableRows))
    requires dFinished == Ind(RowCounted(mm, FinishedRows)) - Ind(RowCounted(mc.rows[j], FinishedRows))
    requires dNonobsolete == mm.nonobsoleteCount - mc.rows[j].nonobsoleteCount
    ensures RowsRecounting(ms, mc0, Recounted(mc, j, mm, dEditable, dFinished, dNonobsolete), before, after, j + 1)
  {
    var mc' := Recounted(mc, j, mm, dEditable, dFinished, dNonobsolete);
    RecountedKeeps(ms, mc, j, mm, dEditable, dFinished, dNonobsolete);
    CountRowsUpdate(mc.rows, j, mm, EditableRows);
    CountRowsUpdate(mc.rows, j, mm, FinishedRows);
    SumNonobsoleteUpdate(mc.rows, j, mm);
    var j' := j + 1;
    forall r | 0 <= r < |mc'.rows| ensures mc'.RowAgrees(ms, r, SkipAt(before, after, j', r)) {
      if r != j {
        assert SkipAt(before, after, j', r) == SkipAt(before, after, j, r);
      }
    }
  }

  /** A recounted context has the layout, the links and the cell kinds it
      had. */
  lemma RecountedKeeps(ms: seq<DataModel>, mc0: MultiContextItem, j: nat,
                       mm: MultiMessageItem, dEditable: int, dFinished: int, dNonobsolete: int)
    requires j < |mc0.rows| && mm.Ident() == mc0.rows[j].Ident()
    ensures var mc := Recounted(mc0, j, mm, dEditable, dFinished, dNonobsolete);
      && mc.Layout() == mc0.Layout()
      && (mc0.Linked(ms) ==> mc.Linked(ms))
      && (forall r, s | 0 <= r < |mc.rows| && r != j :: mc.RowAgrees(ms, r, s) == mc0.RowAgrees(ms, r, s))
      && (forall s :: mc.RowAgrees(ms, j, s) == mc0.(rows := mc0.rows[j := mm]).RowAgrees(ms, j, s))
  {
    var mc := Recounted(mc0, j, mm, dEditable, dFinished, dNonobsolete);
    assert mc.Layout().rows == mc0.Layout().rows;
    forall r, s | 0 <= r < |mc.rows| && r != j ensures mc.RowAgrees(ms, r, s) == mc0.RowAgrees(ms, r, s) {
      assert mc.RowKinds(ms, r) == mc0.RowKinds(ms, r);
      assert mc.rows[r] == mc0.rows[r];
    }
    var mc1 := mc0.(rows := mc0.rows[j := mm]);
    assert mc.RowKinds(ms, j) == mc1.RowKinds(ms, j);
    assert mc.rows == mc1.rows;
  }

  /** Counting model `n`'s cell into row `j` makes the row count every model. */
  lemma CellCountedIn(ms: seq<DataModel>, mc: MultiContextItem, n: nat, j: nat, mm: MultiMessageItem)
    requires n < |ms| && j < |mc.rows| && mc.RowAgrees(ms, j, n)
    requires AddsCell(mc.rows[j], mm, mc.Kind(ms, n, j))
    ensures mc.(rows := mc.rows[j := mm]).RowAgrees(ms, j, -1)
  {
    var mc1 := mc.(rows := mc.rows[j := mm]);
    var ks := mc.RowKinds(ms, j);
    assert mc1.RowKinds(ms, j) == ks;
    forall t: CellTally ensures RowCount(mm, t) == TallyOf(ks, -1, t) {
      TallyUnskip(ks, n, t);
    }
  }

  /** Counting model `n`'s cell out of row `j` makes the row leave it out. */
  lemma CellCountedOut(ms: seq<DataModel>, mc: MultiContextItem, n: nat, j: nat, mm: MultiMessageItem)
    requires n < |ms| && j < |mc.rows| && mc.RowAgrees(ms, j, -1)
    requires DropsCell(mc.rows[j], mm, mc.Kind(ms, n, j))
    ensures mc.(rows := mc.rows[j := mm]).RowAgrees(ms, j, n)
  {
    var mc1 := mc.(rows := mc.rows[j := mm]);
    var ks := mc.RowKinds(ms, j);
    assert mc1.RowKinds(ms, j) == ks;
    forall t: CellTally ensures RowCount(mm, t) == TallyOf(ks, n, t) {
      TallyUnskip(ks, n, t);
    }
  }

  /** A row that counts its cells keeps unfinished within editable. */
  lemma RowSane(ms: seq<DataModel>, mc: MultiContextItem, j: nat, s: int)
    requires mc.RowAgrees(ms, j, s)
    ensures CountersSane(mc.rows[j])
  {
    UnfinishedWithinEditable(mc.RowKinds(ms, j), s);
  }

  /** A row that counts every model can lose model `n`'s cell. */
  lemma CountOutReady(ms: seq<DataModel>, mc: MultiContextItem, n: nat, j: nat)
    requires n < |ms| && mc.RowAgrees(ms, j, -1)
    ensures var mm, k := mc.rows[j], mc.Kind(ms, n, j);
      && mm.editableCount >= Ind(Tallied(k, EditableCells))
      && mm.unfinishedCount >= Ind(Tallied(k, UnfinishedCells))
      && mm.unfinishedCount - Ind(Tallied(k, UnfinishedCells)) <= mm.editableCount - Ind(Tallied(k, EditableCells))
  {
    var ks := mc.RowKinds(ms, j);
    TallyUnskip(ks, n, EditableCells);
    TallyUnskip(ks, n, UnfinishedCells);
    UnfinishedWithinEditable(ks, n);
  }

  /** One row of updateCountsOnAdd: the cell of model `n` in row `j`
      counted in, and the model-wide counters moved with the context's. */
  method CountRowIn(ms: seq<DataModel>, n: nat, writable: bool, mc0: MultiContextItem, mc: MultiContextItem, j: nat,
                    numFinished: int, numEditable: int)
    returns (mc': MultiContextItem, numFinished': int, numEditable': int)
    requires n < |ms| && writable == ms[n].writable && j < |mc.rows|
    requires RowsRecounting(ms, mc0, mc, n, -1, j)
    ensures RowsRecounting(ms, mc0, mc', n, -1, j + 1)
    ensures numFinished' - numFinished == mc'.finishedCount - mc.finishedCount
    ensures numEditable' - numEditable == mc'.editableCount - mc.editableCount
  {
    var cell := CellItem(ms[n], mc.contextRefs[n], mc.messageLists[n][j]);
    assert mc.Kind(ms, n, j) == KindOf(cell, writable);
    assert SkipAt(n, -1, j, j) == n;
    RowSane(ms, mc, j, n);
    var mm, dEditable, dFinished, dNonobsolete := CountIn(mc.rows[j], cell, writable);
    CellCountedIn(ms, mc, n, j, mm);
    RowRecount(ms, mc0, mc, n, -1, j, mm, dEditable, dFinished, dNonobsolete);
    mc' := Recounted(mc, j, mm, dEditable, dFinished, dNonobsolete);
    numFinished', numEditable' := numFinished + dFinished, numEditable + dEditable;
  }

  /** The rows of context `i` in updateCountsOnAdd. */
  method CountContextIn(ms: seq<DataModel>, cs: seq<MultiContextItem>, n: nat, writable: bool, i: nat,
                        numMessages: int, numFinished: int, numEditable: int)
    returns (cs': seq<MultiContextItem>, numFinished': int, numEditable': int)
    requires n < |ms| && writable == ms[n].writable && i < |cs|
    requires Recounting(ms, cs, n, -1, i, numMessages, numFinished, numEditable)
    ensures Recounting(ms, cs', n, -1, i + 1, numMessages, numFinished', numEditable')
    ensures SameLayout(cs, cs')
  {
    var mc;
    mc, numFinished', numEditable' := CountRowsIn(ms, n, writable, cs[i], numFinished, numEditable);
    RecountContext(ms, cs, n, -1, i, mc, numMessages, numFinished, numEditable);
    cs' := cs[i := mc];
  }

  method CountRowsIn(ms: seq<DataModel>, n: nat, writable: bool, mc0: MultiContextItem,
                     numFinished: int, numEditable: int)
    returns (mc: MultiContextItem, numFinished': int, numEditable': int)
    requires n < |ms| && writable == ms[n].writable
    requires mc0.Linked(ms) && mc0.CountersAgree() && mc0.RowsAgree(ms, n)
    ensures RowsRecounting(ms, mc0, mc, n, -1, |mc.rows|)
    ensures numFinished' - numFinished == mc.finishedCount - mc0.finishedCount
    ensures numEditable' - numEditable == mc.editableCount - mc0.editableCount
  {
    mc := mc0;
    RowsStart(ms, mc, n, -1);
    numFinished', numEditable' := numFinished, numEditable;
    for j := 0 to |mc0.rows|
      invariant RowsRecounting(ms, mc0, mc, n, -1, j) && |mc.rows| == |mc0.rows|
      invariant numFinished' - numFinished == mc.finishedCount - mc0.finishedCount
      invariant numEditable' - numEditable == mc.editableCount - mc0.editableCount
    {
      mc, numFinished', numEditable' := CountRowIn(ms, n, writable, mc0, mc, j, numFinished', numEditable');
      assert |mc.rows| == |mc.Layout().rows|;
    }
  }

  /** One row of updateCountsOnRemove: the cell of model `n` in row `j`
      counted out, and the model-wide counters moved with the context's. */
  method CountRowOut(ms: seq<DataModel>, n: nat, writable: bool, mc0: MultiContextItem, mc: MultiContextItem, j: nat,
                    numFinished: int, numEditable: int)
    returns (mc': MultiContextItem, numFinished': int, numEditable': int)
    requires n < |ms| && writable == ms[n].writable && j < |mc.rows|
    requires RowsRecounting(ms, mc0, mc, -1, n, j)
    ensures RowsRecounting(ms, mc0, mc', -1, n, j + 1)
    ensures numFinished' - numFinished == mc'.finishedCount - mc.finishedCount
    ensures numEditable' - numEditable == mc'.editableCount - mc.editableCount
  {
    var cell := CellItem(ms[n], mc.contextRefs[n], mc.messageLists[n][j]);
    assert mc.Kind(ms, n, j) == KindOf(cell, writable);
    assert SkipAt(-1, n, j, j) == -1;
    RowSane(ms, mc, j, -1);
      CountOutReady(ms, mc, n, j);
    var mm, dEditable, dFinished, dNonobsolete := CountOut(mc.rows[j], cell, writable);
    CellCountedOut(ms, mc, n, j, mm);
    RowRecount(ms, mc0, mc, -1, n, j, mm, dEditable, dFinished, dNonobsolete);
    mc' := Recounted(mc, j, mm, dEditable, dFinished, dNonobsolete);
    numFinished', numEditable' := numFinished + dFinished, numEditable + dEditable;
  }

  /** The rows of context `i` in updateCountsOnRemove. */
  method CountContextOut(ms: seq<DataModel>, cs: seq<MultiContextItem>, n: nat, writable: bool, i: nat,
                        numMessages: int, numFinished: int, numEditable: int)
    returns (cs': seq<MultiContextItem>, numFinished': int, numEditable': int)
    requires n < |ms| && writable == ms[n].writable && i < |cs|
    requires Recounting(ms, cs, -1, n, i, numMessages, numFinished, numEditable)
    ensures Recounting(ms, cs', -1, n, i + 1, numMessages, numFinished', numEditable')
    ensures SameLayout(cs, cs')
  {
    var mc;
    mc, numFinished', numEditable' := CountRowsOut(ms, n, writable, cs[i], numFinished, numEditable);
    RecountContext(ms, cs, -1, n, i, mc, numMessages, numFinished, numEditable);
    cs' := cs[i := mc];
  }

  method CountRowsOut(ms: seq<DataModel>, n: nat, writable: bool, mc0: MultiContextItem,
                     numFinished: int, numEditable: int)
    returns (mc: MultiContextItem, numFinished': int, numEditable': int)
    requires n < |ms| && writable == ms[n].writable
    requires mc0.Linked(ms) && mc0.CountersAgree() && mc0.RowsAgree(ms, -1)
    ensures RowsRecounting(ms, mc0, mc, -1, n, |mc.rows|)
    ensures numFinished' - numFinished == mc.finishedCount - mc0.finishedCount
    ensures numEditable' - numEditable == mc.editableCount - mc0.editableCount
  {
    mc := mc0;
    RowsStart(ms, mc, -1, n);
    numFinished', numEditable' := numFinished, numEditable;
    for j := 0 to |mc0.rows|
      invariant RowsRecounting(ms, mc0, mc, -1, n, j) && |mc.rows| == |mc0.rows|
      invariant numFinished' - numFinished == mc.finishedCount - mc0.finishedCount
      invariant numEditable' - numEditable == mc.editableCount - mc0.editableCount
    {
      mc, numFinished', numEditable' := CountRowOut(ms, n, writable, mc0, mc, j, numFinished', numEditable');
      assert |mc.rows| == |mc.Layout().rows|;
    }
  }

  /** updateCountsOnAdd: counts the cells of model `n`, whose rows and
      contexts so far leave it out, into every counter; the counters then
      count all models, and nothing but counters changes. */
  method CountModelIn(ms: seq<DataModel>, cs: seq<MultiContextItem>, n: nat, writable: bool,
                      numMessages: int, numFinished: int, numEditable: int)
    returns (cs': seq<MultiContextItem>, numFinished': int, numEditable': int)
    requires n < |ms| && writable == ms[n].writable
    requires Consistent(ms, cs, n, numMessages, numFinished, numEditable)
    ensures Consistent(ms, cs', -1, numMessages, numFinished', numEditable')
    ensures SameLayout(cs, cs')
  {
    cs', numFinished', numEditable' := cs, numFinished, numEditable;
    RecountStart(ms, cs, n, -1, numMessages, numFinished, numEditable);
    for i := 0 to |cs|
      invariant SameLayout(cs, cs')
      invariant Recounting(ms, cs', n, -1, i, numMessages, numFinished', numEditable')
    {
      cs', numFinished', numEditable' := CountContextIn(ms, cs', n, writable, i, numMessages, numFinished', numEditable');
    }
    RecountEnd(ms, cs', n, -1, numMessages, numFinished', numEditable');
  }

  /** updateCountsOnRemove: counts the cells of model `n` out of every
      counter; the counters then leave model `n` out, and nothing but
      counters changes. */
  method CountModelOut(ms: seq<DataModel>, cs: seq<MultiContextItem>, n: nat, writable: bool,
                       numMessages: int, numFinished: int, numEditable: int)
    returns (cs': seq<MultiContextItem>, numFinished': int, numEditable': int)
    requires n < |ms| && writable == ms[n].writable
    requires Consistent(ms, cs, -1, numMessages, numFinished, numEditable)
    ensures Consistent(ms, cs', n, numMessages, numFinished', numEditable')
    ensures SameLayout(cs, cs')
  {
    cs', numFinished', numEditable' := cs, numFinished, numEditable;
    RecountStart(ms, cs, -1, n, numMessages, numFinished, numEditable);
    for i := 0 to |cs|
      invariant SameLayout(cs, cs')
      invariant Recounting(ms, cs', -1, n, i, numMessages, numFinished', numEditable')
    {
      cs', numFinished', numEditable' := CountContextOut(ms, cs', n, writable, i, numMessages, numFinished', numEditable');
    }
    RecountEnd(ms, cs', -1, n, numMessages, numFinished', numEditable');
  }
}
