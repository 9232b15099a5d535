/** close: one model's column leaves every context, then the rows no model
    holds any more and the contexts left without rows are dropped. */
module MultiClose {
  import opened Wrappers
  import opened Text
  import opened DataModel
  import opened MultiContext
  import opened MultiState
  import opened MultiCount

  /** `s` without its element `n`. */
  function Delete<T>(s: seq<T>, n: nat): (r: seq<T>)
    requires n < |s|
    ensures |r| == |s| - 1
    ensures forall i | 0 <= i < n :: r[i] == s[i]
    ensures forall i | n <= i < |r| :: r[i] == s[i + 1]
  {
    s[..n] + s[n + 1..]
  }

  // ---------------------------------------------------------------------
  // Dropping a column (removeModel on every context)

  function DropModel(cs: seq<MultiContextItem>, n: nat): (r: seq<MultiContextItem>)
    requires forall k | 0 <= k < |cs| :: n < |cs[k].contextRefs| && n < |cs[k].messageLists|
    ensures |r| == |cs| && forall k | 0 <= k < |cs| :: r[k] == cs[k].RemoveModel(n)
  {
    seq(|cs|, k requires 0 <= k < |cs| => cs[k].RemoveModel(n))
  }

  /** Without column `n` a row's cells are its old cells but that one. */
  lemma DropKinds(mc: MultiContextItem, ms: seq<DataModel>, n: nat, j: nat)
    requires mc.Shaped(|ms|) && n < |ms|
    ensures mc.RemoveModel(n).RowKinds(Delete(ms, n), j) == Delete(mc.RowKinds(ms, j), n)
  {
    var mc', ms' := mc.RemoveModel(n), Delete(ms, n);
    var ks := mc.RowKinds(ms, j);
    forall i | 0 <= i < |ms'| ensures mc'.Kind(ms', i, j) == Delete(ks, n)[i] {
      if i < n {
        assert mc'.contextRefs[i] == mc.contextRefs[i] && mc'.messageLists[i] == mc.messageLists[i];
      } else {
        assert mc'.contextRefs[i] == mc.contextRefs[i + 1] && mc'.messageLists[i] == mc.messageLists[i + 1];
      }
    }
  }

  /** removeModel on a context whose counters leave model `n` out keeps it
      linked and counted over the remaining models. */
  lemma DropContextKeeps(mc: MultiContextItem, ms: seq<DataModel>, n: nat)
    requires mc.Linked(ms) && mc.RowsAgree(ms, n) && n < |ms|
    ensures mc.RemoveModel(n).Linked(Delete(ms, n))
    ensures mc.RemoveModel(n).RowsAgree(Delete(ms, n), -1)
  {
    var mc', ms' := mc.RemoveModel(n), Delete(ms, n);
    forall i | 0 <= i < |ms'|
      ensures ColumnLinked(ms'[i], mc'.contextRefs[i], mc'.messageLists[i], mc'.context)
    {
      if i < n {
        assert mc'.contextRefs[i] == mc.contextRefs[i] && mc'.messageLists[i] == mc.messageLists[i];
      } else {
        assert mc'.contextRefs[i] == mc.contextRefs[i + 1] && mc'.messageLists[i] == mc.messageLists[i + 1];
      }
    }
    forall j | 0 <= j < |mc'.rows| ensures mc'.RowAgrees(ms', j, -1) {
      var ks := mc.RowKinds(ms, j);
      DropKinds(mc, ms, n, j);
      assert mc.RowAgrees(ms, j, n);
      forall t: CellTally ensures TallyOf(Delete(ks, n), -1, t) == TallyOf(ks, n, t) {
        TallyDelete(ks, n, t);
      }
    }
  }

  /** Dropping column `n` from contexts that leave it out yields contexts
      counted over the remaining models, with the same totals. */
  lemma DropModelKeeps(ms: seq<DataModel>, cs: seq<MultiContextItem>, n: nat,
                       numMessages: int, numFinished: int, numEditable: int)
    requires Consistent(ms, cs, n, numMessages, numFinished, numEditable) && n < |ms|
    ensures Consistent(Delete(ms, n), DropModel(cs, n), -1, numMessages, numFinished, numEditable)
  {
    var cs' := DropModel(cs, n);
    forall k | 0 <= k < |cs| ensures cs'[k].Linked(Delete(ms, n)) && cs'[k].RowsAgree(Delete(ms, n), -1) {
      DropContextKeeps(cs[k], ms, n);
    }
    SameSums(cs, cs');
  }

  // ---------------------------------------------------------------------
  // Dropping rows no model holds

  /** The rows some model still holds, in order. */
  function NonEmpty(rows: seq<MultiMessageItem>): (r: seq<MultiMessageItem>)
    ensures |r| <= |rows|
  {
    if rows == [] then [] else (if rows[0].IsEmpty() then [] else [rows[0]]) + NonEmpty(rows[1..])
  }

  /** NonEmpty keeps exactly the rows that are not empty. */
  lemma {:induction false} NonEmptyMembers(rows: seq<MultiMessageItem>)
    ensures forall mm :: mm in NonEmpty(rows) <==> mm in rows && !mm.IsEmpty()
  {
    if rows != [] {
      NonEmptyMembers(rows[1..]);
      assert rows == [rows[0]] + rows[1..];
    }
  }

  lemma NonEmptyStep(rows: seq<MultiMessageItem>, j: nat)
    requires 0 < j <= |rows|
    ensures NonEmpty(rows[j - 1..]) == (if rows[j - 1].IsEmpty() then [] else [rows[j - 1]]) + NonEmpty(rows[j..])
  {
    assert rows[j - 1..][1..] == rows[j..];
  }

  /** The elements of `s` whose flag in `keep` is set, in order. */
  function Mask<T>(s: seq<T>, keep: seq<bool>): (r: seq<T>)
    ensures |r| <= |s|
  {
    if s == [] || keep == [] then [] else (if keep[0] then [s[0]] else []) + Mask(s[1..], keep[1..])
  }

  /** Every list of cells masked alike. */
  function MaskLists(lists: seq<seq<Option<nat>>>, keep: seq<bool>): (r: seq<seq<Option<nat>>>)
    ensures |r| == |lists| && forall i | 0 <= i < |lists| :: r[i] == Mask(lists[i], keep)
  {
    seq(|lists|, i requires 0 <= i < |lists| => Mask(lists[i], keep))
  }

  lemma MaskStep<T>(s: seq<T>, keep: seq<bool>, j: nat)
    requires 0 < j <= |s| && |keep| == |s|
    ensures Mask(s[j - 1..], keep[j - 1..]) == (if keep[j - 1] then [s[j - 1]] else []) + Mask(s[j..], keep[j..])
  {
    assert s[j - 1..][1..] == s[j..];
    assert keep[j - 1..][1..] == keep[j..];
  }

  /** Which rows are not empty. */
  function LiveMask(rows: seq<MultiMessageItem>): (r: seq<bool>)
    ensures |r| == |rows| && forall j | 0 <= j < |rows| :: r[j] == !rows[j].IsEmpty()
  {
    seq(|rows|, j requires 0 <= j < |rows| => !rows[j].IsEmpty())
  }

  /** A context as close leaves it: the empty rows gone from the rows and
      from every model's list of cells, all else as it was. */
  function PrunedContext(mc: MultiContextItem): (r: MultiContextItem)
    ensures r.rows == NonEmpty(mc.rows)
    ensures r.messageLists == MaskLists(mc.messageLists, LiveMask(mc.rows))
    ensures r.(rows := mc.rows, messageLists := mc.messageLists) == mc
  {
    mc.(rows := NonEmpty(mc.rows), messageLists := MaskLists(mc.messageLists, LiveMask(mc.rows)))
  }

  /** The cells of a column without position `j` still lead into the model. */
  lemma ColumnLinkedDelete(dm: DataModel, ref: Option<nat>, cells: seq<Option<nat>>, name: UString, j: nat)
    requires ColumnLinked(dm, ref, cells, name) && j < |cells|
    ensures ColumnLinked(dm, ref, Delete(cells, j), name)
  {
    var d := Delete(cells, j);
    forall j1, j2 | 0 <= j1 < j2 < |d| && d[j1].Some? ensures d[j1] != d[j2] {
      var o1 := if j1 < j then j1 else j1 + 1;
      var o2 := if j2 < j then j2 else j2 + 1;
      assert d[j1] == cells[o1] && d[j2] == cells[o2];
    }
  }

  /** Without an empty row the other rows keep their cells and counters. */
  lemma RowDeleteAgrees(ms: seq<DataModel>, mc: MultiContextItem, j: nat)
    requires mc.Shaped(|ms|) && mc.RowsAgree(ms, -1) && j < |mc.rows|
    ensures mc.RemoveMultiMessageItem(j).RowsAgree(ms, -1)
  {
    var mc' := mc.RemoveMultiMessageItem(j);
    forall r | 0 <= r < |mc'.rows| ensures mc'.RowAgrees(ms, r, -1) {
      var o := if r < j then r else r + 1;
      assert mc.RowAgrees(ms, o, -1);
      forall i | 0 <= i < |ms| ensures mc'.Kind(ms, i, r) == mc.Kind(ms, i, o) {
        assert mc'.messageLists[i][r] == mc.messageLists[i][o];
      }
      assert mc'.RowKinds(ms, r) == mc.RowKinds(ms, o);
    }
  }

  /** removeMultiMessageItem of an empty row keeps a context linked and
      counted: the row counted for nothing. */
  lemma RowDeleteKeeps(ms: seq<DataModel>, mc: MultiContextItem, j: nat)
    requires mc.Linked(ms) && mc.CountersAgree() && mc.RowsAgree(ms, -1)
    requires j < |mc.rows| && mc.rows[j].IsEmpty()
    ensures mc.RemoveMultiMessageItem(j).Linked(ms)
    ensures mc.RemoveMultiMessageItem(j).CountersAgree()
    ensures mc.RemoveMultiMessageItem(j).RowsAgree(ms, -1)
  {
    var mc' := mc.RemoveMultiMessageItem(j);
    forall i | 0 <= i < |ms| ensures ColumnLinked(ms[i], mc'.contextRefs[i], mc'.messageLists[i], mc'.context) {
      ColumnLinkedDelete(ms[i], mc.contextRefs[i], mc.messageLists[i], mc.context, j);
    }
    var ks := mc.RowKinds(ms, j);
    assert mc.RowAgrees(ms, j, -1);
    NoCellsNoTally(ks, -1, EditableCells);
    NoCellsNoTally(ks, -1, NonobsoleteCells);
    ZeroRowDelete(mc.rows, j);
    RowDeleteAgrees(ms, mc, j);
  }

  /** close's loop over the rows of context `mc0` standing at row `j`: the
      rows from `j` on, and their cells, keep only those some model holds. */
  ghost predicate Pruning(ms: seq<DataModel>, mc0: MultiContextItem, mc: MultiContextItem, j: nat) {
    && mc0.Shaped(|ms|)
    && mc.Linked(ms) && mc.CountersAgree() && mc.RowsAgree(ms, -1)
    && j <= |mc.rows| && j <= |mc0.rows|
    && mc.rows == mc0.rows[..j] + NonEmpty(mc0.rows[j..])
    && (forall i | 0 <= i < |ms| ::
          mc.messageLists[i] == mc0.messageLists[i][..j] + Mask(mc0.messageLists[i][j..], LiveMask(mc0.rows)[j..]))
    && mc.(rows := mc0.rows, messageLists := mc0.messageLists) == mc0
  }

  /** The rows as close's loop leaves them, one step further. */
  lemma RowsPruneStep(rows0: seq<MultiMessageItem>, rows: seq<MultiMessageItem>, j: nat)
    requires 0 < j <= |rows0| && rows == rows0[..j] + NonEmpty(rows0[j..])
    ensures j <= |rows| && rows[j - 1] == rows0[j - 1]
    ensures rows[j - 1].IsEmpty() ==> Delete(rows, j - 1) == rows0[..j - 1] + NonEmpty(rows0[j - 1..])
    ensures !rows[j - 1].IsEmpty() ==> rows == rows0[..j - 1] + NonEmpty(rows0[j - 1..])
  {
    var j' := j - 1;
    NonEmptyStep(rows0, j);
    assert rows0[..j] == rows0[..j'] + [rows0[j']];
    assert rows[j'] == rows0[..j][j'];
  }

  /** A list of cells as close's loop leaves it, one step further. */
  lemma CellsPruneStep(l0: seq<Option<nat>>, keep: seq<bool>, l: seq<Option<nat>>, j: nat)
    requires 0 < j <= |l0| && |keep| == |l0| && l == l0[..j] + Mask(l0[j..], keep[j..])
    ensures j <= |l|
    ensures !keep[j - 1] ==> Delete(l, j - 1) == l0[..j - 1] + Mask(l0[j - 1..], keep[j - 1..])
    ensures keep[j - 1] ==> l == l0[..j - 1] + Mask(l0[j - 1..], keep[j - 1..])
  {
    MaskStep(l0, keep, j);
    assert l0[..j] == l0[..j - 1] + [l0[j - 1]];
  }

  lemma PruneStep(ms: seq<DataModel>, mc0: MultiContextItem, mc: MultiContextItem, j: nat)
    requires Pruning(ms, mc0, mc, j) && 0 < j
    ensures mc.rows[j - 1] == mc0.rows[j - 1]
    ensures mc.rows[j - 1].IsEmpty() ==> Pruning(ms, mc0, mc.RemoveMultiMessageItem(j - 1), j - 1)
    ensures !mc.rows[j - 1].IsEmpty() ==> Pruning(ms, mc0, mc, j - 1)
  {
    RowsPruneStep(mc0.rows, mc.rows, j);
    var keep := LiveMask(mc0.rows);
    forall i | 0 <= i < |ms|
      ensures !keep[j - 1] ==> Delete(mc.messageLists[i], j - 1)
                               == mc0.messageLists[i][..j - 1] + Mask(mc0.messageLists[i][j - 1..], keep[j - 1..])
      ensures keep[j - 1] ==> mc.messageLists[i]
                              == mc0.messageLists[i][..j - 1] + Mask(mc0.messageLists[i][j - 1..], keep[j - 1..])
    {
      CellsPruneStep(mc0.messageLists[i], keep, mc.messageLists[i], j);
    }
    if mc.rows[j - 1].IsEmpty() {
      RowDeleteKeeps(ms, mc, j - 1);
    }
  }

  /** Before close's loop over the rows nothing is pruned yet. */
  lemma PruningStarts(ms: seq<DataModel>, mc0: MultiContextItem)
    requires mc0.Linked(ms) && mc0.CountersAgree() && mc0.RowsAgree(ms, -1)
    ensures Pruning(ms, mc0, mc0, |mc0.rows|)
  {
    var j := |mc0.rows|;
    assert mc0.rows[..j] == mc0.rows && mc0.rows[j..] == [];
    forall i | 0 <= i < |ms|
      ensures mc0.messageLists[i] == mc0.messageLists[i][..j] + Mask(mc0.messageLists[i][j..], LiveMask(mc0.rows)[j..])
    {
      assert mc0.messageLists[i][..j] == mc0.messageLists[i];
    }
  }

  /** After close's loop over the rows the context is pruned. */
  lemma PruningEnds(ms: seq<DataModel>, mc0: MultiContextItem, mc: MultiContextItem)
    requires Pruning(ms, mc0, mc, 0)
    ensures mc == PrunedContext(mc0)
  {
    assert mc0.rows[0..] == mc0.rows && LiveMask(mc0.rows)[0..] == LiveMask(mc0.rows);
    forall i | 0 <= i < |ms| ensures mc.messageLists[i] == Mask(mc0.messageLists[i], LiveMask(mc0.rows)) {
      assert mc0.messageLists[i][0..] == mc0.messageLists[i];
    }
    assert mc.messageLists == MaskLists(mc0.messageLists, LiveMask(mc0.rows));
  }

  /** The loop of close over the rows of one context, last to first: drops
      every row no model holds, with its cells, one less message each. */
  method PruneRows(ms: seq<DataModel>, mc0: MultiContextItem, numMessages: int)
    returns (mc: MultiContextItem, numMessages': int)
    requires mc0.Linked(ms) && mc0.CountersAgree() && mc0.RowsAgree(ms, -1)
    ensures mc.Linked(ms) && mc.CountersAgree() && mc.RowsAgree(ms, -1)
    ensures mc == PrunedContext(mc0)
    ensures numMessages' == numMessages - |mc0.rows| + |mc.rows|
  {
    mc, numMessages' := mc0, numMessages;
    var j: nat := |mc0.rows|;
    PruningStarts(ms, mc0);
    while j > 0
      invariant Pruning(ms, mc0, mc, j)
      invariant numMessages' == numMessages - |mc0.rows| + |mc.rows|
    {
      PruneStep(ms, mc0, mc, j);
      j := j - 1;
      if mc.rows[j].IsEmpty() {
        mc := mc.RemoveMultiMessageItem(j);
        numMessages' := numMessages' - 1;
      }
    }
    PruningEnds(ms, mc0, mc);
  }

  /** The contexts close keeps, pruned: those left with rows, in order. */
  function Survivors(cs: seq<MultiContextItem>): (r: seq<MultiContextItem>)
    ensures |r| <= |cs|
  {
    if cs == [] then []
    else (if NonEmpty(cs[0].rows) == [] then [] else [PrunedContext(cs[0])]) + Survivors(cs[1..])
  }

  /** No row is empty and no context is without rows. */
  predicate Pruned(cs: seq<MultiContextItem>) {
    forall k | 0 <= k < |cs| :: cs[k].rows != [] && forall j | 0 <= j < |cs[k].rows| :: !cs[k].rows[j].IsEmpty()
  }

  lemma SurvivorsStep(cs0: seq<MultiContextItem>, i: nat)
    requires 0 < i <= |cs0|
    ensures Survivors(cs0[i - 1..])
         == (if NonEmpty(cs0[i - 1].rows) == [] then [] else [PrunedContext(cs0[i - 1])]) + Survivors(cs0[i..])
  {
    assert cs0[i - 1..][1..] == cs0[i..];
  }

  /** Dropping a context without rows keeps the model consistent. */
  lemma ContextDeleteKeeps(ms: seq<DataModel>, cs: seq<MultiContextItem>, k: nat,
                           numMessages: int, numFinished: int, numEditable: int)
    requires Consistent(ms, cs, -1, numMessages, numFinished, numEditable) && k < |cs| && cs[k].rows == []
    ensures Consistent(ms, Delete(cs, k), -1, numMessages, numFinished, numEditable)
  {
    var d := Delete(cs, k);
    forall k1, k2 | 0 <= k1 < k2 < |d| ensures d[k1].context != d[k2].context {
      var o1 := if k1 < k then k1 else k1 + 1;
      var o2 := if k2 < k then k2 else k2 + 1;
      assert d[k1] == cs[o1] && d[k2] == cs[o2];
    }
    SumOfDelete(cs, k, RowsField);
    SumOfDelete(cs, k, FinishedField);
    SumOfDelete(cs, k, EditableField);
  }

  /** What close's loop over the contexts has done so far, and has not. */
  predicate ShapedSoFar(cs0: seq<MultiContextItem>, cs: seq<MultiContextItem>, i: nat) {
    && i <= |cs0| && i <= |cs|
    && cs[..i] == cs0[..i]
    && cs[i..] == Survivors(cs0[i..])
    && Pruned(cs[i..])
  }

  /** Context `i - 1` replaced by its pruned self `mc`, or dropped when it
      has no rows left, carries the loop one step further. */
  lemma ShapeStep(cs0: seq<MultiContextItem>, cs: seq<MultiContextItem>, i: nat, mc: MultiContextItem)
    requires ShapedSoFar(cs0, cs, i) && 0 < i
    requires mc == PrunedContext(cs0[i - 1])
    ensures mc.rows == [] ==> ShapedSoFar(cs0, Delete(cs[i - 1 := mc], i - 1), i - 1)
    ensures mc.rows != [] ==> ShapedSoFar(cs0, cs[i - 1 := mc], i - 1)
  {
    var i' := i - 1;
    var cs' := cs[i' := mc];
    SurvivorsStep(cs0, i);
    assert cs'[..i'] == cs0[..i'] by {
      assert cs[..i'] == cs[..i][..i'] == cs0[..i][..i'] == cs0[..i'];
    }
    assert cs'[i..] == cs[i..];
    if mc.rows == [] {
      assert Delete(cs', i')[i'..] == cs[i..];
      assert Delete(cs', i')[..i'] == cs0[..i'];
    } else {
      NonEmptyMembers(cs0[i'].rows);
      assert forall j | 0 <= j < |mc.rows| :: mc.rows[j] in NonEmpty(cs0[i'].rows);
      assert cs'[i'..] == [mc] + cs[i..];
    }
  }

  /** One step of close's loop over the contexts. */
  method PruneContext(ms: seq<DataModel>, cs0: seq<MultiContextItem>, cs: seq<MultiContextItem>, i: nat,
                      numMessages: int, numFinished: int, numEditable: int)
    returns (cs': seq<MultiContextItem>, numMessages': int)
    requires Consistent(ms, cs, -1, numMessages, numFinished, numEditable)
    requires ShapedSoFar(cs0, cs, i) && 0 < i
    ensures Consistent(ms, cs', -1, numMessages', numFinished, numEditable)
    ensures ShapedSoFar(cs0, cs', i - 1)
  {
    var i' := i - 1;
    assert cs[i'] == cs0[i'] by { assert cs[..i][i'] == cs0[..i][i']; }
    var mc;
    mc, numMessages' := PruneRows(ms, cs[i'], numMessages);
    UpdateKeeps(ms, cs, i', mc, -1);
    TotalsUpdate(cs, i', mc, numMessages, numFinished, numEditable);
    ShapeStep(cs0, cs, i, mc);
    cs' := cs[i' := mc];
    if mc.rows == [] {
      ContextDeleteKeeps(ms, cs', i', numMessages', numFinished, numEditable);
      cs' := Delete(cs', i');
    }
  }

  /** The loop of close over the contexts, last to first: the contexts
      lose their empty rows, and those left without rows go. */
  method PruneContexts(ms: seq<DataModel>, cs0: seq<MultiContextItem>,
                       numMessages: int, numFinished: int, numEditable: int)
    returns (cs: seq<MultiContextItem>, numMessages': int)
    requires Consistent(ms, cs0, -1, numMessages, numFinished, numEditable)
    ensures Consistent(ms, cs, -1, numMessages', numFinished, numEditable)
    ensures cs == Survivors(cs0)
    ensures Pruned(cs)
  {
    cs, numMessages' := cs0, numMessages;
    var i := |cs0|;
    assert cs0[..i] == cs0 && cs0[i..] == [];
    while i > 0
      invariant Consistent(ms, cs, -1, numMessages', numFinished, numEditable)
      invariant ShapedSoFar(cs0, cs, i)
    {
      cs, numMessages' := PruneContext(ms, cs0, cs, i, numMessages', numFinished, numEditable);
      i := i - 1;
    }
    assert cs[0..] == cs && cs0[0..] == cs0;
  }

  // ---------------------------------------------------------------------
  // What close leaves, stated on layouts

  /** Some model holds row `j`: one of the lists has a cell there. */
  predicate Held(lists: seq<seq<Option<nat>>>, j: nat) {
    exists i | 0 <= i < |lists| :: j < |lists[i]| && lists[i][j].Some?
  }

  /** Which rows of `mc` some model holds. */
  function HeldMask(mc: MultiContextItem): (r: seq<bool>)
    ensures |r| == |mc.rows| && forall j | 0 <= j < |mc.rows| :: r[j] == Held(mc.messageLists, j)
  {
    seq(|mc.rows|, j requires 0 <= j < |mc.rows| => Held(mc.messageLists, j))
  }

  /** The layout of `mc` without the rows no model holds, and without their
      cells. */
  function Trim(mc: MultiContextItem): (r: MultiContextItem)
    ensures r.context == mc.context && r.contextRefs == mc.contextRefs
  {
    var l := mc.Layout();
    l.(rows := Mask(l.rows, HeldMask(mc)), messageLists := MaskLists(l.messageLists, HeldMask(mc)))
  }

  /** The layouts close leaves: each context trimmed, and those left without
      rows dropped. */
  function Closed(cs: seq<MultiContextItem>): (r: seq<MultiContextItem>)
    ensures |r| <= |cs|
  {
    if cs == [] then [] else (if Trim(cs[0]).rows == [] then [] else [Trim(cs[0])]) + Closed(cs[1..])
  }

  /** The layout of every context. */
  function Layouts(cs: seq<MultiContextItem>): (r: seq<MultiContextItem>)
    ensures |r| == |cs| && forall k | 0 <= k < |cs| :: r[k] == cs[k].Layout()
  {
    seq(|cs|, k requires 0 <= k < |cs| => cs[k].Layout())
  }

  /** A row counts no cell exactly when every kind in it is NoItem. */
  lemma {:induction false} NoTallyNoCells(ks: seq<CellKind>)
    ensures TallyOf(ks, -1, NonnullCells) == 0 <==> forall i | 0 <= i < |ks| :: ks[i] == NoItem
  {
    if ks != [] {
      NoTallyNoCells(ks[..|ks| - 1]);
    }
  }

  /** In a linked and counted context a row is empty exactly when no model
      holds a cell in it. */
  lemma EmptyIsUnheld(ms: seq<DataModel>, mc: MultiContextItem)
    requires mc.Linked(ms) && mc.RowsAgree(ms, -1)
    ensures LiveMask(mc.rows) == HeldMask(mc)
  {
    forall j | 0 <= j < |mc.rows| ensures !mc.rows[j].IsEmpty() <==> Held(mc.messageLists, j) {
      var ks := mc.RowKinds(ms, j);
      assert mc.RowAgrees(ms, j, -1);
      NoTallyNoCells(ks);
      forall i | 0 <= i < |ms| ensures ks[i] == NoItem <==> mc.messageLists[i][j].None? {
        assert ColumnLinked(ms[i], mc.contextRefs[i], mc.messageLists[i], mc.context);
      }
      if Held(mc.messageLists, j) {
        var i :| 0 <= i < |mc.messageLists| && j < |mc.messageLists[i]| && mc.messageLists[i][j].Some?;
        assert ks[i] != NoItem;
      }
    }
  }

  /** The rows with their counters cleared. */
  function Idents(rows: seq<MultiMessageItem>): (r: seq<MultiMessageItem>)
    ensures |r| == |rows| && forall j | 0 <= j < |rows| :: r[j] == rows[j].Ident()
  {
    seq(|rows|, j requires 0 <= j < |rows| => rows[j].Ident())
  }

  lemma {:induction false} MaskIdents(rows: seq<MultiMessageItem>, keep: seq<bool>)
    ensures Mask(Idents(rows), keep) == Idents(Mask(rows, keep))
    decreases |rows|
  {
    if rows != [] && keep != [] {
      MaskIdents(rows[1..], keep[1..]);
      assert Idents(rows)[1..] == Idents(rows[1..]);
      assert Idents(Mask(rows, keep)) == (if keep[0] then [rows[0].Ident()] else []) + Idents(Mask(rows[1..], keep[1..]));
    }
  }

  lemma {:induction false} NonEmptyIsMask(rows: seq<MultiMessageItem>)
    ensures NonEmpty(rows) == Mask(rows, LiveMask(rows))
    decreases |rows|
  {
    if rows != [] {
      NonEmptyIsMask(rows[1..]);
      assert LiveMask(rows)[1..] == LiveMask(rows[1..]);
    }
  }

  /** In a linked and counted context the pruned context's layout is the
      trimmed layout. */
  lemma PrunedLayout(ms: seq<DataModel>, mc: MultiContextItem)
    requires mc.Linked(ms) && mc.RowsAgree(ms, -1)
    ensures PrunedContext(mc).Layout() == Trim(mc)
    ensures NonEmpty(mc.rows) == [] <==> Trim(mc).rows == []
  {
    EmptyIsUnheld(ms, mc);
    NonEmptyIsMask(mc.rows);
    MaskIdents(mc.rows, HeldMask(mc));
    assert mc.Layout().rows == Idents(mc.rows);
    assert PrunedContext(mc).Layout().rows == Idents(NonEmpty(mc.rows));
  }

  lemma LayoutsConcat(a: seq<MultiContextItem>, b: seq<MultiContextItem>)
    ensures Layouts(a + b) == Layouts(a) + Layouts(b)
  {
  }

  /** The survivors of consistent contexts have the closed layouts. */
  lemma {:induction false} SurvivorsLayouts(ms: seq<DataModel>, cs: seq<MultiContextItem>)
    requires forall k | 0 <= k < |cs| :: cs[k].Linked(ms) && cs[k].RowsAgree(ms, -1)
    ensures Layouts(Survivors(cs)) == Closed(cs)
    decreases |cs|
  {
    if cs != [] {
      var rest := cs[1..];
      assert forall k | 0 <= k < |rest| :: rest[k] == cs[k + 1];
      SurvivorsLayouts(ms, rest);
      assert cs[0].Linked(ms) && cs[0].RowsAgree(ms, -1);
      PrunedLayout(ms, cs[0]);
      var head := if NonEmpty(cs[0].rows) == [] then [] else [PrunedContext(cs[0])];
      LayoutsConcat(head, Survivors(rest));
      assert Layouts(head) == (if Trim(cs[0]).rows == [] then [] else [Trim(cs[0])]);
    }
  }

  /** What close leaves depends on the layout only. */
  lemma {:induction false} ClosedSameLayout(cs: seq<MultiContextItem>, cs': seq<MultiContextItem>)
    requires SameLayout(cs, cs')
    ensures Closed(cs) == Closed(cs')
    decreases |cs|
  {
    if cs != [] {
      ClosedSameLayout(cs[1..], cs'[1..]);
      assert cs[0].Layout() == cs'[0].Layout();
      assert |cs[0].rows| == |cs[0].Layout().rows|;
      assert HeldMask(cs[0]) == HeldMask(cs'[0]);
    }
  }

  /** Dropping a column from two contexts with one layout leaves one
      layout. */
  lemma DropSameLayout(cs: seq<MultiContextItem>, cs': seq<MultiContextItem>, n: nat)
    requires SameLayout(cs, cs')
    requires forall k | 0 <= k < |cs| :: n < |cs[k].contextRefs| && n < |cs[k].messageLists|
    ensures forall k | 0 <= k < |cs'| :: n < |cs'[k].contextRefs| && n < |cs'[k].messageLists|
    ensures SameLayout(DropModel(cs, n), DropModel(cs', n))
  {
    forall k | 0 <= k < |cs'| ensures n < |cs'[k].contextRefs| && n < |cs'[k].messageLists| {
      assert cs'[k].Layout() == cs[k].Layout();
    }
    forall k | 0 <= k < |cs| ensures cs'[k].RemoveModel(n).Layout() == cs[k].RemoveModel(n).Layout() {
      var a, b := cs[k], cs'[k];
      assert a.Layout() == b.Layout();
      assert a.RemoveModel(n).Layout().rows == a.Layout().rows;
      assert b.RemoveModel(n).Layout().rows == b.Layout().rows;
    }
  }

  /** With the last model closed no row is held and nothing is left. */
  lemma {:induction false} ClosedWithoutModels(cs: seq<MultiContextItem>)
    requires forall k | 0 <= k < |cs| :: cs[k].messageLists == []
    ensures Closed(cs) == []
    decreases |cs|
  {
    if cs != [] {
      ClosedWithoutModels(cs[1..]);
      MaskNone(cs[0].Layout().rows, HeldMask(cs[0]));
    }
  }

  /** A mask without a set flag keeps nothing. */
  lemma {:induction false} MaskNone<T>(s: seq<T>, keep: seq<bool>)
    requires forall j | 0 <= j < |keep| :: !keep[j]
    ensures Mask(s, keep) == []
    decreases |s|
  {
    if s != [] && keep != [] {
      MaskNone(s[1..], keep[1..]);
    }
  }

  /** close with more than one model: counts model `n` out, drops its
      column, then drops the rows and contexts no remaining model holds;
      all counters then count the remaining models. Without counters, the
      contexts left are exactly those of `Closed` after dropping the
      column. */
  method CloseModel(ms: seq<DataModel>, cs: seq<MultiContextItem>, n: nat,
                    numMessages: int, numFinished: int, numEditable: int)
    returns (ms': seq<DataModel>, cs': seq<MultiContextItem>, numMessages': int, numFinished': int, numEditable': int)
    requires Consistent(ms, cs, -1, numMessages, numFinished, numEditable) && n < |ms|
    ensures ms' == Delete(ms, n)
    ensures Consistent(ms', cs', -1, numMessages', numFinished', numEditable')
    ensures Pruned(cs')
    ensures forall k | 0 <= k < |cs| :: n < |cs[k].contextRefs| && n < |cs[k].messageLists|
    ensures Layouts(cs') == Closed(DropModel(cs, n))
  {
    var cs1;
    cs1, numFinished', numEditable' := CountModelOut(ms, cs, n, ms[n].writable, numMessages, numFinished, numEditable);
    ms' := Delete(ms, n);
    assert forall k | 0 <= k < |cs| :: cs[k].Linked(ms);
    DropSameLayout(cs, cs1, n);
    DropModelKeeps(ms, cs1, n, numMessages, numFinished', numEditable');
    var cs2 := DropModel(cs1, n);
    cs', numMessages' := PruneContexts(ms', cs2, numMessages, numFinished', numEditable');
    SurvivorsLayouts(ms', cs2);
    ClosedSameLayout(DropModel(cs, n), cs2);
  }

  /** The counters are fixed by the layout: two consistent states with the
      same rows and pointers are the same state. So counting a model out
      after counting it in restores every counter. */
  lemma CountsDetermined(ms: seq<DataModel>, cs: seq<MultiContextItem>, cs': seq<MultiContextItem>, skip: int,
                         numMessages: int, numFinished: int, numEditable: int,
                         numMessages': int, numFinished': int, numEditable': int)
    requires Consistent(ms, cs, skip, numMessages, numFinished, numEditable)
    requires Consistent(ms, cs', skip, numMessages', numFinished', numEditable')
    requires SameLayout(cs, cs')
    ensures cs == cs' && numMessages == numMessages' && numFinished == numFinished' && numEditable == numEditable'
  {
    forall k | 0 <= k < |cs| ensures cs[k] == cs'[k] {
      var mc, mc' := cs[k], cs'[k];
      assert mc.Layout() == mc'.Layout();
      assert |mc.rows| == |mc.Layout().rows| == |mc'.rows|;
      forall j | 0 <= j < |mc.rows| ensures mc.rows[j] == mc'.rows[j] {
        assert mc.rows[j].Ident() == mc.Layout().rows[j];
        assert mc'.rows[j].Ident() == mc'.Layout().rows[j];
        assert mc.contextRefs == mc'.contextRefs && mc.messageLists == mc'.messageLists;
        assert mc.RowKinds(ms, j) == mc'.RowKinds(ms, j);
        assert mc.RowAgrees(ms, j, skip) && mc'.RowAgrees(ms, j, skip);
      }
      assert mc.rows == mc'.rows;
    }
  }

  /** Counting model `n` out and back in restores every counter. */
  lemma RemoveThenAddRestores(ms: seq<DataModel>, cs: seq<MultiContextItem>, cs1: seq<MultiContextItem>,
                              cs2: seq<MultiContextItem>, n: nat,
                              numMessages: int, numFinished: int, numEditable: int,
                              numFinished1: int, numEditable1: int, numFinished2: int, numEditable2: int)
    requires Consistent(ms, cs, -1, numMessages, numFinished, numEditable)
    requires Consistent(ms, cs1, n, numMessages, numFinished1, numEditable1) && SameLayout(cs, cs1)
    requires Consistent(ms, cs2, -1, numMessages, numFinished2, numEditable2) && SameLayout(cs1, cs2)
    ensures cs2 == cs && numFinished2 == numFinished && numEditable2 == numEditable
  {
    assert SameLayout(cs, cs2);
    CountsDetermined(ms, cs, cs2, -1, numMessages, numFinished, numEditable, numMessages, numFinished2, numEditable2);
  }
}
