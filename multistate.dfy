/** The invariants that tie the contexts of MultiDataModel to the models they
    show, and the lemmas that carry them through append. */
module MultiState {
  import opened Wrappers
  import opened Text
  import opened DataModel
  import opened MultiContext

  // ---------------------------------------------------------------------
  // Sums over contexts

  /** The three context quantities MultiDataModel totals. */
  datatype ContextField = RowsField | FinishedField | EditableField

  function Field(mc: MultiContextItem, f: ContextField): int {
    match f
    case RowsField => |mc.rows|
    case FinishedField => mc.finishedCount
    case EditableField => mc.editableCount
  }

  function SumOf(cs: seq<MultiContextItem>, f: ContextField): int {
    if cs == [] then 0 else SumOf(cs[..|cs| - 1], f) + Field(cs[|cs| - 1], f)
  }

  lemma {:induction false} SumOfUpdate(cs: seq<MultiContextItem>, k: nat, mc: MultiContextItem, f: ContextField)
    requires k < |cs|
    ensures SumOf(cs[k := mc], f) == SumOf(cs, f) - Field(cs[k], f) + Field(mc, f)
  {
    var last := |cs| - 1;
    if k < last {
      assert cs[k := mc][..last] == cs[..last][k := mc];
      SumOfUpdate(cs[..last], k, mc, f);
    } else {
      assert cs[k := mc][..last] == cs[..last];
    }
  }

  lemma SumOfSnoc(cs: seq<MultiContextItem>, mc: MultiContextItem, f: ContextField)
    ensures SumOf(cs + [mc], f) == SumOf(cs, f) + Field(mc, f)
  {
    assert (cs + [mc])[..|cs|] == cs;
  }

  lemma {:induction false} SumOfDelete(cs: seq<MultiContextItem>, k: nat, f: ContextField)
    requires k < |cs|
    ensures SumOf(cs[..k] + cs[k + 1..], f) == SumOf(cs, f) - Field(cs[k], f)
  {
    var last := |cs| - 1;
    if k == last {
      assert cs[..k] + cs[k + 1..] == cs[..last];
    } else {
      var init := cs[..last];
      SumOfDelete(init, k, f);
      assert cs[..k] + cs[k + 1..] == (init[..k] + init[k + 1..]) + [cs[last]];
    }
  }

  // ---------------------------------------------------------------------
  // Invariants

  /** Pointers lead into the models, context names are unique and every
      model is well formed. */
  ghost predicate Layout(models: seq<DataModel>, cs: seq<MultiContextItem>) {
    && (forall k | 0 <= k < |cs| :: cs[k].Linked(models))
    && (forall k1, k2 | 0 <= k1 < k2 < |cs| :: cs[k1].context != cs[k2].context)
    && (forall i | 0 <= i < |models| :: models[i].Wellformed())
  }

  /** Every counter counts the cells of all models but `skip`. */
  ghost predicate Counted(models: seq<DataModel>, cs: seq<MultiContextItem>, skip: int) {
    forall k | 0 <= k < |cs| :: cs[k].CountersAgree() && cs[k].RowsAgree(models, skip)
  }

  /** The model-wide counters total the context counters. */
  ghost predicate Totals(cs: seq<MultiContextItem>, numMessages: int, numFinished: int, numEditable: int) {
    && numMessages == SumOf(cs, RowsField)
    && numFinished == SumOf(cs, FinishedField)
    && numEditable == SumOf(cs, EditableField)
  }

  ghost predicate Consistent(models: seq<DataModel>, cs: seq<MultiContextItem>, skip: int,
                             numMessages: int, numFinished: int, numEditable: int) {
    Layout(models, cs) && Counted(models, cs, skip) && Totals(cs, numMessages, numFinished, numEditable)
  }

  // ---------------------------------------------------------------------
  // append: a column for the new model

  /** appendEmptyModel on every context. */
  function WithEmptyModel(cs: seq<MultiContextItem>): (r: seq<MultiContextItem>)
    ensures |r| == |cs| && forall k | 0 <= k < |cs| :: r[k] == cs[k].AppendEmptyModel()
  {
    seq(|cs|, k requires 0 <= k < |cs| => cs[k].AppendEmptyModel())
  }

  /** An empty column for a new last model: the old cells keep their kinds
      and the new one holds nothing. */
  lemma EmptyModelKinds(mc: MultiContextItem, models: seq<DataModel>, dm: DataModel, j: nat)
    requires mc.Shaped(|models|)
    ensures mc.AppendEmptyModel().RowKinds(models + [dm], j) == mc.RowKinds(models, j) + [NoItem]
  {
    var mc' := mc.AppendEmptyModel();
    var ms := models + [dm];
    forall i | 0 <= i < |models|
      ensures mc'.Kind(ms, i, j) == mc.Kind(models, i, j)
    {
      assert ms[i] == models[i];
      assert mc'.contextRefs[i] == mc.contextRefs[i] && mc'.messageLists[i] == mc.messageLists[i];
    }
  }

  lemma EmptyModelKeeps(mc: MultiContextItem, models: seq<DataModel>, dm: DataModel)
    requires mc.Linked(models) && mc.RowsAgree(models, -1)
    ensures mc.AppendEmptyModel().Linked(models + [dm])
    ensures mc.AppendEmptyModel().RowsAgree(models + [dm], |models|)
  {
    var mc' := mc.AppendEmptyModel();
    var ms := models + [dm];
    var n := |models|;
    forall i | 0 <= i < |ms|
      ensures ColumnLinked(ms[i], mc'.contextRefs[i], mc'.messageLists[i], mc'.context)
    {
      if i < n {
        assert ms[i] == models[i];
        assert mc'.contextRefs[i] == mc.contextRefs[i] && mc'.messageLists[i] == mc.messageLists[i];
      }
    }
    forall j | 0 <= j < |mc'.rows|
      ensures mc'.RowAgrees(ms, j, n)
    {
      var ks := mc.RowKinds(models, j);
      EmptyModelKinds(mc, models, dm, j);
      assert (ks + [NoItem])[..n] == ks;
      forall t: CellTally ensures TallyOf(ks + [NoItem], n, t) == TallyOf(ks, -1, t) {
        TallySkipNone(ks, n, t);
      }
      assert mc.RowAgrees(models, j, -1);
    }
  }

  /** The invariant of append's loop over the new model's contexts: all but
      the new model `n` counted, and the contexts given a pointer into it are
      among the first `i`. */
  ghost predicate Appending(ms: seq<DataModel>, n: nat, i: nat, cs: seq<MultiContextItem>,
                            numMessages: int, numFinished: int, numEditable: int) {
    && |ms| == n + 1
    && Consistent(ms, cs, n, numMessages, numFinished, numEditable)
    && forall k | 0 <= k < |cs| :: cs[k].contextRefs[n].Some? ==> cs[k].contextRefs[n].value < i
  }

  lemma AllEmptyModelKeeps(models: seq<DataModel>, cs: seq<MultiContextItem>, dm: DataModel,
                           numMessages: int, numFinished: int, numEditable: int)
    requires Consistent(models, cs, -1, numMessages, numFinished, numEditable) && dm.Wellformed()
    ensures Appending(models + [dm], |models|, 0, WithEmptyModel(cs), numMessages, numFinished, numEditable)
  {
    var cs' := WithEmptyModel(cs);
    var ms := models + [dm];
    forall k | 0 <= k < |cs|
      ensures cs'[k].Linked(ms) && cs'[k].RowsAgree(ms, |models|) && cs'[k].CountersAgree()
    {
      EmptyModelKeeps(cs[k], models, dm);
    }
    forall i | 0 <= i < |ms| ensures ms[i].Wellformed() {
      if i < |models| { assert ms[i] == models[i]; }
    }
    SameSums(cs, cs');
  }

  /** Contexts with the same rows and counters have the same sums. */
  lemma {:induction false} SameSums(cs: seq<MultiContextItem>, cs': seq<MultiContextItem>)
    requires |cs| == |cs'|
    requires forall k | 0 <= k < |cs| ::
               |cs[k].rows| == |cs'[k].rows| && cs[k].finishedCount == cs'[k].finishedCount
               && cs[k].editableCount == cs'[k].editableCount
    ensures forall f: ContextField :: SumOf(cs, f) == SumOf(cs', f)
  {
    if cs != [] {
      SameSums(cs[..|cs| - 1], cs'[..|cs| - 1]);
    }
  }

  /** A tally of row whose only possibly filled cell is the left-out one. */
  lemma {:induction false} TallyOnlySkipped(ks: seq<CellKind>, s: int, t: CellTally)
    requires forall i | 0 <= i < |ks| && i != s :: ks[i] == NoItem
    ensures TallyOf(ks, s, t) == 0
  {
    if ks != [] {
      TallyOnlySkipped(ks[..|ks| - 1], s, t);
    }
  }

  /** The context built for a context first seen in model `n` points into
      it, counts nothing yet and holds a row per message. */
  lemma NewContextSound(ms: seq<DataModel>, n: nat, i: nat)
    requires n + 1 == |ms| && i < |ms[n].contexts|
    ensures var mc := NewMultiContext(n, ms[n].contexts[i], i);
      && mc.Linked(ms) && mc.RowsAgree(ms, n) && mc.CountersAgree()
  {
    var mc := NewMultiContext(n, ms[n].contexts[i], i);
    ZeroRowsAppend([], mc.rows);
    assert [] + mc.rows == mc.rows;
    NewContextLinked(ms, n, i);
    forall j | 0 <= j < |mc.rows| ensures mc.RowAgrees(ms, j, n) {
      NewContextRow(ms, n, i, j);
    }
  }

  lemma NewContextLinked(ms: seq<DataModel>, n: nat, i: nat)
    requires n + 1 == |ms| && i < |ms[n].contexts|
    ensures NewMultiContext(n, ms[n].contexts[i], i).Linked(ms)
  {
    var c := ms[n].contexts[i];
    var mc := NewMultiContext(n, c, i);
    forall x | 0 <= x < n
      ensures ColumnLinked(ms[x], mc.contextRefs[x], mc.messageLists[x], mc.context)
    {
      assert mc.contextRefs[x] == None && mc.messageLists[x] == Nulls(|c.messages|);
    }
    var col := mc.messageLists[n];
    assert forall j | 0 <= j < |col| :: col[j] == Some(j);
    assert ColumnLinked(ms[n], mc.contextRefs[n], col, mc.context);
  }

  lemma NewContextRow(ms: seq<DataModel>, n: nat, i: nat, j: nat)
    requires n + 1 == |ms| && i < |ms[n].contexts| && j < |ms[n].contexts[i].messages|
    ensures NewMultiContext(n, ms[n].contexts[i], i).RowAgrees(ms, j, n)
  {
    var c := ms[n].contexts[i];
    var mc := NewMultiContext(n, c, i);
    var ks := mc.RowKinds(ms, j);
    forall x | 0 <= x < |ks| && x != n ensures ks[x] == NoItem {
      assert mc.messageLists[x] == Nulls(|c.messages|);
    }
    forall t: CellTally ensures TallyOf(ks, n, t) == 0 {
      TallyOnlySkipped(ks, n, t);
    }
    assert mc.rows[j] == NewMultiMessage(c.messages[j]);
  }

  /** A context of the new model that no earlier model has. */
  lemma NewContextKeeps(ms: seq<DataModel>, n: nat, i: nat, cs: seq<MultiContextItem>,
                        numMessages: int, numFinished: int, numEditable: int)
    requires Appending(ms, n, i, cs, numMessages, numFinished, numEditable)
    requires i < |ms[n].contexts|
    requires forall k | 0 <= k < |cs| :: cs[k].context != ms[n].contexts[i].context
    ensures Appending(ms, n, i + 1, cs + [NewMultiContext(n, ms[n].contexts[i], i)],
                      numMessages + |ms[n].contexts[i].messages|, numFinished, numEditable)
  {
    var mc := NewMultiContext(n, ms[n].contexts[i], i);
    var cs' := cs + [mc];
    forall f: ContextField ensures SumOf(cs', f) == SumOf(cs, f) + Field(mc, f) {
      SumOfSnoc(cs, mc, f);
    }
    NewContextSound(ms, n, i);
    assert cs'[|cs|] == mc;
    assert Counted(ms, cs', n);
    assert Layout(ms, cs');
  }

  // ---------------------------------------------------------------------
  // append: placing the messages of a context already shown

  /** Message `m` belongs on row `mm`: same non-empty id, or same text and
      comment. */
  predicate Matches(mm: MultiMessageItem, m: MessageItem) {
    (m.Id() != [] && mm.id == m.Id()) || (mm.text == m.Text() && mm.comment == m.Comment())
  }

  /** The row append puts message `m` on: the first row with its id when the
      id is non-empty and some row has it, else the first row with its text
      and comment, else none. */
  function TargetRow(rows: seq<MultiMessageItem>, m: MessageItem): (r: Option<nat>)
    ensures r.Some? ==> r.value < |rows| && Matches(rows[r.value], m)
    ensures r.None? <==> forall j | 0 <= j < |rows| :: !Matches(rows[j], m)
    ensures m.Id() != [] && (exists j | 0 <= j < |rows| :: rows[j].id == m.Id()) ==> rows[r.value].id == m.Id()
  {
    var byId := if m.Id() != [] then FirstById(rows, m.Id()) else None;
    if byId.Some? then byId else FirstByText(rows, m.Text(), m.Comment())
  }

  /** The row each of `msgs` is put on. */
  function Targets(rows: seq<MultiMessageItem>, msgs: seq<MessageItem>): (ts: seq<Option<nat>>)
    ensures |ts| == |msgs| && forall j | 0 <= j < |msgs| :: ts[j] == TargetRow(rows, msgs[j])
  {
    seq(|msgs|, j requires 0 <= j < |msgs| => TargetRow(rows, msgs[j]))
  }

  /** The last message put on row `r`, given the row `ts[j]` each message
      `j` is put on: a later message put on the same row overwrites the
      cell. */
  function LastPlaced(ts: seq<Option<nat>>, r: nat): (p: Option<nat>)
    ensures p.Some? ==> p.value < |ts| && ts[p.value] == Some(r)
    ensures p.Some? ==> forall j | p.value < j < |ts| :: ts[j] != Some(r)
    ensures p.None? <==> forall j | 0 <= j < |ts| :: ts[j] != Some(r)
    decreases |ts|
  {
    if ts == [] then None
    else if ts[|ts| - 1] == Some(r) then Some(|ts| - 1)
    else LastPlaced(ts[..|ts| - 1], r)
  }

  /** The positions of the messages put on no row, in order: these become
      new rows. */
  function Unplaced(ts: seq<Option<nat>>): (u: seq<nat>)
    ensures forall t | 0 <= t < |u| :: u[t] < |ts| && ts[u[t]].None?
    ensures forall t1, t2 | 0 <= t1 < t2 < |u| :: u[t1] < u[t2]
    ensures forall j | 0 <= j < |ts| && ts[j].None? :: j in u
    decreases |ts|
  {
    if ts == [] then []
    else Unplaced(ts[..|ts| - 1]) + (if ts[|ts| - 1].None? then [|ts| - 1] else [])
  }

  /** With no row to put them on, every message becomes a new row. */
  lemma {:induction false} UnplacedAll(ts: seq<Option<nat>>)
    requires forall j | 0 <= j < |ts| :: ts[j].None?
    ensures Unplaced(ts) == Range(|ts|)
    decreases |ts|
  {
    if ts != [] {
      UnplacedAll(ts[..|ts| - 1]);
    }
  }

  /** How far placing the messages `msgs[..j]` on `rows` has come: the new
      model's column holds, on each row, the last message put there, and
      `cells` are the messages no row matches. */
  predicate PlacedSoFar(rows: seq<MultiMessageItem>, msgs: seq<MessageItem>, j: nat,
                        col: seq<Option<nat>>, cells: seq<nat>) {
    && j <= |msgs| && |col| == |rows|
    && (forall r | 0 <= r < |rows| :: col[r] == LastPlaced(Targets(rows, msgs)[..j], r))
    && cells == Unplaced(Targets(rows, msgs)[..j])
  }

  /** Placing message `j` on its row, or keeping it for a new row. */
  lemma PlacedStep(rows: seq<MultiMessageItem>, msgs: seq<MessageItem>, j: nat, col: seq<Option<nat>>, cells: seq<nat>)
    requires PlacedSoFar(rows, msgs, j, col, cells) && j < |msgs|
    ensures var t := TargetRow(rows, msgs[j]);
      && (t.Some? ==> PlacedSoFar(rows, msgs, j + 1, col[t.value := Some(j)], cells))
      && (t.None? ==> PlacedSoFar(rows, msgs, j + 1, col, cells + [j]))
  {
    var ts := Targets(rows, msgs);
    var pre := ts[..j + 1];
    assert pre[..j] == ts[..j] && pre[j] == TargetRow(rows, msgs[j]);
  }

  /** A context as append leaves it, seen from model `n`: the rows `rows` it
      had keep their identity and hold, in column `n`, the last message put
      on them; after them come, in order, a new row per message no row
      matched, held by that message. */
  predicate ShowsPlaced(rows: seq<MultiMessageItem>, c: ContextItem, mc: MultiContextItem, n: nat) {
    var ts := Targets(rows, c.messages);
    var un := Unplaced(ts);
    && n < |mc.messageLists| && |mc.rows| == |rows| + |un| && |mc.messageLists[n]| == |mc.rows|
    && (forall r | 0 <= r < |rows| ::
          mc.rows[r].Ident() == rows[r].Ident() && mc.messageLists[n][r] == LastPlaced(ts, r))
    && (forall t | 0 <= t < |un| ::
          mc.rows[|rows| + t].Ident() == NewMultiMessage(c.messages[un[t]]).Ident()
          && mc.messageLists[n][|rows| + t] == Some(un[t]))
  }

  /** Placing depends on the layout only. */
  lemma ShowsPlacedLayout(rows: seq<MultiMessageItem>, c: ContextItem, mc: MultiContextItem, mc': MultiContextItem, n: nat)
    requires ShowsPlaced(rows, c, mc, n) && mc'.Layout() == mc.Layout()
    ensures ShowsPlaced(rows, c, mc', n)
  {
    assert |mc'.rows| == |mc'.Layout().rows| == |mc.rows|;
    forall r | 0 <= r < |mc.rows| ensures mc'.rows[r].Ident() == mc.rows[r].Ident() {
      assert mc'.Layout().rows[r] == mc.Layout().rows[r];
    }
  }

  /** A context first seen in model `n` shows all of its messages as new
      rows. */
  lemma NewContextShows(n: nat, c: ContextItem, i: nat)
    ensures ShowsPlaced([], c, NewMultiContext(n, c, i), n)
  {
    UnplacedAll(Targets([], c.messages));
  }

  /** The state of the loop over the messages `c.messages[..j]` of context
      `c` of the new model `n`: `mc` is `mc1` with only the new model's cells
      changed, every placed cell matches its row, and `cells` are the
      messages still to be appended as rows, in order. */
  ghost predicate Placing(n: nat, c: ContextItem, mc1: MultiContextItem, mc: MultiContextItem, j: nat,
                          cells: seq<nat>, items: seq<MessageItem>) {
    && j <= |c.messages|
    && n < |mc1.messageLists| && n < |mc.messageLists|
    && mc == mc1.(messageLists := mc1.messageLists[n := mc.messageLists[n]])
    && var col := mc.messageLists[n];
    && |col| == |mc1.rows|
    && (forall r | 0 <= r < |col| && col[r].Some? :: col[r].value < j && Matches(mc1.rows[r], c.messages[col[r].value]))
    && (forall r1, r2 | 0 <= r1 < r2 < |col| && col[r1].Some? :: col[r1] != col[r2])
    && |items| == |cells|
    && (forall t | 0 <= t < |cells| :: cells[t] < j && items[t] == c.messages[cells[t]])
    && (forall t1, t2 | 0 <= t1 < t2 < |cells| :: cells[t1] < cells[t2])
    && (forall t, r | 0 <= t < |cells| && 0 <= r < |col| :: col[r] != Some(cells[t]))
  }

  lemma PlacePut(n: nat, c: ContextItem, mc1: MultiContextItem, mc: MultiContextItem, j: nat,
                 cells: seq<nat>, items: seq<MessageItem>, r: nat)
    requires Placing(n, c, mc1, mc, j, cells, items) && j < |c.messages|
    requires n + 1 == |mc.messageLists| && r < |mc1.rows| && Matches(mc1.rows[r], c.messages[j])
    ensures Placing(n, c, mc1, mc.PutMessageItem(r, j), j + 1, cells, items)
  {
  }

  lemma PlaceSkip(n: nat, c: ContextItem, mc1: MultiContextItem, mc: MultiContextItem, j: nat,
                  cells: seq<nat>, items: seq<MessageItem>)
    requires Placing(n, c, mc1, mc, j, cells, items) && j < |c.messages|
    ensures Placing(n, c, mc1, mc, j + 1, cells + [j], items + [c.messages[j]])
  {
  }

  /** A context already shown has no pointer into the new model yet when its
      turn comes, because the new model's context names are unique; so the
      placing loop starts from an empty column. */
  lemma PlaceStart(ms: seq<DataModel>, n: nat, i: nat, cs: seq<MultiContextItem>, mcx: nat,
                   numMessages: int, numFinished: int, numEditable: int)
    requires Appending(ms, n, i, cs, numMessages, numFinished, numEditable)
    requires i < |ms[n].contexts| && mcx < |cs| && cs[mcx].context == ms[n].contexts[i].context
    ensures cs[mcx].contextRefs[n] == None
    ensures var mc1 := cs[mcx].AssignLastModel(i);
      Placing(n, ms[n].contexts[i], mc1, mc1, 0, [], [])
  {
    var mc0 := cs[mcx];
    assert mc0.Linked(ms);
    assert ColumnLinked(ms[n], mc0.contextRefs[n], mc0.messageLists[n], mc0.context);
    assert ms[n].Wellformed();
    var mc1 := mc0.AssignLastModel(i);
    assert mc1.messageLists == mc0.messageLists;
    var col := mc1.messageLists[n];
    assert forall r | 0 <= r < |col| :: col[r].None?;
  }

  /** What placing leaves behind for a context already shown: the new
      model's column filled in and the unmatched messages as new rows. */
  function PlacedContext(mc: MultiContextItem, cells: seq<nat>, items: seq<MessageItem>): MultiContextItem
    requires |cells| == |items| && mc.messageLists != []
  {
    if items == [] then mc else mc.AppendMessageItems(cells, items)
  }

  /** The finished context still points into the models. */
  lemma PlacedLinked(ms: seq<DataModel>, n: nat, i: nat, mc0: MultiContextItem, mc: MultiContextItem,
                     cells: seq<nat>, items: seq<MessageItem>)
    requires n + 1 == |ms| && i < |ms[n].contexts| && mc0.Linked(ms)
    requires mc0.context == ms[n].contexts[i].context
    requires Placing(n, ms[n].contexts[i], mc0.AssignLastModel(i), mc, |ms[n].contexts[i].messages|, cells, items)
    ensures PlacedContext(mc, cells, items).Linked(ms)
  {
    var c := ms[n].contexts[i];
    var mc1 := mc0.AssignLastModel(i);
    var mc3 := PlacedContext(mc, cells, items);
    var extra := |cells|;
    forall x | 0 <= x < n
      ensures |mc3.messageLists[x]| == |mc3.rows|
      ensures ColumnLinked(ms[x], mc3.contextRefs[x], mc3.messageLists[x], mc3.context)
    {
      assert mc.messageLists[x] == mc0.messageLists[x] && mc.contextRefs[x] == mc0.contextRefs[x];
      assert ColumnLinked(ms[x], mc0.contextRefs[x], mc0.messageLists[x], mc0.context);
      if items != [] {
        var old_ := mc0.messageLists[x];
        assert mc3.messageLists[x] == old_ + Nulls(extra);
        forall j | 0 <= j < |mc3.messageLists[x]| && mc3.messageLists[x][j].Some?
          ensures j < |old_| && mc3.messageLists[x][j] == old_[j]
        {
        }
      }
    }
    var col := mc.messageLists[n];
    var col3 := mc3.messageLists[n];
    assert col3 == col + SomeCells(cells);
    forall j | 0 <= j < |col3| && col3[j].Some?
      ensures col3[j].value < |c.messages|
    {
      if j >= |col| {
        assert col3[j] == Some(cells[j - |col|]);
      }
    }
    forall j1, j2 | 0 <= j1 < j2 < |col3| && col3[j1].Some?
      ensures col3[j1] != col3[j2]
    {
      if j2 >= |col| && j1 >= |col| {
        assert cells[j1 - |col|] < cells[j2 - |col|];
      } else if j2 >= |col| {
        assert col3[j2] == Some(cells[j2 - |col|]);
      }
    }
    assert ColumnLinked(ms[n], mc3.contextRefs[n], col3, mc3.context);
  }

  /** The finished context's counters still count all models but the new
      one. */
  lemma PlacedCounted(ms: seq<DataModel>, n: nat, i: nat, mc0: MultiContextItem, mc: MultiContextItem,
                      cells: seq<nat>, items: seq<MessageItem>)
    requires n + 1 == |ms| && i < |ms[n].contexts| && mc0.Shaped(n + 1)
    requires mc0.CountersAgree() && mc0.RowsAgree(ms, n)
    requires Placing(n, ms[n].contexts[i], mc0.AssignLastModel(i), mc, |ms[n].contexts[i].messages|, cells, items)
    ensures PlacedContext(mc, cells, items).CountersAgree()
    ensures PlacedContext(mc, cells, items).RowsAgree(ms, n)
  {
    var mc3 := PlacedContext(mc, cells, items);
    var more := NewRows(items);
    if items != [] {
      ZeroRowsAppend(mc0.rows, more);
    }
    forall j | 0 <= j < |mc3.rows| ensures mc3.RowAgrees(ms, j, n) {
      PlacedRow(ms, n, i, mc0, mc, cells, items, j);
    }
  }

  lemma PlacedRow(ms: seq<DataModel>, n: nat, i: nat, mc0: MultiContextItem, mc: MultiContextItem,
                  cells: seq<nat>, items: seq<MessageItem>, j: nat)
    requires n + 1 == |ms| && i < |ms[n].contexts| && mc0.Shaped(n + 1) && mc0.RowsAgree(ms, n)
    requires Placing(n, ms[n].contexts[i], mc0.AssignLastModel(i), mc, |ms[n].contexts[i].messages|, cells, items)
    requires j < |PlacedContext(mc, cells, items).rows|
    ensures PlacedContext(mc, cells, items).RowAgrees(ms, j, n)
  {
    var mc3 := PlacedContext(mc, cells, items);
    var ks := mc3.RowKinds(ms, j);
    if j < |mc0.rows| {
      var ks0 := mc0.RowKinds(ms, j);
      forall x | 0 <= x < n ensures ks[x] == ks0[x] {
        assert mc3.contextRefs[x] == mc0.contextRefs[x];
        assert mc3.messageLists[x][j] == mc0.messageLists[x][j];
      }
      assert ks == ks0[n := ks[n]];
      assert mc0.RowAgrees(ms, j, n);
      forall t: CellTally ensures TallyOf(ks, n, t) == TallyOf(ks0, n, t) {
        TallyIgnoresSkipped(ks0, n, ks[n], t);
      }
    } else {
      forall x | 0 <= x < n ensures ks[x] == NoItem {
        assert mc3.messageLists[x] == mc.messageLists[x] + Nulls(|cells|);
      }
      forall t: CellTally ensures TallyOf(ks, n, t) == 0 {
        TallyOnlySkipped(ks, n, t);
      }
      assert mc3.rows[j] == NewMultiMessage(items[j - |mc0.rows|]);
    }
  }

  /** One context of the new model that was already shown, placed. */
  lemma PlacedKeeps(ms: seq<DataModel>, n: nat, i: nat, cs: seq<MultiContextItem>, mcx: nat,
                    mc: MultiContextItem, cells: seq<nat>, items: seq<MessageItem>,
                    numMessages: int, numFinished: int, numEditable: int)
    requires Appending(ms, n, i, cs, numMessages, numFinished, numEditable)
    requires i < |ms[n].contexts| && mcx < |cs| && cs[mcx].context == ms[n].contexts[i].context
    requires Placing(n, ms[n].contexts[i], cs[mcx].AssignLastModel(i), mc, |ms[n].contexts[i].messages|, cells, items)
    ensures Appending(ms, n, i + 1, cs[mcx := PlacedContext(mc, cells, items)],
                      numMessages + |items|, numFinished, numEditable)
  {
    var mc3 := PlacedContext(mc, cells, items);
    PlacedLinked(ms, n, i, cs[mcx], mc, cells, items);
    PlacedCounted(ms, n, i, cs[mcx], mc, cells, items);
    UpdateKeeps(ms, cs, mcx, mc3, n);
    TotalsUpdate(cs, mcx, mc3, numMessages, numFinished, numEditable);
  }

  /** Replacing one context by a sound one with the same name keeps the
      layout and the counting. */
  lemma UpdateKeeps(ms: seq<DataModel>, cs: seq<MultiContextItem>, k: nat, mc: MultiContextItem, skip: int)
    requires Layout(ms, cs) && Counted(ms, cs, skip) && k < |cs|
    requires mc.Linked(ms) && mc.CountersAgree() && mc.RowsAgree(ms, skip) && mc.context == cs[k].context
    ensures Layout(ms, cs[k := mc]) && Counted(ms, cs[k := mc], skip)
  {
  }

  lemma TotalsUpdate(cs: seq<MultiContextItem>, k: nat, mc: MultiContextItem,
                     numMessages: int, numFinished: int, numEditable: int)
    requires Totals(cs, numMessages, numFinished, numEditable) && k < |cs|
    ensures Totals(cs[k := mc], numMessages - |cs[k].rows| + |mc.rows|,
                   numFinished - cs[k].finishedCount + mc.finishedCount,
                   numEditable - cs[k].editableCount + mc.editableCount)
  {
    SumOfUpdate(cs, k, mc, RowsField);
    SumOfUpdate(cs, k, mc, FinishedField);
    SumOfUpdate(cs, k, mc, EditableField);
  }
}
