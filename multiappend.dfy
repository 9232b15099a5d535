/** MultiDataModel::append on values: a column for a newly opened model,
    its messages placed on the rows they match, the rest appended as new
    rows and new contexts, and the counters brought up to date. */
module MultiAppend {
  import opened Wrappers
  import opened Text
  import opened DataModel
  import opened MultiContext
  import opened MultiState
  import opened MultiCount

  /** findContextIndex: the first context named `name`. */
  method FindContextIndex(cs: seq<MultiContextItem>, name: UString) returns (r: Option<nat>)
    ensures r.Some? ==> r.value < |cs| && cs[r.value].context == name
    ensures r.Some? ==> forall k | 0 <= k < r.value :: cs[k].context != name
    ensures r.None? <==> forall k | 0 <= k < |cs| :: cs[k].context != name
  {
    for k := 0 to |cs|
      invariant forall k' | 0 <= k' < k :: cs[k'].context != name
    {
      if cs[k].context == name {
        return Some(k);
      }
    }
    return None;
  }

  // ---------------------------------------------------------------------
  // What append keeps

  /** Column `col` grown from `col0` to `n` cells, the new ones null. */
  predicate Grown(col0: seq<Option<nat>>, col: seq<Option<nat>>, n: nat) {
    && |col0| <= n && |col| == n
    && forall r | 0 <= r < n :: col[r] == (if r < |col0| then col0[r] else None)
  }

  /** `mc` is `mc0` with rows added at the end, held by none of the first
      `cols` models, whose pointers are unchanged. */
  predicate Extends(mc0: MultiContextItem, mc: MultiContextItem, cols: nat) {
    && mc.context == mc0.context && mc.comment == mc0.comment
    && |mc0.rows| <= |mc.rows|
    && cols <= |mc0.contextRefs| && cols <= |mc0.messageLists|
    && cols <= |mc.contextRefs| && cols <= |mc.messageLists|
    && (forall r | 0 <= r < |mc0.rows| :: mc.rows[r].Ident() == mc0.rows[r].Ident())
    && (forall x | 0 <= x < cols :: mc.contextRefs[x] == mc0.contextRefs[x])
    && (forall x | 0 <= x < cols :: Grown(mc0.messageLists[x], mc.messageLists[x], |mc.rows|))
  }

  /** A context none of the first `cols` models holds. */
  predicate FreshFor(mc: MultiContextItem, cols: nat) {
    && cols <= |mc.contextRefs| && cols <= |mc.messageLists|
    && forall x | 0 <= x < cols :: mc.contextRefs[x] == None && mc.messageLists[x] == Nulls(|mc.rows|)
  }

  lemma ExtendsTrans(a: MultiContextItem, b: MultiContextItem, c: MultiContextItem, cols: nat)
    requires Extends(a, b, cols) && Extends(b, c, cols)
    ensures Extends(a, c, cols)
  {
    forall x | 0 <= x < cols ensures Grown(a.messageLists[x], c.messageLists[x], |c.rows|) {
      var ca, cb, cc := a.messageLists[x], b.messageLists[x], c.messageLists[x];
      forall r | 0 <= r < |c.rows| ensures cc[r] == (if r < |ca| then ca[r] else None) {
        if r < |cb| {
          assert cc[r] == cb[r];
        }
      }
    }
  }

  lemma ExtendsSelf(mc: MultiContextItem, cols: nat, m: nat)
    requires mc.Shaped(m) && cols <= m
    ensures Extends(mc, mc, cols)
  {
  }

  lemma ExtendsRecounted(mc0: MultiContextItem, mc: MultiContextItem, mc': MultiContextItem, cols: nat)
    requires Extends(mc0, mc, cols) && mc'.Layout() == mc.Layout()
    ensures Extends(mc0, mc', cols)
  {
    assert |mc'.rows| == |mc'.Layout().rows| == |mc.rows|;
    forall r | 0 <= r < |mc0.rows| ensures mc'.rows[r].Ident() == mc0.rows[r].Ident() {
      assert mc'.Layout().rows[r] == mc.Layout().rows[r];
    }
  }

  lemma ExtendsEmptyModel(mc: MultiContextItem, cols: nat)
    requires mc.Shaped(cols)
    ensures Extends(mc, mc.AppendEmptyModel(), cols)
  {
  }

  lemma ExtendsPlaced(n: nat, c: ContextItem, mc0: MultiContextItem, i: nat, mc: MultiContextItem, j: nat,
                      cells: seq<nat>, items: seq<MessageItem>)
    requires mc0.Shaped(n + 1) && Placing(n, c, mc0.AssignLastModel(i), mc, j, cells, items)
    ensures Extends(mc0, PlacedContext(mc, cells, items), n)
  {
    var mc3 := PlacedContext(mc, cells, items);
    forall x | 0 <= x < n ensures Grown(mc0.messageLists[x], mc3.messageLists[x], |mc3.rows|) {
      assert mc.messageLists[x] == mc0.messageLists[x];
      if items != [] {
        assert mc3.messageLists[x] == mc0.messageLists[x] + Nulls(|cells|);
      }
    }
  }

  // ---------------------------------------------------------------------
  // The loops of append

  /** The messages of context `i` of the new model `n`, placed on the rows of
      `mc1` they match (by a non-empty id first, else by text and comment);
      the unmatched ones are returned in order, to become new rows. */
  method PlaceMessages(ms: seq<DataModel>, n: nat, i: nat, mc1: MultiContextItem)
    returns (mc: MultiContextItem, cells: seq<nat>, items: seq<MessageItem>)
    requires n + 1 == |ms| && n + 1 == |mc1.messageLists| && i < |ms[n].contexts|
    requires Placing(n, ms[n].contexts[i], mc1, mc1, 0, [], [])
    ensures Placing(n, ms[n].contexts[i], mc1, mc, |ms[n].contexts[i].messages|, cells, items)
    ensures forall r | 0 <= r < |mc1.rows| ::
              mc.messageLists[n][r] == LastPlaced(Targets(mc1.rows, ms[n].contexts[i].messages), r)
    ensures cells == Unplaced(Targets(mc1.rows, ms[n].contexts[i].messages))
  {
    var c := ms[n].contexts[i];
    mc, cells, items := mc1, [], [];
    assert Targets(mc1.rows, c.messages)[..0] == [];
    for j := 0 to |c.messages|
      invariant Placing(n, c, mc1, mc, j, cells, items)
      invariant PlacedSoFar(mc1.rows, c.messages, j, mc.messageLists[n], cells)
    {
      PlacedStep(mc1.rows, c.messages, j, mc.messageLists[n], cells);
      var m := c.messages[j];
      var msgIdx: Option<nat> := None;
      if m.Id() != [] {
        msgIdx := mc.FindMessageById(m.Id());
      }
      if msgIdx.None? {
        msgIdx := mc.FindMessage(m.Text(), m.Comment());
      }
      assert msgIdx == TargetRow(mc1.rows, m);
      if msgIdx.Some? {
        PlacePut(n, c, mc1, mc, j, cells, items, msgIdx.value);
        mc := mc.PutMessageItem(msgIdx.value, j);
      } else {
        PlaceSkip(n, c, mc1, mc, j, cells, items);
        cells, items := cells + [j], items + [m];
      }
    }
    assert Targets(mc1.rows, c.messages)[..|c.messages|] == Targets(mc1.rows, c.messages);
  }

  /** What placing leaves, seen from the new model: the rows it found hold
      the last message put on them, and the rest follow as new rows. */
  lemma PlacedShows(n: nat, c: ContextItem, mc1: MultiContextItem, mc: MultiContextItem,
                    cells: seq<nat>, items: seq<MessageItem>)
    requires n + 1 == |mc.messageLists| && Placing(n, c, mc1, mc, |c.messages|, cells, items)
    requires forall r | 0 <= r < |mc1.rows| :: mc.messageLists[n][r] == LastPlaced(Targets(mc1.rows, c.messages), r)
    requires cells == Unplaced(Targets(mc1.rows, c.messages))
    ensures ShowsPlaced(mc1.rows, c, PlacedContext(mc, cells, items), n)
  {
    var mc3 := PlacedContext(mc, cells, items);
    if items != [] {
      assert mc3.rows == mc1.rows + NewRows(items);
      assert mc3.messageLists[n] == mc.messageLists[n] + SomeCells(cells);
    }
  }

  /** One context of the new model: merged into the context of the same
      name, or appended as a new context. */
  method AppendContext(ms: seq<DataModel>, n: nat, i: nat, cs: seq<MultiContextItem>,
                       numMessages: int, numFinished: int, numEditable: int)
    returns (cs': seq<MultiContextItem>, numMessages': int)
    requires Appending(ms, n, i, cs, numMessages, numFinished, numEditable) && i < |ms[n].contexts|
    ensures Appending(ms, n, i + 1, cs', numMessages', numFinished, numEditable)
    ensures Grew(cs, cs', n) && OnlyNewlyPointed(cs, cs', n)
    ensures NewlyShown(cs, cs', n, i, ms[n].contexts[i])
  {
    var c := ms[n].contexts[i];
    var mcx := FindContextIndex(cs, c.context);
    assert forall k | 0 <= k < |cs| :: cs[k].Linked(ms);
    if mcx.Some? {
      cs', numMessages' := MergeContext(ms, n, i, cs, mcx.value, numMessages, numFinished, numEditable);
    } else {
      NewContextKeeps(ms, n, i, cs, numMessages, numFinished, numEditable);
      NewContextAppended(ms, n, i, cs);
      cs' := cs + [NewMultiContext(n, c, i)];
      numMessages' := numMessages + |c.messages|;
    }
  }

  /** `cs'` is `cs` grown for the first `n` models: the old contexts extended,
      the new ones held by none of them. */
  ghost predicate Grew(cs: seq<MultiContextItem>, cs': seq<MultiContextItem>, n: nat) {
    && |cs| <= |cs'|
    && (forall k | 0 <= k < |cs| :: Extends(cs[k], cs'[k], n))
    && (forall k | |cs| <= k < |cs'| :: FreshFor(cs'[k], n))
  }

  /** Only contexts without a pointer into model `n` changed, and those
      that changed, or are new, have one now. */
  ghost predicate OnlyNewlyPointed(cs: seq<MultiContextItem>, cs': seq<MultiContextItem>, n: nat) {
    && |cs| <= |cs'|
    && (forall k | 0 <= k < |cs'| :: n < |cs'[k].contextRefs|)
    && (forall k | 0 <= k < |cs| :: n < |cs[k].contextRefs|)
    && (forall k | |cs| <= k < |cs'| :: cs'[k].contextRefs[n].Some?)
    && (forall k | 0 <= k < |cs| && cs[k].contextRefs[n].Some? :: cs'[k] == cs[k])
    && (forall k | 0 <= k < |cs| && cs'[k].contextRefs[n].None? :: cs'[k] == cs[k])
  }

  /** Context `i` of the new model `n`, whose messages are `c`, now has a
      context pointing at it: one that had no pointer into `n`, or a new one,
      showing `c` placed on the rows it had. */
  ghost predicate NewlyShown(cs: seq<MultiContextItem>, cs': seq<MultiContextItem>, n: nat, i: nat, c: ContextItem) {
    exists k | 0 <= k < |cs'| ::
      && n < |cs'[k].contextRefs| && cs'[k].contextRefs[n] == Some(i)
      && (k < |cs| ==> n < |cs[k].contextRefs| && cs[k].contextRefs[n].None?)
      && ShowsPlaced(if k < |cs| then cs[k].rows else [], c, cs'[k], n)
  }

  /** A context of the new model that is shown already: its messages placed
      into the context `x` of the same name. */
  method MergeContext(ms: seq<DataModel>, n: nat, i: nat, cs: seq<MultiContextItem>, x: nat,
                      numMessages: int, numFinished: int, numEditable: int)
    returns (cs': seq<MultiContextItem>, numMessages': int)
    requires Appending(ms, n, i, cs, numMessages, numFinished, numEditable) && i < |ms[n].contexts|
    requires x < |cs| && cs[x].context == ms[n].contexts[i].context
    ensures Appending(ms, n, i + 1, cs', numMessages', numFinished, numEditable)
    ensures |cs| == |cs'| && forall k | 0 <= k < |cs| :: Extends(cs[k], cs'[k], n)
    ensures forall k | 0 <= k < |cs| && k != x :: cs'[k] == cs[k]
    ensures cs[x].contextRefs[n].None? && cs'[x].contextRefs[n] == Some(i)
    ensures ShowsPlaced(cs[x].rows, ms[n].contexts[i], cs'[x], n)
    ensures Grew(cs, cs', n) && OnlyNewlyPointed(cs, cs', n) && NewlyShown(cs, cs', n, i, ms[n].contexts[i])
  {
    var c := ms[n].contexts[i];
    PlaceStart(ms, n, i, cs, x, numMessages, numFinished, numEditable);
    var mc1 := cs[x].AssignLastModel(i);
    var mc, cells, items := PlaceMessages(ms, n, i, mc1);
    PlacedShows(n, c, mc1, mc, cells, items);
    PlacedKeeps(ms, n, i, cs, x, mc, cells, items, numMessages, numFinished, numEditable);
    ExtendsPlaced(n, c, cs[x], i, mc, |c.messages|, cells, items);
    OthersExtend(ms, cs, x, PlacedContext(mc, cells, items), n);
    cs' := cs[x := PlacedContext(mc, cells, items)];
    numMessages' := numMessages + |items|;
    MergedPointers(ms, cs, cs', n, x, i, c);
  }

  /** Merging into context `x` points it, and only it, into model `n`. */
  lemma MergedPointers(ms: seq<DataModel>, cs: seq<MultiContextItem>, cs': seq<MultiContextItem>,
                       n: nat, x: nat, i: nat, c: ContextItem)
    requires |cs| == |cs'| && x < |cs| && n + 1 == |ms|
    requires forall k | 0 <= k < |cs| :: cs[k].Linked(ms) && Extends(cs[k], cs'[k], n)
    requires forall k | 0 <= k < |cs| && k != x :: cs'[k] == cs[k]
    requires n < |cs[x].contextRefs| && n < |cs'[x].contextRefs| && cs[x].contextRefs[n].None? && cs'[x].contextRefs[n] == Some(i)
    requires ShowsPlaced(cs[x].rows, c, cs'[x], n)
    ensures Grew(cs, cs', n) && OnlyNewlyPointed(cs, cs', n) && NewlyShown(cs, cs', n, i, c)
  {
    assert forall k | 0 <= k < |cs'| :: n < |cs'[k].contextRefs| by {
      forall k | 0 <= k < |cs'| ensures n < |cs'[k].contextRefs| {
        if k != x { assert cs'[k] == cs[k]; }
      }
    }
  }

  /** Contexts other than `x` extend themselves. */
  lemma OthersExtend(ms: seq<DataModel>, cs: seq<MultiContextItem>, x: nat, mc: MultiContextItem, n: nat)
    requires x < |cs| && n + 1 == |ms| && forall k | 0 <= k < |cs| :: cs[k].Linked(ms)
    requires Extends(cs[x], mc, n)
    ensures forall k | 0 <= k < |cs| :: Extends(cs[k], cs[x := mc][k], n)
  {
    forall k | 0 <= k < |cs| && k != x ensures Extends(cs[k], cs[k], n) {
      ExtendsSelf(cs[k], n, n + 1);
    }
  }

  /** A context first seen in model `n` is appended with a pointer into it,
      showing all its messages as new rows. */
  lemma NewContextAppended(ms: seq<DataModel>, n: nat, i: nat, cs: seq<MultiContextItem>)
    requires n + 1 == |ms| && i < |ms[n].contexts| && forall k | 0 <= k < |cs| :: cs[k].Linked(ms)
    ensures var cs' := cs + [NewMultiContext(n, ms[n].contexts[i], i)];
      Grew(cs, cs', n) && OnlyNewlyPointed(cs, cs', n) && NewlyShown(cs, cs', n, i, ms[n].contexts[i])
  {
    var c := ms[n].contexts[i];
    var cs' := cs + [NewMultiContext(n, c, i)];
    forall k | 0 <= k < |cs| ensures Extends(cs[k], cs'[k], n) {
      ExtendsSelf(cs[k], n, n + 1);
    }
    NewContextShows(n, c, i);
    assert cs'[|cs|] == NewMultiContext(n, c, i);
  }

  /** Freshness survives growth. */
  lemma FreshExtends(mc: MultiContextItem, mc': MultiContextItem, cols: nat)
    requires FreshFor(mc, cols) && Extends(mc, mc', cols)
    ensures FreshFor(mc', cols)
  {
    forall x | 0 <= x < cols ensures mc'.messageLists[x] == Nulls(|mc'.rows|) {
      var col := mc'.messageLists[x];
      assert forall r | 0 <= r < |col| :: col[r] == None;
    }
  }

  /** Some context of `cs` points at context `i` of model `n`, whose
      messages are `c`, and shows them placed on the rows it had in `cs0`
      (none, when it is new). */
  ghost predicate Shown(cs0: seq<MultiContextItem>, cs: seq<MultiContextItem>, n: nat, i: nat, c: ContextItem) {
    exists k | 0 <= k < |cs| ::
      && n < |cs[k].contextRefs| && cs[k].contextRefs[n] == Some(i)
      && ShowsPlaced(if k < |cs0| then cs0[k].rows else [], c, cs[k], n)
  }

  /** The loop invariant of append carried over one more context: what the
      earlier models see. */
  lemma AppendedSoFar(cs0: seq<MultiContextItem>, cs: seq<MultiContextItem>, cs2: seq<MultiContextItem>, n: nat)
    requires Grew(cs0, cs, n) && Grew(cs, cs2, n)
    ensures Grew(cs0, cs2, n)
  {
    forall k | 0 <= k < |cs0| ensures Extends(cs0[k], cs2[k], n) {
      ExtendsTrans(cs0[k], cs[k], cs2[k], n);
    }
    forall k | |cs0| <= k < |cs| ensures FreshFor(cs2[k], n) {
      FreshExtends(cs[k], cs2[k], n);
    }
  }

  /** The contexts without a pointer into model `n` are old ones, with the
      rows they had. */
  predicate Untouched(cs0: seq<MultiContextItem>, cs: seq<MultiContextItem>, n: nat) {
    forall k | 0 <= k < |cs| && n < |cs[k].contextRefs| && cs[k].contextRefs[n].None? ::
      k < |cs0| && cs[k].rows == cs0[k].rows
  }

  /** The contexts without a pointer into model `n` are old ones whose rows
      are, counters aside, the rows they had: append creates no other
      context and adds rows to no other context. */
  predicate UntouchedLayout(cs0: seq<MultiContextItem>, cs: seq<MultiContextItem>, n: nat) {
    forall k | 0 <= k < |cs| :: UntouchedAt(cs0, cs, n, k)
  }

  /** Context `k` of `cs`, if it has no pointer into model `n`, is context
      `k` of `cs0` with the same rows, counters aside. */
  predicate UntouchedAt(cs0: seq<MultiContextItem>, cs: seq<MultiContextItem>, n: nat, k: nat)
    requires k < |cs|
  {
    n < |cs[k].contextRefs| && cs[k].contextRefs[n].None? ==>
      k < |cs0| && RowIdents(cs[k].rows) == RowIdents(cs0[k].rows)
  }

  /** The rows with their counters zeroed. */
  function RowIdents(rows: seq<MultiMessageItem>): (r: seq<MultiMessageItem>)
    ensures |r| == |rows|
  {
    if rows == [] then [] else [rows[0].Ident()] + RowIdents(rows[1..])
  }

  lemma {:induction false} RowIdentsAt(rows: seq<MultiMessageItem>)
    ensures forall j | 0 <= j < |rows| :: RowIdents(rows)[j] == rows[j].Ident()
  {
    if rows != [] {
      RowIdentsAt(rows[1..]);
      forall j | 0 <= j < |rows|
        ensures RowIdents(rows)[j] == rows[j].Ident()
      {
        if j > 0 {
          assert RowIdents(rows)[j] == RowIdents(rows[1..])[j - 1];
        }
      }
    }
  }

  /** The rows of a context's layout are its rows with their counters zeroed. */
  lemma RowIdentsLayout(mc: MultiContextItem)
    ensures RowIdents(mc.rows) == mc.Layout().rows
  {
    RowIdentsAt(mc.rows);
    var ls := mc.Layout().rows;
    assert |ls| == |mc.rows| && forall j | 0 <= j < |ls| :: ls[j] == mc.rows[j].Ident();
  }

  /** Recounting keeps the frame of append. */
  lemma UntouchedRecounted(cs0: seq<MultiContextItem>, cs: seq<MultiContextItem>, cs2: seq<MultiContextItem>, n: nat)
    requires Untouched(cs0, cs, n) && SameLayout(cs, cs2)
    ensures UntouchedLayout(cs0, cs2, n)
  {
    forall k | 0 <= k < |cs2|
      ensures UntouchedAt(cs0, cs2, n, k)
    {
      assert cs2[k].Layout() == cs[k].Layout();
      assert cs[k].contextRefs == cs2[k].Layout().contextRefs;
      RowIdentsLayout(cs2[k]);
      RowIdentsLayout(cs[k]);
    }
  }

  /** The loop invariant of append carried over one more context: what the
      new model sees. */
  lemma ShownSoFar(cs0: seq<MultiContextItem>, cs: seq<MultiContextItem>, cs2: seq<MultiContextItem>,
                   n: nat, ctxs: seq<ContextItem>, i: nat)
    requires |cs0| <= |cs| && i < |ctxs| && OnlyNewlyPointed(cs, cs2, n)
    requires Untouched(cs0, cs, n)
    requires forall i' | 0 <= i' < i :: Shown(cs0, cs, n, i', ctxs[i'])
    requires NewlyShown(cs, cs2, n, i, ctxs[i])
    ensures Untouched(cs0, cs2, n)
    ensures forall i' | 0 <= i' < i + 1 :: Shown(cs0, cs2, n, i', ctxs[i'])
  {
    forall i' | 0 <= i' < i ensures Shown(cs0, cs2, n, i', ctxs[i']) {
      ShownKept(cs0, cs, cs2, n, i', ctxs[i']);
    }
    ShownNew(cs0, cs, cs2, n, i, ctxs[i]);
  }

  lemma ShownKept(cs0: seq<MultiContextItem>, cs: seq<MultiContextItem>, cs2: seq<MultiContextItem>,
                  n: nat, i: nat, c: ContextItem)
    requires OnlyNewlyPointed(cs, cs2, n)
    requires Shown(cs0, cs, n, i, c)
    ensures Shown(cs0, cs2, n, i, c)
  {
    var k :| 0 <= k < |cs| && n < |cs[k].contextRefs| && cs[k].contextRefs[n] == Some(i)
             && ShowsPlaced(if k < |cs0| then cs0[k].rows else [], c, cs[k], n);
    assert cs2[k] == cs[k];
  }

  lemma ShownNew(cs0: seq<MultiContextItem>, cs: seq<MultiContextItem>, cs2: seq<MultiContextItem>,
                 n: nat, i: nat, c: ContextItem)
    requires |cs0| <= |cs| && OnlyNewlyPointed(cs, cs2, n)
    requires Untouched(cs0, cs, n)
    requires NewlyShown(cs, cs2, n, i, c)
    ensures Untouched(cs0, cs2, n)
    ensures Shown(cs0, cs2, n, i, c)
  {
    var k :| 0 <= k < |cs2| && n < |cs2[k].contextRefs| && cs2[k].contextRefs[n] == Some(i)
             && (k < |cs| ==> n < |cs[k].contextRefs| && cs[k].contextRefs[n].None?)
             && ShowsPlaced(if k < |cs| then cs[k].rows else [], c, cs2[k], n);
    var rows := if k < |cs| then cs[k].rows else [];
    assert rows == if k < |cs0| then cs0[k].rows else [];
    assert Shown(cs0, cs2, n, i, c);
    forall k' | 0 <= k' < |cs2| && cs2[k'].contextRefs[n].None? ensures k' < |cs0| && cs2[k'].rows == cs0[k'].rows {
      assert cs2[k'] == cs[k'];
    }
  }

  /** Recounting changes none of what append keeps. */
  lemma AppendedRecounted(cs0: seq<MultiContextItem>, cs: seq<MultiContextItem>, cs2: seq<MultiContextItem>,
                          n: nat, ctxs: seq<ContextItem>, count: nat)
    requires |cs0| <= |cs| && SameLayout(cs, cs2)
    requires forall k | 0 <= k < |cs0| :: Extends(cs0[k], cs[k], n)
    requires forall k | |cs0| <= k < |cs| :: FreshFor(cs[k], n)
    requires count <= |ctxs| && forall i' | 0 <= i' < count :: Shown(cs0, cs, n, i', ctxs[i'])
    ensures forall k | 0 <= k < |cs0| :: Extends(cs0[k], cs2[k], n)
    ensures forall k | |cs0| <= k < |cs2| :: FreshFor(cs2[k], n)
    ensures forall i' | 0 <= i' < count :: Shown(cs0, cs2, n, i', ctxs[i'])
  {
    forall k | 0 <= k < |cs0| ensures Extends(cs0[k], cs2[k], n) {
      ExtendsRecounted(cs0[k], cs[k], cs2[k], n);
    }
    forall k | |cs0| <= k < |cs2| ensures FreshFor(cs2[k], n) {
      assert cs2[k].Layout() == cs[k].Layout();
      assert |cs2[k].rows| == |cs2[k].Layout().rows| == |cs[k].rows|;
    }
    forall i' | 0 <= i' < count ensures Shown(cs0, cs2, n, i', ctxs[i']) {
      var k :| 0 <= k < |cs| && n < |cs[k].contextRefs| && cs[k].contextRefs[n] == Some(i')
               && ShowsPlaced(if k < |cs0| then cs0[k].rows else [], ctxs[i'], cs[k], n);
      assert cs2[k].Layout() == cs[k].Layout();
      assert cs2[k].contextRefs == cs2[k].Layout().contextRefs;
      ShowsPlacedLayout(if k < |cs0| then cs0[k].rows else [], ctxs[i'], cs[k], cs2[k], n);
    }
  }

  /** The loop of append over the contexts of the new model `n`. */
  method AppendContexts(ms: seq<DataModel>, n: nat, cs0: seq<MultiContextItem>, cs: seq<MultiContextItem>,
                        numMessages: int, numFinished: int, numEditable: int)
    returns (cs': seq<MultiContextItem>, numMessages': int)
    requires Appending(ms, n, 0, cs, numMessages, numFinished, numEditable)
    requires |cs0| == |cs| && forall k | 0 <= k < |cs0| :: Extends(cs0[k], cs[k], n) && cs[k].rows == cs0[k].rows
    ensures Appending(ms, n, |ms[n].contexts|, cs', numMessages', numFinished, numEditable)
    ensures |cs0| <= |cs'| && forall k | 0 <= k < |cs0| :: Extends(cs0[k], cs'[k], n)
    ensures forall k | |cs0| <= k < |cs'| :: FreshFor(cs'[k], n)
    ensures forall i | 0 <= i < |ms[n].contexts| :: Shown(cs0, cs', n, i, ms[n].contexts[i])
    ensures Untouched(cs0, cs', n)
  {
    cs', numMessages' := cs, numMessages;
    for i := 0 to |ms[n].contexts|
      invariant Appending(ms, n, i, cs', numMessages', numFinished, numEditable)
      invariant Grew(cs0, cs', n)
      invariant Untouched(cs0, cs', n)
      invariant forall i' | 0 <= i' < i :: Shown(cs0, cs', n, i', ms[n].contexts[i'])
    {
      var cs2, nm2 := AppendContext(ms, n, i, cs', numMessages', numFinished, numEditable);
      AppendedSoFar(cs0, cs', cs2, n);
      ShownSoFar(cs0, cs', cs2, n, ms[n].contexts, i);
      cs', numMessages' := cs2, nm2;
    }
  }

  /** append: the new model `dm`, writable or not, becomes the last column;
      every context keeps its rows and cells and gains only rows the earlier
      models do not hold, new contexts are held by no earlier model, every
      context of `dm` gets a pointer, a context without one keeps its rows
      and no other context appears, and all counters count all models. */
  method AppendModel(models: seq<DataModel>, cs: seq<MultiContextItem>, dm: DataModel, readWrite: bool,
                     numMessages: int, numFinished: int, numEditable: int)
    returns (ms: seq<DataModel>, cs': seq<MultiContextItem>, numMessages': int, numFinished': int, numEditable': int)
    requires Consistent(models, cs, -1, numMessages, numFinished, numEditable) && dm.Wellformed()
    ensures ms == models + [dm.(writable := readWrite)]
    ensures Consistent(ms, cs', -1, numMessages', numFinished', numEditable')
    ensures |cs| <= |cs'| && forall k {:trigger Extends(cs[k], cs'[k], |models|)} | 0 <= k < |cs| :: Extends(cs[k], cs'[k], |models|)
    ensures forall k {:trigger FreshFor(cs'[k], |models|)} | |cs| <= k < |cs'| :: FreshFor(cs'[k], |models|)
    ensures forall i {:trigger Shown(cs, cs', |models|, i, dm.contexts[i])} | 0 <= i < |dm.contexts| :: Shown(cs, cs', |models|, i, dm.contexts[i])
    ensures UntouchedLayout(cs, cs', |models|)
  {
    var n := |models|;
    ms := models + [dm.(writable := readWrite)];
    AllEmptyModelKeeps(models, cs, ms[n], numMessages, numFinished, numEditable);
    var cs1 := WithEmptyModel(cs);
    forall k | 0 <= k < |cs| ensures Extends(cs[k], cs1[k], n) && cs1[k].rows == cs[k].rows {
      ExtendsEmptyModel(cs[k], n);
    }
    var cs2;
    cs2, numMessages' := AppendContexts(ms, n, cs, cs1, numMessages, numFinished, numEditable);
    cs', numFinished', numEditable' := CountModelIn(ms, cs2, n, readWrite, numMessages', numFinished, numEditable);
    AppendedRecounted(cs, cs2, cs', n, dm.contexts, |dm.contexts|);
    UntouchedRecounted(cs, cs2, cs', n);
  }
}
