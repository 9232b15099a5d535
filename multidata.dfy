/** MultiDataModel: the models open side by side, as one object whose
    methods update its lists and counters in place. The value-level work is
    done by MultiAppend, MultiClose and MultiEdit; this class keeps the
    fields and the invariant that ties them together. */
module MultiData {
  import opened Wrappers
  import opened Text
  import opened DataModel
  import opened MultiContext
  import opened MultiState
  import MultiAppend
  import MultiClose
  import MultiEdit

  /** isModified: some open model has unsaved changes. */
  predicate AnyModified(models: seq<DataModel>) {
    exists i | 0 <= i < |models| :: models[i].modified
  }

  // ---------------------------------------------------------------------
  // isWellMergeable against the open models

  /** `k` is the first context of `cs` named `name` (findContext). */
  predicate FirstMulti(cs: seq<MultiContextItem>, k: int, name: UString) {
    0 <= k < |cs| && cs[k].context == name && forall i | 0 <= i < k :: cs[i].context != name
  }

  /** A row of `mc` shows `text` with `comment`. */
  predicate HasRow(mc: MultiContextItem, text: UString, comment: UString) {
    exists j | 0 <= j < |mc.rows| :: mc.rows[j].text == text && mc.rows[j].comment == comment
  }

  /** The first context of `cs` named `name` has a row showing `text` with
      `comment`. */
  predicate InMulti(cs: seq<MultiContextItem>, name: UString, text: UString, comment: UString) {
    exists k | 0 <= k < |cs| :: FirstMulti(cs, k, name) && HasRow(cs[k], text, comment)
  }

  /** How many of the messages `ms` of context `name` the open models hold. */
  function NewHitsIn(cs: seq<MultiContextItem>, ms: seq<MessageItem>, name: UString): (n: nat)
    ensures n <= |ms|
  {
    if ms == [] then 0
    else
      var m := ms[|ms| - 1];
      NewHitsIn(cs, ms[..|ms| - 1], name) + Ind(InMulti(cs, name, m.Text(), m.Comment()))
  }

  /** How many messages of the contexts `dcs` of the new model the open
      models hold. */
  function NewHits(cs: seq<MultiContextItem>, dcs: seq<ContextItem>): (n: nat)
    ensures n <= TotalMessages(dcs)
  {
    if dcs == [] then 0
    else NewHits(cs, dcs[..|dcs| - 1]) + NewHitsIn(cs, dcs[|dcs| - 1].messages, dcs[|dcs| - 1].context)
  }

  /** How many of the rows of context `name` the new model `dm` holds. */
  function OldHitsIn(dm: DataModel, rows: seq<MultiMessageItem>, name: UString): (n: nat)
    ensures n <= |rows|
  {
    if rows == [] then 0
    else
      var mm := rows[|rows| - 1];
      OldHitsIn(dm, rows[..|rows| - 1], name) + Ind(Found(dm, name, mm.text, mm.comment))
  }

  /** How many rows of the open contexts `cs` the new model `dm` holds. */
  function OldHits(dm: DataModel, cs: seq<MultiContextItem>): (n: nat)
    ensures n <= SumOf(cs, RowsField)
  {
    if cs == [] then 0
    else OldHits(dm, cs[..|cs| - 1]) + OldHitsIn(dm, cs[|cs| - 1].rows, cs[|cs| - 1].context)
  }

  /** MultiDataModel::isWellMergeable: a new model merges well when it or
      the open models are empty, or when the percentage of its messages
      already open plus the percentage of the open rows it holds exceeds 90.
      Both counts are never negative in a consistent state, so the division
      truncates as C++ integer division does. */
  predicate MultiWellMergeable(dm: DataModel, cs: seq<MultiContextItem>, numMessages: int) {
    dm.numMessages == 0 || numMessages == 0
    || NewHits(cs, dm.contexts) * 100 / dm.numMessages + OldHits(dm, cs) * 100 / numMessages > 90
  }

  /** There is only one first context of a name. */
  lemma FirstMultiUnique(cs: seq<MultiContextItem>, k: int, name: UString)
    requires FirstMulti(cs, k, name)
    ensures forall k' | FirstMulti(cs, k', name) :: k' == k
  {
  }

  /** With no open context of that name, none of the messages is held. */
  lemma {:induction false} NoMultiNoHits(cs: seq<MultiContextItem>, ms: seq<MessageItem>, name: UString)
    requires forall k | 0 <= k < |cs| :: cs[k].context != name
    ensures NewHitsIn(cs, ms, name) == 0
  {
    if ms != [] {
      NoMultiNoHits(cs, ms[..|ms| - 1], name);
    }
  }

  /** With no context of that name in `dm`, none of the rows is held. */
  lemma {:induction false} NoContextNoOldHits(dm: DataModel, rows: seq<MultiMessageItem>, name: UString)
    requires forall i | 0 <= i < |dm.contexts| :: dm.contexts[i].context != name
    ensures OldHitsIn(dm, rows, name) == 0
  {
    if rows != [] {
      NoContextNoOldHits(dm, rows[..|rows| - 1], name);
    }
  }

  /** A sum of row counts is never negative. */
  lemma {:induction false} RowsNonnegative(cs: seq<MultiContextItem>)
    ensures SumOf(cs, RowsField) >= 0
  {
    if cs != [] {
      RowsNonnegative(cs[..|cs| - 1]);
    }
  }

  /** Both ratios of isWellMergeable are percentages. */
  lemma MergeRatiosArePercentages(dm: DataModel, cs: seq<MultiContextItem>, numMessages: int)
    requires dm.Wellformed() && dm.numMessages > 0 && numMessages == SumOf(cs, RowsField) && numMessages > 0
    ensures 0 <= NewHits(cs, dm.contexts) * 100 / dm.numMessages <= 100
    ensures 0 <= OldHits(dm, cs) * 100 / numMessages <= 100
  {
    Percent(NewHits(cs, dm.contexts), dm.numMessages);
    Percent(OldHits(dm, cs), numMessages);
  }

  /** A model all of whose messages are already open merges well, whatever
      share of the open rows it holds. */
  lemma AllPresentMergesWell(dm: DataModel, cs: seq<MultiContextItem>, numMessages: int)
    requires dm.Wellformed() && numMessages == SumOf(cs, RowsField)
    requires NewHits(cs, dm.contexts) == dm.numMessages
    ensures MultiWellMergeable(dm, cs, numMessages)
  {
    if dm.numMessages > 0 && numMessages != 0 {
      RowsNonnegative(cs);
      Percent(NewHits(cs, dm.contexts), dm.numMessages);
      Percent(OldHits(dm, cs), numMessages);
    }
  }

  /** Counting the messages of one context of the new model. */
  method CountNewIn(cs: seq<MultiContextItem>, c: ContextItem) returns (hits: nat)
    ensures hits == NewHitsIn(cs, c.messages, c.context)
  {
    hits := 0;
    var mcx := MultiAppend.FindContextIndex(cs, c.context);
    if mcx.None? {
      NoMultiNoHits(cs, c.messages, c.context);
      return;
    }
    var k := mcx.value;
    assert FirstMulti(cs, k, c.context);
    FirstMultiUnique(cs, k, c.context);
    for j := 0 to |c.messages|
      invariant hits == NewHitsIn(cs, c.messages[..j], c.context)
    {
      var m := c.messages[j];
      assert c.messages[..j + 1][..j] == c.messages[..j];
      var found := cs[k].FindMessage(m.Text(), m.Comment());
      if found.Some? {
        hits := hits + 1;
      }
    }
    assert c.messages[..|c.messages|] == c.messages;
  }

  /** Counting the rows of one open context. */
  method CountOldIn(dm: DataModel, mc: MultiContextItem) returns (hits: nat)
    ensures hits == OldHitsIn(dm, mc.rows, mc.context)
  {
    hits := 0;
    var ci := FindContext(dm, mc.context);
    if ci.None? {
      NoContextNoOldHits(dm, mc.rows, mc.context);
      return;
    }
    var i := ci.value;
    FirstNamedUnique(dm.contexts, i, mc.context);
    for j := 0 to |mc.rows|
      invariant hits == OldHitsIn(dm, mc.rows[..j], mc.context)
    {
      var mm := mc.rows[j];
      assert mc.rows[..j + 1][..j] == mc.rows[..j];
      var found := FindMessageIn(dm.contexts[i], mm.text, mm.comment);
      if found.Some? {
        hits := hits + 1;
      }
    }
    assert mc.rows[..|mc.rows|] == mc.rows;
  }

  /** The steps of setFinished on the state `s`: the message's type, the
      row's unfinished count, and the finished counts of the context and the
      whole model when the row's last unfinished cell goes or its first
      comes back. */
  method SetFinishedOn(s: MultiEdit.Multi, x: MultiEdit.MultiDataIndex, finished: bool) returns (r: MultiEdit.Multi)
    requires s.Holds(x)
    ensures r == MultiEdit.SetFinishedState(s, x, finished)
  {
    r := s;
    var mc := s.contexts[x.context];
    var mm := mc.rows[x.message];
    var ref, cell := s.Ref(x), s.Cell(x);
    var dm := s.models[x.model];
    var m := dm.contexts[ref].messages[cell];
    var dng := Ind(m.danger);
    if m.message.msgType == Unfinished && finished {
      mm := mm.(unfinishedCount := mm.unfinishedCount - 1);
      if mm.unfinishedCount == 0 {
        r := r.(numFinished := r.numFinished + 1);
        mc := mc.(finishedCount := mc.finishedCount + 1);
      }
      r := r.(models := s.models[x.model := MultiEdit.WithMessage(dm, ref, cell, MultiEdit.Retyped(m, true), 1, dng, -dng, true)],
              contexts := s.contexts[x.context := mc.(rows := mc.rows[x.message := mm])],
              modified := true);
    } else if m.message.msgType == Finished && !finished {
      mm := mm.(unfinishedCount := mm.unfinishedCount + 1);
      if mm.unfinishedCount == 1 {
        r := r.(numFinished := r.numFinished - 1);
        mc := mc.(finishedCount := mc.finishedCount - 1);
      }
      r := r.(models := s.models[x.model := MultiEdit.WithMessage(dm, ref, cell, MultiEdit.Retyped(m, false), -1, -dng, dng, true)],
              contexts := s.contexts[x.context := mc.(rows := mc.rows[x.message := mm])],
              modified := true);
    }
  }

  /** The steps of setDanger on the state `s`: the finished or unfinished
      danger count of the message's context, then the flag itself. */
  method SetDangerOn(s: MultiEdit.Multi, x: MultiEdit.MultiDataIndex, danger: bool) returns (r: MultiEdit.Multi)
    requires s.Holds(x)
    ensures r == MultiEdit.SetDangerState(s, x, danger)
  {
    r := s;
    var ref, cell := s.Ref(x), s.Cell(x);
    var dm := s.models[x.model];
    var c := dm.contexts[ref];
    var m := c.messages[cell];
    if m.danger != danger {
      var d := if danger then 1 else -1;
      if m.IsFinished() {
        c := c.(finishedDangerCount := c.finishedDangerCount + d);
      } else {
        c := c.(unfinishedDangerCount := c.unfinishedDangerCount + d);
      }
      c := c.(messages := c.messages[cell := m.(danger := danger)]);
      r := r.(models := s.models[x.model := dm.(contexts := dm.contexts[ref := c])]);
    }
  }

  /** The model-wide state: the open models, one MultiContextItem per
      context name, and the totals over them. */
  class MultiDataModel {
    var models: seq<DataModel>
    var contexts: seq<MultiContextItem>
    var numMessages: int
    var numFinished: int
    var numEditable: int
    var modified: bool

    /** The fields as a value. */
    function State(): MultiEdit.Multi
      reads this
    {
      MultiEdit.Multi(models, contexts, numMessages, numFinished, numEditable, modified)
    }

    /** Every pointer leads into its model and every counter counts all
        models. */
    ghost predicate Valid()
      reads this
    {
      State().Valid()
    }

    /** A MultiDataModel with no model open. */
    constructor()
      ensures Valid() && models == [] && contexts == []
      ensures numMessages == 0 && numFinished == 0 && numEditable == 0 && !modified
    {
      models, contexts := [], [];
      numMessages, numFinished, numEditable := 0, 0, 0;
      modified := false;
    }

    /** isModified: some open model has unsaved changes. */
    method IsModified() returns (r: bool)
      ensures r <==> AnyModified(models)
    {
      for i := 0 to |models|
        invariant forall k | 0 <= k < i :: !models[k].modified
      {
        if models[i].modified {
          return true;
        }
      }
      return false;
    }

    /** isWellMergeable(dm): counts the messages of `dm` the open models
        hold and the open rows `dm` holds. */
    method IsWellMergeable(dm: DataModel) returns (r: bool)
      ensures r == MultiWellMergeable(dm, contexts, numMessages)
    {
      if dm.numMessages == 0 || numMessages == 0 {
        return true;
      }
      var inBothNew := 0;
      for i := 0 to |dm.contexts|
        invariant inBothNew == NewHits(contexts, dm.contexts[..i])
      {
        assert dm.contexts[..i + 1][..i] == dm.contexts[..i];
        var hits := CountNewIn(contexts, dm.contexts[i]);
        inBothNew := inBothNew + hits;
      }
      assert dm.contexts[..|dm.contexts|] == dm.contexts;
      var newRatio := inBothNew * 100 / dm.numMessages;
      var inBothOld := 0;
      for k := 0 to |contexts|
        invariant inBothOld == OldHits(dm, contexts[..k])
      {
        assert contexts[..k + 1][..k] == contexts[..k];
        var hits := CountOldIn(dm, contexts[k]);
        inBothOld := inBothOld + hits;
      }
      assert contexts[..|contexts|] == contexts;
      var oldRatio := inBothOld * 100 / numMessages;
      return newRatio + oldRatio > 90;
    }

    /** append(dm, readWrite): `dm` becomes the last column; the earlier
        contexts keep their rows and cells, new contexts and rows are held by
        no earlier model, every context of `dm` gets a pointer and the
        counters count all models. The modified flag is not touched. */
    method Append(dm: DataModel, readWrite: bool)
      requires Valid() && dm.Wellformed()
      modifies this
      ensures Valid()
      ensures models == old(models) + [dm.(writable := readWrite)]
      ensures |old(contexts)| <= |contexts|
      ensures forall k | 0 <= k < |old(contexts)| :: MultiAppend.Extends(old(contexts)[k], contexts[k], |old(models)|)
      ensures forall k | |old(contexts)| <= k < |contexts| :: MultiAppend.FreshFor(contexts[k], |old(models)|)
      ensures forall i | 0 <= i < |dm.contexts| :: MultiAppend.Shown(old(contexts), contexts, |old(models)|, i, dm.contexts[i])
      ensures MultiAppend.UntouchedLayout(old(contexts), contexts, |old(models)|)
      ensures modified == old(modified)
    {
      models, contexts, numMessages, numFinished, numEditable :=
        MultiAppend.AppendModel(models, contexts, dm, readWrite, numMessages, numFinished, numEditable);
    }

    /** closeAll: no model open, every counter zero. */
    method CloseAll()
      modifies this
      ensures Valid() && models == [] && contexts == []
      ensures numMessages == 0 && numFinished == 0 && numEditable == 0 && !modified
    {
      numFinished, numEditable, numMessages := 0, 0, 0;
      models, contexts := [], [];
      modified := IsModified();
    }

    /** close(model): the last model closes everything; any other model
        loses its column, rows and contexts no model holds any more go, and
        the modified flag is recomputed over the remaining models. */
    method Close(model: nat)
      requires Valid() && model < |models|
      modifies this
      ensures Valid() && MultiClose.Pruned(contexts)
      ensures models == MultiClose.Delete(old(models), model)
      ensures |old(models)| == 1 ==> contexts == [] && numMessages == 0 && numFinished == 0 && numEditable == 0
      ensures forall k | 0 <= k < |old(contexts)| ::
                model < |old(contexts)[k].contextRefs| && model < |old(contexts)[k].messageLists|
      ensures MultiClose.Layouts(contexts) == MultiClose.Closed(MultiClose.DropModel(old(contexts), model))
      ensures modified <==> AnyModified(models)
    {
      if |models| == 1 {
        ghost var dropped := MultiClose.DropModel(contexts, model);
        forall k | 0 <= k < |dropped| ensures dropped[k].messageLists == [] {
          assert contexts[k].Shaped(1);
        }
        MultiClose.ClosedWithoutModels(dropped);
        CloseAll();
        assert |MultiClose.Delete(old(models), model)| == 0;
      } else {
        models, contexts, numMessages, numFinished, numEditable :=
          MultiClose.CloseModel(models, contexts, model, numMessages, numFinished, numEditable);
        modified := IsModified();
      }
    }

    /** setFinished(index, finished) on a writable model: the message's type
        and the row, context and model-wide counters, as SetFinishedState
        says. */
    method SetFinished(x: MultiEdit.MultiDataIndex, finished: bool)
      requires Valid() && State().Holds(x) && models[x.model].writable
      modifies this
      ensures State() == MultiEdit.SetFinishedState(old(State()), x, finished)
      ensures Valid()
    {
      ghost var s := State();
      var r := SetFinishedOn(State(), x, finished);
      models, contexts, numFinished, modified := r.models, r.contexts, r.numFinished, r.modified;
      MultiEdit.SetFinishedValid(s, x, finished);
    }

    /** setDanger(index, danger): the message's danger flag and its
        context's danger counters, as SetDangerState says. */
    method SetDanger(x: MultiEdit.MultiDataIndex, danger: bool)
      requires Valid() && State().Holds(x)
      modifies this
      ensures State() == MultiEdit.SetDangerState(old(State()), x, danger)
      ensures Valid()
    {
      ghost var s := State();
      var r := SetDangerOn(State(), x, danger);
      models := r.models;
      MultiEdit.SetDangerValid(s, x, danger);
    }
  }
}
