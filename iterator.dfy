/** DataModelIterator: a cursor (context, message) over the message items of
    one DataModel, context by context. */
module ModelIterator {
  import opened Wrappers
  import opened Text
  import opened DataModel

  /** What `messageItem(index)` returns at a position: the item, or nothing
      (a null pointer) when the position holds no item. */
  function ItemAt(cs: seq<ContextItem>, context: nat, message: nat): (r: Option<MessageItem>)
    ensures r.Some? <==> context < |cs| && message < |cs[context].messages|
    ensures r.Some? ==> r.value == cs[context].messages[message]
  {
    if context < |cs| && message < |cs[context].messages| then Some(cs[context].messages[message])
    else None
  }

  /** The items wrapped one by one. */
  function Somes(ms: seq<MessageItem>): (r: seq<Option<MessageItem>>)
    ensures |r| == |ms|
    ensures forall i | 0 <= i < |ms| :: r[i] == Some(ms[i])
  {
    seq(|ms|, i requires 0 <= i < |ms| => Some(ms[i]))
  }

  /** All message items, context after context. */
  function AllItems(cs: seq<ContextItem>): (r: seq<MessageItem>)
    ensures |r| == TotalMessages(cs)
  {
    if cs == [] then [] else AllItems(cs[..|cs| - 1]) + cs[|cs| - 1].messages
  }

  /** What a walk with `++` from (0, 0) sees at each valid position: the
      items of a context, or a single empty position for a context without
      items. */
  function Visited(cs: seq<ContextItem>): (r: seq<Option<MessageItem>>)
  {
    if cs == [] then []
    else
      var last := cs[|cs| - 1];
      Visited(cs[..|cs| - 1]) + (if last.messages == [] then [None] else Somes(last.messages))
  }

  predicate HasEmptyContext(cs: seq<ContextItem>) {
    exists k | 0 <= k < |cs| :: cs[k].messages == []
  }

  class Iterator {
    const contexts: seq<ContextItem>
    var context: nat
    var message: nat

    constructor (model: DataModel, context: nat, message: nat)
      ensures contexts == model.contexts
      ensures this.context == context && this.message == message
    {
      contexts := model.contexts;
      this.context := context;
      this.message := message;
    }

    /** isValid: the cursor is still inside the context list. */
    predicate IsValid()
      reads this
    {
      context < |contexts|
    }

    /** The item under the cursor (current()), or nothing. */
    function Current(): (r: Option<MessageItem>)
      reads this
      ensures r.Some? <==> IsValid() && message < |contexts[context].messages|
      ensures r.Some? ==> r.value == contexts[context].messages[message]
    {
      ItemAt(contexts, context, message)
    }

    /** operator++ as written: the next message, or the start of the next
        context once the message index reaches the current context's size. */
    method Advance()
      requires IsValid()
      modifies this
      ensures old(message) + 1 < |contexts[old(context)].messages| ==>
                context == old(context) && message == old(message) + 1
      ensures old(message) + 1 >= |contexts[old(context)].messages| ==>
                context == old(context) + 1 && message == 0
    {
      message := message + 1;
      if message >= |contexts[context].messages| {
        context := context + 1;
        message := 0;
      }
    }

    /** The cursor rests on an item whenever it is valid. */
    predicate Settled()
      reads this
    {
      IsValid() ==> message < |contexts[context].messages|
    }

    /** Moves a cursor at the start of a context past contexts without
        items. */
    method SkipEmpty()
      requires message == 0 && context <= |contexts|
      modifies this
      ensures message == 0 && old(context) <= context <= |contexts|
      ensures forall k | old(context) <= k < context :: contexts[k].messages == []
      ensures Settled()
    {
      while context < |contexts| && contexts[context].messages == []
        invariant message == 0 && old(context) <= context <= |contexts|
        invariant forall k | old(context) <= k < context :: contexts[k].messages == []
        decreases |contexts| - context
      {
        context := context + 1;
      }
    }

    /** operator++ as evidently intended: the next item in order, skipping
        contexts that hold none. */
    method Next()
      requires IsValid() && Settled()
      modifies this
      ensures Settled()
      ensures old(message) + 1 < |contexts[old(context)].messages| ==>
                context == old(context) && message == old(message) + 1
      ensures old(message) + 1 >= |contexts[old(context)].messages| ==>
                && old(context) < context <= |contexts| && message == 0
                && forall k | old(context) < k < context :: contexts[k].messages == []
    {
      message := message + 1;
      if message >= |contexts[context].messages| {
        context := context + 1;
        message := 0;
        SkipEmpty();
      }
    }
  }

  lemma VisitedStep(cs: seq<ContextItem>, k: nat)
    requires k < |cs|
    ensures Visited(cs[..k + 1])
         == Visited(cs[..k]) + (if cs[k].messages == [] then [None] else Somes(cs[k].messages))
  {
    assert cs[..k + 1][..k] == cs[..k];
  }

  lemma AllItemsStep(cs: seq<ContextItem>, k: nat)
    requires k < |cs|
    ensures AllItems(cs[..k + 1]) == AllItems(cs[..k]) + cs[k].messages
  {
    assert cs[..k + 1][..k] == cs[..k];
  }

  /** Contexts without items add nothing to the items. */
  lemma {:induction false} AllItemsSkip(cs: seq<ContextItem>, a: nat, b: nat)
    requires a <= b <= |cs|
    requires forall k | a <= k < b :: cs[k].messages == []
    ensures AllItems(cs[..b]) == AllItems(cs[..a])
    decreases b - a
  {
    if a < b {
      AllItemsSkip(cs, a, b - 1);
      AllItemsStep(cs, b - 1);
    }
  }

  /** The state of an as-written walk at (c, m): `items` holds what it has
      seen before that position. */
  ghost predicate WalkedTo(cs: seq<ContextItem>, c: nat, m: nat, items: seq<Option<MessageItem>>) {
    && c <= |cs|
    && (c < |cs| ==> m == 0 || m < |cs[c].messages|)
    && (c < |cs| ==> items == Visited(cs[..c]) + Somes(cs[c].messages[..m]))
    && (c == |cs| ==> items == Visited(cs))
  }

  /** One as-written step inside a context. */
  lemma WalkWithin(cs: seq<ContextItem>, c: nat, m: nat, items: seq<Option<MessageItem>>)
    requires c < |cs| && WalkedTo(cs, c, m, items) && m + 1 < |cs[c].messages|
    ensures WalkedTo(cs, c, m + 1, items + [ItemAt(cs, c, m)])
  {
    var ms := cs[c].messages;
    assert ms[..m + 1] == ms[..m] + [ms[m]];
  }

  /** One as-written step that leaves a context. */
  lemma WalkOut(cs: seq<ContextItem>, c: nat, m: nat, items: seq<Option<MessageItem>>)
    requires c < |cs| && WalkedTo(cs, c, m, items) && m + 1 >= |cs[c].messages|
    ensures WalkedTo(cs, c + 1, 0, items + [ItemAt(cs, c, m)])
  {
    var ms := cs[c].messages;
    VisitedStep(cs, c);
    if ms != [] {
      assert ms[..m + 1] == ms;
    }
    if c + 1 == |cs| {
      assert cs[..c + 1] == cs;
    }
  }

  /** A walk with the as-written `++`, as DataModel::save and
      updateStatistics run it, collecting what current() returns. */
  method Walk(model: DataModel) returns (items: seq<Option<MessageItem>>)
    ensures items == Visited(model.contexts)
  {
    var cs := model.contexts;
    var it := new Iterator(model, 0, 0);
    items := [];
    while it.IsValid()
      invariant it.contexts == cs && WalkedTo(cs, it.context, it.message, items)
      decreases |cs| - it.context, if it.context < |cs| then |cs[it.context].messages| - it.message else 0
    {
      if it.message + 1 < |cs[it.context].messages| {
        WalkWithin(cs, it.context, it.message, items);
      } else {
        WalkOut(cs, it.context, it.message, items);
      }
      items := items + [it.Current()];
      it.Advance();
    }
  }

  /** The state of a corrected walk at (c, m). */
  ghost predicate ItemsTo(cs: seq<ContextItem>, c: nat, m: nat, items: seq<MessageItem>) {
    && c <= |cs|
    && (c < |cs| ==> m < |cs[c].messages| && items == AllItems(cs[..c]) + cs[c].messages[..m])
    && (c == |cs| ==> items == AllItems(cs))
  }

  lemma ItemsStep(cs: seq<ContextItem>, c: nat, m: nat, items: seq<MessageItem>, c': nat)
    requires c < |cs| && ItemsTo(cs, c, m, items)
    requires m + 1 >= |cs[c].messages| ==> c < c' <= |cs|
    requires m + 1 >= |cs[c].messages| ==> forall k | c < k < c' :: cs[k].messages == []
    requires c' < |cs| ==> cs[c'].messages != []
    ensures m + 1 < |cs[c].messages| ==> ItemsTo(cs, c, m + 1, items + [cs[c].messages[m]])
    ensures m + 1 >= |cs[c].messages| ==> ItemsTo(cs, c', 0, items + [cs[c].messages[m]])
  {
    var ms := cs[c].messages;
    assert ms[..m + 1] == ms[..m] + [ms[m]];
    if m + 1 >= |ms| {
      assert ms[..m + 1] == ms;
      AllItemsStep(cs, c);
      AllItemsSkip(cs, c + 1, c');
      if c' == |cs| {
        assert cs[..c'] == cs;
      }
    }
  }

  /** A walk with the corrected `++`: it yields every item exactly once, in
      order, and as many as the model counts. */
  method WalkItems(model: DataModel) returns (items: seq<MessageItem>)
    ensures items == AllItems(model.contexts)
    ensures model.Wellformed() ==> |items| == model.numMessages
  {
    var cs := model.contexts;
    var it := new Iterator(model, 0, 0);
    it.SkipEmpty();
    AllItemsSkip(cs, 0, it.context);
    if it.context == |cs| {
      assert cs[..it.context] == cs;
    }
    items := [];
    while it.IsValid()
      invariant it.contexts == cs && it.Settled() && ItemsTo(cs, it.context, it.message, items)
      decreases |cs| - it.context, if it.context < |cs| then |cs[it.context].messages| - it.message else 0
    {
      var c, m := it.context, it.message;
      var cur := it.Current();
      it.Next();
      ItemsStep(cs, c, m, items, it.context);
      items := items + [cur.value];
    }
  }

  /** The as-written walk meets an empty position exactly when some context
      holds no items. */
  lemma {:induction false} VisitedHasNull(cs: seq<ContextItem>)
    ensures None in Visited(cs) <==> HasEmptyContext(cs)
  {
    if cs != [] {
      var init, last := cs[..|cs| - 1], cs[|cs| - 1];
      VisitedHasNull(init);
      if HasEmptyContext(init) {
        var k :| 0 <= k < |init| && init[k].messages == [];
        assert cs[k] == init[k];
      }
      if HasEmptyContext(cs) && !HasEmptyContext(init) {
        assert last.messages == [];
      }
      if last.messages != [] {
        assert None !in Somes(last.messages);
      }
    }
  }

  /** Without empty contexts the as-written walk sees exactly the items. */
  lemma {:induction false} VisitedIsItems(cs: seq<ContextItem>)
    requires !HasEmptyContext(cs)
    ensures Visited(cs) == Somes(AllItems(cs))
  {
    if cs != [] {
      var init := cs[..|cs| - 1];
      assert !HasEmptyContext(init) by {
        forall k | 0 <= k < |init| ensures init[k].messages != [] {
          assert init[k] == cs[k];
        }
      }
      VisitedIsItems(init);
    }
  }

  /** A .ts file holding only a context comment loads into a context without
      items, and the as-written walk then hands save() a null item. */
  lemma CommentOnlyContextWalk(ctx: UString, comment: UString, m: TranslatorMessage)
    requires m.context == ctx && IsContextComment(m) && m.comment == comment
    ensures ContextNames([m]) == [ctx]
    ensures Expected([m], ctx).messages == []
    ensures Visited([Expected([m], ctx)]) == [None]
  {
    assert [m][..0] == [];
    assert Members([m], ctx) == Members([], ctx) == [];
    assert [Expected([m], ctx)][..0] == [];
  }
}
