/** MessageModel: the two-level tree that the side-by-side view shows over a
    MultiDataModel (contexts at the top, their messages below them) and the
    sort keys of its cells. */
module MessageModel {
  import opened Wrappers
  import opened Text
  import opened DataModel
  import opened MultiContext
  import opened MultiEdit

  // ---------------------------------------------------------------------
  // Model indexes

  /** QModelIndex: row, column, the internal id, and whether the index was
      made by a model. The default index was made by none. */
  datatype ModelIndex = ModelIndex(row: int, column: int, internalId: nat, owned: bool)
  {
    predicate IsValid() { row >= 0 && column >= 0 && owned }

    /** A valid index of a context row (top level). */
    predicate IsContext() { IsValid() && internalId == 0 }

    /** A valid index of a message row; its internal id is its context's
        row plus one. */
    predicate IsMessage() { IsValid() && internalId != 0 }
  }

  /** QModelIndex(): row and column -1, no model. */
  const NoIndex: ModelIndex := ModelIndex(-1, -1, 0, false)

  /** createIndex(row, column, id). */
  function CreateIndex(row: int, column: int, id: nat): (r: ModelIndex)
    ensures r.IsValid() <==> row >= 0 && column >= 0
  {
    ModelIndex(row, column, id, true)
  }

  /** index(row, column, parent): a context below the root, a message below a
      context, nothing below a message. */
  function Index(row: int, column: int, parent: ModelIndex): (r: ModelIndex)
    ensures r.IsValid() ==> r.row == row && r.column == column
    ensures r.IsMessage() ==> parent.IsContext() && r.internalId == parent.row + 1
    ensures r.IsContext() ==> !parent.IsValid()
    ensures parent.IsMessage() ==> !r.IsValid()
  {
    if !parent.IsValid() then CreateIndex(row, column, 0)
    else if parent.internalId == 0 then CreateIndex(row, column, parent.row + 1)
    else NoIndex
  }

  /** parent(index): the context row a message index points back to, in
      column 0; the root (an invalid index) for anything else. */
  function Parent(index: ModelIndex): (r: ModelIndex)
    ensures r.IsValid() <==> index.internalId != 0
    ensures r.IsValid() ==> r.IsContext() && r.column == 0
  {
    if index.internalId != 0 then CreateIndex(index.internalId - 1, 0, 0) else NoIndex
  }

  /** rowCount(parent): the contexts below the root, the messages of a
      context below it, none below a message. */
  function RowCount(s: Multi, parent: ModelIndex): (n: nat)
    requires parent.IsContext() ==> parent.row < |s.contexts|
    ensures !parent.IsValid() ==> n == |s.contexts|
    ensures parent.IsContext() ==> n == |s.contexts[parent.row].rows|
    ensures parent.IsMessage() ==> n == 0
  {
    if !parent.IsValid() then |s.contexts|
    else if parent.internalId == 0 then |s.contexts[parent.row].rows|
    else 0
  }

  /** columnCount(parent): one column per model plus the source text and the
      dummy column, and the top level also has a status column. */
  function ColumnCount(s: Multi, parent: ModelIndex): (n: nat)
    ensures n >= 2 && n - 2 == |s.models| + (if parent.IsValid() then 0 else 1)
  {
    if !parent.IsValid() then |s.models| + 3 else |s.models| + 2
  }

  /** A message made below a context row finds that row again as its parent
      (in column 0); so does every message below it. */
  lemma IndexParentRoundTrip(row: int, column: int, parent: ModelIndex)
    requires parent.IsContext()
    ensures Parent(Index(row, column, parent)) == CreateIndex(parent.row, 0, 0)
    ensures parent.column == 0 ==> Parent(Index(row, column, parent)) == parent
  {
  }

  /** The tree is two levels deep: a top-level index has the root as parent,
      and nothing has a grandparent. */
  lemma TreeDepthTwo(row: int, column: int, index: ModelIndex)
    ensures !Parent(Index(row, column, NoIndex)).IsValid()
    ensures !Parent(Parent(index)).IsValid()
  {
  }

  /** Below a message there are no rows and no valid indexes. */
  lemma MessagesAreLeaves(s: Multi, parent: ModelIndex, row: int, column: int)
    requires parent.IsMessage()
    ensures RowCount(s, parent) == 0
    ensures !Index(row, column, parent).IsValid()
  {
  }

  /** Every row that rowCount announces below a context can be reached with
      index() and leads back to that context. */
  lemma ChildrenReachable(s: Multi, parent: ModelIndex, row: int, column: int)
    requires parent.IsContext() && parent.column == 0 && parent.row < |s.contexts|
    requires 0 <= row < RowCount(s, parent) && 0 <= column < ColumnCount(s, parent)
    ensures Index(row, column, parent).IsMessage()
    ensures Parent(Index(row, column, parent)) == parent
    ensures row < |s.contexts[Index(row, column, parent).internalId - 1].rows|
  {
  }

  // ---------------------------------------------------------------------
  // Bits

  const INT_MAX: int := 0x7FFF_FFFF

  const BIT28: nat := 0x1000_0000
  const BIT29: nat := 0x2000_0000
  const BIT30: nat := 0x4000_0000

  /** x | bit, for a non-negative x and a single-bit value `bit`. */
  function SetBit(x: nat, bit: nat): nat
    requires bit >= 1
  {
    if (x / bit) % 2 == 1 then x else x + bit
  }

  /** Setting a bit keeps `x` below any multiple of twice the bit above it,
      and adds at most the bit. */
  lemma SetBitKeeps(x: nat, bit: nat)
    requires bit >= 1
    ensures x <= SetBit(x, bit) <= x + bit
    ensures forall top: nat | x < top && top % (2 * bit) == 0 :: SetBit(x, bit) < top
  {
    forall top: nat | x < top && top % (2 * bit) == 0 ensures SetBit(x, bit) < top {
      SetBitBelow(x, bit, top);
    }
  }

  /** One multiple of twice the bit above `x` stays above it once the bit is
      set. */
  lemma SetBitBelow(x: nat, bit: nat, top: nat)
    requires bit >= 1 && x < top && top % (2 * bit) == 0
    ensures SetBit(x, bit) < top
  {
    EvenMultiple(top, bit);
    QuotientBelow(x, bit, top);
    if (x / bit) % 2 == 0 {
      assert x / bit + 2 <= top / bit;
      MultipleAbove(x, bit, top);
    }
  }

  /** Below a multiple of `bit`, the quotient by `bit` is smaller too. */
  lemma QuotientBelow(x: nat, bit: nat, top: nat)
    requires bit >= 1 && x < top && top % bit == 0
    ensures x / bit < top / bit
  {
    var q, k := x / bit, top / bit;
    assert x == q * bit + x % bit;
    assert top == k * bit;
    if k < q {
      MulStep(k, q, bit);
    }
  }

  /** Two whole multiples of `bit` above `x`'s quotient leave room for one
      more `bit`. */
  lemma MultipleAbove(x: nat, bit: nat, top: nat)
    requires bit >= 1 && top % bit == 0 && x / bit + 2 <= top / bit
    ensures x + bit < top
  {
    var q, k := x / bit, top / bit;
    assert x == q * bit + x % bit && x % bit < bit;
    assert top == k * bit;
    MulStep(q + 1, k, bit);
    assert (q + 1) * bit == q * bit + bit;
  }

  /** A multiple of twice the bit is an even multiple of the bit. */
  lemma EvenMultiple(top: nat, bit: nat)
    requires bit >= 1 && top % (2 * bit) == 0
    ensures top % bit == 0 && (top / bit) % 2 == 0
  {
    var m := top / (2 * bit);
    assert top == m * (2 * bit);
    assert top == (2 * m) * bit + 0;
    DivUnique(top, bit, 2 * m, 0);
  }

  /** After setting it, the bit is set. */
  lemma SetBitSets(x: nat, bit: nat)
    requires bit >= 1
    ensures (SetBit(x, bit) / bit) % 2 == 1
  {
    if (x / bit) % 2 != 1 {
      var q, rr := x / bit, x % bit;
      assert x + bit == (q + 1) * bit + rr && 0 <= rr < bit;
      DivUnique(x + bit, bit, q + 1, rr);
    }
  }

  /** Division is fixed by quotient and remainder. */
  lemma DivUnique(x: nat, d: nat, q: nat, rr: nat)
    requires d >= 1 && x == q * d + rr && rr < d
    ensures x / d == q
  {
    var q0, r0 := x / d, x % d;
    assert x == q0 * d + r0 && 0 <= r0 < d;
    MulStep(q, q0, d);
    MulStep(q0, q, d);
  }

  /** A larger factor adds at least one more `d`. */
  lemma {:induction false} MulStep(a: nat, b: nat, d: nat)
    ensures a < b ==> a * d + d <= b * d
    decreases b
  {
    if a + 1 < b {
      MulStep(a, b - 1, d);
      assert b * d == (b - 1) * d + d;
    } else if a + 1 == b {
      assert b * d == a * d + d;
    }
  }

  /** Setting a bit above every bit of `x` adds it. */
  lemma SetBitAbove(x: nat, bit: nat)
    requires 1 <= bit && x < bit
    ensures SetBit(x, bit) == x + bit
  {
  }

  /** Setting bit 28 of a number whose bit 28 is clear and whose bits above
      it hold `m`: the bit is added. */
  lemma SetBit28Clear(b: nat, m: nat)
    requires b < BIT28 && m % 2 == 0
    ensures SetBit(b + m * BIT28, BIT28) == b + m * BIT28 + BIT28
  {
    assert (b + m * BIT28) / BIT28 == m by {
      assert m * BIT28 <= b + m * BIT28 < (m + 1) * BIT28;
    }
  }

  // ---------------------------------------------------------------------
  // Sort keys

  /** A QVariant sort key: empty, a string, or an int. */
  datatype SortKey = NoKey | TextKey(text: UString) | IntKey(value: int)

  function Bit(b: bool): nat { if b then 1 else 0 }

  /** The sort key of a present message cell: bit 0 "has a translation",
      bit 1 "no danger", bit 2 "finished" and bit 3 "obsolete" (an obsolete
      message is never counted as finished). */
  function MessageFlags(m: MessageItem): (r: nat)
    ensures r % 2 == Bit(m.Translation() != [])
    ensures (r / 2) % 2 == Bit(!m.danger)
    ensures (r / 4) % 2 == Bit(!m.IsObsolete() && m.IsFinished())
    ensures r / 8 == Bit(m.IsObsolete())
  {
    var r0 := Bit(m.Translation() != []);
    var r1 := if !m.danger then SetBit(r0, 2) else r0;
    if m.IsObsolete() then SetBit(r1, 8)
    else if m.IsFinished() then SetBit(r1, 4)
    else r1
  }

  /** The flags as a sum of their four bits. */
  lemma MessageFlagsSum(m: MessageItem)
    ensures MessageFlags(m) == Bit(m.Translation() != []) + 2 * Bit(!m.danger)
              + 4 * Bit(!m.IsObsolete() && m.IsFinished()) + 8 * Bit(m.IsObsolete())
  {
    var f := MessageFlags(m);
    assert f == f / 8 * 8 + (f / 4) % 2 * 4 + (f / 2) % 2 * 2 + f % 2;
  }

  /** Sorting by a language column puts obsolete messages after live ones,
      finished after unfinished ones of the same liveness, and within the
      same state, messages without danger after those with it. Every present
      cell sorts before an empty one (INT_MAX). */
  lemma MessageFlagsOrder(a: MessageItem, b: MessageItem)
    ensures MessageFlags(a) < INT_MAX
    ensures a.IsObsolete() && !b.IsObsolete() ==> MessageFlags(a) > MessageFlags(b)
    ensures (!a.IsObsolete() && !b.IsObsolete() && a.IsFinished() && !b.IsFinished())
            ==> MessageFlags(a) > MessageFlags(b)
    ensures (a.IsObsolete() == b.IsObsolete() && a.IsFinished() == b.IsFinished() && !a.danger && b.danger)
            ==> MessageFlags(a) > MessageFlags(b)
  {
    MessageFlagsSum(a);
    MessageFlagsSum(b);
  }

  /** The flags identify the message state: two messages share a key
      exactly when they agree on translation presence, danger, obsolescence
      and (if live) finished state. */
  lemma MessageFlagsDecode(a: MessageItem, b: MessageItem)
    ensures MessageFlags(a) == MessageFlags(b) <==>
            && (a.Translation() != []) == (b.Translation() != [])
            && a.danger == b.danger
            && a.IsObsolete() == b.IsObsolete()
            && (!a.IsObsolete() && a.IsFinished()) == (!b.IsObsolete() && b.IsFinished())
  {
    MessageFlagsSum(a);
    MessageFlagsSum(b);
  }

  /** ContextItem::isObsolete and isFinished: no live message, or no live
      message left unfinished. */
  predicate ContextObsolete(c: ContextItem) { c.nonobsoleteCount == 0 }
  predicate ContextFinished(c: ContextItem) { c.nonobsoleteCount - c.finishedCount == 0 }

  /** Counters as counting keeps them: finished messages are live ones. */
  predicate CountsSane(c: ContextItem) {
    0 <= c.finishedCount <= c.nonobsoleteCount && 0 <= c.finishedDangerCount && 0 <= c.unfinishedDangerCount
  }

  /** The finished messages of a list are among its live ones. */
  lemma {:induction false} FinishedAreLive(ms: seq<MessageItem>)
    ensures CountOf(ms, FinishedMsgs) <= CountOf(ms, NonobsoleteMsgs)
    decreases |ms|
  {
    if ms != [] {
      FinishedAreLive(ms[..|ms| - 1]);
    }
  }

  /** A context whose counters count its messages has sane counters. */
  lemma AgreeingCountersSane(c: ContextItem)
    requires c.CountersAgree()
    ensures CountsSane(c)
  {
    FinishedAreLive(c.messages);
  }

  /** The percentage of finished live messages, 100 for a context without
      live messages. */
  function PercentDone(c: ContextItem): (p: nat)
    requires CountsSane(c)
    ensures p <= 100
    ensures c.nonobsoleteCount != 0 ==> p * c.nonobsoleteCount <= 100 * c.finishedCount
  {
    if c.nonobsoleteCount != 0 then (100 * c.finishedCount) / c.nonobsoleteCount else 100
  }

  /** ((1 << 28) - 1) / 100. */
  const PERCENT_STEP: nat := 2684354

  /** The low field of a context key: the percentage, then the live count.
      While the count stays below one percent step both can be read back. */
  function ContextBase(c: ContextItem): (b: nat)
    requires CountsSane(c)
    ensures ContextObsolete(c) ==> b == 100 * PERCENT_STEP
    ensures c.nonobsoleteCount < PERCENT_STEP ==>
              b / PERCENT_STEP == PercentDone(c) && b % PERCENT_STEP == c.nonobsoleteCount
  {
    PercentDone(c) * PERCENT_STEP + c.nonobsoleteCount
  }

  /** The three flag bits 28..30 of a context key, as a number 0..4:
      4 obsolete, 3 finished without danger, 2 finished with danger,
      1 unfinished without danger, 0 unfinished with danger. */
  function ContextFlags(c: ContextItem): (f: nat)
    ensures f <= 4
  {
    if ContextObsolete(c) then 4
    else if ContextFinished(c) then 2 + Bit(c.finishedDangerCount == 0)
    else Bit(c.unfinishedDangerCount == 0)
  }

  /** The flag bits set on top of `base`, in the order the key sets them:
      bits are only added, and an int stays an int. */
  function FlagChain(base: nat, c: ContextItem): (r: nat)
    ensures base <= r <= base + BIT30
    ensures base <= INT_MAX ==> r <= INT_MAX
    ensures ContextObsolete(c) ==> (r / BIT30) % 2 == 1
  {
    SetBitKeeps(base, BIT30);
    SetBitKeeps(base, BIT29);
    SetBitKeeps(base, BIT28);
    SetBitKeeps(SetBit(base, BIT29), BIT28);
    SetBitSets(base, BIT30);
    if ContextObsolete(c) then SetBit(base, BIT30)
    else if ContextFinished(c) then
      var r := SetBit(base, BIT29);
      if c.finishedDangerCount == 0 then SetBit(r, BIT28) else r
    else if c.unfinishedDangerCount == 0 then SetBit(base, BIT28)
    else base
  }

  /** Below bit 28 the flag bits land in bits 28..30 and add the flags. */
  lemma FlagChainAdds(base: nat, c: ContextItem)
    requires base < BIT28
    ensures FlagChain(base, c) == base + ContextFlags(c) * BIT28
  {
    if ContextObsolete(c) {
      SetBitAbove(base, BIT30);
    } else if ContextFinished(c) {
      SetBitAbove(base, BIT29);
      if c.finishedDangerCount == 0 {
        SetBit28Clear(base, 2);
      }
    } else if c.unfinishedDangerCount == 0 {
      SetBitAbove(base, BIT28);
    }
  }

  /** The percent sort key of a context cell as written: the flags are or-ed
      into a sum that can itself reach bit 28. */
  function ContextKeyAsWritten(c: ContextItem): (k: nat)
    requires CountsSane(c)
    ensures ContextBase(c) <= k
    ensures ContextBase(c) <= INT_MAX ==> k <= INT_MAX
    ensures ContextBase(c) < BIT28 ==> k / BIT28 == ContextFlags(c) && k % BIT28 == ContextBase(c)
  {
    var base := ContextBase(c);
    if base < BIT28 then FlagChainAdds(base, c); FlagChain(base, c) else FlagChain(base, c)
  }

  /** A finished context of 56 live messages, one of them dangerous, gets the
      same key as the same context without danger: the sum 100 * 2684354 + 56
      is 1 << 28 and already holds the "no danger" bit. */
  lemma ContextKeyCollision(a: ContextItem, b: ContextItem)
    requires CountsSane(a) && a.nonobsoleteCount == 56 && a.finishedCount == 56 && a.finishedDangerCount == 1
    requires b == a.(finishedDangerCount := 0)
    ensures CountsSane(a) && CountsSane(b)
    ensures ContextFlags(a) < ContextFlags(b)
    ensures ContextKeyAsWritten(a) == ContextKeyAsWritten(b)
  {
    assert ContextBase(a) == BIT28 && ContextBase(b) == BIT28;
    SetBitAbove(BIT28, BIT29);
    assert (3 * BIT28 / BIT28) % 2 == 1;
  }

  /** The percent sort key of a context cell, with the low field kept below
      bit 28 so that the flags alone decide between different states. */
  function ContextKey(c: ContextItem): (k: nat)
    requires CountsSane(c)
    ensures k / BIT28 == ContextFlags(c)
    ensures k % BIT28 == if ContextBase(c) < BIT28 then ContextBase(c) else BIT28 - 1
    ensures k < INT_MAX
  {
    var base := if ContextBase(c) < BIT28 then ContextBase(c) else BIT28 - 1;
    FlagChainAdds(base, c);
    FlagChain(base, c)
  }

  /** Wherever the sum stays below bit 28 the corrected key is the key as
      written. */
  lemma ContextKeyAgrees(c: ContextItem)
    requires CountsSane(c) && ContextBase(c) < BIT28
    ensures ContextKey(c) == ContextKeyAsWritten(c)
  {
  }

  /** Sorting by a language column orders contexts by state first (obsolete
      last, finished after unfinished, no danger after danger) and, within a
      state, by percentage and then by size. */
  lemma ContextKeyOrder(a: ContextItem, b: ContextItem)
    requires CountsSane(a) && CountsSane(b)
    ensures ContextFlags(a) < ContextFlags(b) ==> ContextKey(a) < ContextKey(b)
    ensures (ContextFlags(a) == ContextFlags(b) && ContextBase(a) < ContextBase(b) < BIT28)
            ==> ContextKey(a) < ContextKey(b)
  {
    var ka, kb, p := ContextKey(a), ContextKey(b), BIT28;
    assert ka == ka / p * p + ka % p;
    assert kb == kb / p * p + kb % p;
    if ContextFlags(a) < ContextFlags(b) {
      assert ka / p + 1 <= kb / p;
      assert ka < (ka / p + 1) * p <= kb / p * p;
    }
  }

  // ---------------------------------------------------------------------
  // The sort role of data()

  /** remove('&'): the units of `s` other than '&', in order. */
  function RemoveAmp(s: UString): (r: UString)
    ensures |r| == |s| - CountWhere(s, u => u == AMP)
    ensures forall i | 0 <= i < |r| :: r[i] != AMP
    ensures (forall i | 0 <= i < |s| :: s[i] != AMP) ==> r == s
  {
    if s == [] then []
    else if s[0] == AMP then RemoveAmp(s[1..])
    else [s[0]] + RemoveAmp(s[1..])
  }

  /** remove('&') works unit by unit: a single '&' goes, any other single
      unit stays, and the text is processed piece by piece in order. */
  lemma {:induction false} RemoveAmpConcat(a: UString, b: UString)
    ensures RemoveAmp(a + b) == RemoveAmp(a) + RemoveAmp(b)
    ensures |a| == 1 ==> RemoveAmp(a) == (if a[0] == AMP then [] else a)
  {
    if a == [] {
      assert a + b == b;
    } else {
      assert (a + b)[0] == a[0] && (a + b)[1..] == a[1..] + b;
      RemoveAmpConcat(a[1..], b);
      if |a| == 1 {
        assert a[1..] == [];
      }
    }
  }

  /** contextItem(model) of a MultiContextItem: the model's context, if it
      has one of that name. */
  function ContextItemAt(s: Multi, model: nat, ctx: nat): (r: Option<ContextItem>)
    ensures r.Some? ==> model < |s.models| && ctx < |s.contexts| && model < |s.contexts[ctx].contextRefs|
    ensures r.Some? ==> r.value in s.models[model].contexts
  {
    if model < |s.models| && ctx < |s.contexts| && model < |s.contexts[ctx].contextRefs|
       && s.contexts[ctx].contextRefs[model].Some?
       && s.contexts[ctx].contextRefs[model].value < |s.models[model].contexts|
    then Some(s.models[model].contexts[s.contexts[ctx].contextRefs[model].value])
    else None
  }

  /** The counters of every context of every model are sane. */
  predicate AllCountsSane(s: Multi) {
    forall i, k | 0 <= i < |s.models| && 0 <= k < |s.models[i].contexts| :: CountsSane(s.models[i].contexts[k])
  }

  /** No context holds so many live messages that the percent key's sum
      leaves the range of an int. */
  predicate LiveCountsFit(s: Multi) {
    forall i, k | 0 <= i < |s.models| && 0 <= k < |s.models[i].contexts| ::
      s.models[i].contexts[k].nonobsoleteCount <= INT_MAX - 100 * PERCENT_STEP
  }

  /** data(index, SortRole). A message cell of a language column sorts by
      its flags, the source column by the simplified text without '&'; a
      context cell of a language column by its percent key, the source
      column by the simplified name and the count column by the number of
      editable messages. Missing cells sort as INT_MAX. `simplified` is
      QString::simplified. */
  function SortData(s: Multi, index: ModelIndex, simplified: UString -> UString): (k: SortKey)
    requires index.column <= |s.models| + 2
    requires index.internalId != 0 ==> index.internalId - 1 < |s.contexts|
    requires AllCountsSane(s)
    ensures k.IntKey? && index.column - 1 < |s.models| ==> 0 <= k.value
    ensures k.IntKey? && index.column - 1 < |s.models| && LiveCountsFit(s) ==> k.value <= INT_MAX
    ensures k.TextKey? && index.internalId != 0 ==> forall i | 0 <= i < |k.text| :: k.text[i] != AMP
    ensures k != NoKey ==> index.IsValid() && index.column >= 1
  {
    var column := index.column - 1;
    var numLangs := |s.models|;
    if column < 0 then NoKey
    else if index.internalId != 0 then
      var crow := index.internalId - 1;
      var mci := s.contexts[crow];
      if index.row >= |mci.rows| || !index.IsValid() then NoKey
      else if column == numLangs then TextKey(RemoveAmp(simplified(mci.rows[index.row].text)))
      else if column == numLangs + 1 then NoKey
      else
        match s.MessageItemAt(MultiDataIndex(column, crow, index.row))
        case Some(m) => MessageFlagsOrder(m, m); IntKey(MessageFlags(m))
        case None => IntKey(INT_MAX)
    else
      if index.row >= |s.contexts| || !index.IsValid() then NoKey
      else if column == numLangs then TextKey(simplified(s.contexts[index.row].context))
      else if column == numLangs + 1 then
        IntKey(s.contexts[index.row].editableCount)
      else
        match ContextItemAt(s, column, index.row)
        case Some(c) => IntKey(ContextKeyAsWritten(c))
        case None => IntKey(INT_MAX)
  }

  /** A language cell of a message row sorts by the flags of the message it
      shows, or after every message when it shows none. */
  lemma MessageCellKey(s: Multi, crow: nat, row: nat, model: nat, simplified: UString -> UString)
    requires AllCountsSane(s)
    requires crow < |s.contexts| && row < |s.contexts[crow].rows| && model < |s.models|
    ensures var k := SortData(s, CreateIndex(row, model + 1, crow + 1), simplified);
            match s.MessageItemAt(MultiDataIndex(model, crow, row))
            case Some(m) => k == IntKey(MessageFlags(m)) && k.value < INT_MAX
            case None => k == IntKey(INT_MAX)
  {
    match s.MessageItemAt(MultiDataIndex(model, crow, row))
    case Some(m) => MessageFlagsOrder(m, m);
    case None =>
  }

  /** A language cell of a context row sorts by the percent key of that
      model's context as written, or after every context when the model has
      none. Wherever the key's sum stays below bit 28 it is the corrected
      key, which sorts before the missing cells. */
  lemma ContextCellKey(s: Multi, row: nat, model: nat, simplified: UString -> UString)
    requires AllCountsSane(s)
    requires row < |s.contexts| && model < |s.models|
    ensures var k := SortData(s, CreateIndex(row, model + 1, 0), simplified);
            match ContextItemAt(s, model, row)
            case Some(c) => k == IntKey(ContextKeyAsWritten(c))
                            && (ContextBase(c) < BIT28 ==> k == IntKey(ContextKey(c)) && k.value < INT_MAX)
            case None => k == IntKey(INT_MAX)
  {
    match ContextItemAt(s, model, row)
    case Some(c) =>
      if ContextBase(c) < BIT28 {
        ContextKeyAgrees(c);
      }
    case None =>
  }
}
