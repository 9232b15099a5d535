/** The model of one loaded translation file (DataModel in Qt Linguist):
    messages grouped by context, the per-context counters, the source-text
    statistics and the lookups over them. */
module DataModel {
  import opened Wrappers
  import opened Text
  import Ncr

  /** TranslatorMessage::Type. */
  datatype MsgType = Unfinished | Finished | Vanished | Obsolete

  /** The part of a TranslatorMessage this model reads. `pluralText` is the
      "po-msgid_plural" extra, empty when absent; `translations` holds one
      entry per plural form. */
  datatype TranslatorMessage = TranslatorMessage(
    context: UString,
    sourceText: UString,
    comment: UString,
    id: UString,
    pluralText: UString,
    translations: seq<UString>,
    msgType: MsgType)

  /** A message held by a context. The NCR display mode is off in this
      model, so text() is the source text with its references resolved. */
  datatype MessageItem = MessageItem(message: TranslatorMessage, danger: bool)
  {
    function Text(): UString { Ncr.Resolve(message.sourceText) }
    function PluralText(): UString { Ncr.Resolve(message.pluralText) }
    function Comment(): UString { message.comment }
    function Id(): UString { message.id }
    /** translation(): the first translation, empty when there is none. */
    function Translation(): UString {
      if message.translations == [] then [] else message.translations[0]
    }
    predicate IsFinished() { message.msgType == Finished }
    predicate IsObsolete() { message.msgType == Obsolete || message.msgType == Vanished }
  }

  // ---------------------------------------------------------------------
  // Character statistics (doCharCounting)

  const UNDERSCORE: CodeUnit := 0x5F

  /** A unit that belongs to a word: a letter or digit, or '_'. */
  predicate IsWordUnit(c: CodeUnit, isLetterOrNumber: CodeUnit -> bool) {
    isLetterOrNumber(c) || c == UNDERSCORE
  }

  /** A maximal run of word units starts at `i`. */
  predicate RunStartsAt(s: UString, i: nat, isLetterOrNumber: CodeUnit -> bool)
    requires i < |s|
  {
    IsWordUnit(s[i], isLetterOrNumber) && (i == 0 || !IsWordUnit(s[i - 1], isLetterOrNumber))
  }

  /** The number of maximal runs of word units in `s`. */
  function WordRuns(s: UString, isLetterOrNumber: CodeUnit -> bool): (n: nat)
    ensures n <= |s|
  {
    if s == [] then 0
    else WordRuns(s[..|s| - 1], isLetterOrNumber)
         + (if RunStartsAt(s, |s| - 1, isLetterOrNumber) then 1 else 0)
  }

  /** The number of units of `s` that are not white space. */
  function NonSpaceCount(s: UString, isSpace: CodeUnit -> bool): (n: nat)
    ensures n <= |s|
  {
    if s == [] then 0
    else NonSpaceCount(s[..|s| - 1], isSpace) + (if isSpace(s[|s| - 1]) then 0 else 1)
  }

  /** doCharCounting: adds the words, the non-space characters and all
      characters of `text` to the three counters. */
  method DoCharCounting(text: UString, isLetterOrNumber: CodeUnit -> bool, isSpace: CodeUnit -> bool,
                        trW: int, trC: int, trCS: int) returns (w: int, c: int, cs: int)
    ensures w == trW + WordRuns(text, isLetterOrNumber)
    ensures c == trC + NonSpaceCount(text, isSpace)
    ensures cs == trCS + |text|
    ensures trW <= w && trC <= c && trCS <= cs
  {
    cs := trCS + |text|;
    w, c := trW, trC;
    var inWord := false;
    for i := 0 to |text|
      invariant inWord == (i > 0 && IsWordUnit(text[i - 1], isLetterOrNumber))
      invariant w == trW + WordRuns(text[..i], isLetterOrNumber)
      invariant c == trC + NonSpaceCount(text[..i], isSpace)
    {
      assert text[..i + 1][..i] == text[..i];
      if isLetterOrNumber(text[i]) || text[i] == UNDERSCORE {
        if !inWord {
          w := w + 1;
          inWord := true;
        }
      } else {
        inWord := false;
      }
      if !isSpace(text[i]) {
        c := c + 1;
      }
    }
    assert text[..|text|] == text;
  }

  /** Counting a text split at a unit outside any word counts its two
      parts: no word runs across the split. */
  lemma {:induction false} WordRunsSplit(a: UString, sep: CodeUnit, b: UString, isLetterOrNumber: CodeUnit -> bool)
    requires !IsWordUnit(sep, isLetterOrNumber)
    ensures WordRuns(a + [sep] + b, isLetterOrNumber) == WordRuns(a, isLetterOrNumber) + WordRuns(b, isLetterOrNumber)
    decreases |b|
  {
    var s := a + [sep] + b;
    if b == [] {
      assert s[..|s| - 1] == a;
    } else {
      var b' := b[..|b| - 1];
      WordRunsSplit(a, sep, b', isLetterOrNumber);
      assert s[..|s| - 1] == a + [sep] + b';
      assert s[|s| - 2] == if b' == [] then sep else b'[|b'| - 1];
    }
  }

  /** Non-space units add up over a concatenation. */
  lemma {:induction false} NonSpaceConcat(a: UString, b: UString, isSpace: CodeUnit -> bool)
    ensures NonSpaceCount(a + b, isSpace) == NonSpaceCount(a, isSpace) + NonSpaceCount(b, isSpace)
    decreases |b|
  {
    if b == [] {
      assert a + b == a;
    } else {
      NonSpaceConcat(a, b[..|b| - 1], isSpace);
      assert (a + b)[..|a + b| - 1] == a + b[..|b| - 1];
    }
  }


  // ---------------------------------------------------------------------
  // Context comments

  const NEWLINE: CodeUnit := 0x0A

  /** Each part preceded by a blank-line separator. */
  function Separated(parts: seq<UString>): (r: UString)
  {
    if parts == [] then [] else [NEWLINE, NEWLINE] + parts[0] + Separated(parts[1..])
  }

  /** The parts joined by blank lines; leading empty parts leave no trace,
      later empty parts still bring their separator. */
  function JoinComments(parts: seq<UString>): (r: UString)
  {
    if parts == [] then []
    else if parts[0] == [] then JoinComments(parts[1..])
    else parts[0] + Separated(parts[1..])
  }

  lemma {:induction false} SeparatedSnoc(parts: seq<UString>, s: UString)
    ensures Separated(parts + [s]) == Separated(parts) + [NEWLINE, NEWLINE] + s
  {
    if parts != [] {
      assert (parts + [s])[1..] == parts[1..] + [s];
      SeparatedSnoc(parts[1..], s);
    } else {
      assert Separated([s]) == [NEWLINE, NEWLINE] + s + Separated([]);
    }
  }

  // ---------------------------------------------------------------------
  // ContextItem

  /** Which messages a context counter counts. */
  datatype Tally = FinishedMsgs | NonobsoleteMsgs | FinishedDanger | UnfinishedDanger

  predicate Counted(m: MessageItem, t: Tally) {
    match t
    case FinishedMsgs => m.IsFinished()
    case NonobsoleteMsgs => !m.IsObsolete()
    case FinishedDanger => m.danger && m.IsFinished()
    case UnfinishedDanger => m.danger && !m.IsFinished()
  }

  /** The number of messages of `ms` that counter `t` counts. */
  function CountOf(ms: seq<MessageItem>, t: Tally): (n: nat)
    ensures n <= |ms|
  {
    if ms == [] then 0
    else CountOf(ms[..|ms| - 1], t) + (if Counted(ms[|ms| - 1], t) then 1 else 0)
  }

  datatype ContextItem = ContextItem(
    context: UString,
    comment: UString,
    messages: seq<MessageItem>,
    finishedCount: int,
    finishedDangerCount: int,
    unfinishedDangerCount: int,
    nonobsoleteCount: int)
  {
    /** Each counter equals the number of messages it is meant to count. */
    predicate CountersAgree() {
      && finishedCount == CountOf(messages, FinishedMsgs)
      && nonobsoleteCount == CountOf(messages, NonobsoleteMsgs)
      && finishedDangerCount == CountOf(messages, FinishedDanger)
      && unfinishedDangerCount == CountOf(messages, UnfinishedDanger)
    }

    /** appendToComment: a blank line between the old comment, if any, and `str`. */
    function AppendToComment(str: UString): (r: ContextItem)
      ensures r.(comment := comment) == this
      ensures |r.comment| == |comment| + |str| + (if comment == [] then 0 else 2)
      ensures comment <= r.comment
      ensures r.comment[|r.comment| - |str|..] == str
    {
      if comment != [] then this.(comment := comment + [NEWLINE, NEWLINE] + str)
      else this.(comment := comment + str)
    }
  }

  /** ContextItem(context): no comment, no messages, all counters zero. */
  function NewContext(name: UString): (r: ContextItem)
    ensures r.context == name && r.messages == [] && r.comment == []
    ensures r.CountersAgree()
  {
    ContextItem(name, [], [], 0, 0, 0, 0)
  }

  /** Appending comments one by one joins them with blank lines. */
  lemma {:induction false} AppendToCommentJoins(c: ContextItem, parts: seq<UString>, s: UString)
    requires c.comment == JoinComments(parts)
    ensures c.AppendToComment(s).comment == JoinComments(parts + [s])
    decreases |parts|
  {
    if parts == [] {
      assert [s][1..] == [];
    } else {
      assert (parts + [s])[1..] == parts[1..] + [s];
      if parts[0] == [] {
        AppendToCommentJoins(c, parts[1..], s);
      } else {
        SeparatedSnoc(parts[1..], s);
      }
    }
  }

  // ---------------------------------------------------------------------
  // DataModel and loading

  /** The source text that marks a context comment rather than a message
      (ContextComment). */
  const CONTEXT_COMMENT: UString :=   // "QT_LINGUIST_INTERNAL_CONTEXT_COMMENT"
    [0x51, 0x54, 0x5F, 0x4C, 0x49, 0x4E, 0x47, 0x55, 0x49, 0x53, 0x54, 0x5F, 0x49, 0x4E, 0x54, 0x45, 0x52, 0x4E, 0x41, 0x4C, 0x5F, 0x43, 0x4F, 0x4E, 0x54, 0x45, 0x58, 0x54, 0x5F, 0x43, 0x4F, 0x4D, 0x4D, 0x45, 0x4E, 0x54]

  predicate IsContextComment(msg: TranslatorMessage) {
    msg.sourceText == CONTEXT_COMMENT
  }

  /** The messages of `cs` altogether. */
  function TotalMessages(cs: seq<ContextItem>): (n: nat)
  {
    if cs == [] then 0 else TotalMessages(cs[..|cs| - 1]) + |cs[|cs| - 1].messages|
  }

  datatype DataModel = DataModel(
    contexts: seq<ContextItem>,
    numMessages: nat,
    srcWords: int,
    srcChars: int,
    srcCharsSpc: int,
    writable: bool,
    modified: bool)
  {
    /** Context names are unique, every context's counters agree with its
        messages, and numMessages counts all messages. */
    predicate Wellformed() {
      && (forall i, j | 0 <= i < j < |contexts| :: contexts[i].context != contexts[j].context)
      && (forall i | 0 <= i < |contexts| :: contexts[i].CountersAgree())
      && numMessages == TotalMessages(contexts)
    }
  }

  /** The three statistics doCharCounting accumulates. */
  datatype Stats = Stats(words: int, chars: int, charsSpc: int)

  /** Context names in order of first appearance. */
  function ContextNames(msgs: seq<TranslatorMessage>): (r: seq<UString>)
  {
    if msgs == [] then []
    else
      var names := ContextNames(msgs[..|msgs| - 1]);
      if msgs[|msgs| - 1].context in names then names else names + [msgs[|msgs| - 1].context]
  }

  /** The messages (not context comments) of context `name`, in order. */
  function Members(msgs: seq<TranslatorMessage>, name: UString): (r: seq<MessageItem>)
  {
    if msgs == [] then []
    else
      var last := msgs[|msgs| - 1];
      Members(msgs[..|msgs| - 1], name)
      + (if last.context == name && !IsContextComment(last) then [MessageItem(last, false)] else [])
  }

  /** The comments of the context-comment entries of context `name`, in order. */
  function CommentsOf(msgs: seq<TranslatorMessage>, name: UString): (r: seq<UString>)
  {
    if msgs == [] then []
    else
      var last := msgs[|msgs| - 1];
      CommentsOf(msgs[..|msgs| - 1], name)
      + (if last.context == name && IsContextComment(last) then [last.comment] else [])
  }

  /** The context item loading `msgs` should produce for `name`. */
  function Expected(msgs: seq<TranslatorMessage>, name: UString): (r: ContextItem)
  {
    var ms := Members(msgs, name);
    ContextItem(name, JoinComments(CommentsOf(msgs, name)), ms,
                CountOf(ms, FinishedMsgs), CountOf(ms, FinishedDanger),
                CountOf(ms, UnfinishedDanger), CountOf(ms, NonobsoleteMsgs))
  }

  /** A message whose texts enter the statistics: a real message that is
      finished or unfinished. */
  predicate Measured(msg: TranslatorMessage) {
    !IsContextComment(msg) && (msg.msgType == Finished || msg.msgType == Unfinished)
  }

  /** The statistics of the measured messages of `msgs`: words, non-space
      characters and characters of their text and plural text. */
  function SourceStats(msgs: seq<TranslatorMessage>, isLetterOrNumber: CodeUnit -> bool,
                       isSpace: CodeUnit -> bool): (r: Stats)
  {
    if msgs == [] then Stats(0, 0, 0)
    else
      var st := SourceStats(msgs[..|msgs| - 1], isLetterOrNumber, isSpace);
      var last := msgs[|msgs| - 1];
      StatsAdded(st, last, Ncr.Resolve(last.sourceText), Ncr.Resolve(last.pluralText), isLetterOrNumber, isSpace)
  }

  /** The statistics `st` once message `msg`, whose text and plural text
      read `text` and `plural`, is loaded. */
  function StatsAdded(st: Stats, msg: TranslatorMessage, text: UString, plural: UString,
                      isLetterOrNumber: CodeUnit -> bool, isSpace: CodeUnit -> bool): Stats
  {
    if !Measured(msg) then st
    else
      Stats(st.words + WordRuns(text, isLetterOrNumber) + WordRuns(plural, isLetterOrNumber),
            st.chars + NonSpaceCount(text, isSpace) + NonSpaceCount(plural, isSpace),
            st.charsSpc + |text| + |plural|)
  }

  /** No name occurs twice. */
  predicate Distinct(names: seq<UString>) {
    forall i, j | 0 <= i < j < |names| :: names[i] != names[j]
  }

  lemma {:induction false} ContextNamesDistinct(msgs: seq<TranslatorMessage>)
    ensures Distinct(ContextNames(msgs))
  {
    if msgs != [] {
      var init := msgs[..|msgs| - 1];
      ContextNamesDistinct(init);
      var names := ContextNames(init);
      var n := msgs[|msgs| - 1].context;
      if n !in names {
        var r := names + [n];
        forall i, j | 0 <= i < j < |r| ensures r[i] != r[j] {
          assert r[i] == names[i];
          if j == |names| {
            assert names[i] in names;
          } else {
            assert r[j] == names[j];
          }
        }
        assert ContextNames(msgs) == r;
      }
    }
  }

  /** A name is listed exactly when some message belongs to that context. */
  lemma {:induction false} ContextNamesListed(msgs: seq<TranslatorMessage>, name: UString)
    ensures name in ContextNames(msgs) <==> exists i | 0 <= i < |msgs| :: msgs[i].context == name
  {
    if msgs != [] {
      var init := msgs[..|msgs| - 1];
      ContextNamesListed(init, name);
      if exists i | 0 <= i < |init| :: init[i].context == name {
        var i :| 0 <= i < |init| && init[i].context == name;
        assert msgs[i] == init[i];
      }
      if exists i | 0 <= i < |msgs| :: msgs[i].context == name {
        var i :| 0 <= i < |msgs| && msgs[i].context == name;
        if i < |init| { assert init[i] == msgs[i]; }
      }
    }
  }

  /** A context nobody mentioned has neither messages nor comments. */
  lemma {:induction false} UnlistedIsEmpty(msgs: seq<TranslatorMessage>, name: UString)
    requires name !in ContextNames(msgs)
    ensures Members(msgs, name) == [] && CommentsOf(msgs, name) == []
  {
    if msgs != [] {
      UnlistedIsEmpty(msgs[..|msgs| - 1], name);
    }
  }

  lemma {:induction false} TotalUpdate(cs: seq<ContextItem>, i: nat, c: ContextItem)
    requires i < |cs|
    ensures TotalMessages(cs[i := c]) == TotalMessages(cs) - |cs[i].messages| + |c.messages|
  {
    if i < |cs| - 1 {
      assert cs[i := c][..|cs| - 1] == cs[..|cs| - 1][i := c];
      TotalUpdate(cs[..|cs| - 1], i, c);
    } else {
      assert cs[i := c][..|cs| - 1] == cs[..|cs| - 1];
    }
  }

  lemma TotalSnoc(cs: seq<ContextItem>, c: ContextItem)
    ensures TotalMessages(cs + [c]) == TotalMessages(cs) + |c.messages|
  {
    assert (cs + [c])[..|cs|] == cs;
  }

  lemma ExpectedAgrees(msgs: seq<TranslatorMessage>, name: UString)
    ensures Expected(msgs, name).CountersAgree()
  {
  }

  /** How one more message changes the expected context items. */
  lemma ExpectedStep(p: seq<TranslatorMessage>, msg: TranslatorMessage, name: UString)
    ensures name != msg.context ==> Expected(p + [msg], name) == Expected(p, name)
    ensures name == msg.context && IsContextComment(msg) ==>
      Expected(p + [msg], name) == Expected(p, name).AppendToComment(msg.comment)
    ensures name == msg.context && !IsContextComment(msg) ==>
      var c := Expected(p, name);
      Expected(p + [msg], name) ==
        c.(messages := c.messages + [MessageItem(msg, false)],
           finishedCount := c.finishedCount + (if msg.msgType == Finished then 1 else 0),
           nonobsoleteCount := c.nonobsoleteCount + (if (msg.msgType == Finished || msg.msgType == Unfinished) then 1 else 0))
  {
    var q := p + [msg];
    assert q[..|q| - 1] == p;
    assert Members(q, name) == Members(p, name)
      + (if msg.context == name && !IsContextComment(msg) then [MessageItem(msg, false)] else []);
    assert CommentsOf(q, name) == CommentsOf(p, name)
      + (if msg.context == name && IsContextComment(msg) then [msg.comment] else []);
    if name != msg.context {
      assert Members(q, name) == Members(p, name);
      assert CommentsOf(q, name) == CommentsOf(p, name);
    }
    if name == msg.context && IsContextComment(msg) {
      assert Members(q, name) == Members(p, name);
      AppendToCommentJoins(Expected(p, name), CommentsOf(p, name), msg.comment);
    }
    if name == msg.context && !IsContextComment(msg) {
      var ms := Members(q, name);
      assert ms[..|ms| - 1] == Members(p, name);
      assert CommentsOf(q, name) == CommentsOf(p, name);
      assert CountOf(ms, FinishedMsgs)
        == CountOf(Members(p, name), FinishedMsgs) + (if msg.msgType == Finished then 1 else 0);
      assert CountOf(ms, NonobsoleteMsgs)
        == CountOf(Members(p, name), NonobsoleteMsgs) + (if (msg.msgType == Finished || msg.msgType == Unfinished) then 1 else 0);
      assert CountOf(ms, FinishedDanger) == CountOf(Members(p, name), FinishedDanger);
      assert CountOf(ms, UnfinishedDanger) == CountOf(Members(p, name), UnfinishedDanger);
    }
  }

  /** The context `c` once message `msg` of that context is loaded. */
  function LoadedInto(c: ContextItem, msg: TranslatorMessage): ContextItem {
    if IsContextComment(msg) then c.AppendToComment(msg.comment)
    else
      c.(messages := c.messages + [MessageItem(msg, false)],
         finishedCount := c.finishedCount + (if msg.msgType == Finished then 1 else 0),
         nonobsoleteCount := c.nonobsoleteCount + (if (msg.msgType == Finished || msg.msgType == Unfinished) then 1 else 0))
  }

  /** Loading one more message updates exactly the context it names. */
  lemma ContextsStep(contexts: seq<ContextItem>, p: seq<TranslatorMessage>, msg: TranslatorMessage,
                     names: seq<UString>, ci: nat, c: ContextItem)
    requires |contexts| == |names| && ci < |names| && names[ci] == msg.context
    requires Distinct(names)
    requires forall i | 0 <= i < |contexts| :: contexts[i] == Expected(p, names[i])
    requires c == LoadedInto(contexts[ci], msg)
    ensures forall i | 0 <= i < |contexts| :: contexts[ci := c][i] == Expected(p + [msg], names[i])
  {
    forall i | 0 <= i < |contexts| ensures contexts[ci := c][i] == Expected(p + [msg], names[i]) {
      ExpectedStep(p, msg, names[i]);
      if i != ci {
        assert names[i] != msg.context;
        assert contexts[ci := c][i] == contexts[i];
      } else {
        assert contexts[ci := c][i] == c;
      }
    }
  }

  /** Loading one more message adds its text statistics when it is measured. */
  lemma StatsStep(p: seq<TranslatorMessage>, msg: TranslatorMessage, isLetterOrNumber: CodeUnit -> bool,
                  isSpace: CodeUnit -> bool)
    ensures SourceStats(p + [msg], isLetterOrNumber, isSpace)
      == StatsAdded(SourceStats(p, isLetterOrNumber, isSpace), msg,
                    Ncr.Resolve(msg.sourceText), Ncr.Resolve(msg.pluralText), isLetterOrNumber, isSpace)
  {
    assert (p + [msg])[..|p|] == p;
  }

  lemma PrefixSnoc<T>(s: seq<T>, k: nat)
    requires k < |s|
    ensures s[..k + 1] == s[..k] + [s[k]]
    ensures (s[..k] + [s[k]])[..k] == s[..k]
  {
  }

  /** The body of the loading loop for one message `msg` of context `c`:
      a context comment is appended to the context's comment; a message is
      appended to the context, counted, and its texts measured. */
  method LoadInto(c: ContextItem, msg: TranslatorMessage, isLetterOrNumber: CodeUnit -> bool,
                  isSpace: CodeUnit -> bool, words: int, chars: int, charsSpc: int)
    returns (c': ContextItem, words': int, chars': int, charsSpc': int)
    ensures c' == LoadedInto(c, msg)
    ensures Stats(words', chars', charsSpc') ==
      StatsAdded(Stats(words, chars, charsSpc), msg, Ncr.Resolve(msg.sourceText), Ncr.Resolve(msg.pluralText),
                 isLetterOrNumber, isSpace)
  {
    c', words', chars', charsSpc' := c, words, chars, charsSpc;
    if msg.sourceText == CONTEXT_COMMENT {
      c' := c'.AppendToComment(msg.comment);
    } else {
      var tmp := MessageItem(msg, false);
      if msg.msgType == Finished {
        c' := c'.(finishedCount := c'.finishedCount + 1);
      }
      if msg.msgType == Finished || msg.msgType == Unfinished {
        var text := Ncr.ResolveNcr(msg.sourceText);
        words', chars', charsSpc' := DoCharCounting(text, isLetterOrNumber, isSpace, words', chars', charsSpc');
        var plural := Ncr.ResolveNcr(msg.pluralText);
        words', chars', charsSpc' := DoCharCounting(plural, isLetterOrNumber, isSpace, words', chars', charsSpc');
        c' := c'.(nonobsoleteCount := c'.nonobsoleteCount + 1);
      }
      c' := c'.(messages := c'.messages + [tmp]);
    }
  }

  /** The state of the loading loop after the messages `p`: the contexts
      expected for `p`, the hash from name to position, and the message count. */
  ghost predicate Grouped(p: seq<TranslatorMessage>, contexts: seq<ContextItem>, index: map<UString, nat>,
                          numMessages: int)
  {
    && |contexts| == |ContextNames(p)|
    && (forall i | 0 <= i < |contexts| :: contexts[i] == Expected(p, ContextNames(p)[i]))
    && (forall n :: n in index <==> n in ContextNames(p))
    && (forall n | n in index :: index[n] < |contexts| && ContextNames(p)[index[n]] == n)
    && numMessages == TotalMessages(contexts)
  }

  /** The loading state with the names `names` of the messages `p` and
      perhaps one more. */
  ghost predicate Indexed(p: seq<TranslatorMessage>, names: seq<UString>, contexts: seq<ContextItem>,
                          index: map<UString, nat>, numMessages: int)
  {
    && |contexts| == |names|
    && (forall i | 0 <= i < |contexts| :: contexts[i] == Expected(p, names[i]))
    && (forall n :: n in index <==> n in names)
    && (forall n | n in index :: index[n] < |contexts| && names[index[n]] == n)
    && numMessages == TotalMessages(contexts)
  }

  /** The first half of a loading round: a context seen for the first time
      gets an empty item at the end. */
  lemma InsertStep(p: seq<TranslatorMessage>, msg: TranslatorMessage, contexts: seq<ContextItem>,
                   index: map<UString, nat>, numMessages: int)
    requires Grouped(p, contexts, index, numMessages)
    ensures
      var index' := if msg.context in index then index else index[msg.context := |contexts|];
      var cs := if msg.context in index then contexts else contexts + [NewContext(msg.context)];
      Indexed(p, ContextNames(p + [msg]), cs, index', numMessages)
  {
    if msg.context in index {
      InsertSeen(p, msg, contexts, index, numMessages);
    } else {
      InsertNew(p, msg, contexts, index, numMessages);
    }
  }

  lemma InsertSeen(p: seq<TranslatorMessage>, msg: TranslatorMessage, contexts: seq<ContextItem>,
                   index: map<UString, nat>, numMessages: int)
    requires Grouped(p, contexts, index, numMessages)
    requires msg.context in index
    ensures Indexed(p, ContextNames(p + [msg]), contexts, index, numMessages)
  {
    assert (p + [msg])[..|p|] == p;
    assert ContextNames(p + [msg]) == ContextNames(p);
  }

  lemma InsertNew(p: seq<TranslatorMessage>, msg: TranslatorMessage, contexts: seq<ContextItem>,
                  index: map<UString, nat>, numMessages: int)
    requires Grouped(p, contexts, index, numMessages)
    requires msg.context !in index
    ensures Indexed(p, ContextNames(p + [msg]), contexts + [NewContext(msg.context)],
                    index[msg.context := |contexts|], numMessages)
  {
    assert (p + [msg])[..|p|] == p;
    var names := ContextNames(p + [msg]);
    assert names == ContextNames(p) + [msg.context];
    UnlistedIsEmpty(p, msg.context);
    TotalSnoc(contexts, NewContext(msg.context));
    IndexExtend(index, ContextNames(p), msg.context);
    ContextsExtend(p, contexts, ContextNames(p), msg.context);
  }

  lemma IndexExtend(index: map<UString, nat>, names: seq<UString>, n: UString)
    requires forall m :: m in index <==> m in names
    requires forall m | m in index :: index[m] < |names| && names[index[m]] == m
    requires n !in index
    ensures var index', names' := index[n := |names|], names + [n];
      && (forall m :: m in index' <==> m in names')
      && (forall m | m in index' :: index'[m] < |names'| && names'[index'[m]] == m)
  {
  }

  lemma ContextsExtend(p: seq<TranslatorMessage>, contexts: seq<ContextItem>, names: seq<UString>, n: UString)
    requires |contexts| == |names|
    requires forall i | 0 <= i < |contexts| :: contexts[i] == Expected(p, names[i])
    requires Members(p, n) == [] && CommentsOf(p, n) == []
    ensures var cs, names' := contexts + [NewContext(n)], names + [n];
      forall i | 0 <= i < |cs| :: cs[i] == Expected(p, names'[i])
  {
  }

  /** The second half of a loading round: the message lands in its context. */
  lemma UpdateStep(p: seq<TranslatorMessage>, msg: TranslatorMessage, cs: seq<ContextItem>,
                   index: map<UString, nat>, numMessages: int)
    requires Indexed(p, ContextNames(p + [msg]), cs, index, numMessages)
    requires msg.context in index
    ensures index[msg.context] < |cs|
    ensures
      var ci := index[msg.context];
      Grouped(p + [msg], cs[ci := LoadedInto(cs[ci], msg)], index,
              numMessages + (if IsContextComment(msg) then 0 else 1))
  {
    var names := ContextNames(p + [msg]);
    var ci := index[msg.context];
    var c := LoadedInto(cs[ci], msg);
    assert |c.messages| == |cs[ci].messages| + (if IsContextComment(msg) then 0 else 1);
    TotalUpdate(cs, ci, c);
    ContextNamesDistinct(p + [msg]);
    ContextsStep(cs, p, msg, names, ci, c);
    var cs' := cs[ci := c];
    assert |cs'| == |names|;
    assert forall n | n in index :: index[n] < |cs'| && names[index[n]] == n;
    assert forall i | 0 <= i < |cs'| :: cs'[i] == Expected(p + [msg], names[i]);
    assert forall n :: n in index <==> n in names;
    assert TotalMessages(cs') == numMessages + (if IsContextComment(msg) then 0 else 1);
    assert Grouped(p + [msg], cs', index, numMessages + (if IsContextComment(msg) then 0 else 1));
  }

  /** DataModel::load once the file has been read into `msgs`: contexts in
      first-seen order, context comments folded into their context, the
      counters and the source statistics. A file without messages is refused. */
  method Load(msgs: seq<TranslatorMessage>, isLetterOrNumber: CodeUnit -> bool, isSpace: CodeUnit -> bool)
    returns (r: Option<DataModel>)
    ensures r.None? <==> msgs == []
    ensures r.Some? ==> r.value.Wellformed() && !r.value.modified
    ensures r.Some? ==> |r.value.contexts| == |ContextNames(msgs)|
    ensures r.Some? ==> forall i | 0 <= i < |r.value.contexts| ::
      r.value.contexts[i] == Expected(msgs, ContextNames(msgs)[i])
    ensures r.Some? ==>
      Stats(r.value.srcWords, r.value.srcChars, r.value.srcCharsSpc) == SourceStats(msgs, isLetterOrNumber, isSpace)
  {
    if msgs == [] {
      return None;
    }
    var contexts: seq<ContextItem> := [];
    var index: map<UString, nat> := map[];
    var numMessages := 0;
    var words, chars, charsSpc := 0, 0, 0;
    for k := 0 to |msgs|
      invariant Grouped(msgs[..k], contexts, index, numMessages)
      invariant Stats(words, chars, charsSpc) == SourceStats(msgs[..k], isLetterOrNumber, isSpace)
    {
      var msg := msgs[k];
      PrefixSnoc(msgs, k);
      InsertStep(msgs[..k], msg, contexts, index, numMessages);
      if msg.context !in index {
        index := index[msg.context := |contexts|];
        contexts := contexts + [NewContext(msg.context)];
      }
      UpdateStep(msgs[..k], msg, contexts, index, numMessages);
      var ci := index[msg.context];
      var c;
      c, words, chars, charsSpc := LoadInto(contexts[ci], msg, isLetterOrNumber, isSpace, words, chars, charsSpc);
      if !IsContextComment(msg) {
        numMessages := numMessages + 1;
      }
      contexts := contexts[ci := c];
      StatsStep(msgs[..k], msg, isLetterOrNumber, isSpace);
    }
    assert msgs[..|msgs|] == msgs;
    ContextNamesDistinct(msgs);
    forall i | 0 <= i < |contexts| ensures contexts[i].CountersAgree() {
      ExpectedAgrees(msgs, ContextNames(msgs)[i]);
    }
    r := Some(DataModel(contexts, numMessages, words, chars, charsSpc, false, false));
  }

  // ---------------------------------------------------------------------
  // Lookups

  /** A message shows `text` and carries `comment`. */
  predicate Shows(m: MessageItem, text: UString, comment: UString) {
    m.Text() == text && m.Comment() == comment
  }

  /** ContextItem::findMessage: the first message of `c` showing `text` with
      `comment`; the index stands for the MessageItem pointer
      ContextItem::findMessage returns. */
  method FindMessageIn(c: ContextItem, text: UString, comment: UString) returns (r: Option<nat>)
    ensures r.Some? ==> r.value < |c.messages| && Shows(c.messages[r.value], text, comment)
    ensures r.Some? ==> forall j | 0 <= j < r.value :: !Shows(c.messages[j], text, comment)
    ensures r.None? <==> forall j | 0 <= j < |c.messages| :: !Shows(c.messages[j], text, comment)
  {
    for i := 0 to |c.messages|
      invariant forall j | 0 <= j < i :: !Shows(c.messages[j], text, comment)
    {
      var mi := c.messages[i];
      if mi.Text() == text && mi.Comment() == comment {
        return Some(i);
      }
    }
    return None;
  }

  /** `i` is the first context of `cs` named `name`. */
  predicate FirstNamed(cs: seq<ContextItem>, i: int, name: UString) {
    0 <= i < |cs| && cs[i].context == name && forall j | 0 <= j < i :: cs[j].context != name
  }

  /** DataModel::findContext: the first context named `name`. */
  method FindContext(dm: DataModel, name: UString) returns (r: Option<nat>)
    ensures r.Some? ==> FirstNamed(dm.contexts, r.value, name)
    ensures r.None? <==> forall j | 0 <= j < |dm.contexts| :: dm.contexts[j].context != name
  {
    for c := 0 to |dm.contexts|
      invariant forall j | 0 <= j < c :: dm.contexts[j].context != name
    {
      if dm.contexts[c].context == name {
        return Some(c);
      }
    }
    return None;
  }

  /** Some message of `c` shows `text` with `comment`. */
  predicate HasMessage(c: ContextItem, text: UString, comment: UString) {
    exists j | 0 <= j < |c.messages| :: Shows(c.messages[j], text, comment)
  }

  /** What DataModel::findMessage finds: the first context named `context`
      holds a message showing `text` with `comment`. */
  predicate Found(dm: DataModel, context: UString, text: UString, comment: UString) {
    exists i | 0 <= i < |dm.contexts| :: FirstNamed(dm.contexts, i, context) && HasMessage(dm.contexts[i], text, comment)
  }

  /** DataModel::findMessage: the (context, message) position found, if any. */
  method FindMessage(dm: DataModel, context: UString, text: UString, comment: UString)
    returns (r: Option<(nat, nat)>)
    ensures r.Some? ==> FirstNamed(dm.contexts, r.value.0, context)
    ensures r.Some? ==>
      r.value.1 < |dm.contexts[r.value.0].messages| && Shows(dm.contexts[r.value.0].messages[r.value.1], text, comment)
    ensures r.Some? <==> Found(dm, context, text, comment)
  {
    var c := FindContext(dm, context);
    if c.Some? {
      var m := FindMessageIn(dm.contexts[c.value], text, comment);
      if m.Some? {
        return Some((c.value, m.value));
      }
      FirstNamedUnique(dm.contexts, c.value, context);
    }
    return None;
  }

  /** There is only one first context of a name. */
  lemma FirstNamedUnique(cs: seq<ContextItem>, i: int, name: UString)
    requires FirstNamed(cs, i, name)
    ensures forall k | FirstNamed(cs, k, name) :: k == i
  {
  }

  // ---------------------------------------------------------------------
  // Merge score (calcMergeScore, isWellMergeable)

  /** How many of the messages `ms` of context `name` are found in `one`. */
  function HitsIn(one: DataModel, ms: seq<MessageItem>, name: UString): (n: nat)
    ensures n <= |ms|
  {
    if ms == [] then 0
    else
      var m := ms[|ms| - 1];
      HitsIn(one, ms[..|ms| - 1], name) + (if Found(one, name, m.Text(), m.Comment()) then 1 else 0)
  }

  /** How many messages of the contexts `cs` are found in `one`. */
  function Hits(one: DataModel, cs: seq<ContextItem>): (n: nat)
    ensures n <= TotalMessages(cs)
  {
    if cs == [] then 0
    else Hits(one, cs[..|cs| - 1]) + HitsIn(one, cs[|cs| - 1].messages, cs[|cs| - 1].context)
  }

  /** The percentage of `two`'s messages also in `one`, truncated. */
  function MergeScore(one: DataModel, two: DataModel): int
    requires two.numMessages > 0
  {
    Hits(one, two.contexts) * 100 / two.numMessages
  }

  /** With no context of that name in `one`, nothing is found. */
  lemma {:induction false} NoContextNoHits(one: DataModel, ms: seq<MessageItem>, name: UString)
    requires forall j | 0 <= j < |one.contexts| :: one.contexts[j].context != name
    ensures HitsIn(one, ms, name) == 0
  {
    if ms != [] {
      NoContextNoHits(one, ms[..|ms| - 1], name);
    }
  }

  /** calcMergeScore: the percentage of `two`'s messages that `one` also
      has, by context, text and comment. */
  method CalcMergeScore(one: DataModel, two: DataModel) returns (score: int)
    requires two.numMessages > 0
    ensures score == MergeScore(one, two)
  {
    var inBoth := 0;
    for i := 0 to |two.contexts|
      invariant inBoth == Hits(one, two.contexts[..i])
    {
      var oc := two.contexts[i];
      assert two.contexts[..i + 1][..i] == two.contexts[..i];
      var c := FindContext(one, oc.context);
      if c.Some? {
        for j := 0 to |oc.messages|
          invariant inBoth == Hits(one, two.contexts[..i]) + HitsIn(one, oc.messages[..j], oc.context)
        {
          var m := oc.messages[j];
          assert oc.messages[..j + 1][..j] == oc.messages[..j];
          var found := FindMessageIn(one.contexts[c.value], m.Text(), m.Comment());
          FirstNamedUnique(one.contexts, c.value, oc.context);
          if found.Some? {
            inBoth := inBoth + 1;
          }
        }
        assert oc.messages[..|oc.messages|] == oc.messages;
      } else {
        NoContextNoHits(one, oc.messages, oc.context);
      }
    }
    assert two.contexts[..|two.contexts|] == two.contexts;
    score := inBoth * 100 / two.numMessages;
  }

  /** The merge test: the models merge well when either is empty or their
      two scores add up to more than 90. */
  predicate WellMergeable(one: DataModel, other: DataModel) {
    other.numMessages == 0 || one.numMessages == 0 || MergeScore(one, other) + MergeScore(other, one) > 90
  }

  /** DataModel::isWellMergeable. */
  method IsWellMergeable(one: DataModel, other: DataModel) returns (r: bool)
    ensures r == WellMergeable(one, other)
    ensures other.numMessages == 0 || one.numMessages == 0 ==> r
  {
    if other.numMessages == 0 || one.numMessages == 0 {
      return true;
    }
    var a := CalcMergeScore(one, other);
    var b := CalcMergeScore(other, one);
    return a + b > 90;
  }

  /** The test does not depend on which model asks. */
  lemma WellMergeableSymmetric(one: DataModel, other: DataModel)
    ensures WellMergeable(one, other) == WellMergeable(other, one)
  {
  }

  /** On a well-formed model the score is a percentage. */
  lemma MergeScoreIsPercentage(one: DataModel, two: DataModel)
    requires two.Wellformed() && two.numMessages > 0
    ensures 0 <= MergeScore(one, two) <= 100
  {
    Percent(Hits(one, two.contexts), two.numMessages);
  }

  lemma MulDivCancel(n: nat)
    requires 0 < n
    ensures n * 100 / n == 100
  {
    assert n * 100 == 100 * n + 0;
  }

  /** `q * n + r == h * 100` with `r < n` and `h < n` forces `q < 100`. */
  lemma MulLower(q: int, n: nat, h: nat)
    requires 0 < n && h < n && 0 <= h * 100 - q * n < n
    ensures 0 <= q <= 100
  {
  }

  lemma Percent(h: nat, n: nat)
    requires 0 < n && h <= n
    ensures 0 <= h * 100 / n <= 100
    ensures h == n ==> h * 100 / n == 100
  {
    var q, r := h * 100 / n, h * 100 % n;
    assert h * 100 == q * n + r && 0 <= r < n;
    if h == n {
      MulDivCancel(n);
    } else {
      MulLower(q, n, h);
    }
  }

  /** Every message of a well-formed model is found in that model. */
  lemma {:induction false} SelfHitsIn(dm: DataModel, k: nat, n: nat)
    requires dm.Wellformed() && k < |dm.contexts| && n <= |dm.contexts[k].messages|
    ensures HitsIn(dm, dm.contexts[k].messages[..n], dm.contexts[k].context) == n
  {
    if n > 0 {
      var c := dm.contexts[k];
      var ms := c.messages[..n];
      assert ms[..n - 1] == c.messages[..n - 1];
      SelfHitsIn(dm, k, n - 1);
      var m := ms[n - 1];
      assert Shows(c.messages[n - 1], m.Text(), m.Comment());
      assert FirstNamed(dm.contexts, k, c.context);
    }
  }

  lemma {:induction false} SelfHits(dm: DataModel, n: nat)
    requires dm.Wellformed() && n <= |dm.contexts|
    ensures Hits(dm, dm.contexts[..n]) == TotalMessages(dm.contexts[..n])
  {
    if n > 0 {
      var cs := dm.contexts[..n];
      assert cs[..n - 1] == dm.contexts[..n - 1];
      SelfHits(dm, n - 1);
      var c := dm.contexts[n - 1];
      SelfHitsIn(dm, n - 1, |c.messages|);
      assert c.messages[..|c.messages|] == c.messages;
    }
  }

  /** A non-empty well-formed model scores 100 against itself and so merges
      well with itself. */
  lemma SelfMergeable(dm: DataModel)
    requires dm.Wellformed() && dm.numMessages > 0
    ensures MergeScore(dm, dm) == 100
    ensures WellMergeable(dm, dm)
  {
    SelfHits(dm, |dm.contexts|);
    assert dm.contexts[..|dm.contexts|] == dm.contexts;
    Percent(Hits(dm, dm.contexts), dm.numMessages);
  }

  // ---------------------------------------------------------------------
  // Language guess

  /** The language to load with, and whether it was guessed: the file's own
      language code when it has one; otherwise the part of the file's base
      name after its first '_', or nothing when the name has no '_'. */
  function GuessLanguage(languageCode: UString, baseName: UString): (r: (UString, bool))
    ensures languageCode != [] ==> r == (languageCode, false)
    ensures languageCode == [] ==> r.1
    ensures languageCode == [] && UNDERSCORE !in baseName ==> r.0 == []
    ensures languageCode == [] && UNDERSCORE in baseName ==>
      exists pos | 0 <= pos < |baseName| ::
        baseName[pos] == UNDERSCORE && UNDERSCORE !in baseName[..pos] && r.0 == baseName[pos + 1..]
  {
    if languageCode != [] then (languageCode, false)
    else
      var pos := Ncr.IndexOfUnit(baseName, UNDERSCORE);
      Ncr.IndexOfUnitFirst(baseName, UNDERSCORE);
      if pos != -1 then (baseName[pos + 1..], true)
      else (
        assert forall i | 0 <= i < |baseName| :: baseName[i] != UNDERSCORE;
        ([], true))
  }
}
