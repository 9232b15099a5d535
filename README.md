# Qt Linguist and Qt Assistant core, modelled in Dafny

This project models five parts of qttools and proves properties about them.

- **Linguist's translation data model** (`messagemodel.cpp`):
  - `resolveNcr` and `showNcr`, the codec for numeric character references;
  - `doCharCounting`;
  - `DataModel`: the grouping of a loaded file's messages into contexts, the lookups, the merge score and the language guess;
  - `DataModelIterator`;
  - the side-by-side `MultiDataModel`: its per-context matrix of `MultiContextItem` and `MultiMessageItem`, `append`, `close`, `closeAll`, `updateCountsOnAdd`/`updateCountsOnRemove`, `setFinished`, `setDanger` and `isModified`;
  - the tree encoding and sort keys of the `MessageModel` view adapter.
- **Phrase books** (`qph.cpp`): `qphProtect`, `saveQPH`, the `QPHReader` state machine and `loadQPH`. This includes the round trip: what loading a saved phrase book gives back.
- **Qt Assistant's help viewer** (`helpviewer.cpp`): the back/forward history capped at twenty pages, the font zoom clamped to [10, 300], the MIME table lookup, `canOpenPage` and `isLocalUrl`.
- **`extractProFiles`** (`profileutils.h`): it splits qmake project files out of a file list in place.

Strings are sequences of UTF-16 code units (`Text.UString`), because `resolveNcr` writes surrogate pairs. The exception is the help viewer, which works on characters.

Some code changes state step by step. It is modelled imperatively:
- `MultiDataModel`, `QPHReader`, the help viewer and the file list are classes whose methods update fields;
- the loops of `resolveNcr`, `showNcr`, `qphProtect`, `load`, `updateCounts*`, `append`, `close` and the lookups are methods with loop invariants;
- each method is proved against a specification function.

The large counting proofs work on values: `MultiContextItem` is a value in a `QList`, and `MultiDataModel`'s state is written `MultiEdit.Multi`. The invariant `MultiState.Consistent` ties every counter to a from-scratch count over the cells. Each such count can leave out one model, the one being added or removed. Every operation of the multi-model is proved to keep this invariant.

`messagemodel.h`, `translator.h`, `TranslatorMessage` and `QXmlStreamReader` are not part of this model. The facts used from them are:
- `messagemodel.h`: an obsolete message is `Obsolete` or `Vanished`, `isEmpty()` means no non-null cell, and `countEditable()` and `countUnfinished()` are the counters.
- `translator.h`: the text and binary variant separators are U+2762 and U+009C.
- `TranslatorMessage`: the fields listed under "Left out".
- `QXmlStreamReader`: the idealised reader described under "Left out".

## Model

| member | source | states |
|---|---|---|
| Text.Digits | src/linguist/linguist/messagemodel.cpp:70 | the digits QString::arg(c, 0, 16) writes: never empty, every unit a digit of the base |
| Text.ParseDigits | src/linguist/linguist/messagemodel.cpp:44 | reading the digits of a number back (toUInt) gives the number |
| Text.ParseNumAllDigits | src/linguist/linguist/messagemodel.cpp:44 | a digit run that toUInt accepts holds digits only |
| Ncr.IndexOfRef | src/linguist/linguist/messagemodel.cpp:27 | indexOf(u"&#"): -1 or a position where `&#` starts |
| Ncr.IndexOfRefFirst | src/linguist/linguist/messagemodel.cpp:27 | no `&#` starts before the reported position |
| Ncr.IndexOfUnit | src/linguist/linguist/messagemodel.cpp:41 | indexOf(';'): -1 or a position holding `;` |
| Ncr.IndexOfUnitFirst | src/linguist/linguist/messagemodel.cpp:41 | no `;` comes before the reported position |
| Ncr.Encode | src/linguist/linguist/messagemodel.cpp:46-50 | a code point below 0x10000 is one unit; above, a high and a low surrogate that combine back to it |
| Ncr.ResolveNcr | src/linguist/linguist/messagemodel.cpp:19-62 | the loop that slices `str` after each round returns Resolve(input) |
| Ncr.ResolveAt | src/linguist/linguist/messagemodel.cpp:27-39 | one round: the text before the first `&#` is copied, then the round at it |
| Ncr.DecodedRound | src/linguist/linguist/messagemodel.cpp:41-53 | a reference with digits before `;` and value at most 0x10FFFF is replaced by its code point and scanning resumes after `;` |
| Ncr.KeptRound | src/linguist/linguist/messagemodel.cpp:41-58 | an undecodable `&#` or `&#x` is copied as it stands and scanning resumes right after it |
| Ncr.LastRound | src/linguist/linguist/messagemodel.cpp:28-60 | with no `&#` followed by a unit left, the rest is copied |
| Ncr.NoReferenceUnchanged | src/linguist/linguist/messagemodel.cpp:27-60 | a text without `&#` comes back unchanged |
| Ncr.NoSemicolonUnchanged | src/linguist/linguist/messagemodel.cpp:41-42 | a text without `;` comes back unchanged |
| Ncr.ResolvePrefix | src/linguist/linguist/messagemodel.cpp:27-28 | plain text in front is copied and does not change how the rest is resolved |
| Ncr.ResolveReference | src/linguist/linguist/messagemodel.cpp:44-53 | a complete decimal or hex reference becomes its code point, a surrogate pair above 0xFFFF |
| Ncr.ResolveKeepsUndecodable | src/linguist/linguist/messagemodel.cpp:42-58 | missing digits, a non-digit, no `;` or a value beyond 0x10FFFF: `&#` / `&#x` is kept verbatim |
| Ncr.ShowNcr | src/linguist/linguist/messagemodel.cpp:64-75 | the loop returns Show: each non-printable unit above 0x20 as `&#x<hex>;`, every other unit as itself |
| Ncr.AdjustNcrVisibility | src/linguist/linguist/messagemodel.cpp:77-80 | showNcr in NCR mode, resolveNcr otherwise |
| Ncr.ResolveEscaped | src/linguist/linguist/messagemodel.cpp:44-70 | `&#x<hex of c>;` resolves back to c |
| Ncr.ShowThenResolve | src/linguist/linguist/messagemodel.cpp:19-75 | for text without `&`, resolveNcr(showNcr(s)) == s |
| Text.DigitValue | src/linguist/linguist/messagemodel.cpp:44 | a digit's value lies below the base, and ';' is no digit |
| Text.ParseNum | src/linguist/linguist/messagemodel.cpp:44 | toUInt accepts only a non-empty run of digits |
| Text.DigitRoundTrip | src/linguist/linguist/messagemodel.cpp:44-70 | a digit written by arg() reads back as its value |
| Ncr.Resolve | src/linguist/linguist/messagemodel.cpp:19-62 | decoding never lengthens the text |
| Ncr.Show | src/linguist/linguist/messagemodel.cpp:64-75 | escaping never shortens the text |
| Ncr.ResolveShowUnit | src/linguist/linguist/messagemodel.cpp:64-75 | what showNcr writes for a unit other than '&' resolves back to that unit, whatever follows |
| DataModel.WordRuns | src/linguist/linguist/messagemodel.cpp:458-467 | the number of maximal runs of letters, digits and '_' is at most the length |
| DataModel.NonSpaceCount | src/linguist/linguist/messagemodel.cpp:468-469 | the number of non-space units is at most the length |
| DataModel.WordRunsSplit | src/linguist/linguist/messagemodel.cpp:458-467 | a unit that is no word unit splits the word runs: the runs of the two sides add up |
| DataModel.NonSpaceConcat | src/linguist/linguist/messagemodel.cpp:468-469 | the non-space count of a concatenation is the sum of the counts |
| DataModel.DoCharCounting | src/linguist/linguist/messagemodel.cpp:455-471 | adds the word runs, the non-space units and the length to the three counters, which never decrease |
| DataModel.NewContext | src/linguist/linguist/messagemodel.cpp:151-157 | a new context has the name, no comment, no messages and counters that agree with its (no) messages |
| DataModel.ContextItem.AppendToComment | src/linguist/linguist/messagemodel.cpp:159-164 | only the comment changes: the old comment is a prefix, `str` the suffix, with a blank line between when the old comment was not empty |
| DataModel.AppendToCommentJoins | src/linguist/linguist/messagemodel.cpp:159-164 | appending comments one by one joins them with blank lines (see also lines 333-334) |
| DataModel.CountOf | src/linguist/linguist/messagemodel.cpp:337-342 | a context counter counts at most all its messages |
| DataModel.LoadInto | src/linguist/linguist/messagemodel.cpp:332-346 | one round of the loading loop: a context comment is appended to the comment, a message is appended, counted and measured |
| DataModel.ExpectedStep | src/linguist/linguist/messagemodel.cpp:326-347 | one more message changes only its own context: comment appended, or message appended with finished and non-obsolete counts raised |
| DataModel.ExpectedAgrees | src/linguist/linguist/messagemodel.cpp:337-344 | the counters of every loaded context agree with its messages |
| DataModel.ContextNamesDistinct | src/linguist/linguist/messagemodel.cpp:320-330 | the contexts created by loading have distinct names |
| DataModel.ContextNamesListed | src/linguist/linguist/messagemodel.cpp:326-330 | a context exists after loading exactly when some message names it |
| DataModel.UnlistedIsEmpty | src/linguist/linguist/messagemodel.cpp:326-330 | a context no message names has neither messages nor comments |
| DataModel.StatsStep | src/linguist/linguist/messagemodel.cpp:339-341 | a finished or unfinished message adds the counts of its text and plural text; other messages add nothing |
| DataModel.Load | src/linguist/linguist/messagemodel.cpp:281-286 | from the messages left after resolveDuplicates: an empty file is refused; otherwise contexts in first-seen order, each as Expected, the model well-formed and unmodified, the statistics those of the measured messages (see also lines 314-347) |
| DataModel.FindMessageIn | src/linguist/linguist/messagemodel.cpp:174-182 | the first message whose text and comment match, none exactly when no message matches |
| DataModel.FindContext | src/linguist/linguist/messagemodel.cpp:229-237 | the first context of that name, none exactly when no context has it |
| DataModel.FindMessage | src/linguist/linguist/messagemodel.cpp:239-245 | found exactly when the first context of that name holds a matching message, and then that message |
| DataModel.FirstNamedUnique | src/linguist/linguist/messagemodel.cpp:229-237 | there is only one first context of a name |
| DataModel.HitsIn | src/linguist/linguist/messagemodel.cpp:253-257 | the hits of a context are at most its messages |
| DataModel.Hits | src/linguist/linguist/messagemodel.cpp:249-259 | the hits over all contexts are at most all messages |
| DataModel.NoContextNoHits | src/linguist/linguist/messagemodel.cpp:252 | a context the other model lacks contributes no hits |
| DataModel.CalcMergeScore | src/linguist/linguist/messagemodel.cpp:247-261 | the loop computes the truncated percentage of `two`'s messages found in `one` |
| DataModel.IsWellMergeable | src/linguist/linguist/messagemodel.cpp:263-269 | true when either model is empty, otherwise exactly when the two scores add up to more than 90; never divides by zero |
| DataModel.WellMergeableSymmetric | src/linguist/linguist/messagemodel.cpp:263-269 | the test gives the same answer whichever model asks |
| DataModel.MergeScoreIsPercentage | src/linguist/linguist/messagemodel.cpp:260 | on a well-formed model the score lies in [0, 100] |
| DataModel.SelfMergeable | src/linguist/linguist/messagemodel.cpp:247-269 | a non-empty well-formed model scores 100 against itself and merges well with itself |
| DataModel.GuessLanguage | src/linguist/linguist/messagemodel.cpp:356-366 | the file's language code if it has one (not guessed); otherwise the base name after its first '_', or empty without '_', marked as guessed |
| DataModel.SelfHits | src/linguist/linguist/messagemodel.cpp:249-259 | every message of a well-formed model is found in the model itself |
| ModelIterator.ItemAt | src/linguist/linguist/messagemodel.cpp:166-172 | an item exactly when the context and message indices are in range, and then that item; a null pointer otherwise (see also lines 214-227) |
| ModelIterator.Iterator.constructor | src/linguist/linguist/messagemodel.cpp:586-589 | the cursor starts at the given context and message of the model |
| ModelIterator.Iterator.Current | src/linguist/linguist/messagemodel.cpp:605-608 | an item exactly when the cursor is valid and its message index is inside its context, and then that item |
| ModelIterator.Iterator.Advance | src/linguist/linguist/messagemodel.cpp:596-603 | the next message of the same context, or message 0 of the next context once the current one is exhausted |
| ModelIterator.Iterator.SkipEmpty | src/linguist/linguist/messagemodel.cpp:596-603 | the cursor passes only contexts without items and then rests on an item or past the end |
| ModelIterator.Iterator.Next | src/linguist/linguist/messagemodel.cpp:596-603 | corrected `++`: the next item in order, passing only contexts without items, so a valid cursor always rests on an item |
| ModelIterator.Walk | src/linguist/linguist/messagemodel.cpp:400-402 | the as-written walk of save() sees each context's items, and a null position for each context without items (see also lines 586-608) |
| ModelIterator.WalkItems | src/linguist/linguist/messagemodel.cpp:586-608 | the corrected walk yields every item exactly once, in order, and as many as the model counts |
| ModelIterator.AllItemsSkip | src/linguist/linguist/messagemodel.cpp:596-603 | contexts without items contribute nothing to the items walked |
| ModelIterator.VisitedHasNull | src/linguist/linguist/messagemodel.cpp:596-608 | the as-written walk meets a null item exactly when some context holds no items |
| ModelIterator.VisitedIsItems | src/linguist/linguist/messagemodel.cpp:596-608 | without empty contexts the as-written walk sees exactly the items, in order |
| ModelIterator.CommentOnlyContextWalk | src/linguist/linguist/messagemodel.cpp:326-334 | a file holding only a context comment loads into a context without items, and the as-written walk hands save() a null item (see also lines 400-402) |
| MultiContext.NewMultiMessage | src/linguist/linguist/messagemodel.cpp:617-627 | a new row copies the message's id, text, plural text and comment and starts with every counter at zero |
| MultiContext.CellItem | src/linguist/linguist/messagemodel.cpp:1085-1096 | a cell yields a message only through a valid context pointer and message index, and then that message |
| MultiContext.NewMultiContext | src/linguist/linguist/messagemodel.cpp:635-658 | a context first seen in model `oldCount`: one row per message, the earlier models hold null pointers, the new model holds messages 0..n-1, counters zero |
| MultiContext.MultiContextItem.AppendEmptyModel | src/linguist/linguist/messagemodel.cpp:660-668 | a null context pointer and a list of nulls as long as the rows are appended; nothing else changes |
| MultiContext.MultiContextItem.AssignLastModel | src/linguist/linguist/messagemodel.cpp:670-676 | only the last model's context pointer changes |
| MultiContext.MultiContextItem.RemoveModel | src/linguist/linguist/messagemodel.cpp:686-691 | model `pos` is dropped from the context-pointer lists; nothing else changes |
| MultiContext.MultiContextItem.PutMessageItem | src/linguist/linguist/messagemodel.cpp:693-696 | only cell `pos` of the last model changes, to the given message |
| MultiContext.MultiContextItem.AppendMessageItems | src/linguist/linguist/messagemodel.cpp:698-708 | every earlier model gets nulls, the last model the given messages, and a new row per message |
| MultiContext.MultiContextItem.RemoveMultiMessageItem | src/linguist/linguist/messagemodel.cpp:710-715 | row `pos` is dropped from the rows and from every model's list; nothing else changes |
| MultiContext.FirstByText | src/linguist/linguist/messagemodel.cpp:725-733 | the first row with that text and comment, no earlier row having them; none exactly when no row has them |
| MultiContext.FirstById | src/linguist/linguist/messagemodel.cpp:735-743 | the first row with that id, no earlier row having it; none exactly when no row has it |
| MultiContext.MultiContextItem.FindMessage | src/linguist/linguist/messagemodel.cpp:725-733 | the loop finds exactly FirstByText of the rows |
| MultiContext.MultiContextItem.FindMessageById | src/linguist/linguist/messagemodel.cpp:735-743 | the loop finds exactly FirstById of the rows |
| MultiContext.MultiContextItem.FirstNonobsoleteModel | src/linguist/linguist/messagemodel.cpp:717-723 | the first model holding the row as a live message; none exactly when no model does |
| MultiContext.CountIn | src/linguist/linguist/messagemodel.cpp:1193-1218 | counting one cell in: each row counter grows by whether the cell counts for it, unfinished stays within editable, and the context deltas are exactly the changes of the row's standing |
| MultiContext.CountOut | src/linguist/linguist/messagemodel.cpp:1228-1253 | counting one cell out: each row counter shrinks by whether the cell counted for it, unfinished stays within editable, and the context deltas are the changes of the row's standing |
| MultiContext.UnfinishedWithinEditable | src/linguist/linguist/messagemodel.cpp:1201-1214 | a row never has more unfinished cells than editable ones |
| MultiContext.NoCellsNoTally | src/linguist/linguist/messagemodel.cpp:1195-1197 | a row whose cells are all null counts nothing |
| MultiContext.TallyDelete | src/linguist/linguist/messagemodel.cpp:686-691 | removing a model's cell leaves the counts of the other cells as they were |
| MultiContext.ZeroRowsAppend | src/linguist/linguist/messagemodel.cpp:698-708 | appended rows with zero counters leave the context counters as they were |
| MultiContext.ZeroRowDelete | src/linguist/linguist/messagemodel.cpp:710-715 | deleting a row with zero counters leaves the context counters as they were |
| MultiState.WithEmptyModel | src/linguist/linguist/messagemodel.cpp:831-836 | every context gains an empty column and nothing else |
| MultiState.AllEmptyModelKeeps | src/linguist/linguist/messagemodel.cpp:829-837 | after the empty column is added, pointers still lead into the models and every counter counts all models but the new one |
| MultiState.NewContextSound | src/linguist/linguist/messagemodel.cpp:635-658 | a context first seen in the new model points into it, counts nothing yet and has counters that agree with its rows |
| MultiState.NewContextKeeps | src/linguist/linguist/messagemodel.cpp:866-869 | appending a context no open model has keeps the state consistent, with the row total grown by its messages |
| MultiState.PlaceStart | src/linguist/linguist/messagemodel.cpp:841-843 | a context already shown has no pointer into the new model when its turn comes, because context names are unique in a model |
| MultiState.PlacedKeeps | src/linguist/linguist/messagemodel.cpp:841-865 | a context of the new model that was already shown, once its messages are placed and the rest appended, keeps the state consistent, with the row total grown by the appended messages |
| MultiCount.CountRowIn | src/linguist/linguist/messagemodel.cpp:1193-1218 | one row of updateCountsOnAdd: the row then counts the new model's cell too, and the model-wide counters move exactly with the context's |
| MultiCount.CountContextIn | src/linguist/linguist/messagemodel.cpp:1191-1219 | the rows of one context of updateCountsOnAdd, only counters change |
| MultiCount.CountRowsIn | src/linguist/linguist/messagemodel.cpp:1193-1218 | the loop over the rows of one context of updateCountsOnAdd |
| MultiCount.CountRowOut | src/linguist/linguist/messagemodel.cpp:1228-1253 | one row of updateCountsOnRemove: the row then leaves the model's cell out, and the model-wide counters move exactly with the context's |
| MultiCount.CountContextOut | src/linguist/linguist/messagemodel.cpp:1226-1254 | the rows of one context of updateCountsOnRemove, only counters change |
| MultiCount.CountRowsOut | src/linguist/linguist/messagemodel.cpp:1228-1253 | the loop over the rows of one context of updateCountsOnRemove |
| MultiCount.CountModelIn | src/linguist/linguist/messagemodel.cpp:1189-1222 | updateCountsOnAdd: from counters that leave model `n` out, every row, context and model-wide counter ends equal to its from-scratch count over all models; nothing but counters changes |
| MultiCount.CountModelOut | src/linguist/linguist/messagemodel.cpp:1224-1257 | updateCountsOnRemove: from counters over all models, every counter ends equal to its from-scratch count leaving model `n` out; nothing but counters changes |
| MultiAppend.FindContextIndex | src/linguist/linguist/messagemodel.cpp:1065-1073 | the first context of that name; none exactly when no context has it |
| MultiState.TargetRow | src/linguist/linguist/messagemodel.cpp:848-854 | the row a message of the new model goes to matches it (by id or by text and comment); the first row with its id whenever the id is non-empty and some row has it; none exactly when no row matches |
| MultiState.Targets | src/linguist/linguist/messagemodel.cpp:846-859 | the target row of each message, in message order |
| MultiState.LastPlaced | src/linguist/linguist/messagemodel.cpp:856-857 | the last message whose target is the row, no later message targeting it; none exactly when no message targets it, since a later putMessageItem overwrites the cell |
| MultiState.Unplaced | src/linguist/linguist/messagemodel.cpp:858-859 | the messages no row matches, in increasing order, and every such message |
| MultiState.UnplacedAll | src/linguist/linguist/messagemodel.cpp:869-870 | with nothing to match against every message becomes a new row, in order |
| MultiState.PlacedStep | src/linguist/linguist/messagemodel.cpp:846-859 | placing one more message either writes it into its target row's cell or keeps it for a new row, and the column stays the last message placed on each row |
| MultiState.ShowsPlacedLayout | src/linguist/linguist/messagemodel.cpp:840-866 | what a context shows of the new model depends on its layout only, not on its counters |
| MultiState.NewContextShows | src/linguist/linguist/messagemodel.cpp:869-870 | a context first seen in the new model shows every message as a new row, held by that message |
| MultiAppend.PlaceMessages | src/linguist/linguist/messagemodel.cpp:843-859 | on every existing row the new model's cell ends as the last message whose target is that row; exactly the unmatched messages are returned, in order, to become new rows |
| MultiAppend.PlacedShows | src/linguist/linguist/messagemodel.cpp:843-866 | the placed context keeps its old rows with the last message placed on each, followed by one new row per unmatched message, held by it |
| MultiAppend.MergeContext | src/linguist/linguist/messagemodel.cpp:840-866 | only the context of the same name changes: it gains the pointer to the new model's context it lacked, keeps its rows and cells for the earlier models, and shows the messages placed on its old rows with the unmatched ones as new rows after them |
| MultiAppend.MergedPointers | src/linguist/linguist/messagemodel.cpp:840-866 | merging into one context that had no pointer into the new model extends the list, changes no other context and leaves the merged one showing its messages |
| MultiAppend.AppendContext | src/linguist/linguist/messagemodel.cpp:838-872 | one context of the new model is merged into the context of the same name or appended as a new one; the earlier contexts are only extended, only a context without a pointer into the new model changes, and one such context or the new one shows its messages placed |
| MultiAppend.NewContextAppended | src/linguist/linguist/messagemodel.cpp:869-872 | a context no open model has is appended with a pointer to it and all its messages as new rows; the others stay |
| MultiAppend.ShownSoFar | src/linguist/linguist/messagemodel.cpp:838-872 | one more context of the new model handled: the contexts shown before stay shown and the contexts still without a pointer keep the rows they had |
| MultiAppend.AppendContexts | src/linguist/linguist/messagemodel.cpp:838-872 | after the loop every context of the new model is shown by a context pointing at it, with its messages placed on the rows that context had before the loop (none for a new context) and the unmatched ones as new rows; the earlier contexts are only extended, and a context left without a pointer is an earlier one with exactly its earlier rows |
| MultiAppend.UntouchedRecounted | src/linguist/linguist/messagemodel.cpp:883 | recounting after the append loop keeps its frame: a context without a pointer into the new model is an earlier one whose rows are, counters aside, the rows it had |
| MultiAppend.AppendModel | src/linguist/linguist/messagemodel.cpp:827-892 | append: the model becomes the last column with its writable flag set; earlier contexts keep their rows and cells, new rows and contexts are held by no earlier model; a context without a pointer into the new model is an earlier one with, counters aside, exactly its earlier rows, so no other context or row appears; every context of the model is shown by a context pointing at it, each message on its matching row from before or on a new row; all counters, the row total included, count all models |
| MultiClose.Delete | src/linguist/linguist/messagemodel.cpp:904 | the list without element `n`, the others in order |
| MultiClose.DropModel | src/linguist/linguist/messagemodel.cpp:899-903 | removeModel on every context |
| MultiClose.DropModelKeeps | src/linguist/linguist/messagemodel.cpp:897-904 | once the model is counted out, dropping its column leaves a state consistent over the remaining models |
| MultiClose.NonEmpty | src/linguist/linguist/messagemodel.cpp:911-917 | the rows some model still holds, never more than there were |
| MultiClose.NonEmptyMembers | src/linguist/linguist/messagemodel.cpp:911-917 | a row is kept exactly when it was there and is not empty |
| MultiClose.Mask | src/linguist/linguist/messagemodel.cpp:912-918 | the elements whose flag is set, never more than there were |
| MultiClose.PrunedContext | src/linguist/linguist/messagemodel.cpp:912-918 | the context with its non-empty rows, every model's cells masked alike, and nothing else changed |
| MultiClose.PruneRows | src/linguist/linguist/messagemodel.cpp:912-918 | the loop ends with exactly PrunedContext of the context, one message less for each dropped row, keeping the context linked and counted |
| MultiClose.Survivors | src/linguist/linguist/messagemodel.cpp:908-923 | the contexts that keep rows, with their non-empty rows |
| MultiClose.PruneContexts | src/linguist/linguist/messagemodel.cpp:909-924 | the contexts become exactly the Survivors: each with its non-empty rows, the ones left without rows gone; no empty row or context remains, and consistency and the row total are kept |
| MultiClose.Trim | src/linguist/linguist/messagemodel.cpp:909-924 | a context as close leaves it, seen without counters: only the rows no model holds and their cells go; name and pointers stay |
| MultiClose.Closed | src/linguist/linguist/messagemodel.cpp:909-924 | the trimmed contexts that keep a row, never more than there were |
| MultiClose.EmptyIsUnheld | src/linguist/linguist/messagemodel.cpp:913 | in a linked, counted context a row is empty exactly when no model holds a cell in it |
| MultiClose.PrunedLayout | src/linguist/linguist/messagemodel.cpp:912-922 | pruning a linked, counted context gives the trimmed layout, and leaves no rows exactly when trimming leaves none |
| MultiClose.SurvivorsLayouts | src/linguist/linguist/messagemodel.cpp:909-924 | the contexts the loop keeps have exactly the closed layouts |
| MultiClose.ClosedSameLayout | src/linguist/linguist/messagemodel.cpp:909-924 | what close leaves depends on rows, cells and pointers only, not on the counters |
| MultiClose.DropSameLayout | src/linguist/linguist/messagemodel.cpp:901-905 | dropping a column from contexts of one layout leaves contexts of one layout |
| MultiClose.ClosedWithoutModels | src/linguist/linguist/messagemodel.cpp:895-896 | with no model left no row is held and no context remains, as closeAll leaves it |
| MultiClose.CloseModel | src/linguist/linguist/messagemodel.cpp:897-925 | close with several models: the column goes, every counter counts the remaining models, no empty row or context remains, and the layouts left are exactly Closed of the contexts without the column: a row stays exactly when a remaining model holds it, a context exactly when it keeps a row |
| MultiClose.CountsDetermined | src/linguist/linguist/messagemodel.cpp:1189-1257 | two consistent states with the same rows and pointers have the same counters |
| MultiClose.RemoveThenAddRestores | src/linguist/linguist/messagemodel.cpp:1189-1257 | updateCountsOnRemove followed by updateCountsOnAdd on the same column restores every counter |
| MultiEdit.Multi.MessageItemAt | src/linguist/linguist/messagemodel.cpp:1085-1096 | a message exactly when the cell holds one, and then that message of the column's model |
| MultiEdit.FinishedEdit | src/linguist/linguist/messagemodel.cpp:1115-1154 | a flip between unfinished and finished keeps every counter equal to its count, the finished total moving with the row's flip |
| MultiEdit.SetFinishedValid | src/linguist/linguist/messagemodel.cpp:1108-1156 | setFinished keeps every row, context and model-wide counter equal to its count over all models |
| MultiEdit.DangerEdit | src/linguist/linguist/messagemodel.cpp:1162-1186 | a changed danger flag keeps every counter right and moves none of the multi-model counters |
| MultiEdit.SetDangerValid | src/linguist/linguist/messagemodel.cpp:1158-1187 | setDanger keeps every counter equal to its count over all models |
| MultiEdit.SetFinishedSets | src/linguist/linguist/messagemodel.cpp:1114-1136 | afterwards a live message is finished exactly as asked, an obsolete one is untouched, and the danger flag is kept |
| MultiEdit.SetFinishedNoFlip | src/linguist/linguist/messagemodel.cpp:1114-1135 | nothing changes unless the type flips between unfinished and finished |
| MultiEdit.SetFinishedToggle | src/linguist/linguist/messagemodel.cpp:1108-1156 | finishing an unfinished message and unfinishing it again restores the whole state except the modified flags |
| MultiEdit.SetDangerToggle | src/linguist/linguist/messagemodel.cpp:1158-1187 | setting the danger flag and clearing it again restores the whole state |
| MultiData.NewHitsIn | src/linguist/linguist/messagemodel.cpp:800-809 | the hits of one context of the new model are at most its messages |
| MultiData.NewHits | src/linguist/linguist/messagemodel.cpp:798-810 | the messages of the new model the open models hold are at most its messages |
| MultiData.OldHitsIn | src/linguist/linguist/messagemodel.cpp:813-820 | the hits of one open context are at most its rows |
| MultiData.OldHits | src/linguist/linguist/messagemodel.cpp:812-821 | the open rows the new model holds are at most the open rows |
| MultiData.FirstMultiUnique | src/linguist/linguist/messagemodel.cpp:1075-1083 | there is only one first context of a name |
| MultiData.NoMultiNoHits | src/linguist/linguist/messagemodel.cpp:803-805 | a context no open model has contributes no hits |
| MultiData.NoContextNoOldHits | src/linguist/linguist/messagemodel.cpp:815-817 | an open context the new model lacks contributes no hits |
| MultiData.MergeRatiosArePercentages | src/linguist/linguist/messagemodel.cpp:811-822 | with messages on both sides both ratios lie in [0, 100] |
| MultiData.AllPresentMergesWell | src/linguist/linguist/messagemodel.cpp:793-825 | a model all of whose messages are already open merges well |
| MultiData.CountNewIn | src/linguist/linguist/messagemodel.cpp:800-809 | the loop counts the messages of one context the open models hold |
| MultiData.CountOldIn | src/linguist/linguist/messagemodel.cpp:813-820 | the loop counts the rows of one open context the new model holds |
| MultiData.SetFinishedOn | src/linguist/linguist/messagemodel.cpp:1108-1156 | the steps of setFinished compute exactly SetFinishedState |
| MultiData.SetDangerOn | src/linguist/linguist/messagemodel.cpp:1158-1187 | the steps of setDanger compute exactly SetDangerState |
| MultiData.MultiDataModel.constructor | src/linguist/linguist/messagemodel.cpp:761-767 | no model open, every counter zero, not modified |
| MultiData.MultiDataModel.IsModified | src/linguist/linguist/messagemodel.cpp:1032-1038 | true exactly when some open model is modified |
| MultiData.MultiDataModel.IsWellMergeable | src/linguist/linguist/messagemodel.cpp:793-825 | true when either side is empty, otherwise exactly when the two truncated percentages add up to more than 90 |
| MultiData.MultiDataModel.Append | src/linguist/linguist/messagemodel.cpp:827-892 | as AppendModel, on the fields: every context of the new model shown with its messages placed, no other context created and no row added elsewhere; the invariant kept and the modified flag untouched |
| MultiData.MultiDataModel.CloseAll | src/linguist/linguist/messagemodel.cpp:929-941 | no model, no context, every counter zero, not modified |
| MultiData.MultiDataModel.Close | src/linguist/linguist/messagemodel.cpp:893-927 | the model leaves the list; the last model closes everything, any other leaves exactly the layouts Closed gives for the contexts without its column; the invariant is kept and the modified flag recomputed |
| MultiData.MultiDataModel.SetFinished | src/linguist/linguist/messagemodel.cpp:1108-1156 | the new state is SetFinishedState of the old one, and the invariant is kept |
| MultiData.MultiDataModel.SetDanger | src/linguist/linguist/messagemodel.cpp:1158-1187 | the new state is SetDangerState of the old one, and the invariant is kept |
| MessageModel.CreateIndex | src/linguist/linguist/messagemodel.cpp:1311-1313 | an index made by the model is valid exactly when its row and column are not negative |
| MessageModel.Index | src/linguist/linguist/messagemodel.cpp:1309-1316 | a context below the root, a message below a context carrying that context's row plus one, nothing valid below a message |
| MessageModel.Parent | src/linguist/linguist/messagemodel.cpp:1318-1323 | a valid parent exactly for an index with a non-zero id, and then a context index in column 0 |
| MessageModel.RowCount | src/linguist/linguist/messagemodel.cpp:1350-1357 | the contexts below the root, the rows of a context below it, none below a message |
| MessageModel.ColumnCount | src/linguist/linguist/messagemodel.cpp:1359-1364 | the models plus three columns at the top level, plus two below it |
| MessageModel.IndexParentRoundTrip | src/linguist/linguist/messagemodel.cpp:1309-1323 | a message made below a context finds that context again as its parent, in column 0 |
| MessageModel.TreeDepthTwo | src/linguist/linguist/messagemodel.cpp:1309-1323 | a top-level index has the root as parent, and no index has a grandparent |
| MessageModel.MessagesAreLeaves | src/linguist/linguist/messagemodel.cpp:1315-1356 | below a message there are no rows and no valid indexes |
| MessageModel.ChildrenReachable | src/linguist/linguist/messagemodel.cpp:1309-1357 | every row rowCount announces below a context is a message index that leads back to that context and names one of its rows |
| MessageModel.SetBit28Clear | src/linguist/linguist/messagemodel.cpp:1521-1525 | or-ing bit 28 into a value whose bit 28 is clear adds it |
| MessageModel.MessageFlags | src/linguist/linguist/messagemodel.cpp:1446-1453 | bit 0 says the message has a translation, bit 1 no danger, bit 2 finished and live, bit 3 obsolete |
| MessageModel.MessageFlagsSum | src/linguist/linguist/messagemodel.cpp:1446-1453 | the key is the sum of its four bits |
| MessageModel.MessageFlagsOrder | src/linguist/linguist/messagemodel.cpp:1444-1455 | obsolete messages sort after live ones, finished after unfinished ones, no danger after danger, and every present cell before an empty one |
| MessageModel.MessageFlagsDecode | src/linguist/linguist/messagemodel.cpp:1446-1453 | two messages share a key exactly when they agree on translation presence, danger, obsolescence and finished state |
| MessageModel.FinishedAreLive | src/linguist/linguist/messagemodel.cpp:337-342 | counting finds no more finished messages than live ones |
| MessageModel.AgreeingCountersSane | src/linguist/linguist/messagemodel.cpp:337-342 | a context whose counters count its messages has sane counters |
| MessageModel.PercentDone | src/linguist/linguist/messagemodel.cpp:1516-1517 | the truncated percentage of finished live messages, at most 100, and 100 for a context without live messages |
| MessageModel.ContextBase | src/linguist/linguist/messagemodel.cpp:1515-1517 | the low field of the key: 100 steps for an obsolete context, and while the live count stays below a step the percentage and the count can be read back from it |
| MessageModel.ContextFlags | src/linguist/linguist/messagemodel.cpp:1519-1526 | the three flag bits 28..30 as a number at most 4 |
| MessageModel.FlagChain | src/linguist/linguist/messagemodel.cpp:1518-1527 | or-ing the flags only adds bits, at most up to bit 30, keeps an int an int, and sets bit 30 for an obsolete context |
| MessageModel.FlagChainAdds | src/linguist/linguist/messagemodel.cpp:1519-1526 | with a low field below bit 28 the flag bits add the flags times 2^28 |
| MessageModel.ContextKeyAsWritten | src/linguist/linguist/messagemodel.cpp:1515-1527 | the key as written is at least the low field and stays an int when the field does; below bit 28 the flags sit in bits 28..30 above the unchanged field |
| MessageModel.ContextKeyCollision | src/linguist/linguist/messagemodel.cpp:1515-1527 | as written, a finished context of 56 live messages with one dangerous message gets the same key as the same context without danger |
| MessageModel.ContextKey | src/linguist/linguist/messagemodel.cpp:1515-1527 | corrected key: the flags in bits 28..30, the low field below bit 28, the whole below INT_MAX |
| MessageModel.ContextKeyAgrees | src/linguist/linguist/messagemodel.cpp:1515-1527 | wherever the low field stays below bit 28 the corrected key equals the key as written |
| MessageModel.ContextKeyOrder | src/linguist/linguist/messagemodel.cpp:1515-1527 | contexts sort by state first (obsolete last, finished after unfinished, no danger after danger), then by percentage and size |
| MessageModel.RemoveAmp | src/linguist/linguist/messagemodel.cpp:1441 | the text without its '&' units, in order, shorter by their number, and unchanged when it has none |
| MessageModel.RemoveAmpConcat | src/linguist/linguist/messagemodel.cpp:1441 | remove('&') keeps the other units in order: it distributes over concatenation, drops a lone '&' and keeps any other lone unit, which together fix the result for every text |
| MessageModel.ContextItemAt | src/linguist/linguist/messagemodel.cpp:1514 | a model's context exists only through a valid pointer, and is then one of that model's contexts |
| MessageModel.SortData | src/linguist/linguist/messagemodel.cpp:1381-1386 | a key only for a valid index past column 0; integer keys of language columns are never negative and stay within INT_MAX whenever no context has more live messages than an int sum allows; context cells use the key as written; message text keys hold no '&' (see also lines 1438-1457, 1507-1531) |
| MessageModel.MessageCellKey | src/linguist/linguist/messagemodel.cpp:1444-1455 | a language cell of a message row sorts by the flags of the message it shows, below INT_MAX, or INT_MAX when it shows none |
| MessageModel.ContextCellKey | src/linguist/linguist/messagemodel.cpp:1513-1530 | a language cell of a context row sorts by the key as written of that model's context, which is the corrected key, below INT_MAX, wherever the low field stays below bit 28; INT_MAX when the model has none |
| QphEscape.ProtectUnit | src/linguist/shared/qph.cpp:96-117 | the escape of one unit is never empty |
| QphEscape.Protect | src/linguist/shared/qph.cpp:90-120 | the escaped text is never shorter than the text, and empty only for an empty text |
| QphEscape.QphProtect | src/linguist/shared/qph.cpp:90-120 | the loop builds exactly the escape of every unit, in order |
| QphEscape.ProtectConcat | src/linguist/shared/qph.cpp:94-118 | escaping distributes over concatenation |
| QphEscape.ProtectNoMarkup | src/linguist/shared/qph.cpp:96-116 | the escaped text holds no quote, apostrophe or angle bracket, and no unit below 0x20 other than CR, LF and tab |
| QphEscape.ProtectPlain | src/linguist/shared/qph.cpp:115-116 | text without special or control units is written as it is |
| QphEscape.EntityAt | src/linguist/shared/qph.cpp:97-114 | an escape recognised at the front of a text starts with '&' and has a length within the text |
| QphEscape.UnprotectNamed | src/linguist/shared/qph.cpp:97-111 | each of the five named entities decodes back to its unit |
| QphEscape.UnprotectReference | src/linguist/shared/qph.cpp:113-114 | a decimal reference decodes back to its control unit |
| QphEscape.UnprotectProtect | src/linguist/shared/qph.cpp:90-120 | the idealised reader of `Qph.LoadQph` (see "Left out") gets back exactly the text that was escaped |
| Qph.AttributeValue | src/linguist/shared/qph.cpp:54-56 | the value of the first attribute of that name, empty when there is none |
| Qph.ReplaceUnit | src/linguist/shared/qph.cpp:69 | the same length, each `before` unit turned into `after`, the others kept (see also lines 137-138) |
| Qph.ReplaceBack | src/linguist/shared/qph.cpp:69 | replacing and replacing back restores a text that did not hold the second unit (see also lines 137-138) |
| Qph.PhraseMessage | src/linguist/shared/qph.cpp:69-73 | the message has the collected source and definition as comment, one translation as long as the target with no text separator left in it, and is unfinished |
| Qph.Step | src/linguist/shared/qph.cpp:42-79 | one token appends a message exactly when it is the phrase end tag, and otherwise leaves the messages alone; earlier messages are kept |
| Qph.Replay | src/linguist/shared/qph.cpp:42-79 | reading tokens keeps the messages the translator had and adds at most one per token |
| Qph.ReplayConcat | src/linguist/shared/qph.cpp:42-79 | reading two token runs one after the other is reading their concatenation |
| Qph.QphReader.constructor | src/linguist/shared/qph.cpp:19-21 | a new reader has collected nothing |
| Qph.QphReader.Read | src/linguist/shared/qph.cpp:39-81 | the loop applies one step per token, starting with no field open, and always succeeds |
| Qph.LoadQph | src/linguist/shared/qph.cpp:83-88 | the translator stops recording locations, then a new reader reads every token; always succeeds |
| Qph.WhiteSpaceIgnored | src/linguist/shared/qph.cpp:27-60 | white-space-only text changes nothing |
| Qph.TextCollected | src/linguist/shared/qph.cpp:61-67 | other text is appended to the accumulator of the open field only, and dropped with no field open |
| Qph.OtherTagStopsCollection | src/linguist/shared/qph.cpp:44-58 | any other start tag closes the field, text after it changes nothing, and only the QPH tag sets both language codes from its attributes |
| Qph.UncollectedText | src/linguist/shared/qph.cpp:61-67 | with no field open, text tokens change nothing |
| Qph.OtherEndTagIgnored | src/linguist/shared/qph.cpp:68 | end tags other than phrase change nothing |
| Qph.PhraseEndAppends | src/linguist/shared/qph.cpp:68-78 | the end of a phrase appends exactly one message made of the collected text, clears the accumulators and changes nothing else |
| Qph.ReadAppendsPerPhrase | src/linguist/shared/qph.cpp:42-79 | reading keeps the messages the translator had and appends exactly one per phrase end tag |
| Qph.Join | src/linguist/shared/qph.cpp:136 | a single translation is joined to itself |
| Qph.RenderField | src/linguist/shared/qph.cpp:135-142 | the text of one field is its opening tag, the escaped data and its closing tag |
| Qph.RenderPhrase | src/linguist/shared/qph.cpp:134-143 | the text of a phrase is what the writer emits for one message |
| Qph.WritePhrase | src/linguist/shared/qph.cpp:134-143 | the writes for one message: source, joined target with the binary separator written as the text one, the definition only for a non-empty comment |
| Qph.SavedTarget | src/linguist/shared/qph.cpp:136-138 | the joined target with no binary separator left in it, as long as the joined translations |
| Qph.RenderHeader | src/linguist/shared/qph.cpp:125-132 | the header holds each language attribute only when the code is neither empty nor "C" |
| Qph.RenderMorePhrases | src/linguist/shared/qph.cpp:133-144 | one more message adds its phrase text at the end |
| Qph.RenderDocument | src/linguist/shared/qph.cpp:125-145 | the document is the header, the phrases in message order, and the closing tag |
| Qph.SaveQph | src/linguist/shared/qph.cpp:122-147 | the output is the whole rendered document, and saving always succeeds |
| Qph.ReloadedAll | src/linguist/shared/qph.cpp:68-78 | one reloaded message per saved message, in order |
| Qph.TagsDistinct | src/linguist/shared/qph.cpp:45-68 | the element and attribute names a phrase book uses differ from one another |
| Qph.TokensField | src/linguist/shared/qph.cpp:135-142 | a written field is read as its indentation, start tag, decoded text (if any) and end tag |
| Qph.ReadField | src/linguist/shared/qph.cpp:44-67 | reading one written field opens that field and leaves in it the decoded data unless it is all white space; nothing else changes |
| Qph.TokensPhrase | src/linguist/shared/qph.cpp:134-143 | a written phrase is read as its tag, its fields and its end tag |
| Qph.ReadFields | src/linguist/shared/qph.cpp:44-67 | reading the fields of a written phrase collects its source, target and comment, each lost only when all white space (see also lines 135-142) |
| Qph.ReadPhrase | src/linguist/shared/qph.cpp:44-78 | reading one written phrase appends the reloaded message and leaves the reader clear (see also lines 134-143) |
| Qph.ReadPhrases | src/linguist/shared/qph.cpp:42-79 | reading the written phrases appends their reloaded messages in order (see also lines 133-144) |
| Qph.HeaderRead | src/linguist/shared/qph.cpp:53-56 | the QPH tag's attributes give back each written language code, and empty for one not written (see also lines 126-131) |
| Qph.TokensDocument | src/linguist/shared/qph.cpp:125-145 | a written phrase book is read as the QPH tag, the phrases and the closing tag |
| Qph.ReadHeader | src/linguist/shared/qph.cpp:44-58 | the header sets both language codes and leaves the reader clear |
| Qph.ReadFooter | src/linguist/shared/qph.cpp:59-68 | the closing tag changes nothing |
| Qph.LoadOfSave | src/linguist/shared/qph.cpp:39-88 | loading a saved phrase book appends every message, in order, as Reloaded says, and takes over the language codes that were written (see also lines 122-147) |
| Qph.ReloadedSingle | src/linguist/shared/qph.cpp:69-73 | a message with one translation holding no text separator, and no field all white space, comes back with the same source, translation and comment (see also lines 135-142) |
| Qph.ReloadedJoins | src/linguist/shared/qph.cpp:69-72 | several translations come back as one, joined with '@' (see also lines 136-139) |
| Qph.WhiteSpaceSourceLost | src/linguist/shared/qph.cpp:27-60 | a source of one space comes back empty |
| HelpViewer.SetSource | src/assistant/assistant/helpviewer.cpp:304-319 | a page opened outside leaves the history alone; otherwise the new page is current and nothing is ahead |
| HelpViewer.GoBack | src/assistant/assistant/helpviewer.cpp:385-397 | the pages behind, current and ahead keep their order; with a page behind one page moves from behind, otherwise nothing changes |
| HelpViewer.GoForward | src/assistant/assistant/helpviewer.cpp:371-383 | the pages behind, current and ahead keep their order; with a page ahead one page moves behind, otherwise nothing changes |
| HelpViewer.BackThenForward | src/assistant/assistant/helpviewer.cpp:371-397 | with a page behind, going back and then forward restores both lists and the current page |
| HelpViewer.ForwardThenBack | src/assistant/assistant/helpviewer.cpp:371-397 | with a page ahead, going forward and then back restores both lists and the current page |
| HelpViewer.SetSourceHistory | src/assistant/assistant/helpviewer.cpp:304-319 | a valid current page becomes the newest page behind, with the oldest dropped beyond twenty; otherwise the pages behind stay (see also line 33) |
| HelpViewer.NavigationBounded | src/assistant/assistant/helpviewer.cpp:304-397 | every navigation keeps the pages behind and ahead together within twenty (see also line 33) |
| HelpViewer.NavigationAvailability | src/assistant/assistant/helpviewer.cpp:333-341 | after going back the page left is first ahead; after going forward a page is behind (see also lines 371-397) |
| HelpViewer.ClampZoom | src/assistant/assistant/helpviewer.cpp:211 | the zoom lies in [10, 300], is the request when that is in range, and the nearer bound otherwise |
| HelpViewer.WheelSteps | src/assistant/assistant/helpviewer.cpp:407 | the number of whole notches, truncated toward zero |
| HelpViewer.ZoomUpDown | src/assistant/assistant/helpviewer.cpp:202-216 | one step up and one down restore a zoom at least one step below the top (see also lines 264-272) |
| HelpViewer.ZoomUpDownNearTop | src/assistant/assistant/helpviewer.cpp:202-216 | from within one step of the top, a step up and a step down end one step below the top (see also lines 264-272) |
| HelpViewer.SmallWheelTurnIgnored | src/assistant/assistant/helpviewer.cpp:403-408 | a turn of less than one notch either way zooms by nothing |
| HelpViewer.Viewer.constructor | src/assistant/assistant/helpviewer.cpp:218-228 | no history, nothing shown, the requested zoom clamped, so the viewer invariant holds (see also lines 157-161) |
| HelpViewer.Viewer.ApplyZoom | src/assistant/assistant/helpviewer.cpp:209-216 | the zoom becomes the clamped request, nothing else changes, and an unchanged value leaves the object alone; the viewer invariant (history within twenty, zoom in [10, 300]) is kept |
| HelpViewer.Viewer.IncrementZoom | src/assistant/assistant/helpviewer.cpp:202-207 | the zoom becomes the clamped current zoom plus ten per step; the viewer invariant (history within twenty, zoom in [10, 300]) is kept |
| HelpViewer.Viewer.ScaleUp | src/assistant/assistant/helpviewer.cpp:264-267 | one step up, clamped; the viewer invariant (history within twenty, zoom in [10, 300]) is kept |
| HelpViewer.Viewer.ScaleDown | src/assistant/assistant/helpviewer.cpp:269-272 | one step down, clamped; the viewer invariant (history within twenty, zoom in [10, 300]) is kept |
| HelpViewer.Viewer.ResetScale | src/assistant/assistant/helpviewer.cpp:274-277 | the zoom becomes 100; the viewer invariant (history within twenty, zoom in [10, 300]) is kept |
| HelpViewer.Viewer.WheelEvent | src/assistant/assistant/helpviewer.cpp:399-412 | consumed exactly with the Control modifier alone, and then zooms by whole notches unless the delta is zero; the viewer invariant (history within twenty, zoom in [10, 300]) is kept |
| HelpViewer.Viewer.DoSetSource | src/assistant/assistant/helpviewer.cpp:304-319 | the history becomes SetSource of the old one and the zoom is kept; the viewer invariant (history within twenty, zoom in [10, 300]) is kept |
| HelpViewer.Viewer.Backward | src/assistant/assistant/helpviewer.cpp:385-397 | the history becomes GoBack of the old one and the zoom is kept; the viewer invariant (history within twenty, zoom in [10, 300]) is kept |
| HelpViewer.Viewer.Forward | src/assistant/assistant/helpviewer.cpp:371-383 | the history becomes GoForward of the old one and the zoom is kept; the viewer invariant (history within twenty, zoom in [10, 300]) is kept |
| HelpViewer.LastIndexOf | src/assistant/assistant/helpviewer.cpp:436 | the last position of the character, -1 when it does not occur |
| HelpViewer.Lower | src/assistant/assistant/helpviewer.cpp:437 | the same length, each character lowered |
| HelpViewer.LookupFirst | src/assistant/assistant/helpviewer.cpp:439-444 | the lookup returns the MIME type of the first row with that extension |
| HelpViewer.LookupFound | src/assistant/assistant/helpviewer.cpp:439-444 | a lookup that finds something found it in some row |
| HelpViewer.EmptyMimeRows | src/assistant/assistant/helpviewer.cpp:35-70 | only the pdf and about:blank rows have no MIME type |
| HelpViewer.DottedRows | src/assistant/assistant/helpviewer.cpp:35-70 | every extension but about:blank starts with a dot |
| HelpViewer.PdfRow | src/assistant/assistant/helpviewer.cpp:51 | ".pdf" maps to no MIME type |
| HelpViewer.BlankRow | src/assistant/assistant/helpviewer.cpp:68 | "about:blank" maps to no MIME type |
| HelpViewer.CanOpenPage | src/assistant/assistant/helpviewer.cpp:426-430 | the viewer can open a page exactly when its lowered suffix is neither ".pdf" nor "about:blank" |
| HelpViewer.NoMimeExactly | src/assistant/assistant/helpviewer.cpp:432-446 | the MIME lookup gives the empty type exactly for a lowered suffix ".pdf" or "about:blank" |
| HelpViewer.EmptyMimeIsPdfOrBlank | src/assistant/assistant/helpviewer.cpp:35-70 | only the extensions ".pdf" and "about:blank" map to the empty type |
| HelpViewer.MimeFromPath | src/assistant/assistant/helpviewer.cpp:432-446 | an octet stream, or the MIME type of a table row whose extension is the lowered suffix from the last dot |
| HelpViewer.MimeFromUrl | src/assistant/assistant/helpviewer.cpp:432-446 | the URL's path looked up, with the same answer whatever the case of the path |
| HelpViewer.LowerSuffix | src/assistant/assistant/helpviewer.cpp:436-437 | lowering does not move the last dot |
| HelpViewer.MimeIgnoresCase | src/assistant/assistant/helpviewer.cpp:432-446 | the MIME type does not depend on the case of the path |
| HelpViewer.MimeWithoutDot | src/assistant/assistant/helpviewer.cpp:436-445 | a path without a dot, other than about:blank, is an octet stream |
| HelpViewer.IsLocalUrl | src/assistant/assistant/helpviewer.cpp:414-424 | local exactly when the scheme is empty, file, qrc, data, qthelp or about; so never for http or https |
| ProFileUtils.IsProOrPriFile | src/linguist/shared/profileutils.h:14-18 | true exactly when the name ends with a dot, 'p', 'r', then 'o' or 'i', each letter in either case |
| ProFileUtils.Others | src/linguist/shared/profileutils.h:23 | the kept entries are never more than the entries |
| ProFileUtils.FileList.constructor | src/linguist/shared/profileutils.h:20 | the list holds the given entries |
| ProFileUtils.ExtractProFiles | src/linguist/shared/profileutils.h:20-29 | the list keeps exactly its non-project entries in order; the result has one entry per project file, and the two lengths add up to the old one |
| ProFileUtils.OthersMembers | src/linguist/shared/profileutils.h:23 | an entry is kept exactly when it was there and is not a project file |
| ProFileUtils.OthersCount | src/linguist/shared/profileutils.h:23-27 | the kept entries and the project files account for every entry |
| ProFileUtils.NoProFiles | src/linguist/shared/profileutils.h:24-25 | with no project file the list stays as it is and nothing is extracted |
| ProFileUtils.OthersIdempotent | src/linguist/shared/profileutils.h:23 | extracting again from the kept entries changes nothing |
| ProFileUtils.OthersConcat | src/linguist/shared/profileutils.h:23 | the split distributes over concatenation |

## Left out

- File input and output are not modelled. This covers `Translator::load`/`save`, `DataModel::save`/`saveAs`/`release`, `saveQM` and the QIODevice that phrase books are written to and read from.
  - `DataModel.Load` starts from the message list the file yielded.
  - `Qph.SaveQph` returns the text it writes.
  - `Qph.LoadQph` takes the tokens the XML reader reports.
- Duplicate removal is not modelled. `load` calls `Translator::resolveDuplicates` (messagemodel.cpp:288), which drops duplicate messages and reports them, and shows the report in a message box. `DataModel.Load` takes the message list as that call leaves it. The emptiness check comes first in `load`, but removing duplicates never empties a list, so the order does not matter.
- `load` resolves the language through `QLocale` after the file-name guess. That resolution and the plural rules it loads are not modelled. `DataModel.GuessLanguage` covers the guess itself.
- Qt's signals, `begin/endInsert*`/`begin/endRemove*` notifications, message boxes and `tr()` texts are not modelled. They change no model state.
- `MessageModel::data` is modelled only for its sort role. The display, tool-tip, decoration, foreground and font roles are not. Neither are the palette and `brushForModel`, which are painting concerns.
- `condenseFileNames` is not modelled. It can index past the end of a shorter file name, so its result is not defined for every input.
- `MultiContextItem::moveModel` and `MultiDataModel::moveModel` are not modelled. messagemodel.cpp marks them as not needed.
- `m_writableMessageLists` is held as the `writable` flag of each column's `DataModel`. It only caches which columns are writable.
- Several smaller operations are not modelled:
  - `MultiDataModel::setTranslation` (it changes one translation and the modified flag, and no counter);
  - `isFileLoaded`;
  - `onLanguageChanged`;
  - `MessageModel::modelIndex`;
  - `MultiDataModelIterator`, whose `++` has the same shape as `DataModelIterator`'s;
  - `DataModel::updateStatistics`, whose traversal is `ModelIterator.Walk`.
- Some Qt functions are parameters rather than definitions:
  - `QChar::isPrint`, `isLetterOrNumber` and `isSpace` stand in for Unicode tables the model does not hold;
  - `QString::simplified`;
  - the white-space test of `trimmed()`.
- `Text.ParseNum` reads a run of digits only. `QString::toUInt` is more lenient: it skips white space before and after the number, may accept a sign, and in base 16 accepts a `0x` prefix. References such as `&# 65;`, `&#65 ;` and `&#x0x41;` are therefore kept here, whereas Qt may decode them.
- The NCR display mode of a message is off throughout: `text()` is the source text with its references resolved.
- `DataModel.TranslatorMessage` and `Qph.Translator` hold only the fields these files read and write. Locations, extras, the old source text and the translator comment are left out.
- `Qph.LoadQph` reads with an idealised `QXmlStreamReader`, not a conforming one. It makes four assumptions:
  - it reports each piece of escaped text as one token;
  - it decodes the five predefined entities and decimal references;
  - it accepts references to control characters, which the Legal Character constraint of section 4.1 of XML 1.0 forbids;
  - it does not turn CR into LF, which the end-of-line handling of section 2.11 of XML 1.0 requires.
  A conforming reader rejects a phrase book holding an escaped control character and turns CR into LF, so for such texts `Qph.LoadOfSave` and `QphEscape.UnprotectProtect` describe the idealised reader only. A real reader may also split text. The white space between tags is reported as its own token.
- `Qph.HeaderRead`: `saveQPH` writes the language codes without escaping, and this member assumes they hold no markup characters.
- `Qph.ReloadedSingle` requires that no field is all white space. The reader drops such text by design (`Qph.WhiteSpaceSourceLost`).
- `MultiEdit.SetFinishedValid` and `MultiData.MultiDataModel.SetFinished` require the cell's model to be writable. messagemodel.cpp does not check this itself: only writable columns are edited. On a read-only column the unfinished count of the row would fall out of step with its definition.
- `MultiData.MultiDataModel.Append` leaves the modified flag as it was. messagemodel.cpp recomputes it through a signal that is not modelled.
- `MessageModel.SortData` requires the counters of every context to be sane (`finished <= nonobsolete`), as counting keeps them. The `int` arithmetic of the percent key is unbounded here.
- MessageModel.SortData: the INT_MAX bound on integer keys is stated only under `LiveCountsFit`. With more than 1879048247 live messages in one context the C++ `int` sum overflows, which is not modelled.
- `HelpViewer.Viewer.constructor` takes the zoom percentage already computed from the `qreal` zoom factor (`zoom == 0 ? 100 : zoom * 100`). The float conversion and `setZoomFactor` are not modelled.
- `HelpViewer.Viewer.IncrementZoom` uses unbounded integers: `10 * steps` does not wrap around.
- Help-viewer rendering is not modelled: `setSourceInternal`, `getData`, `HelpEngineWrapper`, the page title and the scroll position.
  - The page a navigation shows is the history item given to it.
  - `launchWithExternalApp` is the `launched` parameter of `DoSetSource`.
  - `setSource`, `reload` and `home` are calls of `doSetSource` and have no members of their own.
  - Dark-theme detection is not modelled.
- `HelpViewer.MimeFromUrl` takes the URL's path as it stands; `QUrl::fromLocalFile(path).path()` is taken to be `path`. Lowering with `toUtf8().toLower()` changes only ASCII letters, and every table entry is ASCII.
- `ProFileUtils.ExtractProFiles` states the length of its result but not its contents. The entries come from the tail `std::remove_if` leaves, whose values the C++ standard does not specify.
- `ProFileUtils.IsProOrPriFile` folds ASCII letters only. Qt's case-insensitive comparison folds all of Unicode; that makes no difference for the ASCII suffixes ".pro" and ".pri", except for characters that fold to ASCII letters.

## Findings

| source | as written | input that shows it | evidently intended | confidence | as-written member | corrected member |
|---|---|---|---|---|---|---|
| src/linguist/linguist/messagemodel.cpp:596-608 | `DataModelIterator::operator++` moves from a context to message 0 of the next one without checking that it has any messages. `isValid()` stays true on a context without items and `current()` returns a null item, which `save`, `saveAs` and `updateStatistics` dereference. | a .ts file whose context holds only a context comment (source text `QT_LINGUIST_INTERNAL_CONTEXT_COMMENT`): `load` creates a context without items, and the walk from (0, 0) meets `current() == nullptr` | skip contexts without items, so every valid position holds an item | not executed | ModelIterator.CommentOnlyContextWalk | ModelIterator.WalkItems |
| src/linguist/linguist/messagemodel.cpp:1515-1527 | The percent sort key of a context adds `percent * 2684354` and the live count, then ors in flag bits 28-30. The sum can itself reach bit 28, so the "no danger" bit of a finished context is already set. `MessageModel.SortData` models `data()` with this key as written (`MessageModel.ContextKeyAsWritten`); the corrected `MessageModel.ContextKey` agrees with it wherever the sum stays below bit 28 (`MessageModel.ContextKeyAgrees`). | a finished context of 56 live messages with one dangerous message: 100 * 2684354 + 56 = 2^28, so its key equals that of the same context without danger | keep the low field below bit 28, so the flags alone decide between states | not executed | MessageModel.ContextKeyCollision | MessageModel.ContextKeyOrder |
