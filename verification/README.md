# Search index, text codec, heading forest, and worker broker: a verified model

This project models two independent parts of the repository, and two small ones, and proves what they are for.

**The search index of the documentation site** (`docs/site-lib/scripts/webpage.js`, one bundled line). A compressed radix tree of
`Map` objects maps terms to postings. The model keeps the objects: a node is a reference into a store of records, and the methods edit
single records in the order the code does, so that sharing and aliasing are visible. A ghost tree says what the store means. On top of
it stand the stack iterator, the prefix view, the approximate lookup over one shared byte matrix, and the full-text index that adds,
removes, discards, vacuums, searches, saves and loads.

- `JsMaps`, `RadixTree`, `RadixStore`, `RadixEntries`, `RadixShape`: the insertion-ordered `Map`, the tree as a value, how it lies in the
  store, the order of its entries, and why its shape is determined by its content.
- `RadixMap`: the map object with its in-place methods. `RadixIterator`: the iterator and the prefix view. `RadixPause`, `RadixOwed`: what
  becomes of a running iterator while others change the map, and exactly when it survives.
- `Levenshtein`, `FuzzySearch`, `FuzzyExact`: edit distance as the least number of edits, the banded search over bytes with what it
  reports of each key, and for which queries and bounds that is the edit distance.
- `Postings`, `SearchDocs`, `SearchState`, `SearchRuns`: the inverted index as a value, documents and exact averages, and the state of
  the index with what every run of operations keeps and leaves behind.
- `SearchIndex`, `SearchVacuum`, `SearchQuery`, `SearchCombine`, `SearchPause`, `SearchStore`: the index object, vacuuming in batches, one
  query, several queries, what happens in the pauses of a vacuum, saving and loading.

**The broker protocol between applications, the Manager and its workers** (C#). Cryptography is ideal: keys, proofs and sealed messages
are terms, equal only if made from the same parts.

- `SecureChannel`, `Handshake`, `HandshakeRuns`: transcripts, the handshake as a transition system in which the network may deliver,
  replay, mix and make up messages, except with a pre-shared key that has not leaked, and what becomes of a client that it leaves alone.
- `WorkerHost`, `WarmSession`, `Broker`: channels, service, client, an entry of the session pool, and router as objects whose methods
  change counters and tables, over a network that delivers everything.
- `SessionPool`, `Supervisor`, `ManagerRuns`, `BrokerRuns`: the session pool, the supervisor, both together, and concurrent requests as
  transition systems with a step for every stretch of code between two awaits, taken in any order. `Lane`: one direction of a session
  whose messages overtake each other.

**Two small parts**: `Utf8` (UTF-16 to UTF-8 and back, `docs/site-lib/scripts/graph-wasm.js`) and `Headings` (the forest of headings).

Several results say that something does not hold without a condition, and give the condition:

- What an approximate lookup reports of non-empty keys is right for every query of length `n` if and only if the bound `k` is at most 126
  or `n + 2 * k` is at most 510 (`FuzzyExact.FitsIff`); for every other pair a query and a key are given that go wrong. The empty key is
  judged by the length of the query modulo 256, so a whole answer is right if and only if there is no empty key, or the query is at most
  255 long, or its length modulo 256 exceeds the bound (`FuzzyExact.ExactIff`).
- A running iterator survives the deletion of a key that it still has to yield if and only if whatever leads to the key keeps its place: the
  lower end of the edge stays a node of its own, or, where the frame's node has been bypassed, at least does not become empty
  (`RadixOwed.SurvivesIff`; a run that fails is `OwedDeleted`). It survives a new key if and only if no edge that it still has to follow is
  split (`RadixOwed.AddedIff`, `EdgeSplit`). So a vacuum goes on after searches, removals and discards in a pause whenever these
  have deleted no term that is still ahead of it (`SearchPauses.During`).
- Adding or removing a document keeps the average length of a field true if and only if the document has the field or the average is zero
  (`SearchState.AddTrue`, `RemoveTrue`, `DiscardTrue`).
- Client and server agree on the session if and only if the session id that the client was given has the server's length; the client
  does not look at it, and a run is given in which both finish a handshake with different views (`Handshake.BothAgree`, `Disagreement`).
- At most one call per worker is inside the pool as long as the pool is disposed while no call has an entry; disposing it under such a
  call always allows a second one (`SessionPool.PerWorker`, `ClearBreaks`, `ClearBreaksQueue`), as a run shows (`TwoInside`). No session carries two calls even then
  (`SessionPool.OneInFlight`).
- The address that the pool notes is the one it is connected to if and only if the worker announced the same address at both reads of the
  last connection (`SessionPool.NotedRightly`; a run with a wrong note is `WrongNote`); it lasts until a retry or the next announcement (`SessionPool.UntilAnnounced`).
- A connection uses the key of the process announced at its read, and of the one announced for the same worker now
  (`ManagerRuns.KeyOfAnnounced`). It is the key of the process registered under the name if and only if the
  registered worker is still the one that the call holds, every start making a key of its own (`ManagerRuns.KeyOfRegistered`, `StaleWorker`).
- A stopped worker stays down for good if and only if, at the stop, it waited for its process to exit, or the process that its exit handler
  had launched was gone already, or it had been given up before (`Supervisor.StopHolds`). In all other moments, each of which comes up in a run, it can come up again
  unregistered (`Supervisor.StopTooLate`, `LateMoments`).
- One more start keeps every worker that is up in the registry if and only if no earlier worker of that name may still touch the entry of
  the name and no stop is still going to remove it (`Supervisor.FreshIff`, `NameClash`, `StartedTwice`, `StartedInStop`).
- An application's message is opened if and only if it and all sealed before it in its direction have arrived in the order of their
  sealing (`BrokerRuns.OpenedIff`). Calls of one application that overlap can therefore break each other, and one that has broken breaks
  all later ones (`Overtaken`, `ReplyOvertaken`, `NeverAgain`); calls made one by one never break (`OneByOneSafe`).

Nothing here was executed; everything is proved by the Dafny verifier (`dafny verify dfyconfig.toml`).

## Model

| member | source | states |
|---|---|---|
| RadixMaps.RadixMap.Find | docs/site-lib/scripts/webpage.js:1 | `at`: the object of the node whose path is exactly the key, or nothing |
| RadixMaps.RadixMap.Get | docs/site-lib/scripts/webpage.js:1 | `get`: the value stored under the key in the finite map the tree stands for |
| RadixMaps.RadixMap.CreatePath | docs/site-lib/scripts/webpage.js:1 | `rt`: after storing a value in the object it returns, the store holds the insertion of that key, without sharing; existing keys change nothing |
| RadixMaps.RadixMap.Set | docs/site-lib/scripts/webpage.js:1 | `set` is update of the finite map and keeps the compressed form |
| RadixMaps.RadixMap.Update | docs/site-lib/scripts/webpage.js:1 | `update` stores what the function makes of the old value, if any |
| RadixMaps.RadixMap.Fetch | docs/site-lib/scripts/webpage.js:1 | `fetch` returns the old value, or stores and returns the new one |
| RadixMaps.RadixMap.TrackDown | docs/site-lib/scripts/webpage.js:1 | `ot`: the node, and the objects and labels on the way; a miss ends with the rest of the key |
| RadixMaps.RadixMap.Delete | docs/site-lib/scripts/webpage.js:1 | `delete` removes exactly this key and keeps the compressed form and the unshared store |
| RadixMaps.RadixMap.DeleteFrom | docs/site-lib/scripts/webpage.js:1 | `ht`: each object on the path becomes what deletion makes of its node, all others stay |
| RadixMaps.RadixMap.CleanUp | docs/site-lib/scripts/webpage.js:1 | `lt`: dropping an emptied node and tidying upwards completes the deletion |
| RadixMaps.RadixMap.Merge | docs/site-lib/scripts/webpage.js:1 | `ct`: bypassing a node with one edge completes the deletion |
| RadixMaps.RadixMap.MatchLength | docs/site-lib/scripts/webpage.js:1 | the inner loop of `rt` finds the longest common prefix of label and rest of key |
| RadixTree.InsertGood | docs/site-lib/scripts/webpage.js:1 | splitting and hanging edges keeps labels non-empty, siblings apart and inner nodes needed |
| RadixTree.InsertLookup | docs/site-lib/scripts/webpage.js:1 | after insertion the key has the value and every other key what it had |
| RadixTree.InsertAt | docs/site-lib/scripts/webpage.js:1 | no node disappears by insertion; those off the path are the same |
| RadixTree.DeleteCompressed | docs/site-lib/scripts/webpage.js:1 | dropping and merging edges keeps the compressed form |
| RadixTree.DeleteLookup | docs/site-lib/scripts/webpage.js:1 | after deletion the key is gone and every other key has what it had |
| RadixTree.DeleteAt | docs/site-lib/scripts/webpage.js:1 | a node of the new tree is the old node at the same path, tidied if it lies on the path of the key |
| RadixTree.DeleteKeeps | docs/site-lib/scripts/webpage.js:1 | nodes that do not lead to the deleted key survive unchanged, whatever is merged above them |
| RadixStore.InsertRep | docs/site-lib/scripts/webpage.js:1 | changing the record where the key leaves the old paths and adding fresh records represents the insertion |
| RadixStore.DeleteRep | docs/site-lib/scripts/webpage.js:1 | tidying only records on the path of the key represents the deletion |
| RadixShape.NoHistory | docs/site-lib/scripts/webpage.js:1 | two compressed trees with the same map have the same shape up to the order of edges |
| RadixShape.SameContent | docs/site-lib/scripts/webpage.js:1 | map objects with the same entries have trees of the same shape, whatever was done to them |
| RadixShape.SetThenDelete | docs/site-lib/scripts/webpage.js:1 | setting a fresh key and deleting it restores the shape |
| RadixEntries.EntriesSound | docs/site-lib/scripts/webpage.js:1 | every entry in the iterator's order is in the map |
| RadixEntries.EntriesComplete | docs/site-lib/scripts/webpage.js:1 | every key of the map is among them |
| RadixEntries.EntriesDistinct | docs/site-lib/scripts/webpage.js:1 | no key comes twice |
| RadixIterators.RadixIterator.constructor | docs/site-lib/scripts/webpage.js:1 | a new `et` is going to yield all entries of its node, with full keys |
| RadixIterators.RadixIterator.Next | docs/site-lib/scripts/webpage.js:1 | `next` yields the first entry still due and leaves the rest |
| RadixIterators.RadixIterator.Dive | docs/site-lib/scripts/webpage.js:1 | `dive` reaches the next value, whose key the stack spells |
| RadixIterators.RadixIterator.Backtrack | docs/site-lib/scripts/webpage.js:1 | `backtrack` leaves everything that is done and loses nothing |
| RadixIterators.RadixIterator.OutlivesDelete | docs/site-lib/scripts/webpage.js:1 | the stack stays good when a key that is no longer due is deleted, even if nodes on it are merged |
| RadixIterators.RadixIterator.OutlivesSet | docs/site-lib/scripts/webpage.js:1 | the same for a new value under such a key |
| RadixIterators.DeleteYielded | docs/site-lib/scripts/webpage.js:1 | deleting the key just yielded changes nothing of what is still to come |
| RadixIterators.Sweep | docs/site-lib/scripts/webpage.js:1 | walking a view while deleting any of the yielded keys sees every original entry below the prefix exactly once |
| RadixIterators.AtPrefix | docs/site-lib/scripts/webpage.js:1 | iterating `atPrefix(p)` yields exactly the entries whose key starts with `p`, once each, also inside an edge or where nothing matches |
| RadixIterators.InsideIsView | docs/site-lib/scripts/webpage.js:1 | one synthetic edge stands for the rest of an edge that the prefix ends in |
| RadixPauses.OwedAgain | docs/site-lib/scripts/webpage.js:1 | after changes that only take keys away, none of them still due, an iterator that can be followed yields each key as often as before, with its present value |
| RadixOwed.SurvivesIff | docs/site-lib/scripts/webpage.js:1 | after the deletion of a key that may still be due, all remaining lookups of `dive` succeed if and only if whatever leads to the key keeps its place; they then find everything else that was due |
| RadixOwed.NeverStuck | docs/site-lib/scripts/webpage.js:1 | below a slot that is found in this sense the walk finds further slots at every node |
| RadixOwed.LastOwed | docs/site-lib/scripts/webpage.js:1 | deleting the only key still due always breaks the iterator |
| RadixOwed.OwedDeleted | docs/site-lib/scripts/webpage.js:1 | a run of the map's own methods in which that happens |
| RadixOwed.AddedIff | docs/site-lib/scripts/webpage.js:1 | after a new key, all remaining lookups succeed if and only if no edge still to be followed was split; they then find what was due, and the new key if a remaining slot leads to it |
| RadixOwed.EdgeSplit | docs/site-lib/scripts/webpage.js:1 | a run in which an edge is split under the iterator |
| Levenshtein.LevReached | docs/site-lib/scripts/webpage.js:1 | the recurrence of the matrix can be achieved by that many single-character edits |
| Levenshtein.LevLeast | docs/site-lib/scripts/webpage.js:1 | and by no fewer |
| Levenshtein.NoCloser | docs/site-lib/scripts/webpage.js:1 | whatever is appended to a path, some prefix of the query was as close already: why a row minimum above the bound may prune |
| FuzzySearch.NewMatrix | docs/site-lib/scripts/webpage.js:1 | the `Uint8Array` before the search: row 0, column 0, and the bound plus one elsewhere, modulo 256 |
| FuzzySearch.FillRow | docs/site-lib/scripts/webpage.js:1 | the loop over the band gives each cell the number of the recurrence, cut to a byte, touches no other row, and returns the least of the uncut numbers; past the last row nothing happens |
| FuzzySearch.Walk | docs/site-lib/scripts/webpage.js:1 | the rows of one edge label, with early exit exactly where a row leaves no hope; rows of the path above are unchanged |
| FuzzySearch.Search | docs/site-lib/scripts/webpage.js:1 | `st`: what is reported of a key below a path depends on the key alone, although branches overwrite each other's rows |
| FuzzySearch.FuzzyGet | docs/site-lib/scripts/webpage.js:1 | `fuzzyGet` reports exactly the keys whose last cell, as a byte, is within the bound and none of whose rows was given up, with that number, for every query and bound |
| FuzzyExact.FitsIff | docs/site-lib/scripts/webpage.js:1 | the lengths and bounds for which what is reported of every non-empty key is right: exactly those with a bound of at most 126, or length plus twice the bound at most 510 |
| FuzzyExact.FitsRight | docs/site-lib/scripts/webpage.js:1 | there, a key is reported if and only if it is within the bound, with its edit distance, in spite of band, bytes and pruning |
| FuzzyExact.CutFar | docs/site-lib/scripts/webpage.js:1 | there, a row that is given up has no key within the bound below it |
| FuzzyExact.WideWrong | docs/site-lib/scripts/webpage.js:1 | for bounds from 127 to 254 and all other lengths, a number overflows and a key is reported as if it were the query |
| FuzzyExact.LastBound | docs/site-lib/scripts/webpage.js:1 | with a bound of 255 every non-empty query gets a wrong answer for some key: the first column starts again at zero |
| FuzzyExact.LargeBound | docs/site-lib/scripts/webpage.js:1 | from a bound of 256 on, a distance of 256 is not a byte |
| FuzzyExact.EmptyKey | docs/site-lib/scripts/webpage.js:1 | the empty key is judged by the length of the query modulo 256 |
| FuzzyExact.QueryReported | docs/site-lib/scripts/webpage.js:1 | the query itself is always reported at distance zero |
| FuzzyExact.ExactIff | docs/site-lib/scripts/webpage.js:1 | the exact condition under which a whole answer is right |
| Postings.TidyEq | docs/site-lib/scripts/webpage.js:1 | an inverted index without empty maps and zeros is determined by its counts |
| Postings.StepCount | docs/site-lib/scripts/webpage.js:1 | `addTerm` and `removeTerm` change one count by one, remove emptied maps, and leave the rest |
| Postings.ApplyCount | docs/site-lib/scripts/webpage.js:1 | the calls for one document change its counts by the number of occurrences and those of no other |
| Postings.AddThenRemove | docs/site-lib/scripts/webpage.js:1 | removing what was added gives back the very same inverted index |
| Postings.PurgeIsRemove | docs/site-lib/scripts/webpage.js:1 | purging after forgetting a document equals removing its postings one by one |
| SearchDocs.OccurrencesAre | docs/site-lib/scripts/webpage.js:1 | the law of counting: a term occurs under a field number only if that is the last position of its name, and then as often as the tokens of the field's text are processed to it, a single non-empty term once, several terms each as often as listed, nothing not at all, for every listing of the name |
| SearchDocs.WeightsSome | docs/site-lib/scripts/webpage.js:1 | so it occurs exactly if some token of the text is processed to it |
| SearchDocs.LengthsAre | docs/site-lib/scripts/webpage.js:1 | a length is kept for the last position of every name that the document has, and is the number of different tokens |
| SearchDocs.AddAverage | docs/site-lib/scripts/webpage.js:1 | `addFieldLength` keeps average times count equal to the total length if and only if the document has the field or the average is zero |
| SearchDocs.RemoveAverage | docs/site-lib/scripts/webpage.js:1 | the same for `removeFieldLength` |
| SearchDocs.SameLower | docs/site-lib/scripts/webpage.js:1 | lowering by recorded lengths and by the document's own text gives the same averages |
| SearchState.RunKeeps | docs/site-lib/scripts/webpage.js:1 | after any run of add, remove, discard and vacuum the id tables are inverse with `_documentCount` entries, and live postings equal occurrences if documents were removed as they were added |
| SearchState.RunTrue | docs/site-lib/scripts/webpage.js:1 | if all documents have all fields, average times count is the total length after every such run |
| SearchState.AddFaithful | docs/site-lib/scripts/webpage.js:1 | adding makes the postings of the new document its occurrences and leaves the others |
| SearchState.RemoveFaithful | docs/site-lib/scripts/webpage.js:1 | removing the document as added leaves no posting of it |
| SearchState.AddRemove | docs/site-lib/scripts/webpage.js:1 | `add` then `remove` restores everything but the next short id and, possibly, averages |
| SearchState.AddRemoveAverage | docs/site-lib/scripts/webpage.js:1 | exactly when an average is restored, too |
| SearchState.DiscardVacuum | docs/site-lib/scripts/webpage.js:1 | `discard` and a complete vacuum come to the same as `remove` |
| SearchState.AddTrue | docs/site-lib/scripts/webpage.js:1 | exactly when `add` keeps the average of a field true |
| SearchState.RemoveTrue | docs/site-lib/scripts/webpage.js:1 | exactly when `remove` does |
| SearchState.DiscardTrue | docs/site-lib/scripts/webpage.js:1 | exactly when `discard` does |
| SearchRuns.RunAdds | docs/site-lib/scripts/webpage.js:1 | after any run a document with a new id gets in under the next short id |
| SearchRuns.RecordsAre | docs/site-lib/scripts/webpage.js:1 | after any run, whatever was handed to `remove`, a live document has exactly the stored fields and the field lengths of the text it was added with |
| SearchRuns.DirtCounts | docs/site-lib/scripts/webpage.js:1 | `_dirtCount` is the number of documents discarded since the last vacuum, and no more than so many dead documents have postings if documents were removed as they were added |
| SearchIndex.AddFields | docs/site-lib/scripts/webpage.js:1 | `addFields`: each name, and no other, gets its last position |
| SearchIndex.AddTerm | docs/site-lib/scripts/webpage.js:1 | `addTerm` on the radix map is one step of the inverted index |
| SearchIndex.RemoveTerm | docs/site-lib/scripts/webpage.js:1 | `removeTerm` is one step back; iterators that no longer owe the term survive it unchanged, and all others survive it with the present values unless the term goes |
| SearchIndex.MiniSearch.constructor | docs/site-lib/scripts/webpage.js:1 | a new index is empty and consistent |
| SearchIndex.MiniSearch.Add | docs/site-lib/scripts/webpage.js:1 | `add` with its two errors; on success every field of the object changes as specified |
| SearchIndex.MiniSearch.Remove | docs/site-lib/scripts/webpage.js:1 | `remove` with its two errors; running iterators survive it unless a term still due goes |
| SearchIndex.MiniSearch.Discard | docs/site-lib/scripts/webpage.js:1 | `discard` with its error: tables and averages change, postings stay behind |
| SearchVacuum.PurgePosting | docs/site-lib/scripts/webpage.js:1 | the two inner loops of `performVacuuming` keep exactly the live documents of a term |
| SearchVacuum.Vacuuming.constructor | docs/site-lib/scripts/webpage.js:1 | the start of `performVacuuming`: every term is ahead, nothing is swept |
| SearchVacuum.Vacuuming.Resume | docs/site-lib/scripts/webpage.js:1 | the loop of `performVacuuming` up to the next pause, which comes after every `batchSize` terms and only then, or to the end: only postings of dead documents are lost; at the end the live postings are those of the index without the vacuum, all of documents dead from the start are gone, and the dirt count has gone down by what it was at the start |
| SearchVacuum.VacuumNow | docs/site-lib/scripts/webpage.js:1 | without interruption exactly the live postings are left and no dirt |
| SearchVacuum.SweptAll | docs/site-lib/scripts/webpage.js:1 | a completed sweep without interruption is the purge |
| SearchQuery.FieldResults | docs/site-lib/scripts/webpage.js:1 | the inner loop of `termResults`: live documents with weight are noted, dead postings lowered by one |
| SearchQuery.TermResults | docs/site-lib/scripts/webpage.js:1 | `termResults`: for one term exactly the live documents with their fields; dead postings in the selected fields are one lower, nothing else changes |
| SearchQuery.PrefixResults | docs/site-lib/scripts/webpage.js:1 | the prefix loop of `executeQuerySpec` reports every term that starts with the query although it cleans up while it iterates |
| SearchQuery.FuzzyResults | docs/site-lib/scripts/webpage.js:1 | the loop over approximate matches reports each once |
| SearchQuery.ExecuteQuerySpec | docs/site-lib/scripts/webpage.js:1 | one query reports, for every document and term, exactly the expected fields, whatever the query and its bounds; only postings of dead documents are lost, and running iterators survive unless a term still due goes |
| SearchQuery.CandidatesSelect | docs/site-lib/scripts/webpage.js:1 | the terms looked at are those that equal or extend the query or that the approximate lookup reports at a distance |
| SearchQuery.BoundIs | docs/site-lib/scripts/webpage.js:1 | the edit bound of a query: none for a strict one, the given whole number, or the share of its length rounded to the nearest whole number, halves upwards, and at most `maxFuzzy` |
| SearchQuery.SelectsNear | docs/site-lib/scripts/webpage.js:1 | where bytes are wide enough the latter are the terms within the bound `k` of `executeQuerySpec`, said in numbers |
| SearchCombine.AnswersMeans | docs/site-lib/scripts/webpage.js:1 | a document is an answer if and only if it is live and the text it was added with has a token that is processed to a term the query asks for, in a field it may look at |
| SearchCombine.MergeOr | docs/site-lib/scripts/webpage.js:1 | `or` unites two results |
| SearchCombine.MergeAnd | docs/site-lib/scripts/webpage.js:1 | `and` intersects them |
| SearchCombine.MergeAndNot | docs/site-lib/scripts/webpage.js:1 | `and_not` subtracts the second |
| SearchCombine.CombineResults | docs/site-lib/scripts/webpage.js:1 | any number of results gives union, intersection or difference; none gives the empty result, an unknown operator an error; in a union or intersection every kept document has the terms of all results that have it, each with the fields of the last of these, in a difference what the first result has |
| SearchCombine.ExecuteQuery | docs/site-lib/scripts/webpage.js:1 | several queries one after the other answer as if each had seen the index at first, and are combined: a kept document matches, under a term, exactly what any query that selects the term answers, and nothing under other terms; together they only lose postings of dead documents |
| SearchCombine.HistoryKeeps | docs/site-lib/scripts/webpage.js:1 | after any history of adds, removals of documents as they were added, discards, and searches and parts of vacuums, which only lose postings of dead documents, the id tables are inverse and the postings of live documents are the occurrences of their terms |
| SearchPauses.During | docs/site-lib/scripts/webpage.js:1 | any discards, removals and searches in a pause: the index stays what they make of it less some postings of dead documents, and the vacuum can be resumed, with the same terms ahead, if none of these is gone |
| SearchPauses.PauseLoses | docs/site-lib/scripts/webpage.js:1 | what a pause finds is the index as the calls so far have left it, less some postings of dead documents |
| SearchPauses.SearchUnmoved | docs/site-lib/scripts/webpage.js:1 | a search in a pause finds the documents that it would find if no vacuum were running |
| SearchPauses.Vacuum | docs/site-lib/scripts/webpage.js:1 | a whole vacuum with discards in its pauses, one after every `batchSize` terms of the index: it always completes, and every posting is whole or gone |
| SearchStore.ToJSON | docs/site-lib/scripts/webpage.js:1 | `toJSON` lists every term once and all fields, with numbers as property names |
| SearchStore.LoadJS | docs/site-lib/scripts/webpage.js:1 | `loadJS` accepts versions 1 and 2 only and rebuilds the object, the table from ids to short ids as an inverse |
| SearchStore.RoundTrip | docs/site-lib/scripts/webpage.js:1 | loading what was saved, in either version's form, gives the same index |
| SearchStore.SaveAndLoad | docs/site-lib/scripts/webpage.js:1 | `loadJS(toJSON(x))` is a valid index of its own with the same value, and `x` is unchanged |
| SearchStore.FromObject | docs/site-lib/scripts/webpage.js:1 | `It` turns property names back into numbers |
| SearchStore.ParseDec | docs/site-lib/scripts/webpage.js:1 | `parseInt` undoes decimal notation |
| Headings.Heading.GetFlatChildren | docs/site-lib/scripts/webpage.js:1 | `getFlatChildren` gives the section of the heading in document order |
| Headings.CreateHeaderTree | docs/site-lib/scripts/webpage.js:1 | `createHeaderTree`: every heading is the child of the nearest earlier heading of smaller level, in order; the others are roots |
| Headings.FlatForest | docs/site-lib/scripts/webpage.js:1 | the flat lists of the roots together are the headings in document order |
| Utf8.LengthBytes | docs/site-lib/scripts/graph-wasm.js:1 | `lengthBytesUTF8` counts the octets of the encoding, for every string |
| Utf8.StringToUTF8Array | docs/site-lib/scripts/graph-wasm.js:1 | `stringToUTF8Array` writes the octets of the longest run of code points that leaves room for the final zero, and touches nothing else |
| Utf8.UTF8ArrayToString | docs/site-lib/scripts/graph-wasm.js:1 | the manual loop of `UTF8ArrayToString` up to a zero or the limit |
| Utf8.DecodeEncoded | docs/site-lib/scripts/graph-wasm.js:1 | decoding encoded code points gives their UTF-16 units |
| Utf8.SameUnits | docs/site-lib/scripts/graph-wasm.js:1 | what comes back is the string itself if and only if it is well formed and has no zero |
| Utf8.RoundTrip | docs/site-lib/scripts/graph-wasm.js:1 | writing with enough room and reading back returns the string if and only if it is well formed and has no zero |
| SecureChannel.RawInjective | XRUIOS.Interfaces/EclipseSecureClient.cs:87-89 | with parts of fixed length the concatenated transcript determines its parts |
| SecureChannel.NoReflection | XRUIOS.Interfaces/EclipseSecureClient.cs:91-94 | each side shows its proof under the key of its own direction, and no message or proof of one side passes for one of the other |
| Handshake.BothAgree | XRUIOS.Interfaces/EclipseSecureClient.cs:77-103 | when `ConnectAsync` returns, the server has made, and accepted the client's proof for, a session with the same client id, transcript, secret and pre-shared key, hence the same directional keys, if and only if the client's session id has the server's length |
| Handshake.Disagreement | XRUIOS.Interfaces/EclipseSecureClient.cs:83-101 | a run in which the client, whose session id was stretched on the way, finishes with another client id than the server |
| Handshake.Confirmation | XRUIOS.Interfaces/SecureWorkerHost.cs:302-314 | the server accepts a proof only for a session to which some client has the same keys, and which it takes for the same if its session id has the right length |
| Handshake.EndedByOwn | XRUIOS.Interfaces/SecureWorkerHost.cs:336-347 | in every run, a session is removed only by a message of a client connected on this very session |
| Handshake.StaleHarmless | XRUIOS.Interfaces/SecureWorkerHost.cs:316-347 | whatever a client of an older session has sent opens nothing on the newer session of the same id |
| Handshake.ExecutedOnce | XRUIOS.Interfaces/SecureWorkerHost.cs:316-334 | what is executed was sent by a connected client on this very session, and never twice |
| Handshake.UnfinishedInvoke | XRUIOS.Interfaces/SecureWorkerHost.cs:316-334 | the server does not ask whether the handshake was finished |
| HandshakeRuns.WholeSession | XRUIOS.Interfaces/EclipseSecureClient.cs:57-150 | after any run, a client with the right key and fresh nonces whose messages arrive as sent gets a session of exactly the parts that both sides contributed, has each of its requests executed once and in order, and ends the session |
| HandshakeRuns.SilentForGood | XRUIOS.Interfaces/EclipseSecureClient.cs:99-103 | a client that is shown a wrong proof is refused for good, and one that has closed sends nothing more |
| HandshakeRuns.OneClientEach | XRUIOS.Interfaces/EclipseSecureClient.cs:77-85 | in every run no two connected clients have a directional key in common |
| WorkerHost.HandleRequest | XRUIOS.Interfaces/WorkerOcean.cs:50-123 | the capability runs if and only if the gate grants it to this requester, it exists, and it takes that many arguments; whom the gate refuses gets one and the same answer, whatever exists; each other failure has its own message; only a result is encrypted, exactly once, with arguments in order |
| WorkerHost.DiracService.BeginHandshake | XRUIOS.Interfaces/SecureWorkerHost.cs:276-300 | unknown identities are refused; otherwise a fresh session replaces the old one |
| WorkerHost.Confirm | XRUIOS.Interfaces/SecureWorkerHost.cs:276-314 | a client gets the server's proof if and only if it takes the whole session, from the identity to the key, for what the server takes it to be |
| WorkerHost.DiracService.Invoke | XRUIOS.Interfaces/SecureWorkerHost.cs:316-334 | which counters a request moves, what it executes, and what is answered, in every case; whatever is executed was granted by the gate to the identity of the session |
| WorkerHost.DiracService.Finish | XRUIOS.Interfaces/SecureWorkerHost.cs:336-347 | only a teardown that opens on the session removes it |
| WorkerHost.SecureClient.InvokeRaw | XRUIOS.Interfaces/EclipseSecureClient.cs:121-132 | from any state of the two ends: what runs, what is answered, with every message, and that two ends in step stay so |
| WorkerHost.SecureClient.Dispose | XRUIOS.Interfaces/EclipseSecureClient.cs:134-150 | ends the session under its identity if and only if its next message opens there |
| WorkerHost.Calls | XRUIOS.Interfaces/EclipseSecureClient.cs:121-132 | any number of calls with any mix of results, denials and errors leaves all four counters in step, answers each call by its own result or its own message, and runs each permitted call once, and only what the gate grants to this client |
| WorkerHost.Connect | XRUIOS.Interfaces/EclipseSecureClient.cs:57-103 | over a delivering network it succeeds exactly for a signed caller with the right key, with the keys and the session of its own draws, and starts in step |
| SessionPool.OnePermit | templates/xruios-manager/WorkerSessionPool.cs:37-62 | in every run a gate has one permit, at the entry or with exactly one call, on all exits |
| SessionPool.PerWorker | templates/xruios-manager/WorkerSessionPool.cs:34-84 | at most one call per worker is inside, if the pool is disposed in quiet moments only |
| SessionPool.ClearBreaks | templates/xruios-manager/WorkerSessionPool.cs:76-84 | clearing the table under a call always allows a second one for the same worker |
| SessionPool.ClearBreaksQueue | templates/xruios-manager/WorkerSessionPool.cs:76-84 | also under a call that is still waiting |
| SessionPool.TwoInside | templates/xruios-manager/WorkerSessionPool.cs:76-84 | a run in which two calls for one worker are inside at the same time |
| SessionPool.OthersDoNotMatter | templates/xruios-manager/WorkerSessionPool.cs:37-62 | in every run, whatever calls for other workers do in between, a step of a call does to the call and its entry what it would have done at once: other workers never block it |
| SessionPool.OneInFlight | templates/xruios-manager/WorkerSessionPool.cs:37-57 | in every run, also when the pool is disposed under its calls, no session carries the requests of two calls at the same time |
| SessionPool.RetryDiscipline | templates/xruios-manager/WorkerSessionPool.cs:45-56 | at every moment at most two attempts and as many runs, even if the worker gets round to a lost request late; the second attempt only after a lost first; a returned value opened on the session of its own request |
| SessionPool.RunsTwice | templates/xruios-manager/WorkerSessionPool.cs:45-56 | a capability can run twice |
| SessionPool.LateRun | templates/xruios-manager/WorkerSessionPool.cs:45-56 | a run in which the worker gets round to a lost request after the call has failed and left |
| SessionPool.WarmIff | templates/xruios-manager/WorkerSessionPool.cs:41-43 | in every run, a call that has passed the gate sends at once, on the session of the client, if and only if there is a client and the address noted is the one announced by now; otherwise it closes the client, or connects to that address |
| SessionPool.Unreachable | templates/xruios-manager/WorkerSessionPool.cs:59-74 | in every run, a call that cannot connect fails, gives its permit back, and leaves client and note as they were |
| SessionPool.LastConnection | templates/xruios-manager/WorkerSessionPool.cs:64-74 | in every run, the client of an entry is connected to the address announced at the first read of its last connection, the note is the one announced at the second, and the client is closed if and only if it has been closed since |
| SessionPool.NotedRightly | templates/xruios-manager/WorkerSessionPool.cs:64-74 | in every run, the note is wrong if and only if the worker announced another address between these two reads |
| SessionPool.WrongNote | templates/xruios-manager/WorkerSessionPool.cs:64-74 | a run in which the note is wrong |
| SessionPool.UntilAnnounced | templates/xruios-manager/WorkerSessionPool.cs:41-57 | until the next announcement, and while all calls on the entry are for workers announced at the same address, no call reconnects at first, and the client stays the one that was connected, however wrong, until a retry connects it to the announced address |
| Supervisor.BoundedLaunches | templates/xruios-manager/WorkerSupervisor.cs:42-71 | one start leads to at most four launches in every run |
| Supervisor.FourLaunches | templates/xruios-manager/WorkerSupervisor.cs:29 | a run with four launches of one worker, registered under its name all the time |
| Supervisor.GivesUpExactly | templates/xruios-manager/WorkerSupervisor.cs:147-166 | in every run, the exit of a running worker ends it if a stop wanted the exit; it ends it and removes the name if the worker has been launched four times; otherwise it leads to the delay before a relaunch, with the entry left in place |
| Supervisor.Relaunched | templates/xruios-manager/WorkerSupervisor.cs:168-189 | in every run, a worker that is up, not stopped and launched fewer than four times can come up once more after its exit, registered as it was, with the same key, under the new process |
| Supervisor.FailsForGood | templates/xruios-manager/WorkerSupervisor.cs:42-58 | in every run, a check that is not clean or a missing announcement ends the worker for good: it is not launched again, none of its processes runs, and the entry of its name goes if it had been registered |
| Supervisor.CheckedLaunches | templates/xruios-manager/WorkerSupervisor.cs:147-192 | every launch follows a clean check made after the previous process had ended |
| Supervisor.RegistryCoherent | templates/xruios-manager/WorkerSupervisor.cs:179-189 | the announced process of a registered worker is that of its record and was launched with the stored key |
| Supervisor.NeverBack | templates/xruios-manager/WorkerSupervisor.cs:147-192 | in every run, a worker that has been removed from the registry is never put back, by its exit handler or otherwise |
| Supervisor.StopHolds | templates/xruios-manager/WorkerSupervisor.cs:74-94 | after a stop has killed, no process of the worker ever runs again, in any continuation, if and only if the stop is in time |
| Supervisor.StopTooLate | templates/xruios-manager/WorkerSupervisor.cs:152-189 | otherwise the worker can come up again, stopped and unregistered, with a running process |
| Supervisor.LateMoments | templates/xruios-manager/WorkerSupervisor.cs:152-189 | each of the four late moments comes up in a run |
| Supervisor.StopBounds | templates/xruios-manager/WorkerSupervisor.cs:74-94 | a stopped worker is launched again at most once |
| Supervisor.StopAlone | templates/xruios-manager/WorkerSupervisor.cs:74-94 | in every run, a stop during which nothing else happens marks the record it finds, kills its process, removes the entry, and does nothing else |
| Supervisor.RunSupervised | templates/xruios-manager/WorkerSupervisor.cs:147-192 | if every start is fresh, a worker that is up or coming up again and not stopped is registered, also while stops of others wait |
| Supervisor.FreshIff | templates/xruios-manager/WorkerSupervisor.cs:42-94 | after such a run, one more start keeps this in all continuations if and only if it is fresh: no earlier worker of the name may still register itself or remove the entry, and no stop is still waiting to remove it |
| Supervisor.NameClash | templates/xruios-manager/WorkerSupervisor.cs:74-94 | after a start that is not fresh the newer worker can come up and lose its entry to the older one, or to a stop of the older one |
| Supervisor.StartedTwice | templates/xruios-manager/WorkerSupervisor.cs:42-71 | a run in which this happens |
| Supervisor.StartedInStop | templates/xruios-manager/WorkerSupervisor.cs:79-90 | a run in which a worker is started while the stop of its predecessor waits, and loses its entry |
| ManagerRuns.KeyOfAnnounced | templates/xruios-manager/WorkerSessionPool.cs:64-74 | in every run of supervisor and pool together, a connecting call uses the key of the process that was announced when it read the address, which is also the key of the process announced for this worker now |
| ManagerRuns.Reached | templates/xruios-manager/WorkerSessionPool.cs:70-72 | where running processes listen at different addresses, the process it reaches is the announced one if and only if that one still runs; otherwise one with the same key has got the same address |
| ManagerRuns.KeyOfRegistered | templates/xruios-manager/WorkerSupervisor.cs:56-65 | where every start makes a key of its own, the key is that of the process registered under the name if and only if the registered worker is still the one the call holds |
| ManagerRuns.StaleWorker | templates/xruios-manager/WorkerSupervisor.cs:74-94 | a run in which it is not |
| WarmSession.WarmEntry.Reconnect | templates/xruios-manager/WorkerSessionPool.cs:64-74 | closes the old client and connects, exactly if the worker lets the pool in; of the other sessions at the worker exactly the old client's goes, if its message opens; a failure leaves the closed client in place |
| WarmSession.WarmEntry.Invoke | templates/xruios-manager/WorkerSessionPool.cs:34-62 | exactly when the client is kept, connected before the first attempt, or connected again before the second; from whatever state the entry is in, a worker that lets the pool in answers, and after a value the session is in step; unless requests opened and replies did not, it is in step after a refusal, too, and the capability runs exactly once, if it may |
| Broker.BrokerRouter.Route | templates/xruios-manager/BrokerRouter.cs:30-56 | refusals have their messages and leave every channel as it is; a granted call goes to the first worker that offers the capability, reconnecting where needed and only there, and its result is sealed again unchanged |
| Broker.BrokerRouter.Invoke | XRUIOS.Interfaces/SecureWorkerHost.cs:316-334 | the endpoint routes exactly the requests that open on a session, under the identity of that session; what does not open reaches no worker |
| Broker.AppCall | templates/xruios-manager/BrokerRouter.cs:30-56 | the application decrypts the bytes the worker encrypted, whatever the state of the session behind the broker, and is told why if it is refused or nobody offers the capability; a denied call touches nothing there; its own hop stays in step |
| BrokerRuns.GrantedOnly | templates/xruios-manager/BrokerRouter.cs:30-51 | in every run whatever a worker executes belongs to one request, whose own check granted the very capability that is executed, and is executed for it at most twice |
| BrokerRuns.DeniedNoCall | templates/xruios-manager/BrokerRouter.cs:35-40 | in every run a request whose check was negative stays denied, and every call in the pool is that of another request |
| BrokerRuns.OwnAnswer | templates/xruios-manager/BrokerRouter.cs:49-55 | in every run, with any number of requests under way, a value sealed for a request is what its own pooled call has returned, granted by its own check, run for it, and sealed by the worker on the session of that call's last attempt |
| BrokerRuns.FirstOffer | templates/xruios-manager/BrokerRouter.cs:43 | the first worker of the registry that offers the capability, if any does |
| BrokerRuns.GoesIn | templates/xruios-manager/BrokerRouter.cs:30-51 | from whatever state, a request that overtakes nothing is opened and checked; granted, it becomes a pooled call for the first worker that offers the capability, or finds none; denied, it ends there; the pool and all other requests stay as they are |
| BrokerRuns.GetsOut | templates/xruios-manager/BrokerRouter.cs:49-55 | from whatever state, the outcome of a finished pooled call gets out: a failure as such, a value to the application if no other reply to it is under way |
| BrokerRuns.OpenedIff | templates/xruios-app/XruiosAppClient.cs:75-80 | in every run, a request that has reached the broker was opened, and a reply that has reached the application was opened, if and only if it and all sealed before it have arrived in the order of their sealing |
| BrokerRuns.NeverAgain | XRUIOS.Interfaces/EclipseSecureClient.cs:106-112 | after a request that came too early no later one of the application is ever opened |
| BrokerRuns.OneByOneSafe | templates/xruios-app/XruiosAppClient.cs:75-80 | an application that waits for each call before it makes the next never has a request or a reply refused |
| BrokerRuns.Overtaken | templates/xruios-app/XruiosAppClient.cs:75-80 | a run in which the second of two overlapping calls overtakes the first and is refused |
| BrokerRuns.ReplyOvertaken | templates/xruios-manager/BrokerRouter.cs:54-55 | a run in which both are executed and the second answer is lost |
| Lanes.ArriveSound | XRUIOS.Interfaces/EclipseSecureClient.cs:106-112 | of numbered messages that arrive once each in any order, one opens if and only if it is in order up to its number |
| BrokerRuns.PoolRun | templates/xruios-manager/BrokerRouter.cs:50-51 | the pool inside the broker behaves as the pool alone |

## Left out

- FuzzySearch.FuzzyGet: bounds that are not whole numbers are not modelled.
- RadixMaps.RadixMap.Update: the function is total and has no effects of its own; exceptions thrown by it are not modelled.
- RadixMaps.RadixMap.Find: the `Map` objects are records of an explicit store with references, not one class instance each, so that the shape of the store can be a value; garbage is not collected.
- RadixIterators.AtPrefix: the view is modelled as an iterator over it; further operations on the view, the cached size, `clear`, `has`, `forEach` and the static constructors of the map are left out.
- SearchIndex.MiniSearch.Add: the inner `Map`s of a term are values that are stored back, which is the same as editing them in place because no other reference to them is kept; ids and texts are strings.
- SearchIndex.MiniSearch.Remove: removing a changed document is modelled, but its warning is not, and the average of a field never seen before is taken for zero where the code gets NaN.
- SearchIndex.MiniSearch.Discard: when a vacuum starts by itself, and the queue for a second one, are left out; a vacuum may be called at any point.
- SearchPauses.During: documents added in a pause are left out; whether the iterator survives a new term is `RadixOwed.AddedIff`. After a pause that deletes a term still ahead, the model stops; whether the code can go on is `RadixOwed.SurvivesIff`.
- SearchState.RunTrue: averages are exact numbers, not floats.
- SearchQuery.ExecuteQuerySpec: scores, their order and the weights are left out; `boostDocument` is a yes or no, and the fuzzy bound of a query is a share below one or a whole number.
- SearchCombine.ExecuteQuery: query trees, the wildcard, lower-casing of the operator and `autoSuggest` would only add easy cases.
- SearchStore.ToJSON: the arrays that the saved object shares with the index, and what `JSON.stringify` makes of holes in them, are left out, as is the asynchronous loader, which differs in pauses only.
- Headings.CreateHeaderTree: the page elements collected under each heading are left out.
- Utf8.UTF8ArrayToString: the native `TextDecoder` for more than 16 octets is left out.
- Handshake.BothAgree: keys, hashes, proofs and key encapsulation are ideal, keys leak at the start or never, and the client's own cipher text and nonce have their fixed lengths; the Manager's signature appears in `WorkerHost` only.
- WorkerHost.Calls: a session carries one call at a time; messages lost in between are the pool's subject, in `SessionPool`.
- SessionPool.RetryDiscipline: wall-clock timeouts and liveness are left out.
- Supervisor.BoundedLaunches: an exception in the exit handler, and a process that ends between its announcement and its lookup, are left out.
- Handshake.ExecutedOnce: the network of the handshake carries requests and teardowns in any order, but not the replies to requests; their order is the subject of `BrokerRuns`, where each reply gets to its own call.
- BrokerRuns.OpenedIff: an application has one session with the Manager, and messages are overtaken or delayed, not replayed; that is the subject of `Handshake`.
- Broker.AppCall: one call at a time, overlapping calls being the subject of `BrokerRuns`; the permission service is the answer it gives; `UnpackResponse` of the application is taken to decrypt successes only; the network behind the broker delivers everything.
- Certificates, notary hashing, the permission store, process hardening, the user interface and the graph view are not part of this model.
