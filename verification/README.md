# Verified model of the Earley parser

This project models the hard core of the parser library in Dafny and proves what it promises. It covers the
recognizer that works through the input position by position, the truth maintenance it uses for Boolean grammars,
the grammar analyses that feed it, the way trees are built from a finished chart, and the explicit-stack traversals
that rewrite trees.

## Components

- `Grammars`, `EarleyItems`, `EarleyChart`, `EarleyParser`. A grammar and what its literals derive; the textbook
  closure of chart items; the invariant of the recognizer's fields; the class `Parser` with those fields and the
  methods that change them. `Parse` accepts exactly the strings the start symbol derives without the productions that
  have `null` right after a terminal (which grammars of the documented form do not have), and leaves a chart that is
  exactly the least closed set of items, although nullable literals are skipped inside `Add`, scanned items go
  straight into the next set, prediction looks one character ahead, each completion reads only new waiters, and each
  round processes only new items.
- `Retraction`. What a retraction takes out of the chart is exactly the least set closed under the recorded edges and
  under the loss of a completion's last support; over whole runs, what is in the sets is a matter of the operations
  alone, and nothing retracted comes back.
- `CharClasses`, `ClassWalk`, `ClassAcceptance`, `ClassLanguages`, `ClassCaches`. The analysis that turns rules which
  always match one character into character classes; that it computes a definition without marks or walk order; which
  rules it accepts, in numbers of nodes and levels; that it preserves the language of every rule of the Boolean grammar;
  that the caches kept per guard state stay coherent.
- `DynamicProductions`. Productions that come and go while the grammar is in use, as a transaction, and which values a
  parse keeps, told by its additions and completions.
- `ChildTilings`, `TilingMeaning`, `Disambiguation`. The children of a completed item are exactly the tilings of its
  span, which in a finished chart are exactly the ways to split the span into derivations; the choice among them is
  a function of the chart, and the two implementations of it agree.
- `ChartPlans`, `TreeBuilder`. Which packs a finished chart keeps for a node, and in which order; the frame-stack
  builder, which searches the chart as it goes, equals a recursion over them, and what it builds has no helper left
  as a node of its own.
- `TreeSpelling`, `ChartTrees`. What is built spells the input exactly when no node that covers some input contains
  itself; in the tree of a finished chart nothing else can go wrong, and a grammar in which no nonterminal derives
  itself never shows such a node.
- `Traversals`, `Replacement`, `Inlining`. The post-order and pre-order stack machines equal recursions; replacing and
  inlining are built on them. What inlining leaves is told by names and options alone.
- `ParseCounts`, `Globs`, `Negation`. The saturating parse count, the greedy wildcard matcher, and the negation of
  rule bodies, with the exact condition under which it negates.
- `TreeForms`. The tree that is built, the tree that is rewritten and the tree that is counted are one tree.

## Conditions

The recognizer is modelled for inputs that are finite sequences of characters. No terminal and no class accepts the
end-of-input values 0 and -1, there is no end-of-file class, the start symbol is not a class, no class is nullable,
and every production is enabled. Grammars are not conjunctive where recognition is concerned; classes are included.
The collector, the hook for dynamic growth and binarization are off, and integers are unbounded except where a width
matters (the parse count, the widths of spans).

A `null` right after a terminal is a special case. The format document (docs/tau_grammar_format.md:58-62) allows `null`
only as a whole body, but nothing refuses other grammars. Scanning a terminal puts the item into the next set without
the nullable advance (src/parser.tmpl.h:857-863), and scanning `null` compares its value 0 with the character
(src/parser.tmpl.h:809-827). So where the end of the input reads as -1, a production with `null` right after a
terminal never completes, and the recognized language is that of the other productions, the *live part* of the
grammar. Where a 0 is read, at the end of the input or in it, the comparison succeeds and the item is advanced inside
its set, after the round that could have used it; which completions are then still processed depends on whether
another round follows. `EarleyParser.ZeroAtEnd` shows both outcomes: S => 'a' null is then accepted on "a", and the same
production one level down, S => X and X => 'a' null, is not. So such runs accept neither the language of the grammar
nor that of its live part, and `Parse` covers runs that read a 0 only for grammars in which `null` never follows a
terminal.

A negated body is written with each sequence at most once in a conjunction. Where every sequence has the same sign
wherever it occurs, negation is exact if and only if there is a conjunction and no choice of one sequence from every
conjunction is properly inside another choice (`Negation.NegationExactly`): simplification keeps only the longer one.
Where a sequence occurs with both signs, the alternatives alone do not decide. Two products can then have the same
sequences with other signs, the first of them stays, and which one is first is a matter of the order in which
sequences are visited (`Negation.OrderDecides`). What holds for all bodies is one half, `Negation.NeverBothExactly`.

Hash values of nodes are a parameter: they decide only the order in which alternatives are listed.

Sets and maps that the source keeps in an order are Dafny sets, maps or sequences; a loop over one takes its elements
in any order, so results do not depend on it.

## Model

| member | source | states |
|---|---|---|
| Grammars.NullableIsExact | src/grammar.tmpl.h:1444-1462 | a nonterminal is nullable in the sense of the fixpoint if and only if it derives the empty string at every position |
| Grammars.ComputeNullables | src/grammar.tmpl.h:1452-1462 | the loop ends and computes exactly the nullable nonterminals |
| Grammars.LiveIsWhole | docs/tau_grammar_format.md:58-62 | a grammar in which `null` never follows a terminal is its own live part |
| Grammars.SameNullables | src/grammar.tmpl.h:1444-1462 | a grammar and its live part have the same nullable nonterminals |
| Grammars.NullBehindTerminal | src/parser.tmpl.h:809-827 | S => 'a' null derives "a", but its live part, which is what the recognizer accepts, does not |
| EarleyItems.ReachedIsClosed | src/parser.tmpl.h:1114-1178 | the intersection of all closed item sets is closed itself, so there is a least one |
| EarleyItems.ReachIsSound | src/parser.tmpl.h:579-721 | a reached item's first literals derive, in the live part, exactly the input between its start and its set |
| EarleyItems.ReachPrefix | src/parser.tmpl.h:734-804 | from a predicted item every derivation of a prefix of its body is followed, lookahead or not |
| EarleyItems.ReachAcceptsExactly | src/parser.tmpl.h:1383-1403 | for every grammar, the closure holds a completed start item over the whole input if and only if the start symbol derives it in the live part |
| EarleyItems.NullableAdvanceReached | src/parser.tmpl.h:397-418 | skipping a nullable literal leads only to items the closure has anyway |
| EarleyItems.PredictedExactly | src/parser.tmpl.h:722-804 | an item is predicted if and only if it starts the parse, or its head is waited for at its set and its body is empty or begins with `null`, with the next character, with a class that has it, or with a nonterminal of the grammar |
| EarleyItems.EmptyCompletionIsNullable | src/parser.tmpl.h:1144-1151 | only nullable nonterminals complete over an empty span |
| EarleyItems.LookaheadIsTransparent | src/parser.tmpl.h:722-733 | the unpruned closure is the pruned one plus exactly the predictions the lookahead skipped |
| EarleyItems.LookaheadKeepsCompletions | src/parser.tmpl.h:777-789 | pruned and unpruned closures have the same completed items at every position |
| EarleyChart.AddToReaches | src/parser.tmpl.h:380-419 | what one `add` brings in is sound, and each new item that stands before a nullable literal brings its advance |
| EarleyChart.AddKeepsInv | src/parser.tmpl.h:380-419 | `add` keeps the invariant of the machine |
| EarleyChart.CacheKeepsInv | src/parser.tmpl.h:451-459 | appending a waiter keeps the invariant |
| EarleyChart.ScanKeepsInv | src/parser.tmpl.h:805-871 | scanning a character keeps the invariant |
| EarleyChart.ClassProductionKeepsInv | src/grammar.tmpl.h:987-1007 | making a class production keeps the invariant |
| EarleyChart.MemoCovers | src/parser.tmpl.h:613-618 | a completion that starts before this position and has read its waiting list to the end stays complete, though later calls read nothing again |
| EarleyChart.FocusSettles | src/parser.tmpl.h:1154-1178 | when a round adds nothing, everything at the position is predicted, scanned and completed |
| EarleyChart.FocusMoves | src/parser.tmpl.h:1103-1190 | the invariant carries over to the next position |
| EarleyChart.RoundShrinks | src/parser.tmpl.h:1114-1178 | a round that goes on leaves fewer items that can still be added, so the loop ends |
| EarleyChart.FinishedIsClosed | src/parser.tmpl.h:1114-1178 | a chart with every position settled is closed under predict, scan, class scan, null and complete |
| EarleyChart.FinishedIsExact | src/parser.tmpl.h:1114-1178 | a settled chart holds exactly the items of the least closed set, no more and no fewer |
| EarleyChart.FinishedClassesExact | src/parser.tmpl.h:872-912 | it holds one completed class item for each class that is waited for and accepts the character, and no other class item |
| EarleyChart.FoundIsExact | src/parser.tmpl.h:1382-1403 | probing the last set of such a chart answers exactly whether the start symbol derives the input in the live part |
| EarleyChart.RestoredIsUnpruned | src/parser.tmpl.h:1538-1556 | a row to which the skipped predictions are added is exactly the unpruned row |
| EarleyParser.Parser.constructor | src/parser.h:1578-1663 | the fields start out valid, with exactly the nullable nonterminals, wherever the grammar has `null` |
| EarleyParser.Parser.AddAt | src/parser.tmpl.h:380-419 | adding a sound item of the current set keeps the invariant, and the item is in the set or waits to enter it |
| EarleyParser.Parser.CacheAt | src/parser.tmpl.h:451-459 | entering an item into the waiting list keeps the invariant, memos included, and the item waits afterwards |
| EarleyParser.Parser.Predict | src/parser.tmpl.h:734-804 | afterwards every production of the literal that the lookahead lets pass is predicted and the item waits |
| EarleyParser.Parser.Scan | src/parser.tmpl.h:805-871 | advances over the character when it matches, straight into the next set |
| EarleyParser.Parser.GetClassProduction | src/grammar.tmpl.h:1414-1424 | gives the production of a class and a character, made on first use, and none when the class rejects it |
| EarleyParser.Parser.ScanClass | src/parser.tmpl.h:872-912 | puts the completed class item into the next set and the item onto the waiting list |
| EarleyParser.Parser.AdvanceWaiter | src/parser.tmpl.h:626-688 | advances one waiter over the completion |
| EarleyParser.Parser.Complete | src/parser.tmpl.h:579-721 | afterwards every waiter for the completed span has been advanced, though only new ones are read |
| EarleyParser.Parser.Flush | src/parser.tmpl.h:1120-1127 | moves exactly the items of `t` into the current set |
| EarleyParser.Parser.TakeSnapshot | src/parser.tmpl.h:1139-1152 | takes exactly the items to revisit and then the new ones, and adds exactly the new completed items that start here to those to revisit |
| EarleyParser.Parser.Round | src/parser.tmpl.h:1114-1178 | one round keeps the invariant and either settles the position or adds an item |
| EarleyParser.Parser.Position | src/parser.tmpl.h:1112-1190 | the rounds of a position end, and leave it settled |
| EarleyParser.Parser.Found | src/parser.tmpl.h:1382-1403 | answers exactly whether a completed start item spans the input |
| EarleyParser.Parser.Parse | src/parser.tmpl.h:1083-1250 | for every grammar and input, when no 0 is read or `null` follows no terminal: found if and only if the start symbol derives the input in the live part, which is the whole grammar when `null` follows no terminal; the chart is exactly the least closed set |
| EarleyParser.NullRefused | src/parser.tmpl.h:809-827 | with S => 'a' null, on "a" with the end reading as -1: derived, but not found |
| EarleyParser.ZeroAtEnd | src/parser.tmpl.h:809-863 | with the end reading as 0, the last round advances the item over `null` inside the last set and no round follows: on "a" S => 'a' null is found, and with S => X in between it is not, although both are derived |
| EarleyParser.Parser.PredictAllAt | src/parser.tmpl.h:1538-1556 | makes a set of the finished chart exactly the set an unpruned run would have |
| Retraction.ClosureIsUnique | src/parser.tmpl.h:468-514 | what has to go after a retraction is one definite set |
| Retraction.ClosureComposes | src/parser.tmpl.h:513 | taking items back one after another takes back what has to go for all of them together |
| Retraction.WholeClosure | src/parser.tmpl.h:485-498 | the edges of an item and the completions that lose their last support together give the closure of the item |
| Retraction.Chart.constructor | src/parser.tmpl.h:1064-1070 | the empty chart is valid: nothing is counted and every count is right |
| Retraction.Chart.Insert | src/parser.tmpl.h:1120-1127 | puts an item into its set; every count stays right |
| Retraction.Chart.CacheInsert | src/parser.tmpl.h:451-459 | enters an item into the waiting list of its position, at the end, unless it is there already |
| Retraction.Chart.EndPosition | src/parser.tmpl.h:1180-1192 | drops the bookkeeping of a position; with nothing counted, every count is right |
| Retraction.Chart.Run | src/parser.tmpl.h:1114-1192 | whatever the operations and their order, each leads from one chart of the run to the next as it says, a retraction by the closure; the count of each key stays the number of its counted completions |
| Retraction.Chart.Do | src/parser.tmpl.h:387-396 | one operation: an insertion of an item that is marked or present changes nothing, any other puts it in; a retraction removes the closure of its item and nothing else |
| Retraction.StepOnItem | src/parser.tmpl.h:387-396 | one operation, for one item: it is live afterwards if and only if it was, or was inserted unmarked, and no retraction took it; it is marked if and only if it was or a retraction took it |
| Retraction.RunKeepsApart | src/parser.tmpl.h:387-391 | no item of any chart of a run is both in its set and marked as retracted from it |
| Retraction.LiveExactly | src/parser.tmpl.h:1114-1192 | after any number of operations an item is in its set if and only if it was there at the start or some insertion met it unmarked, and no retraction has taken it |
| Retraction.NoReturn | src/parser.tmpl.h:387-391 | an item that has once left the chart never comes back, whatever is inserted later |
| Retraction.RunIsDetermined | src/parser.tmpl.h:1114-1192 | the first chart and the operations decide every chart of the run |
| Retraction.RefutedExactly | src/parser.tmpl.h:468-514 | what one retraction takes is unparked and, when it was in its set, uncounted, without edges and with dead waiting entries; keys that lose all support lose their edges; every other entry, edge and mark stays |
| Retraction.RunFromStart | src/parser.tmpl.h:1064-1192 | in a run from the empty chart the sets hold at the end exactly the items that were inserted unmarked and not taken since, and none that is marked |
| Retraction.Chart.CacheErase | src/parser.tmpl.h:460-466 | turns exactly the matching live entry into a tombstone; no entry moves |
| Retraction.Chart.Mark | src/parser.tmpl.h:470-475 | unparks one item and marks it retracted; every other mark stays |
| Retraction.Chart.TakeOut | src/parser.tmpl.h:476-479 | takes the item out of its set and kills its waiting entry, if it is in its set, and nothing else |
| Retraction.Chart.Leave | src/parser.tmpl.h:468-479 | takes one item out of its set, the waiting list and the parked conjuncts, and marks it |
| Retraction.Chart.Retract | src/parser.tmpl.h:468-499 | ends, and removes exactly the least set closed under recorded edges and fallen completions; counts stay right |
| Retraction.Chart.Uncount | src/parser.tmpl.h:490-498 | lowers the count of the key, and takes back what rested on it when that was its last support |
| Retraction.Chart.CascadeUncomplete | src/parser.tmpl.h:501-514 | does nothing while the key has support, and otherwise takes back exactly what rests on it |
| Retraction.Chart.CountCompletion | src/parser.tmpl.h:610-612 | counts a completion once; the count of every key stays the number of its counted completions |
| Retraction.Chart.Record | src/parser.tmpl.h:688-697 | records a new item under its completion and, within one set, under its predictor |
| CharClasses.SpecTaller | src/grammar.tmpl.h:1051-1138 | an accepted rule has one verdict, however deep the recursion is allowed to go |
| CharClasses.UsedIsLower | src/grammar.tmpl.h:1108-1109 | an accepted rule uses only rules accepted with a smaller depth |
| CharClasses.CycleIsRejected | src/grammar.tmpl.h:1055-1060 | a rule on a cycle of uses is never accepted |
| ClassLanguages.AcceptedIsExact | src/grammar.tmpl.h:1051-1138 | in every solution of the Boolean grammar's equations an accepted rule's language is exactly the one-character strings its predicate accepts |
| ClassLanguages.ClassesPreserveLanguages | src/grammar.tmpl.h:809-863 | reading any set of accepted rules as classes neither adds nor loses a solution, so no other rule changes |
| ClassWalk.OpenIsCycle | src/grammar.tmpl.h:1055-1060 | meeting a rule that is still open means the rule is on a cycle |
| ClassWalk.Walk.RejectRule | src/grammar.tmpl.h:1038-1050 | marks the rule rejected, which it is |
| ClassWalk.Walk.SingleCharRule | src/grammar.tmpl.h:1051-1138 | returns a predicate if and only if the reference definition accepts the rule, and then that predicate, whatever was walked before; `ClassAcceptance` says which rules these are |
| ClassWalk.Walk.Alternatives | src/grammar.tmpl.h:1086-1137 | the loop over a rule's productions computes the reference definition's alternatives, the size limits included |
| ClassWalk.Walk.Conjuncts | src/grammar.tmpl.h:1090-1125 | so does the loop over one production's conjuncts |
| ClassWalk.Walk.WalkAll | src/grammar.tmpl.h:830-833 | decides every rule of the source |
| ClassAcceptance.SpecFits | src/grammar.tmpl.h:1051-1138 | a rule is accepted within a bound if and only if it fits: it is none of the excluded kinds, every enabled production has a positive conjunct and nothing but literals that are a character or fit themselves, and the nodes and levels, counted over the productions, are at most 256 and 64 |
| ClassAcceptance.AcceptedExactly | src/grammar.tmpl.h:1051-1138 | a rule is accepted if and only if it fits at some depth of uses |
| ClassAcceptance.TerminalsExactly | src/grammar.tmpl.h:1086-1131 | a rule all of whose k enabled productions are one terminal each is accepted if and only if k is not 0 and 2k + 1 is at most 256, and then its predicate accepts exactly these characters |
| ClassAcceptance.GuardsExactly | src/grammar.tmpl.h:1081-1109 | the guards kept with an accepted rule are exactly those on the productions of the rules it reads |
| ClassCaches.GuardsDeterminePredicate | src/grammar.tmpl.h:1081-1084 | two guard states under which a rule is accepted with the same set of guards give it the same predicate |
| ClassCaches.RestoreOK | src/grammar.tmpl.h:851-853 | what was saved under a set of guards may be used again under it: the current predicate accepts it |
| ClassCaches.ClassCache.GetClassProduction | src/grammar.tmpl.h:1414-1424 | gives a production if and only if the current predicate accepts the character, the one for this class and character |
| ClassCaches.ClassCache.AddClassProduction | src/grammar.tmpl.h:987-1007 | never makes a second production for a derived class and a character, across all guard states |
| ClassCaches.ClassCache.SetEnabledProductions | src/grammar.tmpl.h:779-796 | changing the guards keeps every cache coherent with the new guard state |
| ClassCaches.ClassCache.DeriveCharClasses | src/grammar.tmpl.h:797-801 | so does turning the analysis on or off |
| ClassCaches.ClassCache.SaveActive | src/grammar.tmpl.h:811-814 | saves each active cache under the guards it belongs to |
| ClassCaches.ClassCache.Apply | src/grammar.tmpl.h:809-863 | afterwards the derived classes are exactly the accepted rules that are used, and every cached entry is accepted now |
| DynamicProductions.EntryChanges | src/grammar.tmpl.h:1392-1409 | changing an entry's state and linking or unlinking it keeps both tables exactly the linked productions |
| DynamicProductions.EntryAppears | src/grammar.tmpl.h:1283-1297 | a new value gets a fresh index that no other value ever has |
| DynamicProductions.RollbackRestores | src/grammar.tmpl.h:1318-1326 | a parse that starts with nothing pending and is rolled back leaves linked exactly what was linked |
| DynamicProductions.CommitSettles | src/grammar.tmpl.h:1303-1317 | committing turns a context the grammar is settled in into the context that is reported |
| DynamicProductions.SyncSettles | src/grammar.tmpl.h:1327-1374 | after synchronising, the committed values are those of the context and every value of it is permanent |
| DynamicProductions.Dynamics.SetEnabledProductions | src/grammar.tmpl.h:779-796 | rebuilds both tables to hold exactly the enabled source productions and the entries that are not retired |
| DynamicProductions.Dynamics.Link | src/grammar.tmpl.h:1392-1401 | adds the index to its nonterminal in both tables and touches nothing else |
| DynamicProductions.Dynamics.Retire | src/grammar.tmpl.h:1402-1409 | removes the index from both tables and retires the entry |
| DynamicProductions.WithoutErases | src/grammar.tmpl.h:1410-1413 | what is left after erasing an index are the entries at increasing places, all those that hold something else and no others |
| DynamicProductions.Dynamics.Unpend | src/grammar.tmpl.h:1410-1413 | the loop erases every occurrence of the index; the other pending entries stay, all of them and in their order |
| DynamicProductions.Dynamics.Append | src/grammar.tmpl.h:1283-1297 | appends a linked production under a fresh index |
| DynamicProductions.Dynamics.Grow | src/grammar.tmpl.h:1251-1302 | refuses exactly empty and permanent values; otherwise the value is pending under its own index, tagged with the hook's pair |
| DynamicProductions.Dynamics.Confirm | src/grammar.tmpl.h:1375-1385 | confirms exactly the pending entries of that value that the pair, or no hook, grew |
| DynamicProductions.Dynamics.Commit | src/grammar.tmpl.h:1303-1317 | confirmed entries become permanent and are reported, the others are retired, nothing stays pending |
| DynamicProductions.Dynamics.Rollback | src/grammar.tmpl.h:1318-1326 | every pending entry is retired, every other entry stays |
| DynamicProductions.Dynamics.HostValues | src/grammar.tmpl.h:924-954 | gives each value a host entry, whatever its state was, and changes no other entry |
| DynamicProductions.Dynamics.Sync | src/grammar.tmpl.h:1327-1374 | takes every entry where the context says; changes nothing at all when the grammar is settled in it |
| DynamicProductions.Dynamics.Parse | src/grammar.tmpl.h:1251-1302 | no run of additions and confirmations touches a permanent entry; any other value is pending afterwards if and only if it was or was added, carries exactly the pairs of its additions, and is confirmed if and only if it was or a completion came after the addition that put its pair there |
| DynamicProductions.Dynamics.AbandonedParse | src/grammar.tmpl.h:1318-1326 | after any run and a rollback both tables are as before |
| DynamicProductions.Dynamics.KeptParse | src/grammar.tmpl.h:1303-1374 | after synchronising, any run and a commit, the grammar is settled in the reported context; with nothing pending before, a value is in it if and only if it was in the context, or was added, not refused, and later completed by the pair of its hook, or by its own nonterminal outside any hook; every other addition is retired |
| DynamicProductions.ConfirmedMeans | src/grammar.tmpl.h:1375-1385 | an addition with nothing pending before is confirmed if and only if a later completion matches the pair of its hook |
| DynamicProductions.KeptExactly | src/grammar.tmpl.h:1303-1317 | which values a kept parse reports, and which of its additions are retired, told by positions in the list of events |
| ChildTilings.FinishesNext | src/parser.tmpl.h:1987-2015 | choosing the next child from the right loses no tiling; dropping children that start too early loses none either |
| ChildTilings.ChildForest.SblChdForest | src/parser.tmpl.h:1975-2016 | adds exactly the packs that complete the children chosen so far, and puts the chosen children back |
| ChildTilings.ChildPacks | src/parser.tmpl.h:1975-2016 | the packs of an item are exactly the contiguous sequences that spell its body, match the input and use completed spans |
| TilingMeaning.StartReached | src/parser.tmpl.h:734-804 | an item is in the closure only together with the prediction it grew from |
| TilingMeaning.SpanIsDerived | src/parser.tmpl.h:2006-2014 | a completed span of a finished chart is derived by its nonterminal in the live part |
| TilingMeaning.DerivedIsSpan | src/parser.tmpl.h:2006-2014 | a span that something waits for and that is derived is in the chart |
| TilingMeaning.TilingsAreDecompositions | src/parser.tmpl.h:1975-2016 | in a finished chart the packs of a completed item are exactly the decompositions of its span into derivations of the live part |
| TilingMeaning.CompletedHasChildren | src/parser.tmpl.h:1975-2016 | a completed item always has at least one pack |
| TilingMeaning.Children | src/parser.tmpl.h:1975-2016 | the search finds all decompositions, and at least one |
| Disambiguation.WidthsDecide | src/parser.tmpl.h:1773-1787 | two tilings of one body that have the same widths are the same |
| Disambiguation.SmallestIsUnique | src/parser.tmpl.h:1761-1790 | at most one pack has the lexicographically smallest widths |
| Disambiguation.PickBest | src/parser.tmpl.h:1761-1790 | picks the candidate with the lexicographically smallest widths, in whatever order they are listed |
| Disambiguation.NarrowForest | src/parser.tmpl.h:2194-2233 | the forest builder's loop, which tests only after a first step, picks a pack by the same rule |
| Disambiguation.CollectPacks | src/parser.tmpl.h:1799-1846 | collects all packs, or only those of the lowest production that has any, in whatever order the items come |
| Disambiguation.ForestPacks | src/parser.tmpl.h:2154-2191 | the forest builder keeps the packs of the same production |
| Disambiguation.ChosenIsUnique | src/parser.tmpl.h:1761-1846 | the chosen children are a function of the chart and the node |
| Disambiguation.ChosenMeans | src/parser.tmpl.h:1761-1846 | a pack is chosen if and only if no lower production has any pack and every other pack of its production first differs from it in a child that ends later |
| Disambiguation.ChooseForTree | src/parser.tmpl.h:1883-1899 | the tree builder chooses those children, and none only when there is no pack |
| Disambiguation.ChooseForForest | src/parser.tmpl.h:2104-2252 | so does the forest builder, when no body of the node's nonterminal is empty, as its loop needs: it reads the first child before it tests |
| ChartPlans.BeforeIsOrder | src/utility/forest.h:94-103 | packs are in one definite order, by the hashes of their nodes and then by the nodes |
| ChartPlans.InOrder | src/utility/forest.h:138-140 | going through a set of packs gives them all, in that order |
| ChartPlans.CodeMeans | src/utility/forest.h:94-103 | a pack comes before another if and only if it begins it, or has the earlier node where they first differ: the one with the smaller hash, or else a terminal before a nonterminal, the smaller value, the earlier start, the earlier end |
| ChartPlans.ListingOrdered | src/utility/forest.h:138-140 | every pack of the list comes before those that follow it, in that sense |
| ChartPlans.NodePacksExact | src/parser.tmpl.h:1831-1846 | the packs of a node form a finite set: those of all items that complete it |
| ChartPlans.ChosenExists | src/parser.tmpl.h:1761-1846 | a node with any pack has a chosen one: a lowest production and a pack of smallest widths |
| ChartPlans.PacksFor | src/parser.tmpl.h:1799-1899 | searching the chart gives a node one pack where disambiguation is allowed, the one of the lowest production whose children end earliest from the left; elsewhere all its packs, each once, by hashes; and nothing exactly when it has none; nodes of derived classes are not among them, their packs come from the character and not from the chart |
| TreeBuilder.EmitTotal | src/parser.tmpl.h:1871-1882 | a tree put into a frame's sink counts as the next output of the frames above it |
| TreeBuilder.ElementTaken | src/parser.tmpl.h:1907-1918 | taking the next element of a pack leaves the final result the same and costs one step |
| TreeBuilder.FramePushed | src/parser.tmpl.h:1874-1899 | a frame opened for a node will deliver what the recursion builds for it |
| TreeBuilder.PackEnds | src/parser.tmpl.h:1919-1925 | finishing a pack, an alternative included, leaves the final result the same |
| TreeBuilder.FramePopped | src/parser.tmpl.h:1927-1933 | so does closing a frame |
| TreeBuilder.Builder.OpenNode | src/parser.tmpl.h:1883-1899 | delivers a leaf, nothing, or a frame, as the recursion does |
| TreeBuilder.Builder.BuildTree | src/parser.tmpl.h:1900-1936 | searching the chart node by node, it ends for every chart, cyclic ones included, and returns what the recursion returns; for a root that is no helper this is one tree, whose nodes have the parts of their packs as children, and no helper is left in it but as alternatives over its span |
| TreeBuilder.BuildShows | src/parser.tmpl.h:1883-1936 | a node that is no vanishing helper gives one tree: over one pack the children are, in order, the trees of its elements, each helper with one pack replaced by the elements of that pack; over several packs there is one such node for each |
| TreeBuilder.ShownIsFlat | src/parser.tmpl.h:1893-1910 | in such a tree no helper occurs as a node except directly below a node of alternatives over its span |
| TreeSpelling.CutsExactly | src/parser.tmpl.h:1913-1916 | building the root cuts off a node that covers some input if and only if such a node below the root contains itself |
| TreeSpelling.BuildCovers | src/parser.tmpl.h:1900-1936 | a node below which no node that covers some input is cut off delivers trees that tile its span, helpers included |
| TreeSpelling.TiledSpells | src/parser.tmpl.h:1900-1936 | a tiled tree, and each alternative in it, spells its span of the input |
| TreeSpelling.RootSpells | src/parser.tmpl.h:1900-1936 | when no node that covers some input contains itself, the tree built for the whole input is tiled throughout and spells the whole input |
| TreeSpelling.CutsFallShort | src/parser.tmpl.h:1913-1916 | when each node has one pack, a node has at most as many leaf characters as its span is long, and fewer when something that covers input is cut off below it |
| TreeSpelling.SpellsExactly | src/parser.tmpl.h:1900-1936 | the tree's leaves, read along first alternatives, are the input if and only if no node that covers some input contains itself by way of first packs |
| ChartTrees.ChartGrounded | src/parser.tmpl.h:1799-1846 | in a finished chart every completed node has packs, whatever may be disambiguated, and they tile its span with leaves that match the input |
| ChartTrees.RootInChart | src/parser.tmpl.h:1744 | the root node is completed in the chart if and only if the start symbol derives the input in the live part |
| ChartTrees.CyclicIsCircular | src/parser.tmpl.h:1913-1916 | a node that covers input and contains itself shows a nonterminal that derives itself beside nullable literals |
| ChartTrees.BuildBintree | src/parser.tmpl.h:1739-1942 | after a parse without derived classes, for a start symbol that is no EBNF helper: a leaf when the input is not derived; otherwise a tree in which no helper is left as a node of its own, whose leaves are the input if and only if no node of first packs that covers input contains itself, and which is tiled throughout when the grammar lets no nonterminal derive itself |
| ChartTrees.SelfParse | src/parser.tmpl.h:1913-1916 | with S => S and S => 'a', on "a": the input is accepted, and the disambiguated tree has none of it |
| ChartTrees.ListParse | src/parser.tmpl.h:1893-1910 | with S => 'a' E and E => 'b', E named as a helper, on "ab": the tree has both characters as children of the root |
| TreeForms.LabelledText | src/get_shaped_tree2.tmpl.h:44-60 | the terminals of the tree that is rewritten are the leaves of the tree that was built |
| TreeForms.BuildPlain | src/parser.tmpl.h:1883-1936 | where every node has one pack, the tree has no node of alternatives |
| TreeForms.PlainCountsOnce | src/parser_result.tmpl.h:84-134 | a tree without alternatives counts as one parse |
| TreeForms.ShapedTree | src/parser.tmpl.h:1295-1305 | building, inlining and counting one after another: where disambiguation is allowed everywhere and no nonterminal derives itself, a derived input gives a tree whose terminals still spell it, and one parse |
| Traversals.RanksFall | src/rewriting.h:514-524 | nodes in progress get strictly smaller towards the top of the stack |
| Traversals.StaysOpen | src/rewriting.h:544-552 | storing a finished node never stores a node that is still in progress |
| Traversals.ErrorSpreads | src/rewriting.h:544-546 | an error at one node is an error of the whole recursion |
| Traversals.PreOrder | src/rewriting.h:870-1011 | both forms, with and without memory, end and return what the recursion returns, errors included |
| Traversals.PostIsBelow | src/rewriting.h:483-591 | post-order is the pre-order walk that does nothing on the way down |
| Traversals.PostOrder | src/rewriting.h:483-591 | ends and returns the bottom-up recursive map; a node in progress is never found in the cache |
| Traversals.WalkRelabels | src/rewriting.h:870-1011 | both functions reach every node that is entered, on the way down and on the way up, once each; places and children are kept, and what is not entered stays as it is |
| Traversals.ErrorFound | src/rewriting.h:544-546 | the whole is an error only when some node that is entered gets one |
| Replacement.Replace | src/rewriting.h:1468-1485 | replaces from the top down and never inside a replacement |
| Replacement.ReplacedInPlace | src/rewriting.h:1468-1476 | outermost occurrences are replaced all at once, by the replacement as it is; every other node above them stays in place |
| Replacement.ChangedWhenTouched | src/rewriting.h:1468-1476 | the result differs from the input if and only if some node of it is a key with another value |
| Replacement.IdentityEntriesExact | src/rewriting.h:880-887 | entries that map a tree to itself protect what is inside it if and only if nothing inside it is a key with another value |
| Replacement.IdentityEntryIgnored | src/rewriting.h:880-887 | a tree mapped to itself that is changed all the same |
| Inlining.PostIsInline | src/get_shaped_tree2.tmpl.h:38-62 | the traversal with the inliner is the recursion that hoists children from the bottom up |
| Inlining.InlineNodes | src/get_shaped_tree2.tmpl.h:38-62 | what is left are the nodes that are not hidden, the root, and those directly below alternatives, in their order and each below the same such nodes; hidden are names with "__E_" or "__B_" in them, listed ids, and the 25 class names when the option is on. A tree comes back unchanged if and only if it has nothing to hide, and the result has nothing to hide unless alternatives are listed themselves |
| Inlining.InlinedIsHidden | src/parser_result.tmpl.h:255-287 | which literals are inlined: exactly those so named, listed, or named like a class when the option is on |
| Inlining.ClassNamesExactly | src/parser_result.tmpl.h:268-281 | the list of class names has the end, twelve classes, and the same twelve with the prefix for all characters |
| Inlining.OutlineKept | src/get_shaped_tree2.tmpl.h:38-62 | the nodes of the result with their depths are the shown nodes of the tree with the number of shown nodes above them |
| Inlining.OutlineDecides | src/get_shaped_tree2.tmpl.h:38-62 | the nodes of a tree with their depths determine the tree |
| Inlining.InlineKeepsYield | src/get_shaped_tree2.tmpl.h:44-60 | inlining keeps the sequence of terminals |
| Inlining.NormalExactly | src/get_shaped_tree2.tmpl.h:44-60 | afterwards inlinable nodes stand only at the root and below nodes of alternatives if and only if no inlined node of alternatives had an inlinable child |
| Inlining.SecondPass | src/get_shaped_tree2.tmpl.h:38-62 | a pass changes nothing exactly on trees in normal form; a second pass changes nothing exactly when nothing leaked |
| Inlining.AlwaysNormalExactly | src/parser_result.tmpl.h:255-287 | every result is in normal form if and only if the node of alternatives is not listed for inlining itself |
| Globs.StepsIsMatches | src/syntax_highlighting.tmpl.h:61-97 | matching a character at a time is the same as replacing every wildcard by some string |
| Globs.Split | src/syntax_highlighting.tmpl.h:66-73 | cuts the pattern into the pieces between its wildcards |
| Globs.Greedy | src/syntax_highlighting.tmpl.h:90-94 | taking the leftmost occurrence of a segment loses no match |
| Globs.WholeIsTail | src/syntax_highlighting.tmpl.h:76-95 | a pattern matches when its first piece stands at the start and the others follow in order, the last at the end |
| Globs.Find | src/syntax_highlighting.tmpl.h:91-92 | the leftmost occurrence at or after a position, if there is one |
| Globs.GlobMatch | src/syntax_highlighting.tmpl.h:61-97 | for every pattern and name: true if and only if each wildcard can be replaced by some string to give the name |
| ParseCounts.CountIsExact | src/parser_result.tmpl.h:84-86 | the sum-and-product count is the length of a list that has every reading of the tree exactly once |
| ParseCounts.TreesOfReadings | src/parser_result.tmpl.h:84-86 | the trees of a node are exactly those its readings stand for |
| ParseCounts.CountsTrees | src/parser_result.tmpl.h:84-134 | the count is the number of different trees if and only if at every node of alternatives no two alternatives give the same tree, and otherwise it is larger |
| ParseCounts.SatAdd | src/parser_result.tmpl.h:91-95 | the sum, or the largest word when it does not fit |
| ParseCounts.SatMul | src/parser_result.tmpl.h:96-101 | the product, or the largest word when it does not fit |
| ParseCounts.WrapShows | src/parser_result.tmpl.h:99-100 | dividing the wrapped product back gives the other factor if and only if it did not wrap |
| ParseCounts.CountNode | src/parser_result.tmpl.h:118-131 | a node whose children are counted gets their sum or product |
| ParseCounts.CountParses | src/parser_result.tmpl.h:84-134 | ends, never reads a missing count, and returns the number of readings, or the largest 64-bit word when they are more |
| Negation.Simplify | src/grammar.tmpl.h:198-210 | keeps exactly the non-empty conjunctions that no other properly extends |
| Negation.NegateDisj | src/grammar.tmpl.h:249-275 | computes the accumulated products, simplified, for the order the conjunctions are visited in |
| Negation.ProductsAreParts | src/grammar.tmpl.h:256-271 | where signs agree, every accumulated product is part of a full choice, and every full choice is accumulated |
| Negation.StaleProductsGo | src/grammar.tmpl.h:256-274 | where signs agree and no full choice is properly inside another, simplification removes exactly the stale products |
| Negation.NegationExactly | src/grammar.tmpl.h:249-275 | where signs agree: the negation holds exactly when the disjunction does not, if and only if there is a conjunction and no full choice is properly inside another |
| Negation.NestedFails | src/grammar.tmpl.h:203-208 | a full choice properly inside another gives a case in which neither the negation nor the disjunction holds |
| Negation.NegationMeansNot | src/grammar.tmpl.h:249-275 | in particular, negation is exact when no sequence occurs twice |
| Negation.NeverBothExactly | src/grammar.tmpl.h:249-275 | whatever the signs: negation and disjunction never hold together if and only if each conjunction that is kept has a flipped sequence of every conjunction |
| Negation.SingleSequences | src/grammar.tmpl.h:249-275 | negating one or more single sequences gives exactly one conjunction, of all of them flipped |
| Negation.DoubleNegation | src/grammar.tmpl.h:242-275 | negating it again gives the alternatives back |
| Negation.SharedSequenceFails | src/grammar.tmpl.h:198-210 | a sequence in two conjunctions can make the negation wrong: with [a b] and [a c] the choice of a is inside another, and when a fails and b and c hold, neither the negation nor the disjunction holds |
| Negation.MixedSigns | src/grammar.tmpl.h:249-275 | it need not: [a b] and [not a, c] are negated correctly |
| Negation.OrderDecides | src/grammar.tmpl.h:249-275 | with both signs the result depends on the order of visiting: [a b x] and [not a, not b], visited in two orders, give negations that differ, one of them wrong |

## Left out

- `resolve_conjunctions` and acceptance for Boolean grammars: a group that passes can lose a member to a later
  cascade in the same call; the cascade and the counts are modelled on their own.
- The collector (`refi`, `gcready`, `remove_item`), the dynamic-grow hook inside the chart, `fromS`, incremental forest
  building and binarization: they change the chart's cost, not the claims above.
- EarleyParser.Parser.Parse: does not bound positions by the item's 32-bit fields; an input that is too long is
  refused by the program and has no counterpart here. Runs that read a 0 with a grammar in which `null` follows a
  terminal are not covered (see Conditions).
- Packs of derived classes and of replaced predefined classes in the tree builders: these leaves are made from the
  character alone, not from the chart.
- ChartTrees.BuildBintree: says nothing about the leaves when the start symbol is named like an EBNF helper, since the
  program then returns only the first child of the root.
- The forest container and the hash-consed tree store: trees are immutable values with structural equality.
- The memo kept between traversal calls and `const_traverse`: only the results of one call are modelled.
- Traversals.PreOrder: the form that enters changed nodes is modelled for functions under which some rank of the
  nodes falls on the way down; without one the program need not end.
- `add_dynamic` and `apply_dynamic_values`: the bookkeeping of the option that lists host values.
- Negation.NegationExactly: is about bodies in which every sequence has one sign; with both signs the outcome depends on
  the order of visiting, and only `NeverBothExactly` is proved of all of them.
- DynamicProductions.Dynamics.Confirm: compares a value with the span in one alphabet, where the program converts
  between characters and terminals.
- Input plumbing, error reports, measurement, options, code generation and the user interfaces.
