# Verification of QGroundControl's stateful logic

This project models eight pieces of this repository's logic in Dafny and proves what each of them promises. Every
piece is written twice: once as a function over values, which says what one step does, and once in the form the
repository gives it (classes whose methods update their fields, loops that walk a list, recursion where the source
computes a value). The methods are proved equal to the functions, and the promises are proved about the functions,
over all inputs and all runs.

* **Actuator test** (`ActuatorProtocol`, `ActuatorTester`, `ActuatorRuns`, `ActuatorDrain`, `ActuatorHistory`,
  `ActuatorLives`): the scheduler that sends one motor or servo test command at a time. Proved, from the history of
  calls alone: exactly which values are live, which stops are owed, whether a command is in flight and whether one goes
  out, and that a live value is sent; further round-robin fairness under insertion of new channels, no idling with work
  waiting, one command at a time, the drain after switch-off with its one exception, the age bound on live values, and
  that an acceptance only ever confirms a stop that was sent.
* **Map clustering** (`Grid`, `Squares`, `Sorting`, `Clustering`): union-find with path halving over grid cells.
  Proved: the groups are exactly the connected components of the occupied cells and partition the points, and what this
  means in distances; lookups terminate on every forest the loops reach; the groups come longest first and, at one
  length, by their earliest points, whichever roots the forest has chosen.
* **Sidebar** (`SidebarTree`, `Sidebar`, `SidebarDepths`, `Doubles`, `SidebarRoundTrip`, `SidebarRounding`): the
  indented-list parser with its stack of parents, over the rounded arithmetic it measures with. Proved: parsing what
  the obvious printer prints gives back the forest, decorated; a laid-out document comes back exactly when it is well
  nested; and for every document and every way to round, which line, if any, loses the rest of it, and that the sidebar
  is a forest holding all the entries before that line.
* **Posted events** (`EventCompression`, `EventRuns`) and **device setup** (`DeviceSetup`, `DeviceFates`): the in-place
  compression rule and the generation counter. Proved over all runs: from a registration on, at most one pending event
  per key and it is the newest, exactly if the queue was tidy at the registration; each posted event has exactly one
  fate, places are kept; no superseded setup is ever applied, and each half of each setup ends exactly once.
* **Mission insert** (`MissionInsert`): a multi-step edit through a plan that may refuse any step and answer any count
  and any index. Proved, each with its exact condition: success is one fully shaped item more, failure changes nothing,
  and no item the operator had is lost or reshaped.
* **Job scheduler** (`Background`, `BackgroundRuns`, `BackgroundCalls`) and **poll throttle** (`PollThrottle`):
  re-entrant queues, and a load and compare-exchange interleaved over any number of threads.
* **moc cache** (`Text`, `Args`, `ArgsTold`, `Basedir`, `DepFile`, `DepLayout`, `CacheKey`, `Manifest`, `IndexFile`,
  `Trim`, `MocWorld`, `MocCache`, `MocTransparency`, `MocRuns`, `MocExactness`, `MocSiblings`, `MocReuse`,
  `MocLauncher`, `MocWitness`, `MocExample`): a content-addressed cache in front of a compiler. Proved: after any run
  of file edits, lost cache files and earlier invocations, whole or cut off, an invocation that succeeds leaves exactly
  the output that moc itself would produce now, if the last store under its own key was clean and the paths moc looked
  at beside those in the manifest are as they were; that for a hit this last condition is exact; that an entry stored
  in one build tree serves another; with the round trips and refinements this rests on.

## How the pieces are read

**Actuator test.** Channel numbers are the 64-bit signed integers of the source; times are unbounded naturals, so
`now + 1000` does not overflow. The saturating subtraction of the watchdog is written out. A value is a datatype with a
NaN case, because only "live value" against "NaN stop" matters. The sorted map is a map whose keys are walked in
ascending order.

**Clustering.** Python's floor division is written out for both signs of the divisor; a divisor of zero raises exactly
when there is a point to divide. Dictionaries keep their insertion order, which the final stable sort can show.

**Sidebar.** A line is an indentation and an entry; items live in an arena and are named by their index, in place of
object references, so that an item on the stack and the same item in the tree are one. The two JavaScript exceptions a
document can provoke, nesting under an empty list and popping past the top, are modelled by what they leave: the stack
without the entry that was popped, after which every line fails the same way.

Levels are quotients of doubles. The parser takes its division and its decrement as a parameter, an `Arithmetic`: any
that stays in range and takes off at least a half, which is all the loop needs to end. `CorrectlyRounded` says that
every result is a double nearest to the exact one, whichever way ties go; `RoundedDescends` shows that such arithmetic
will do and `DoublesAreCorrectlyRounded` that there is some. `Running` reads a document without a stack: it starts at
one, a bullet at a higher level than the bullet before it adds one, however much higher, and any other takes off as
many as the times the last level can be decremented before the new one is reached. `Lost` says that the first bullet is
indented or that the running depth falls to nothing. `LostExactly`, `SidebarOfAny` and `NothingIsDroppedExactly` show
that this is all there is to say, whatever the arithmetic.

Where a document is `Aligned`, each indentation a multiple of the unit or the unit a power of two, nothing is ever
rounded, and depths can be read off the columns: a bullet takes off the units it goes back, a unit gone back in part
counting in full (`RunningInColumns`, `LostInColumns`). So bullets at 0, 2, 6 and 0 columns are lost at the fourth,
which goes back three units from a depth of three. Elsewhere the doubles show: bullets at 0, 3, 7 and 1 columns have a
depth of one by their columns, but 7/3 is rounded up, taking one off twice leaves it above 1/3, and the third pop loses
the document, with every correctly rounded arithmetic (`RoundingLosesADocument`).

**Posted events.** The deleted event is dropped, the new one takes its place in the list. The base rule is "append".
`Tidy` says that every pending event of a signal is the newest posted of its key, so that there is one at most. A
registration over a tidy queue is in time, and no other is: `TidyExactly`; with two events of one key pending, the
next one posted overtakes the second of them (`NewestOvertakes`).

**Job scheduler.** The record of a run has every registration and every look at a step with the reading of the clock
that it took, and the calls. A step that is looked at is called if and only if its interval is over since its last
call, or since its registration (`CalledExactlyWhenDue`), and a pass looks once at each step that is live or that its
jobs register (`PassLooksOnceAtEach`).

**Mission insert.** The plan's conduct during one call is a script. What it answers to a read is arbitrary: each count,
the sequence numbers, and the index of the selected item after the insert, which is the index that is shaped and, after
a refusal, removed. The code does not always keep its promise, and three conditions on the script are exact. A success
is the old items and one fully shaped item if and only if the plan answered the new item's index and the item held no
vertices that a clear did not take (`SuccessExactly`); when the call succeeds at all, and what the plan is told,
`SucceedsExactly` and `ToldExactly` say. A failure changes nothing if and only if the plan is not `Stranded`: it added
an item that it then did not count or answer for or would not remove, or for which it answered another index; or it
added none, answered as if it had, and let an old item be shaped or removed instead. And all the operator's items are
kept as they were if and only if the plan did not mislead the call to one of them (`ItemsKeptExactly`).

**moc cache.** Files are a map from resolved paths to contents; resolving a path, relating two paths, hashing, and the
moc programs themselves are parameters of a `World`. A moc program is given what its command line tells it (`AllTold`:
every argument in order, but for those that say where the output and the dep file go and for the paths of
force-included files), the texts of the input and of the force-included files, and the input's path relative to the
output; it then looks at paths, each chosen after seeing what the earlier ones held, and ends with an output and a JSON
text, or fails. `Adaptive` says no more of it than that it is a deterministic reader: on files that answer all its
looks alike it does the same again. `ProgramsAreAdaptive` shows that every program that reads step by step is one.
`GoodHash` says that digests are 64 lower-case hexadecimal digits and that no two texts that get hashed collide; which
texts get hashed is itself a parameter, so that this can be met. `SecondCallHits` gives a world with a moc that passes
on the input, a header it looks up and the force-included file, and a run in which the second call hits and leaves
exactly these three texts.

A step of a run is an arbitrary change of files, the loss of any files of any entries (what trimming, wholly or
halfway, leaves behind), or any invocation, in which copying out may fail at any write, the dep file may be unreadable,
and storing may stop before any write. Nothing is asked of the run. What is asked of the invocation that
`Transparent` speaks of is `Proper`:

* the words and the key parts hold no NUL, as an operating system guarantees (`NulJoinsParts` shows why this matters),
  and no word or force-included text holds the base directory's token, where there is a base directory
  (`ReversibleExactly` shows that such a string does not survive the rewriting);
* the key text, the force-included texts as rewritten and the files' contents are among the texts that hashing keeps
  apart (not every text can be: digests are shorter), and a force-included path that is no file is not named
  like a digest;
* the command line does not end in an option without its value, unless a dep file is asked for: `CaptureExactly` shows
  for which lines the launcher runs a line with the key it computed; and even then not in `-o`, `--output`,
  `--dep-file-path` or `--include`, for such a loose end does not enter the key: lines with the same key words tell moc
  the same if and only if they have the same loose end, or none (`SameKeyTellsSame`, `LooseEndSharesKey`);
* the input and the force-included files are not among the files it writes, and output, JSON and dep file have paths
  of their own.

A hit asks two things more. Its key is `Trusted`: the last store under it was clean, which says that its invocation was
proper, that it went through to the manifest, and that no reported path holds the token or is tracked and written by
the invocation itself (`Orderly`); what happened under other keys, or earlier under this one, does not matter. And the
`Unwatched` paths are as they were then: those that moc looked at in the stored run but that the manifest does not
name, because they held no file, were not reported, or are force-included. The second condition is exact. Of an entry
the cache knows no more than the run it was recorded from; and the entry holds what moc would produce now, for every
deterministic reader that did in that run just what moc did (`Alternative`), if and only if the unwatched paths are as
they were: `HitIsRealExactly` for an entry, `TransparentExactly` after any run. `LookInVainGoesUnnoticed` is a sample:
a moc looks for a header in vain, then the header appears, and the entry goes on being served. The first condition is
needed too: `TornExactly` says when a store that stopped before the manifest does harm, in both directions. A miss asks
only that a hit that failed halfway has written nothing moc then looks at.

The base directory is rewritten so that build trees can share entries. `SharedHitIsReal` takes two trees with one
cache: what one stored and the other, under the same key, finds usable holds what moc would produce in the other from
the other's files. It asks that moc is `Relocatable`, so that its output depends on what it is given and finds only up
to the base directory, and that the unwatched paths hold there what they held here. `SiblingsShareKey` says when the
keys are the same.

An empty dependency list and a dependency whose name holds one of the characters Python's `splitlines` breaks at give
a manifest that never matches: such an entry is stored and never used (`NextRunHits`, `LaterRunHits`).

**Trimming.** A deletion that fails may take some of an entry's files with it and change the directory's time; the
running total of the source goes on counting the entry in full. So that total is an upper bound of what is left, and
is exact if and only if no failed deletion lost a file (`SurvivorsAddUp`).

The low-water mark of trimming, `int(max_bytes * 0.8)` in floating point, is taken as four fifths rounded down, which
agrees with it for limits below 2^50 bytes.

## Model

| member | source | states |
|---|---|---|
| ActuatorTester.ActuatorTest.SetActive | groundstation/src/actuatortest.rs:45-52 | switching off stops every live channel first and only then clears the switch; the new state and the request are those of the protocol step |
| ActuatorTester.ActuatorTest.Set | groundstation/src/actuatortest.rs:54-67 | ignored while off; otherwise the channel is live with this value and time, and the next command goes out |
| ActuatorTester.ActuatorTest.Stop | groundstation/src/actuatortest.rs:69-77 | the wanted live channel, or all of them, owe a stop from now on; others keep their state |
| ActuatorTester.ActuatorTest.Tick | groundstation/src/actuatortest.rs:79-90 | live channels older than 100 ms owe a stop, an expired window is released, then the next command goes out |
| ActuatorTester.ActuatorTest.OnAck | groundstation/src/actuatortest.rs:92-121 | in-progress extends the window and does nothing else; a final answer releases it, retires the current channel as the protocol says, and only the first failure is reported |
| ActuatorTester.ActuatorTest.SendNext | groundstation/src/actuatortest.rs:123-154 | the array walk of the source computes the protocol's send step: the first sendable channel after the cursor, wrapping round |
| ActuatorTester.ActuatorTest.FirstSendable | groundstation/src/actuatortest.rs:127-134 | the modular walk over the sorted keys finds the channel the protocol picks, and none exactly when no channel is sendable |
| ActuatorProtocol.FirstReached | groundstation/src/actuatortest.rs:123-135 | going round from the cursor, one of any non-empty set of channels is reached before all the others |
| ActuatorProtocol.RunKeepsValid | groundstation/src/actuatortest.rs:45-154 | over every run of set, stop, switch, tick and acknowledgement the cursor names a known channel whenever it names one |
| ActuatorRuns.Fairness | groundstation/src/actuatortest.rs:123-154 | while a channel stays sendable, no other channel is sent twice before it, even if channels are inserted meanwhile |
| ActuatorRuns.ServedWithinOneRound | groundstation/src/actuatortest.rs:123-154 | so as many commands as there are channels include one for it |
| ActuatorRuns.SendsWhenFree | groundstation/src/actuatortest.rs:123-154 | the send step is silent exactly when a command is in flight or no channel is sendable |
| ActuatorRuns.KeepsWaiting | groundstation/src/actuatortest.rs:79-121 | a command in flight stays in flight through every step but a final answer or a tick after its window |
| ActuatorRuns.OneCommandAtATime | groundstation/src/actuatortest.rs:79-154 | with no clock reading earlier than the first send's, between any two sends of a run lies a final acknowledgement or a tick at least 1000 ms after the first |
| ActuatorRuns.WindowEndsBetweenSends | groundstation/src/actuatortest.rs:79-154 | on any clock, between any two sends the open window was ended by a final acknowledgement or by a tick that found it expired |
| ActuatorDrain.OffShrinks | groundstation/src/actuatortest.rs:45-52 | once off, the set of channels owed a stop never grows and loses the channel of each request sent |
| ActuatorDrain.OnlyStopsEachOnce | groundstation/src/actuatortest.rs:45-154 | from the switch-off on, every request is a NaN stop with timeout 0 and no channel gets two |
| ActuatorDrain.EveryLiveChannelIsStopped | groundstation/src/actuatortest.rs:45-121 | each channel live at the switch-off is sent its stop, still owed it, or is the one whose command was in flight and was answered by a failure |
| ActuatorDrain.AnswersDrainEverything | groundstation/src/actuatortest.rs:92-154 | as many final answers as there are stops owed leave none owed |
| ActuatorDrain.AnsweredStopsWereSent | groundstation/src/actuatortest.rs:45-154 | and by then every channel that was live has been sent its stop, except one whose command in flight a failure answered |
| ActuatorHistory.StalenessBound | groundstation/src/actuatortest.rs:54-90 | with a monotone clock and ticks at most P apart, every live value sent after the first tick is the latest set for its channel and at most 100+P old, whichever event triggers the send |
| ActuatorHistory.StoppingWasSent | groundstation/src/actuatortest.rs:123-154 | a channel is stopping only if a stop was sent for it since it was last set |
| ActuatorHistory.AcceptedOnlyConfirmsStops | groundstation/src/actuatortest.rs:98-105 | an acceptance makes a channel inactive only if a stop was sent for it since it was last set |
| ActuatorLives.LiveExactly | groundstation/src/actuatortest.rs:45-121 | a channel is live with a value if and only if a set made while the switch was on put it there and since then came no such set, no stop that wants it, no switch-off, no tick that found it more than 100 ms old, and no failure answering a command for it |
| ActuatorLives.LiveIsServed | groundstation/src/actuatortest.rs:54-154 | while a value that was set stays live, as many commands as there are channels include it, with timeout 1 |
| ActuatorLives.SetSendsAtOnce | groundstation/src/actuatortest.rs:54-67 | a set made while the switch is on, with nothing in flight and no other channel live or owing a stop, sends its value at once |
| ActuatorLives.OwedExactly | groundstation/src/actuatortest.rs:45-154 | a stop is owed if and only if an event ended a live value that way and since then the stop has not gone out, the channel was not set anew, and no failure answered a command for it |
| ActuatorLives.InFlightExactly | groundstation/src/actuatortest.rs:79-154 | the line is taken until a second after a command went out or was said to be in progress, unless a final answer, a tick that late or the next command has come since |
| ActuatorLives.SendsExactly | groundstation/src/actuatortest.rs:45-154 | an event puts a command on the wire if and only if it gets as far as sending, nothing stays in flight, and some channel is live or owes a stop |
| ActuatorLives.WhatIsSent | groundstation/src/actuatortest.rs:123-154 | a command carries the live value of its channel, or is the NaN stop of one that is not live |
| ActuatorLives.NextGoesUp | groundstation/src/actuatortest.rs:127-134 | the next channel is the lowest sendable one above the last that was sent to, or with none above the lowest of all |
| ActuatorLives.FailedExactly | groundstation/src/actuatortest.rs:98-118 | a failure counts as announced exactly once one has been answered |
| Grid.ConnectedSymmetric | android/tools/onmap.py:62-69 | being joined by a chain of occupied neighbouring cells is symmetric |
| Grid.ConnectedTransitive | android/tools/onmap.py:62-69 | and transitive, so the groups are classes |
| Grid.ConstantAlongChains | android/tools/onmap.py:62-69 | a root assignment that agrees on neighbours agrees along every chain |
| Squares.CellHolds | android/tools/onmap.py:53 | a point lies in its square: between its square's number of bridges and the next, in both axes, for a bridge of either sign |
| Squares.BesideAndDistances | android/tools/onmap.py:53-69 | points closer than a bridge in both axes are in one square or in two that touch, and points in such squares are closer than two bridges |
| Squares.LinkedIsConnected | android/tools/onmap.py:53-69 | two points are linked by a chain of points over touching squares if and only if their cells are connected |
| Clustering.HalvingKeepsRoots | android/tools/onmap.py:56-60 | a path-halving step on a forest keeps every cell's root and shortens the way to it |
| Clustering.LinkMergesRoots | android/tools/onmap.py:67-69 | linking two different roots keeps the parent map a forest and merges exactly the two classes |
| Clustering.Forest.Root | android/tools/onmap.py:56-60 | terminates on every valid forest, returns the cell's root, and changes no root while rewriting parents |
| Clustering.Forest.Link | android/tools/onmap.py:68-69 | the two classes, and no others, become one |
| Clustering.Forest.JoinNeighbours | android/tools/onmap.py:63-69 | after the nine probes a cell shares its root with every occupied neighbour, and nothing is joined that no chain joins |
| Clustering.MergeIsChained | android/tools/onmap.py:62-69 | joining neighbours never joins cells without a chain of occupied cells between them |
| Clustering.Bucket | android/tools/onmap.py:51-53 | the cells hold exactly the points, each point in its own cell, in the order of their first points |
| Clustering.JoinAll | android/tools/onmap.py:54-69 | neighbouring occupied cells end with one root, and cells with one root are joined by a chain of occupied cells |
| Clustering.Collect | android/tools/onmap.py:70-72 | the groups hold the points of all cells, each group one root's, in the order of their first points |
| Sorting.SortedIsOrdered | android/tools/onmap.py:73 | sorting by a total, transitive comparison is a permutation, in order |
| Clustering.SortPermutes | android/tools/onmap.py:73 | the sort is a permutation, longest first |
| Clustering.SortIsStable | android/tools/onmap.py:73 | and keeps the order among groups of one length |
| Clustering.ValuesAreComponents | android/tools/onmap.py:50-73 | two points share a group exactly when their cells are connected, the groups partition the points, none is empty |
| Clustering.SortKeepsComponents | android/tools/onmap.py:73 | which sorting does not disturb |
| Clustering.SortKeepsOrder | android/tools/onmap.py:70-73 | whichever roots the forest has chosen: groups of one length end up in the order of their earliest points, and each opens with its earliest |
| Clustering.Cluster | android/tools/onmap.py:50-73 | the result of the whole function: every point as often as given, two in one group if and only if a chain of points leads from one to the other over squares that touch; so points less than a bridge apart share a group and a group holds together by steps of less than two; longest first and ties by earliest point; or a division by zero, exactly for a zero bridge and some point |
| Sidebar.Parser.Pop | docs/.vitepress/get_sidebar.js:141-209 | popping takes the last parent and reports an empty stack |
| Sidebar.Parser.Append | docs/.vitepress/get_sidebar.js:7-27 | an entry is put behind a node's children, whose list is created if missing |
| Sidebar.Parser.Measured | docs/.vitepress/get_sidebar.js:119-124 | the first indented line sets the divider; a level is the indentation divided by it, rounded |
| Sidebar.Parser.Nest | docs/.vitepress/get_sidebar.js:161-199 | the last child becomes collapsed and a parent with the entry as its child; the stack grows by it; without a child the popped parent is lost |
| Sidebar.Parser.Rise | docs/.vitepress/get_sidebar.js:200-219 | the post-decrement loop pops one parent for each decrement it takes to bring the last level down to the new one, and the entry joins the last one popped |
| Sidebar.Parser.AddLine | docs/.vitepress/get_sidebar.js:63-237 | one line of the document is one step of the specification |
| Sidebar.Parse | docs/.vitepress/get_sidebar.js:29-246 | the parser over a document is the fold of the step |
| Sidebar.AdvanceKeepsValid | docs/.vitepress/get_sidebar.js:63-237 | every step keeps the arena well-formed and the stack inside it |
| SidebarTree.PrintIsInjective | docs/.vitepress/get_sidebar.js:29-246 | different forests print differently, so a document stands for at most one |
| SidebarTree.Grow | docs/.vitepress/get_sidebar.js:145-219 | an entry placed under the parent on the spine at its level adds exactly its line to the end of the preorder |
| SidebarTree.DecoratedIsInjective | docs/.vitepress/get_sidebar.js:161-199 | and a sidebar stands for at most one forest |
| Doubles.RoundedDescends | docs/.vitepress/get_sidebar.js:119-124 | rounding to the nearest double keeps every level between nothing and 2^53 and takes off a half at least, so the loop ends |
| Doubles.DoublesAreCorrectlyRounded | docs/.vitepress/get_sidebar.js:119-203 | so there is a division and a decrement as the parser is taken to use |
| SidebarDepths.StepOn | docs/.vitepress/get_sidebar.js:141-219 | one bullet, with any arithmetic: the stack stays the path to the last entry's parent, as high as the running depth, and the arena prints what was read; or the parse is lost |
| SidebarDepths.FoldTracks | docs/.vitepress/get_sidebar.js:63-237 | which so holds after every document |
| SidebarDepths.LostExactly | docs/.vitepress/get_sidebar.js:141-230 | the parse is lost if and only if the first bullet is indented or the running depth, counted in decrements, falls to nothing at some line |
| SidebarDepths.SidebarOfAny | docs/.vitepress/get_sidebar.js:29-246 | the sidebar of any document: the decorated forest whose print is the document up to the line that loses it, each entry at its running depth |
| SidebarDepths.NothingIsDroppedExactly | docs/.vitepress/get_sidebar.js:29-246 | every entry reaches the sidebar if and only if the document is not lost |
| SidebarDepths.LostForGood | docs/.vitepress/get_sidebar.js:141-230 | once the stack is lost no later line is added |
| SidebarDepths.IndentedStartLosesEverything | docs/.vitepress/get_sidebar.js:161-199 | a document whose first bullet is indented yields an empty sidebar whatever skipped lines come before and whatever follows |
| SidebarRoundTrip.RisesAreClimbed | docs/.vitepress/get_sidebar.js:200-203 | correctly rounded, the decrements of the loop are the units gone back, rounded up, for multiples of the unit and for units that are powers of two |
| SidebarRoundTrip.ChangeInColumns | docs/.vitepress/get_sidebar.js:119-219 | and so is what one bullet does to the running depth |
| SidebarRoundTrip.RunningInColumns | docs/.vitepress/get_sidebar.js:119-219 | the running depth of an aligned document is the one its columns say, whatever way ties are rounded |
| SidebarRoundTrip.LostInColumns | docs/.vitepress/get_sidebar.js:141-230 | an aligned document is lost if and only if its first bullet is indented or its depth in columns falls to nothing |
| SidebarRoundTrip.ComesBackExactly | docs/.vitepress/get_sidebar.js:29-246 | a document laid out with levels comes back with those levels if and only if it is well nested |
| SidebarRoundTrip.RoundTrip | docs/.vitepress/get_sidebar.js:29-246 | parsing the print of any forest, at any positive indentation per level, gives back exactly that forest |
| SidebarRounding.PopsOnceMore | docs/.vitepress/get_sidebar.js:200-203 | going back from 7 columns to 1 at a unit of 3 pops three times at least, though it is two units |
| SidebarRounding.RoundingLosesADocument | docs/.vitepress/get_sidebar.js:119-219 | so bullets at 0, 3, 7 and 1 columns are lost at the fourth, where the columns say a depth of one |
| EventCompression.SignalIndex | src/QGCApplication.cc:709-726 | the number of signals of the class before this one, or -1 for a method that is no signal |
| EventCompression.SignalIndexCounts | src/QGCApplication.cc:709-726 | the index of a signal is the number of signals declared before it |
| EventCompression.SignalIndexIsInjective | src/QGCApplication.cc:709-726 | two signals of one class have different indices, so registering one never compresses another |
| EventCompression.CompressedSignalList.Add | src/QGCApplication.cc:728-736 | the registered signals and this one, if it is a signal |
| EventCompression.CompressedSignalList.Remove | src/QGCApplication.cc:738-749 | the registered signals without this one; a class without signals leaves the map |
| EventCompression.CompressedSignalList.Contains | src/QGCApplication.cc:751-754 | exactly the registered signals are contained |
| EventCompression.Application.CompressEvent | src/QGCApplication.cc:769-811 | the first pending event of the same receiver, sender, signal and method is replaced in its place; otherwise the queue is unchanged and the caller appends |
| EventCompression.Application.Post | src/QGCApplication.cc:769-811 | posting replaces in place or appends, as the registered signals say |
| EventRuns.PostStepIsPosted | src/QGCApplication.cc:769-811 | the history's post step is the method's: at the first pending place of the key, or at the end |
| EventRuns.StepKeepsInv | src/QGCApplication.cc:709-811 | every registration, removal, post, delivery and sweep keeps the bookkeeping of places and fates |
| EventRuns.AtMostOneAndNewest | src/QGCApplication.h:86-87 | from a registration over a tidy queue on, while the signal stays registered: at most one pending event per key, and it is the newest posted |
| EventRuns.TidyExactly | src/QGCApplication.h:86-87 | the queue is tidy in every later state up to the next removal if and only if it was tidy at the registration |
| EventRuns.StepKeepsTidy | src/QGCApplication.cc:769-811 | while a signal is registered, no step makes its pending events untidy |
| EventRuns.NewestOvertakes | src/QGCApplication.cc:789-807 | with two events of one key pending, the next one posted takes the place of the first and leaves an older one behind it |
| EventRuns.NothingIsLost | src/QGCApplication.cc:769-811 | every posted event is delivered, pending, or superseded by a newer one of its key, exactly one of the three |
| EventRuns.PlaceIsKept | src/QGCApplication.cc:804-807 | an entry keeps the place of the oldest unsent event it stands for |
| EventRuns.UncompressedKeepNumberAndOrder | src/QGCApplication.cc:771-778 | events of signals never registered are never superseded and stay in posting order |
| EventRuns.LateRegistrationKeepsStaleEvent | src/QGCApplication.h:86-87 | registered over two pending events, a signal keeps both, the newest ahead of an older one: why the registration has to come first |
| DeviceSetup.Application.SetupFromDevice | src/QGCApplication.cc:872-898 | the generation is bumped, the host replaced, and the two requests of this setup go out with both captured |
| DeviceSetup.Application.Finished | src/QGCApplication.cc:883-914 | a reply of another generation is ignored; a failed one is dropped, except that a failed watch/via still applies the cameras with no via |
| DeviceSetup.Application.ApplyCameras | src/QGCApplication.cc:917-945 | nothing without a camera; otherwise all cameras with a source are adopted |
| DeviceSetup.Application.CollectCameras | src/QGCApplication.cc:935-941 | one camera per name, over WebRTC from the current setup's host or over RTSP from the captured one |
| DeviceSetup.RunTracks | src/QGCApplication.cc:872-945 | over every interleaving, each request carries the host its own setup was started with |
| DeviceSetup.OnlyLatestIsApplied | src/QGCApplication.h:224 | whatever is applied belongs to the setup that is latest at that moment, and the captured host is that setup's |
| DeviceSetup.EachHalfEndsOnce | src/QGCApplication.cc:872-915 | each half of each setup is still being asked for or has ended, exactly once, across the chained request |
| DeviceSetup.AppliedAtMostOnce | src/QGCApplication.cc:872-945 | each setup applies its cameras and its telemetry at most once |
| DeviceFates.SetupAsksTwice | src/QGCApplication.cc:872-898 | a setup begins with exactly two requests, at its own host |
| DeviceFates.LatestReplyCounts | src/QGCApplication.cc:883-945 | every reply to the latest setup counts: a stream configuration has the routes asked for, a telemetry configuration is applied, and then exactly the cameras with a source are applied, each with its name, transport and url |
| DeviceFates.LateReplyIsDropped | src/QGCApplication.cc:885-888 | a reply to a setup that others have followed leads to nothing |
| DeviceFates.SupersededExactly | src/QGCApplication.cc:885-909 | a half is dropped as superseded if and only if a newer setup had begun when its reply came |
| MissionInsert.Plan.PointAt | groundstation/src/actions.rs:889-908 | the item before the place, or the last, is selected; the answer is its sequence number, or nothing when something was not answered |
| MissionInsert.Plan.Shape | groundstation/src/actions.rs:1386-1436 | a takeoff takes its launch position, a drawn kind is cleared and takes its outline vertex by vertex up to the first refusal |
| MissionInsert.Plan.RemoveVisualItem | groundstation/src/actions.rs:975-978 | the roll-back removes the item at the index, if the plan obeys |
| MissionInsert.Plan.Draw | groundstation/src/actions.rs:1386-1436 | the vertices are appended one by one up to the first refusal; done exactly when none was refused |
| MissionInsert.Plan.Insert | groundstation/src/actions.rs:910-982 | the whole call: the checks in their order, then the insert, or a refusal |
| MissionInsert.Plan.Complete | groundstation/src/actions.rs:956-981 | from the insert to the shaped item, or back, by the index the plan answers |
| MissionInsert.TouchesExactly | groundstation/src/actions.rs:1386-1436 | shaping leaves an item as it was exactly when nothing is cleared, drawn or placed in it |
| MissionInsert.SuccessExactly | groundstation/src/actions.rs:964-973 | a success leaves the old items and one fully shaped item at the reported index if and only if the plan answered the new item's index and the item was drawn clean |
| MissionInsert.FailureChangesNothing | groundstation/src/actions.rs:961-980 | failure leaves the old items exactly as they were if and only if the plan is not stranded |
| MissionInsert.AllOrNothing | groundstation/src/actions.rs:910-982 | for a plan that adds nothing or one item whose index it answers, and that clears and removes when told: all or nothing, whatever vertex or launch write is refused |
| MissionInsert.ItemsKeptExactly | groundstation/src/actions.rs:910-982 | on success and on failure, all items the operator had are still there, as they were and in their order, if and only if the plan did not mislead the call to one of them |
| MissionInsert.SucceedsExactly | groundstation/src/actions.rs:889-982 | the call succeeds if and only if nothing stands in the way, the plan agrees, counts one item more, answers the index of an item after it, and that takes its shape; it reports the kind, the index and the sequence number of the item before the place |
| MissionInsert.ToldExactly | groundstation/src/actions.rs:889-957 | the plan is told to insert, once, with the kind, point and index asked for, if and only if nothing stands in the way, and is first pointed at the item before the place |
| Background.Scheduler.Spawn | groundstation/src/background.rs:30-34 | the job goes behind the queued ones |
| Background.Scheduler.Poll | groundstation/src/background.rs:36-54 | the step goes behind the registered ones, due one interval from now |
| Background.Scheduler.TryStep | groundstation/src/background.rs:44-51 | a step is called exactly when due, its next due time counts from this call, and it is kept until it returns true |
| Background.Scheduler.RunQueued | groundstation/src/background.rs:56-69 | the queued jobs, then the polls, run from the taken lists; what they spawn or register is queued for later; survivors stay ahead |
| BackgroundRuns.QueuedRunKeepsInv | groundstation/src/background.rs:56-69 | a pass keeps the books: jobs in order, every poll live or done, calls spaced |
| BackgroundRuns.JobsRunOnceInOrder | groundstation/src/background.rs:56-69 | over any run, each job ran or is queued, once, in spawn order |
| BackgroundRuns.PassRunsWhatWasQueued | groundstation/src/background.rs:58-59 | a pass runs exactly the jobs queued before it; jobs spawned meanwhile wait |
| BackgroundRuns.PollsAreKept | groundstation/src/background.rs:60-68 | each registered poll is live, once, or its step returned true; never both, never neither |
| BackgroundRuns.CallsAreSpaced | groundstation/src/background.rs:42-51 | two calls of one step are at least its interval apart, and none follows a true |
| BackgroundCalls.CalledExactlyWhenDue | groundstation/src/background.rs:36-54 | a step that is looked at is called if and only if its interval is over since its last call, or since its registration if it was never called; the log of calls has exactly these |
| BackgroundCalls.NeverCalledEarly | groundstation/src/background.rs:42-50 | no step is called before an interval has passed since its registration |
| BackgroundCalls.PassLooksOnceAtEach | groundstation/src/background.rs:56-69 | a pass looks exactly once, in the order of registration, at each step live when it begins and at each its jobs register, and at no other |
| BackgroundCalls.ReadingsAreTheirs | groundstation/src/background.rs:42-45 | each registration and each look reads the clock once, and nothing else does |
| BackgroundCalls.EffectsAreDone | groundstation/src/background.rs:57-69 | the jobs ever spawned and the polls ever registered are those asked for from outside, by jobs that ran and by calls that were made |
| PollThrottle.Throttle.CompareExchange | groundstation/src/abi.rs:335-343 | succeeds only when due and when the stored value is the one loaded; stores the clock value read |
| PollThrottle.StepKeepsInv | groundstation/src/abi.rs:332-344 | every interleaved step keeps the stored values increasing by at least 250 ms |
| PollThrottle.SuccessesAreSpaced | groundstation/src/abi.rs:332-344 | over any interleaving, the timestamps of successes in commit order are at least 250 ms apart |
| PollThrottle.NoStaleSuccess | groundstation/src/abi.rs:336-343 | a compare-exchange succeeds only if nothing was stored since its own load |
| PollThrottle.SuccessRate | groundstation/src/abi.rs:329-344 | n successes need a last timestamp of at least 250 n |
| PollThrottle.AloneIsDueOnTime | groundstation/src/abi.rs:332-344 | a thread left alone is answered true exactly when a period has passed |
| PollThrottle.DueExactly | groundstation/src/abi.rs:332-344 | however the threads interleave, a compare-exchange succeeds if and only if nothing was stored since its own load and 250 ms have passed since the value it loaded |
| Args.ParseArgs | tools/moccache.py:128-181 | the index loop computes the meaning of the line split into arguments |
| Args.FlattenReadsBack | tools/moccache.py:139-181 | arguments laid out as words split into the same arguments |
| Args.KeyReadsBack | tools/moccache.py:149-177 | the words that enter the key, read as a command line, are exactly the keyed arguments: no word passes for the value of an option that is not its own |
| Args.SameKeySameRequest | tools/moccache.py:149-181 | equal key words mean the same input file, the same wish for JSON, and force-included files of pairwise equal identity |
| Args.RequestChangesNothingElse | tools/moccache.py:890-893 | appending the dep-file request to a complete line changes nothing but the dep-file path |
| Args.DanglingOptionSwallows | tools/moccache.py:890-893 | appended to a line that ends in an option without its value, the request's first word becomes that value |
| ArgsTold.SameKeyTellsSame | tools/moccache.py:149-181 | two lines with the same key words have the same arguments in order, but for outputs, dep files and the paths of force-included files, if and only if they have the same loose end or none |
| ArgsTold.LooseEndIsNotKeyed | tools/moccache.py:139-168 | an output, dep-file-path or include option without its value leaves the key words as they are |
| ArgsTold.RequestTellsNothingElse | tools/moccache.py:890-893 | asking for a dep file as well tells moc nothing else |
| ArgsTold.OptionMeans | tools/moccache.py:139-172 | what each option with its value adds to a complete line: the last output and dep-file path count, an include enters the key by its identity, any other by its value |
| ArgsTold.WordMeans | tools/moccache.py:145-177 | what a single word adds: a wish, a flag that enters the key, or a file, the last of which is the input |
| ArgsTold.ValueOptionsAre | tools/moccache.py:69-87 | sixteen words take the next one for their value and no other does |
| Basedir.TokenHasNoBorder | tools/moccache.py:249 | the token overlaps no shifted copy of itself |
| Basedir.Matched | tools/moccache.py:266-278 | the first of the spellings, in order, that stands at the start and ends there as a path component; none exactly when none does |
| Basedir.BackToOneSpelling | tools/moccache.py:281-289 | rewriting several spellings and back spells them all the same way and touches nothing else |
| Basedir.Reversible | tools/moccache.py:281-289 | with one spelling, every string without the token comes back |
| Basedir.ReversibleExactly | tools/moccache.py:281-289 | and only those do, for a directory without a closing bracket in its name |
| Basedir.NormalizedIsInjective | tools/moccache.py:281-284 | so different strings stay different in the key |
| Basedir.SiblingsUntouched | tools/moccache.py:267-278 | position by position: up to the first genuine occurrence everything stays, names that merely start like the directory included; that occurrence becomes the token, and the rest is rewritten likewise |
| Basedir.DirectoryIsRenamed | tools/moccache.py:267-284 | the directory itself, what lies in it, and its name before a quote, a backslash or a space is renamed |
| Basedir.LongerNameIsKept | tools/moccache.py:267-284 | a name that goes on after it is not |
| DepFile.ParseDepFile | tools/moccache.py:184-215 | the loops compute the words after the first separating colon of the unfolded text |
| DepFile.RoundTrip | tools/moccache.py:304-306 | what is written for a target and dependencies reads back as those dependencies |
| DepFile.RoundTripExactly | tools/moccache.py:184-215 | exactly when each dependency is non-empty, holds no tab or line end and does not end in a backslash |
| DepFile.WordsAreClean | tools/moccache.py:196-215 | no word that is read is empty or holds a tab or a line end |
| DepFile.TrailingBackslashIsLost | tools/moccache.py:245-246 | a trailing backslash is read as a line continuation and dropped |
| DepLayout.AnyLayoutReads | tools/moccache.py:184-215 | however a dep file is laid out, with any spaces, tabs, line ends and folded lines of either kind between its parts, its dependencies are read in order |
| CacheKey.TerminatedIsInjective | tools/moccache.py:824-828 | different lists of NUL-free parts are different texts |
| CacheKey.NulJoinsParts | tools/moccache.py:824-828 | a NUL inside a part would pass for the end of one |
| Manifest.ReadsBackOrNothing | tools/moccache.py:845-850 | a written manifest reads back as its own entries, or as malformed: exactly when it is empty or a path holds a line-breaking character |
| Manifest.BreaksExactly | tools/moccache.py:844 | one character breaks a text in two if and only if it is one of the ten that end lines |
| IndexFile.Index.Add | tools/moccache.py:371-382 | the key is appended, and a file grown past its limit is rewritten to what is read of it |
| IndexFile.CompactionReadsTheSame | tools/moccache.py:380-382 | the rewritten file reads as the file did |
| IndexFile.CompactionIsUnobservable | tools/moccache.py:357-382 | whenever compaction happened, what is read is what the whole uncompacted history gives |
| IndexFile.ReadIsNewestDistinct | tools/moccache.py:357-364 | what is read: distinct keys of the file, eight or as many as there are, the last one added last |
| IndexFile.ReadIsByLastUse | tools/moccache.py:357-364 | in the order of their last use, and every key left out was last used before all of them |
| IndexFile.StaysShort | tools/moccache.py:367-382 | keys of one length never fill more than 64 lines; at the next the file is cut down to the eight at most that are read |
| IndexFile.KeptReadsAlike | tools/moccache.py:357-382 | and the file so kept reads as all the keys would |
| Trim.Cache.RemoveTree | tools/moccache.py:488-490 | the entry is gone, or it is still there, perhaps with fewer bytes, when it cannot be deleted |
| Trim.Cache.Trim | tools/moccache.py:465-495 | the loop tries the specified entries, leaves the directory as these deletions do, and returns how many were removed; whatever was used less recently than an entry it tries is removed or could not be deleted |
| Trim.SortedInTime | tools/moccache.py:486 | the order of eviction is a permutation of the entries by their times, the earlier first, then by size and name |
| Trim.LeastRecentlyUsed | tools/moccache.py:481-494 | for any listing: nothing goes if it fits; else, in the order of last use, all that can be deleted up to one entry, each while more than four fifths of the limit was left |
| Trim.LeastRecentGoFirst | tools/moccache.py:486-494 | an entry used less recently than one a deletion is tried on is removed, or its deletion failed |
| Trim.EvictionIsAWalk | tools/moccache.py:486-494 | deletion is tried on the oldest entries up to some point; exactly the deletable ones are removed, each while the total was above the target |
| Trim.OlderSurvivorsWereStuck | tools/moccache.py:486-494 | an entry that survived although one no older was removed is one whose deletion failed |
| Trim.ShortestPrefix | tools/moccache.py:483-494 | when every deletion succeeds, the removed entries are the least recently used, as few of them as leave four fifths of the limit at most |
| Trim.LeftBehind | tools/moccache.py:481-494 | what is left are the entries not removed, those it failed on perhaps shrunken; kept and removed are together the entries there were |
| Trim.SurvivorsAddUp | tools/moccache.py:481-494 | the running total bounds the size of what is left, and is that size if and only if no failed deletion lost a file; it fits, or nothing left can be deleted |
| MocWorld.NormalIsReversible | tools/moccache.py:281-289 | a dependency stored with the token comes back as it was |
| MocWorld.SameKeySameParts | tools/moccache.py:818-829 | equal keys mean equal key parts |
| MocWorld.SamePartsSameRequest | tools/moccache.py:818-823 | and so the same input, and the same wish for JSON |
| MocWorld.SameKeySameGiven | tools/moccache.py:818-829 | equal keys mean that moc is told the same by its line and given the same input, relative path and force-included texts: digests stand for the texts |
| MocWorld.LooseEndSharesKey | tools/moccache.py:139-168 | a line with a loose end has the key of the line without it, though moc is told different things |
| MocWorld.SameReading | tools/moccache.py:880-893 | the same start and the same answers give the same output and JSON, wherever these are put |
| MocWorld.KeyFrame | tools/moccache.py:160-167 | the key does not change unless the input or a force-included file does |
| MocTransparency.CaptureKeepsKey | tools/moccache.py:888-893 | the run of a miss has the key, the output and the wishes of the caller's own line |
| MocTransparency.CaptureExactly | tools/moccache.py:888-893 | it has the key and the output if and only if a dep file was asked for, or the line is complete, or its dangling option names the same output |
| MocTransparency.CheckedIsParsed | tools/moccache.py:844-858 | checking line by line accepts exactly the well-formed manifests whose files are all unchanged |
| MocTransparency.HitAnswersAlike | tools/moccache.py:838-861 | where an entry is usable and the unwatched paths are as they were, every look of the run it was recorded from would be answered as it was then |
| MocTransparency.HitIsReal | tools/moccache.py:838-878 | what a usable entry holds is what the caller's own run would give on the files as they are |
| MocRuns.StoredIsSound | tools/moccache.py:904-921 | a whole store replaces all of an entry that its key asks for by the results of one run |
| MocRuns.RunKeepsInv | tools/moccache.py:776-926 | over every run of edits, losses and invocations, every entry with a manifest whose last store was clean comes from one successful run under its key |
| MocRuns.FairRunsAreTrusted | tools/moccache.py:904-921 | where every store was clean every entry with a manifest is trusted |
| MocRuns.HitFiles | tools/moccache.py:862-872 | the files a hit copies out end up at their paths |
| MocRuns.MissDelivers | tools/moccache.py:880-926 | a miss, also one after a hit that failed halfway, leaves what the caller's own run would |
| MocRuns.MissLeavesAll | tools/moccache.py:880-926 | a miss leaves every file as the caller's own run would, but that the temporary dep file is gone |
| MocRuns.MissExitsAsMoc | tools/moccache.py:893-903 | an invocation that does not hit ends with the exit code of the caller's own run, and a failure stores nothing |
| MocRuns.UncachedIsPassedOn | tools/moccache.py:793-808 | a line without an output or an input, or whose input is no file, is handed to moc as it is |
| MocRuns.Transparent | tools/moccache.py:776-926 | after any run whatever, an invocation that succeeds leaves exactly the output and JSON moc itself would produce from the files as they now are: a hit if the last store under its key was clean and the unwatched paths are as they were, a miss if moc looks at nothing a half-done hit has written |
| MocExactness.AskedAnyway | tools/moccache.py:803-829 | what a command line asks for and gives moc does not depend on moc |
| MocExactness.HitIsRealExactly | tools/moccache.py:838-878 | an entry found usable holds what moc would now produce, for every deterministic reader that did in the recorded run what moc did, if and only if the unwatched paths are as they were |
| MocExactness.TransparentExactly | tools/moccache.py:776-926 | after any run whatever, a hit on an entry whose last store was clean leaves what every such reader would produce if and only if the unwatched paths are as they were |
| MocSiblings.KindStays | tools/moccache.py:812-823 | words that differ in the base directory only are read as the same option |
| MocSiblings.SameKeyGivenAlike | tools/moccache.py:812-829 | equal keys in two trees give moc the same in both, up to the base directory |
| MocSiblings.FoundThere | tools/moccache.py:844-858 | a manifest of one tree that is accepted in another names, by its paths there, files with the texts it was stored with |
| MocSiblings.SharedHitIsReal | tools/moccache.py:812-878 | what one tree stored and another finds usable under the same key is what moc would produce in that other tree from its files |
| MocSiblings.SiblingsShareKey | tools/moccache.py:809-829 | the same call in another tree, word by word but for the base directory, with the same input and alike force-included files, has the same key |
| MocReuse.LaterRunHits | tools/moccache.py:838-921 | after a miss that was stored whole the same call hits, wherever input, force-included and tracked files are as they were, exactly if its manifest reads back |
| MocReuse.NextRunHits | tools/moccache.py:838-921 | and so at once |
| MocReuse.HitDepFile | tools/moccache.py:866-870 | the dep file of a hit reads back as the input, the force-included files and the tracked files, each once |
| MocReuse.FirstsOnlyAre | tools/moccache.py:869 | repetitions are dropped and nothing else |
| MocReuse.TornExactly | tools/moccache.py:915-919 | a store that stops anywhere before the manifest leaves an entry that serves rightly exactly if what was stored equals what was there, or the old manifest never reads back |
| MocWitness.ProgramsAreAdaptive | tools/moccache.py:880-893 | every program that reads step by step, with a bound on its looks, is a deterministic reader |
| MocExample.SecondCallHits | tools/moccache.py:776-926 | all that is assumed can be met by a moc whose output passes on the input, a looked-up header and a force-included file: its second call hits and leaves these texts |
| MocExample.LookInVainGoesUnnoticed | tools/moccache.py:844-858 | a header that appears where moc once looked in vain is not noticed: the old output is served |
| MocLauncher.Launcher.CheckManifest | tools/moccache.py:844-858 | the loop over the manifest stops at the first malformed line or changed file, and otherwise names the dependencies |
| MocLauncher.Launcher.CopyOut | tools/moccache.py:862-872 | output, dep file and JSON are written in this order, up to the write that fails |
| MocLauncher.Launcher.CollectEntries | tools/moccache.py:906-914 | the entries of the tracked files among those reported, with their current hashes |
| MocLauncher.Launcher.Store | tools/moccache.py:915-919 | output, JSON and manifest are stored in this order, up to the write that fails |
| MocLauncher.Launcher.Miss | tools/moccache.py:880-926 | moc runs, and only a success with a readable dep file is stored; the temporary file is removed |
| MocLauncher.Launcher.Launch | tools/moccache.py:776-926 | the whole invocation, files and cache, is the specified one |

## Left out

- MissionInsert.AllOrNothing: asks that an item the plan adds is counted and its index answered, and that clears and removals take effect; without this the promise is false, and `SuccessExactly` and `FailureChangesNothing` have the exact conditions.
- MissionInsert.Plan.Insert: answers to reads are arbitrary, but an insert adds one item or none, a write that is accepted takes effect on the item at its index and one that is refused does not. Parsing of the argument text, the catalogue lookup and the wording of reasons are not modelled; what a refusal leaves of the selection and of a home position set before it is in the state but nothing is promised about it; the coordinate of the settings entry is not part of the item list; the default outlines are a parameter, so which points they hold is open.
- MissionInsert.Plan.RemoveVisualItem: the separate call that removes one item on request (actions.rs 986-1017) is not modelled; it is one call followed by a check of the count.
- MocRuns.Transparent: a run is one of one build tree; for entries that another tree stored there is `MocSiblings.SharedHitIsReal`. There is one spelling of the base directory; a resolved spelling that differs from the raw one is covered by `Basedir.BackToOneSpelling` only. Two invocations do not interleave. No file changes while moc runs. On a hit the dep file is described by `HitDepFile`, and need not list what moc's own would.
- MocLauncher.Launcher.Launch: finding the real moc, the disable switch and the other subcommands, which hand the line on or print, are not modelled; nor are stats, the reasons for misses (`_diff_key_parts`, `_explain_key_miss`), the keyinfo file, file times, and the hourly trim lock. That a file cannot be decoded is one more way for it not to be readable.
- MocWorld.KeyFrame: contents are texts. The source rewrites the base directory in a force-included file byte by byte, where only ASCII white space ends a name, while other texts end one at any white space; the two differ on a file in which the directory is followed by a white-space character outside ASCII, and the model takes the second for both.
- IndexFile.Index.Add: keys are taken to hold no white space, as digests do; not modelled are the race between two processes that append and compact at once, and a file that cannot be read, which counts as empty.
- Trim.Cache.Trim: the listing of the cache directory, with entries that vanish or change meanwhile; which entries cannot be deleted, and what their failed deletions leave, is fixed for one trim.
- Trim.ShortestPrefix: the low-water mark is exact integer arithmetic in place of floating point.
- ActuatorTester.ActuatorTest.SetActive: times are unbounded, so the overflow of `now + 1000` near the end of a 64-bit clock is not modelled; a value is a real number, an infinity or NaN, and nothing is computed with it.
- PollThrottle.Throttle.CompareExchange: the single atomic cell is modelled as a sequence of its values, which relaxed operations on one location have; other memory is not modelled. The clock's values are arbitrary.
- Background.Scheduler.RunQueued: jobs and steps may spawn and register, but not call the pass itself again; the native threads of the other build are not modelled.
- Doubles.Double: a double is 53 bits over a power of two, of any size; columns are at most 2^53, so that the exponents of the format never run out. Of two equally near doubles either may be the result.
- Sidebar.Parse: the regular expression, the rewriting of links and titles, and the reading of files; a line arrives as its indentation and entry, or as one that is skipped.
- Clustering.Cluster: finding the coloured pixels and describing the groups.
- EventCompression.Application.CompressEvent: event priorities, removal of a receiver's events by others, and the base class's own compression, which is taken as "append". Deleting the replaced event and clearing its flag is its leaving the queue.
- DeviceSetup.Application.ApplyCameras: how settings and links take what they are given; that the settings object can be missing; JSON parsing.
- The camera, orbit, console and unit gates, altitude modes, airframe tables, servo scaling and the account code: single branches and finite tables that would only add easy members.
