# RADS in Dafny

RADS is a language runtime written in C together with a distributed platform, the Constellation.
This project models the parts of it that carry state, branching or arithmetic, and proves what they
promise, or exactly when they keep the promise.

| part | source | modules |
|---|---|---|
| Raft leader election | `src/constellation/consensus/raft.c` | `RaftNode`, `RaftProtocol`, `RaftOutcomes`, `RaftCampaigns`, `RaftExamples` |
| Reference-counted arrays | `src/core/interpreter.c` | `RefHeap`, `RefMachine`, `ReadBack`, `RefExamples`, `Interpreter` |
| Expression parser | `src/core/parser.c` | `Syntax`, `Parser`, `ParserRoundTrip`, `ParserSpelling`, `ParserShortest`, `ParserTokens` |
| Statements and cruise loops | `src/core/interpreter.c`, `src/core/parser.c` | `Statements`, `StatementLaws`, `CruiseLoops` |
| Consistent-hash ring | `src/constellation/dfs/dht.c` | `Ring`, `Dht`, `Lookups` |
| HTTP/1.1 messages and routes | `src/stdlib/stdlib_net.c` | `CText`, `HttpMessages`, `HttpTexts`, `Http`, `Routes`, `RouteMatches` |
| Bytecode interpreter | `src/vm/vm.c` | `Bytecode`, `BytecodePrograms`, `BytecodeTyping`, `BytecodeRuns`, `VirtualMachine` |
| Prediction | `src/constellation/autoscale/predictive.c` | `LeastSquares`, `Predictive` |
| WebSocket frames | `src/stdlib/stdlib_websocket.c` | `ByteOrder`, `WebSocket`, `WebSocketBytes` |
| Lock table | `src/constellation/dfs/locks.c` | `LockRuns`, `LockLives`, `Locks` |
| Autoscaler | `src/constellation/autoscale/scaler.c` | `ScalerRuns`, `ScalerOutcomes`, `Autoscaler` |
| Lexer | `src/core/lexer.c` | `Lexing`, `LexTokens`, `Lexer` |

Most parts come as a pair: a module of functions that say what an operation means, with the theorems
about whole runs, round trips or rewritings, and a module with a class that does the same thing in
place, loop by loop, proved against those functions. Because the two could be wrong in the same way,
further modules say what comes out in terms of bytes, tokens, fields and states alone, without those
functions. `Options` holds the optional value both use.
`dafny verify dfyconfig.toml` checks everything.

## Where the code does not do what it says

The model follows the code. Each of these has a lemma with a run or an input on which it happens, and
one about all runs or inputs that says when it can.

- A Raft candidate that steps down within its term forgets its vote and may vote again in that term,
  so the paper's "one vote per server and term" fails (`RaftExamples.VoteIsForgotten`;
  `RaftProtocol.VoteChangesIff`); election safety holds all the same
  (`RaftProtocol.ElectionSafety`). Section numbers in comments refer to Ongaro and Ousterhout's paper
  of 2014.
- `raft_start_election` counts votes without looking at the state they arrive in, which is unsafe in
  a later term than that of the request and in no other (`RaftExamples.UnguardedWinIsUnsafe`;
  `RaftCampaigns.TermGuardSuffices`); the model's win has the guard the paper gives it.
- Plain indexing shares arrays and struct instances (`RefExamples.SharedIndexDangles`,
  `RefExamples.SharedStructDangles`, `RefExamples.SharedStructFreedInArray`;
  `RefMachine.SharedIndexValidIff`). The machine's `Index` clones, as the optional chain does.
- The rest pattern of a too short array asks for a buffer of nearly 2^64 values and gets none
  (`RefExamples.ShortRestOverflows`; `RefMachine.BuffersBackedIff`).
- Arrays that refer to each other in a cycle are never freed (`RefExamples.SelfReferenceLeaks`;
  `RefMachine.ShutdownFreesExactly`).
- A C-style cruise loop skips its update after `continue` (`CruiseLoops.ContinueSkipsTheUpdate`;
  `CruiseLoops.IterationsAgree`).
- The ring's search returns the first virtual node at or after a key only if ties permit
  (`Dht.TiesBreakFirst`; `Dht.TiesStartAtFirst`), and where it does not, removing one node can move
  a key from another (`Lookups.TiedOwnerMoves`; `Lookups.RemovalErasesIff`).
- A second body of a request leaves the length of the first in force, and neither builder checks
  that the head of a message fits its buffer (`Http.SecondBodyIsLost`, `Http.LongPathDoesNotFit`;
  `HttpMessages.RequestRoundTrip`, `Http.ClientRequest.Build`).
- Type errors in arithmetic bytecode are reported but do not stop the interpreter, and the stack is
  checked after the write (`BytecodeRuns.ErrorGoesOn`, `BytecodeRuns.FullStackSpills`;
  `BytecodeRuns.NoErrorIff`, `BytecodeRuns.SpillsIff`).
- A caller woken from waiting for a lock does not look again (`LockRuns.TwoWaitersBothEnter`;
  `LockRuns.WakeIsSafe`).
- Lock ids are drawn at random, and a release with an id that two locks share can drop the wrong one
  (`LockRuns.SharedIdReleasesAnother`; `LockRuns.ReleaseDropsOwnIff`).
- A clock at 0 starts no cooldown, and limits the wrong way round are not kept
  (`ScalerRuns.ClockAtZero`, `ScalerRuns.CrossedLimits`).
- A route pattern with a parameter matches a path without it (`Routes.ShortPathMatches`;
  `Routes.AllParametersBound`).
- Line numbers miss line ends that are escaped in strings or stand in character literals
  (`Lexer.EscapedLineEnd`; `Lexer.LineNumbersExact`).

## Model

| member | source | states |
|---|---|---|
| RaftProtocol.ElectionSafety | src/constellation/consensus/raft.c:371-461 | Two nodes that lead the same term, at any two moments of any run over a network that loses, repeats and reorders messages, are the same node. |
| RaftProtocol.LeaderAgreement | src/constellation/consensus/raft.c:469-509 | A follower or leader that names a leader names the node that was elected in its own term, at this or an earlier moment of the run; candidates are exempt. |
| RaftProtocol.LeaderUpToDate | src/constellation/consensus/raft.c:361-461 | The log position of a leader is at least that of every member of some majority, in every run. |
| RaftProtocol.StepPreservesInv | src/constellation/consensus/raft.c:61-135 | Every time-out, vote request, win and heartbeat keeps the invariant: a quorum member of an elected leader never takes its vote in that term back, though a candidate that steps down does. |
| RaftProtocol.WinnerTermWasOpen | src/constellation/consensus/raft.c:438-461 | Nobody collects a majority in a term that already has a leader. |
| RaftProtocol.VoteChangesIff | src/constellation/consensus/raft.c:61-84 | In every run, the vote of a node that has one and stays in its term differs between two moments if and only if the node is a candidate at the first and a follower at the second. |
| RaftProtocol.StepChangesVoteIff | src/constellation/consensus/raft.c:485-499 | One step changes that vote if and only if it delivers a heartbeat of its term to the node while that is a candidate. |
| RaftProtocol.VoteChangesAfterElection | src/constellation/consensus/raft.c:61-84 | And then another node had already been elected in the term. |
| RaftExamples.VoteIsForgotten | src/constellation/consensus/raft.c:61-84 | A run in which a node votes for itself, steps down on a heartbeat of the same term and votes for another node in that term: one vote per node and term is false of the code. |
| RaftCampaigns.TermGuardSuffices | src/constellation/consensus/raft.c:405-461 | A majority of the votes asked for in the present term, whatever the role by then, makes a step that the full guard allows as well, in every run: half of the guard is enough. |
| RaftCampaigns.StepKeepsQuiet | src/constellation/consensus/raft.c:405-461 | Every step keeps what that rests on: of the quorum behind a leader nobody but the leader campaigned in its term, and candidates of a term without a leader stay candidates in it. |
| RaftExamples.UnguardedWinIsUnsafe | src/constellation/consensus/raft.c:438-461 | Counting the votes in a later term than the one they were asked for gives a run with two leaders in one term. |
| RaftExamples.WrappedTermsAreUnsafe | src/constellation/consensus/raft.c:86-103 | A run in which 64-bit terms wrap around and two nodes lead the same term, so the other theorems need terms that do not wrap. |
| RaftOutcomes.FollowerKnowsIff | src/constellation/consensus/raft.c:485-499 | In every run a follower names a leader at a moment if and only if it has accepted a heartbeat since it came to its term or stepped down in it. |
| RaftOutcomes.BeatNamesLeader | src/constellation/consensus/raft.c:485-499 | A node that receives a heartbeat of a term not over, unless it is a candidate of that very term, names the sender and is in its term. |
| RaftOutcomes.HeartbeatOutcome | src/constellation/consensus/raft.c:469-509 | Which role, term, vote and leader every kind of node is left with by every kind of heartbeat. |
| RaftOutcomes.VoteOutcome | src/constellation/consensus/raft.c:343-403 | A vote goes exactly to requests of a current term whose log ends in a later term, or in the same term and no earlier, and to one candidate a term; term, vote, role and leader follow. |
| RaftOutcomes.MajorityIsLeast | src/constellation/consensus/raft.c:438-440 | A majority is more than half of the cluster, and no smaller number is. |
| RaftOutcomes.LeaderLogIsLatest | src/constellation/consensus/raft.c:343-369 | The log of a leader ends later than that of every member of some majority, or is as long in the same term, in terms of log term and index. |
| RaftNode.RaftConsensus.BecomeFollower | src/constellation/consensus/raft.c:61-84 | Stepping down adopts the term and forgets vote and leader, also within the same term. |
| RaftNode.RaftConsensus.BecomeCandidate | src/constellation/consensus/raft.c:86-103 | Campaigning moves to the next term, modulo 2^64, votes for itself and keeps the old leader id. |
| RaftNode.RaftConsensus.BecomeLeader | src/constellation/consensus/raft.c:105-135 | A new leader names itself and announces itself at once. |
| RaftNode.RaftConsensus.ShouldGrantVote | src/constellation/consensus/raft.c:343-369 | A vote is granted exactly to a request of a current term, when free or already given to the candidate, whose log is at least as up to date. |
| RaftNode.RaftConsensus.HandleRequestVote | src/constellation/consensus/raft.c:371-403 | The whole new state and the reply, stepping down first on a higher term. |
| RaftNode.RaftConsensus.ConcludeElection | src/constellation/consensus/raft.c:405-461 | The node becomes leader exactly if it is still a candidate in the term it asked about and has a majority. |
| RaftNode.RaftConsensus.HandleHeartbeat | src/constellation/consensus/raft.c:469-509 | The whole new state and the reply; a candidate that steps down loses the leader id just stored. |
| RefMachine.CountsAlwaysExact | src/core/interpreter.c:81-191 | After any sequence of literals, loads, stores, destructuring, array literals with spread, push, pop, indexing and field access every live array's count equals the references to it, so none goes to a freed array, and no array is longer than its recorded capacity. |
| RefMachine.BuffersBackedIff | src/core/interpreter.c:69-87 | In a run without arrays of 2^58 items every array has the buffer its capacity promises, at every moment, if and only if no rest pattern begins behind the end of its array; then no buffer overflows. |
| RefMachine.StoreRestBacked | src/core/interpreter.c:1305-1315 | The rest array of a pattern gets a buffer if and only if the pattern begins inside the array or right behind it. |
| RefExamples.ShortRestOverflows | src/core/interpreter.c:1305-1315 | A run in which the rest of a too short array takes an item that it has no buffer for. |
| RefMachine.ApplyValid | src/core/interpreter.c:413-452 | Each single operation keeps the counts exact. |
| RefHeap.ReleaseFreesExactly | src/core/interpreter.c:152-191 | The release cascade frees an array if and only if no set of arrays supported by the remaining references contains it; cycles support themselves. |
| RefHeap.ReleaseKeepsSound | src/core/interpreter.c:152-191 | A release gives back exactly the references that the value held. |
| RefHeap.CloneKeepsSound | src/core/interpreter.c:115-150 | A clone counts as one more owner of everything the value refers to, through struct fields too. |
| RefHeap.ReleaseUndoesClone | src/core/interpreter.c:115-191 | Releasing a clone restores the heap. |
| RefMachine.PopMoves | src/core/interpreter.c:439-449 | Popping moves the last item out of the array: cloning it and releasing its slot leaves all counts as they were. |
| RefMachine.ShutdownFreesExactly | src/core/interpreter.c:293-303 | When a program ends, freeing its variables leaves an array allocated if and only if it belongs to a set of arrays that are all referred to from within the set. |
| RefMachine.ShutdownFreesAcyclic | src/core/interpreter.c:293-303 | So a program whose arrays form no cycle leaves none behind. |
| RefMachine.SharedIndexValidIff | src/core/interpreter.c:810-833 | With struct instances as objects that must have one owner, plain indexing, which shares the element, keeps counts and owners right if and only if the element is neither an array nor an instance; a shared instance has been freed or has two owners. |
| RefExamples.SharedIndexDangles | src/core/interpreter.c:810-833 | A run after which a value refers to a freed array, because of that sharing. |
| RefExamples.SharedStructDangles | src/core/interpreter.c:825-832 | The instance in an array literal is freed with the array, and the result of indexing points to it. |
| RefExamples.SharedStructFreedInArray | src/core/interpreter.c:825-832 | Freeing the result of indexing a variable's array frees the instance that is still in the array. |
| RefExamples.SelfReferenceLeaks | src/core/interpreter.c:428-438 | An array pushed into itself is still allocated after every variable is freed. |
| ReadBack.LiteralReadsBack | src/core/interpreter.c:89-113 | Indexing an array literal of any operands by k gives the value of operand number k, and null for every other k, with whatever else is on the stack left alone. |
| ReadBack.PushesReadBack | src/core/interpreter.c:428-438 | After any sequence of pushes onto a variable's array, indexing it gives the items that were there and then the values pushed, each under its number. |
| ReadBack.LiteralHolds | src/core/interpreter.c:89-113 | An array literal puts an array on the stack that holds the values of its operands in order. |
| ReadBack.Indexing | src/core/interpreter.c:1028-1038 | Indexing an array by a number gives the element with that number, or null when there is none. |
| ReadBack.ItemHolds | src/core/interpreter.c:1316-1325 | Destructuring binds a variable to the element with its number, or to null, and no other variable changes. |
| ReadBack.RestHolds | src/core/interpreter.c:1305-1315 | The rest variable holds a new array of the items from its place on, none when there are none. |
| ReadBack.SpreadExtends | src/core/interpreter.c:94-100 | A spread element puts all items of its array behind those before it. |
| ReadBack.PopTakesLast | src/core/interpreter.c:439-449 | Popping gives the last item and shortens an array that is still there by it. |
| ReadBack.StoreHolds | src/core/interpreter.c:246-267 | After an assignment the variable reads the value assigned and every other variable reads what it read. |
| ReadBack.FieldAssigned | src/core/interpreter.c:914-931 | After a field of a variable's struct is assigned, the field reads the new value and the other fields read what they read. |
| Interpreter.Interpreter.ValueClone | src/core/interpreter.c:115-150 | The clone equals the value and the counts change as the specification of cloning says. |
| Interpreter.Interpreter.ValueRelease | src/core/interpreter.c:152-191 | The heap after a release, cascade included, is the specified one; the caller's slot is emptied. |
| Interpreter.Interpreter.ArrayPush | src/core/interpreter.c:81-87 | Grows a full buffer and appends a counted clone. |
| Interpreter.Interpreter.ArrayPop | src/core/interpreter.c:439-449 | Returns the last item, shortened array and counts as specified; null on an empty array. |
| Interpreter.Interpreter.EnvironmentSet | src/core/interpreter.c:246-267 | Rebinding clones the new value before it releases the old one; a new name goes in front. |
| Interpreter.Interpreter.EnvironmentGet | src/core/interpreter.c:269-279 | Returns a counted clone of the first binding of the name, or null. |
| Interpreter.Interpreter.DoStoreRest | src/core/interpreter.c:1305-1315 | Array destructuring's rest binds a new array of the remaining items and drops its own reference to it; all buffers are still there if and only if the pattern begins no further than the end of the array. |
| Interpreter.Interpreter.DoSpread | src/core/interpreter.c:94-100 | Spreading pushes every item of the array and releases the array. |
| Interpreter.Interpreter.DoIndex | src/core/interpreter.c:1028-1038 | Indexing returns a clone of the element and releases the array, or null out of bounds. |
| Interpreter.Interpreter.DoSetField | src/core/interpreter.c:914-931 | Assigning a field of a variable's struct releases the old value and stores a clone of the new one. |
| ParserRoundTrip.RoundTrip | src/core/parser.c:193-529 | Every expression tree the grammar has, printed with parentheses only where the ladder needs them, parses back to exactly that tree and leaves the tokens that follow untouched. |
| ParserRoundTrip.ReprintingIsStable | src/core/parser.c:193-529 | Whatever parses, its printed form parses to the same tree. |
| ParserRoundTrip.PrintInjective | src/core/parser.c:193-529 | No two trees have the same tokens. |
| ParserShortest.PrintIsShortest | src/core/parser.c:193-529 | No token list that parses to a tree is shorter than the printed one. |
| ParserShortest.ParensAreNeeded | src/core/parser.c:391-529 | An operand of too low a level, printed without parentheses, does not parse as that operand. |
| ParserSpelling.TakesOnlyItsTokens | src/core/parser.c:193-529 | Whatever the parser accepts is the printed form of the tree it builds, token by token, apart from parentheses and the two type words that it takes for names. |
| ParserTokens.LooseOperators | src/core/parser.c:461-507 | Between any two identifiers the tokens of range, coalescing, disjunction and conjunction, each written out, make the operation of that name. |
| ParserTokens.EqualityOperators | src/core/parser.c:440-459 | Likewise the two tests of equality. |
| ParserTokens.ComparisonOperators | src/core/parser.c:440-459 | Likewise the four comparisons. |
| ParserTokens.SumOperators | src/core/parser.c:427-438 | Likewise plus and minus. |
| ParserTokens.ProductOperators | src/core/parser.c:411-425 | Likewise times, divided by and remainder. |
| ParserTokens.PrefixTokens | src/core/parser.c:391-409 | The three prefix tokens, written out, with the trees they make of an identifier. |
| ParserTokens.NameTokens | src/core/parser.c:226-247 | An identifier is a name, and the two type words are the names of their modules. |
| ParserTokens.SuffixTokens | src/core/parser.c:308-389 | Members, indexing, optional chains, calls and struct literals, written out token by token. |
| ParserTokens.BracketTokens | src/core/parser.c:250-270 | Array literals, with their elements in order and spread ones told apart. |
| ParserTokens.Grouping | src/core/parser.c:411-525 | Differences group to the left, assignments to the right, and a product binds its factors before a sum on either side. |
| ParserTokens.Parenthesised | src/core/parser.c:272-276 | What parses as an expression parses as the same expression in parentheses. |
| ParserTokens.Targets | src/core/parser.c:510-525 | An assignment of any value to any expression parses if and only if the target is an identifier, an index or a member. |
| Parser.Parser.ParsePrimaryExpr | src/core/parser.c:193-276 | Consumes one primary expression exactly as the grammar says, or fails. |
| Parser.Parser.ParseElementList | src/core/parser.c:253-267 | The loop over array elements and spreads agrees with the grammar of element lists. |
| Parser.Parser.ParseFieldList | src/core/parser.c:322-338 | The loop over struct fields agrees with the grammar of field lists. |
| Parser.Parser.ParseArgumentList | src/core/parser.c:344-351 | The loop over arguments agrees with the grammar of argument lists. |
| Parser.Parser.ParsePostfix | src/core/parser.c:312-385 | One struct literal, call, member, index or optional-chain suffix, as the grammar says. |
| Parser.Parser.ParseCall | src/core/parser.c:308-389 | The postfix loop takes exactly the suffixes the grammar gives it. |
| Parser.Parser.ParseUnary | src/core/parser.c:391-409 | Prefix operators nest to the right. |
| Parser.Parser.ParseFactor | src/core/parser.c:411-425 | Multiplicative operators associate to the left over unary operands. |
| Parser.Parser.ParseTerm | src/core/parser.c:427-438 | Additive operators, likewise, one level up. |
| Parser.Parser.ParseComparison | src/core/parser.c:440-459 | Comparisons, likewise. |
| Parser.Parser.ParseAnd | src/core/parser.c:461-471 | Conjunction, likewise. |
| Parser.Parser.ParseOr | src/core/parser.c:473-483 | Disjunction, likewise. |
| Parser.Parser.ParseNullishCoalescing | src/core/parser.c:485-496 | The coalescing operator, likewise. |
| Parser.Parser.ParseRange | src/core/parser.c:499-507 | A range takes one operand on each side and does not chain. |
| Parser.Parser.ParseAssignment | src/core/parser.c:510-525 | Assignment nests to the right and only accepts an identifier, index or member as its target. |
| CruiseLoops.DesugaringPreservesMeaning | src/core/parser.c:643-669 | If no `continue` escapes the body, the block and loop built for a C-style cruise loop have the outcome and the final state of the C-style loop, for every initialiser, condition and update, and run on forever exactly when it does. |
| CruiseLoops.RewritingPreservesRuns | src/core/parser.c:643-669 | The same whenever skipping the update after `continue` never makes a difference. |
| CruiseLoops.IterationsAgree | src/core/parser.c:643-669 | One iteration of the rewritten loop agrees with the C-style one if and only if the body does not end in `continue` or the update would change nothing. |
| CruiseLoops.ContinueSkipsTheUpdate | src/core/parser.c:643-669 | A loop whose body is `continue`: the C-style loop ends after one iteration and the rewritten one diverges. |
| CruiseLoops.NeverContinues | src/core/interpreter.c:1146-1285 | A statement without an escaping `continue` never ends in one: inner loops absorb it and a finally block's is ignored. |
| CruiseLoops.RunsAreUnique | src/core/interpreter.c:1146-1285 | A statement either diverges or has one outcome and one final state. |
| StatementLaws.LoopUnfolds | src/core/interpreter.c:1168-1191 | A loop is the conditional that runs its body once and then the loop again, one unit of fuel apart, exactly in the runs whose first iteration ends neither in `break` nor in `continue`. |
| StatementLaws.UnfoldingPreservesMeaning | src/core/interpreter.c:1155-1191 | For a body that ends in neither, the loop and its unfolding have the same outcome and final state and diverge together. |
| StatementLaws.NegationExchanges | src/core/interpreter.c:1155-1166 | Negating the condition exchanges the two branches. |
| StatementLaws.BlocksAppend | src/core/interpreter.c:1146-1153 | A block is its parts one after the other, cut short where a part ends abruptly. |
| StatementLaws.LoopVisits | src/core/interpreter.c:1168-1191 | A loop goes through the states before each test of its condition until the condition fails, the body breaks, or a return or throw goes through it; `continue` goes on. |
| StatementLaws.CruiseVisits | src/core/interpreter.c:1193-1225 | A cruise evaluates its limits in order and sets its name to every number from the first up to the last, the last excluded, unless the body leaves it. |
| StatementLaws.ThrowIsCaught | src/core/interpreter.c:1260-1271 | A throw anywhere in the body goes to the catch block with the thrown value bound. |
| StatementLaws.FinallyComesLast | src/core/interpreter.c:1273-1284 | The finally block runs after everything that ends, and hands the earlier outcome on unless it returns or throws itself. |
| Statements.Executor.ExecStatement | src/core/interpreter.c:1087-1285 | Executing a statement in place gives the outcome and the state of the semantics, for blocks, conditionals, loops, return, throw and try. |
| Statements.Executor.RunLoop | src/core/interpreter.c:1168-1191 | The loop over condition and body agrees with the semantics of `loop`. |
| Statements.Executor.RunCruise | src/core/interpreter.c:1193-1225 | The loop over a range agrees with the semantics of a range cruise. |
| Lookups.RemovalErases | src/constellation/dfs/dht.c:169-194 | What lookups of a key meet after a node is removed is what they met before with the node erased, when the searches in both rings end at the key's successor, as they do with at most one virtual node on the key. |
| Lookups.RemovalErasesIff | src/constellation/dfs/dht.c:169-194 | When searches end at the successor before a removal, the removal only erases the node from what is met, for every set of live nodes, if and only if they still do afterwards; virtual nodes on the key belong to different nodes. |
| Lookups.MetClockwiseIff | src/constellation/dfs/dht.c:253-327 | A lookup meets the live nodes clockwise from its key, for every set of live nodes, if and only if its search ends at the successor; virtual nodes on the key belong to different nodes. |
| Lookups.UntiedFindsFirst | src/constellation/dfs/dht.c:215-243 | With at most one virtual node on the key, searches end at its successor before and after any removal. |
| Lookups.RemovalChangesLittle | src/constellation/dfs/dht.c:253-327 | Under the same condition a removal takes the node out of the list a lookup returns and appends at most one other; lists without it do not change. |
| Lookups.RemovalMovesOwner | src/constellation/dfs/dht.c:169-194 | Under the same condition the lookup of a key finds another owner if and only if its owner is the node removed. |
| Lookups.AdditionMovesOwner | src/constellation/dfs/dht.c:134-167 | Adding a node to a collision-free ring makes the lookup of a key find another owner if and only if the new owner is that node, when the search in the new ring ends at the successor. |
| Lookups.TiedOwnerMoves | src/constellation/dfs/dht.c:220-235 | Three nodes on the key itself: removing one that is not the owner makes the lookup find another owner. |
| Ring.AddThenRemove | src/constellation/dfs/dht.c:134-194 | Adding a node to a sorted, collision-free ring and removing it restores the ring, whatever the sort does with equal positions. |
| Ring.ReplicaPlacement | src/constellation/dfs/dht.c:253-327 | A replica list has no repeats, exactly min(count, live nodes) members, all live, in the order in which they first appear clockwise from the key, and every live node it leaves out comes later. |
| Dht.FoundPlacement | src/constellation/dfs/dht.c:253-327 | The same of what a lookup collects, clockwise from where its search ends, on every non-empty ring, sorted or not and with any ties. |
| Dht.StartIsLeast | src/constellation/dfs/dht.c:215-243 | On every sorted ring the search finds the least position at or after the key, or the least of all when there is none. |
| Dht.StartIsFirst | src/constellation/dfs/dht.c:215-243 | It finds the first such virtual node when at most one sits on the key itself. |
| Dht.TiesStartAtFirst | src/constellation/dfs/dht.c:220-235 | With ties on the key the search starts at the first of them if and only if it reaches that place in fewer probes than any of the others, whatever the hashes. |
| Ring.OnlyRotationFromSuccessor | src/constellation/dfs/dht.c:266-296 | On a sorted ring of distinct virtual nodes the way round from an index is clockwise from the key if and only if the index is the key's successor. |
| Dht.TiesBreakFirst | src/constellation/dfs/dht.c:215-243 | Three virtual nodes on one position, of which the search finds the second. |
| Dht.HashRing.AddNode | src/constellation/dfs/dht.c:134-167 | The new ring is sorted and holds the old virtual nodes and those of the new node. |
| Dht.HashRing.RemoveNode | src/constellation/dfs/dht.c:169-194 | Shifting removes exactly the node's virtual nodes, keeps the order of the rest and returns their number. |
| Dht.HashRing.FindVnode | src/constellation/dfs/dht.c:215-243 | The binary search ends where its specification says, wrapping past the end to the first place. |
| Dht.HashRing.FindReplicas | src/constellation/dfs/dht.c:253-327 | The slots of a lookup on any ring: the first live nodes clockwise from where the search ends, without repeats and as many as asked for or as there are, and the replicas of the key when the search ends at its successor; nothing when there are none. |
| Dht.HashRing.LocateFile | src/constellation/dfs/dht.c:329-354 | The slots for a file and the number of nodes in them, which is the replication factor or the number of live nodes, whichever is less, on every ring. |
| HttpMessages.RequestRoundTrip | src/stdlib/stdlib_net.c:1319-1368 | Parsing the bytes of a request returns its method, its target as path and query, the defaulted headers followed by the caller's in order, and its body if and only if a supplied Content-Length agrees with it or it is empty. |
| HttpMessages.ResponseRoundTrip | src/stdlib/stdlib_net.c:400-441 | Parsing the bytes of a response returns its status, text, completed headers and body if and only if a Content-Length it already had agrees with the body. |
| HttpMessages.BlockReads | src/stdlib/stdlib_net.c:1422-1491 | A header block is read back as its headers and what follows the blank line, whatever the body contains. |
| Http.SecondBodyIsLost | src/stdlib/stdlib_net.c:1307-1317 | After two bodies of different lengths are set, the first length counts and the body does not arrive. |
| Http.ClientRequest.SetBody | src/stdlib/stdlib_net.c:1307-1317 | A non-empty body announces its length, and the first one set always agrees with it. |
| Http.ClientRequest.Build | src/stdlib/stdlib_net.c:1319-1368 | The bytes are the request's start line, defaulted and own headers, blank line and body if and only if the head is shorter than its buffer; otherwise there is no such message. |
| Http.ServerResponse.Build | src/stdlib/stdlib_net.c:400-441 | The bytes of the response if and only if its head is shorter than its buffer, and the headers that building adds to the response itself. |
| Http.ReadRequest | src/stdlib/stdlib_net.c:280-368 | Reading a request agrees with its specification on every buffer, malformed ones included. |
| Http.ReadResponse | src/stdlib/stdlib_net.c:1422-1491 | Reading a response agrees with its specification on every buffer; an incomplete body is reported as incomplete. |
| CText.NumbersReadBack | src/stdlib/stdlib_net.c:353-353 | strtoul and atoi read back what the integer formats write. |
| HttpTexts.PlainRequest | src/stdlib/stdlib_net.c:1319-1368 | The bytes of a request without headers of its own, written out. |
| HttpTexts.PlainResponse | src/stdlib/stdlib_net.c:400-441 | The bytes of a response without headers of its own, written out. |
| HttpTexts.PlainRequestFits | src/stdlib/stdlib_net.c:1332-1352 | Such a request fits its buffer if and only if method, path, host and port have fewer than 192 characters together, or as many more as its body leaves. |
| HttpTexts.PlainResponseFits | src/stdlib/stdlib_net.c:424-430 | Such a response fits its buffer if and only if status, text and length have fewer than 379 characters together. |
| HttpTexts.DefaultsGiveWay | src/stdlib/stdlib_net.c:1321-1350 | The caller's headers are sent unchanged and in order, nothing is added under a name they have in any case, and the essential headers are always there. |
| HttpTexts.FieldsAreGood | src/stdlib/stdlib_net.c:326-346 | Every header field of token characters with a value of visible characters and blanks between them, as section 5 of RFC 9110 has it, is among those that survive the trip. |
| HttpTexts.SameNameIff | src/stdlib/stdlib_net.c:270-278 | Two header names are the same if and only if they differ at most in the case of their letters. |
| HttpTexts.FirstHeaderCounts | src/stdlib/stdlib_net.c:270-278 | Of several headers with one name the first counts. |
| HttpTexts.AnyLinesRead | src/stdlib/stdlib_net.c:326-346 | A header block of any lines is read line by line, each on its own, up to the blank line. |
| HttpTexts.HeaderLines | src/stdlib/stdlib_net.c:326-346 | A header line is split at its first colon, blanks before the value are dropped, and a line without a colon is dropped whole. |
| HttpTexts.NumbersRead | src/stdlib/stdlib_net.c:353-353 | Numbers are read behind blanks, with or without a sign, up to the first character that is no digit; unsigned ones saturate and wrap as in C. |
| HttpTexts.WordsRead | src/stdlib/stdlib_net.c:297-306 | Words of the start line are separated by one or more spaces. |
| HttpTexts.IncompleteMessages | src/stdlib/stdlib_net.c:280-325 | A message without a blank line is refused. |
| BytecodeTyping.RunIsSafe | src/vm/vm.c:236-400 | If the chunk has a stack typing, no run of any length pops an empty stack, reports an error, exceeds 256 values or fetches from an offset that the disassembler does not list. |
| BytecodeTyping.InterpretIsSafe | src/vm/vm.c:236-400 | The same from the first instruction with a stack of the types given for it. |
| BytecodeTyping.StepIsSafe | src/vm/vm.c:249-390 | Each single instruction keeps a typed run safe. |
| BytecodeTyping.NextIsListed | src/vm/vm.c:450-496 | The instruction pointer and the disassembler advance alike over every instruction that is whole. |
| BytecodeRuns.NoErrorIff | src/vm/vm.c:191-234 | A run that is not stuck has reported no error if and only if every arithmetic operation and comparison in it found two numbers on top of the stack. |
| BytecodeRuns.ErrorGoesOn | src/vm/vm.c:195-198 | A chunk that adds two booleans reports an error, goes on and returns. |
| BytecodeRuns.SpillsIff | src/vm/vm.c:245-395 | A run writes behind its stack if and only if a constant, a literal or an empty array is pushed while the stack holds 256 values. |
| BytecodeRuns.FullStackSpills | src/vm/vm.c:391-394 | A loop around one push writes its 257th value behind the stack before the check. |
| BytecodePrograms.JumpsIfFalse | src/vm/vm.c:316-322 | For all bytes, a conditional jump on true goes on behind itself and on false at the distance its two bytes give, high byte first, and leaves the stack as it is. |
| BytecodePrograms.JumpsAlways | src/vm/vm.c:323-334 | The other two jumps always go, one forwards and one backwards. |
| BytecodePrograms.ChoicesCompute | src/vm/vm.c:316-327 | The code of a choice, condition, jump, first part, jump, second part, runs exactly the part that its condition selects, wherever it stands in a chunk and on any stack with room. |
| BytecodePrograms.OperatorsCompute | src/vm/vm.c:191-375 | Code that pushes two values and an operator push the result of the operator, the first value on its left. |
| BytecodePrograms.NegationsCompute | src/vm/vm.c:282-315 | Negation of a number and of a truth value, after code that pushes it. |
| BytecodePrograms.CallsCompute | src/vm/vm.c:335-350 | A call hands its function the arguments in the order they were pushed and leaves the result instead of them and the function. |
| BytecodePrograms.ArraysCompute | src/vm/vm.c:376-385 | An array holds its items in the order they were pushed. |
| BytecodePrograms.PiecesCompute | src/vm/vm.c:236-400 | Two pieces of code push what the first pushes and then what the second pushes. |
| BytecodePrograms.LiteralsCompute | src/vm/vm.c:255-263 | Opcodes 2, 3 and 4 push null, true and false, wherever they stand. |
| BytecodePrograms.ConstantsCompute | src/vm/vm.c:250-254 | Opcode 1 pushes the constant with the number that follows it. |
| BytecodePrograms.Stops | src/vm/vm.c:351-390 | A return takes the value on top, and opcodes that the interpreter does not know stop it. |
| BytecodePrograms.WrongKinds | src/vm/vm.c:191-315 | Operands of the wrong kind: two values that are not both numbers are dropped with a message, and every other instruction stops the run. |
| VirtualMachine.Vm.BinaryOp | src/vm/vm.c:191-234 | Operands that are no numbers are dropped with a message, nothing is pushed and execution goes on. |
| VirtualMachine.Vm.CallNative | src/vm/vm.c:335-350 | A native gets its arguments in order and its result replaces them and the function. |
| VirtualMachine.Vm.BuildArray | src/vm/vm.c:376-385 | The popped values end up in the array in the order they were pushed. |
| VirtualMachine.Vm.Execute | src/vm/vm.c:249-390 | Every instruction has the effect of its specification on stack, pointer and status. |
| VirtualMachine.Vm.Interpret | src/vm/vm.c:236-400 | The loop does what the specification of a run does, for any number of instructions. |
| VirtualMachine.Disassemble | src/vm/vm.c:450-458 | Lists the specified offsets in order. |
| LeastSquares.FitIsBest | src/constellation/autoscale/predictive.c:225-240 | Over exact reals no line fits a window of two or more samples better than the computed one, and no other line fits it as well. |
| LeastSquares.DenominatorPositive | src/constellation/autoscale/predictive.c:236-237 | The denominator is positive if and only if there are at least two samples. |
| LeastSquares.NormalEquations | src/constellation/autoscale/predictive.c:236-237 | Slope and intercept solve the normal equations. |
| LeastSquares.LineIsRecovered | src/constellation/autoscale/predictive.c:225-240 | Samples that lie on a line are fitted by that line. |
| Predictive.WindowIsMostRecent | src/constellation/autoscale/predictive.c:169-192 | However many samples arrive, the window is the most recent ones in order. |
| Predictive.SmoothingStaysWithin | src/constellation/autoscale/predictive.c:247-263 | A smoothed value lies between the bounds of the samples, whatever factor is configured. |
| Predictive.SmoothingWeighs | src/constellation/autoscale/predictive.c:247-263 | Smoothing is the sum of the samples weighted by age: alpha times a power of 1 - alpha, and the power alone for the oldest. |
| Predictive.Predictor.AddTrainingSample | src/constellation/autoscale/predictive.c:169-192 | Appends to the window, dropping the oldest sample of a full buffer by shifting it. |
| Predictive.Predictor.PredictLinearRegression | src/constellation/autoscale/predictive.c:220-245 | The sums give the specified slope and intercept and the line extended to the asked time; the mean below two samples. |
| Predictive.Predictor.PredictExponentialSmoothing | src/constellation/autoscale/predictive.c:247-263 | The loop computes the smoothed value of the window. |
| WebSocket.PayloadSurvives | src/stdlib/stdlib_websocket.c:137-232 | A frame, unmasked or masked under any mask, decodes to its type and payload and leaves what follows if and only if the payload has at most 8192 bytes. |
| WebSocket.FrameDecodes | src/stdlib/stdlib_websocket.c:172-232 | Decoding an unmasked frame of any length, whoever sent it, gives its type and its payload cut to the buffer; the rest stays in the stream. |
| WebSocket.FrameFitsIff | src/stdlib/stdlib_websocket.c:137-170 | The sender's buffer takes a frame if and only if its payload has at most 8202 bytes. |
| WebSocket.ClientFrameDecodes | src/stdlib/stdlib_websocket.c:172-232 | Likewise for a masked frame, whose payload comes out unmasked. |
| WebSocket.LengthReadsBack | src/stdlib/stdlib_websocket.c:151-164 | Every 64-bit length reads back through its 7-, 16- or 64-bit field. |
| WebSocket.LongLengthIsBigEndian | src/stdlib/stdlib_websocket.c:160-164 | The 64-bit length goes out with its high byte first. |
| WebSocket.MaskedTwice | src/stdlib/stdlib_websocket.c:211-215 | Unmasking undoes masking. |
| WebSocketBytes.FirstByte | src/stdlib/stdlib_websocket.c:137-149 | The first byte of a frame of each type, written out, as section 5.2 of RFC 6455 has it. |
| WebSocketBytes.KindOfByte | src/stdlib/stdlib_websocket.c:178-232 | Which message the low half of the first byte announces, whatever the other half is. |
| WebSocketBytes.MaskedBits | src/stdlib/stdlib_websocket.c:211-215 | Bit by bit, each byte is combined with byte number i modulo 4 of the mask. |
| WebSocketBytes.SmallFrames | src/stdlib/stdlib_websocket.c:151-153 | Up to 125 bytes the second byte is the length, with the mask bit for a masked frame. |
| WebSocketBytes.MiddleFrames | src/stdlib/stdlib_websocket.c:154-158 | From 126 to 65535 bytes the second byte is 126 and two bytes hold the length, the high one first. |
| WebSocketBytes.LargeFrames | src/stdlib/stdlib_websocket.c:159-164 | From 65536 bytes on the second byte is 127 and eight bytes hold the length, the high one first. |
| WebSocketBytes.CutStreams | src/stdlib/stdlib_websocket.c:172-209 | Streams that end inside the header are refused and streams that end after one byte or inside the payload go unnoticed. |
| WebSocketBytes.HelloReads | src/stdlib/stdlib_websocket.c:172-232 | The example frame of section 5.7 of RFC 6455, read from a stream. |
| WebSocketBytes.BinaryFrames | src/stdlib/stdlib_websocket.c:137-170 | The two binary examples of that section, of 256 and of 65536 bytes. |
| WebSocket.Endpoint.SendFrame | src/stdlib/stdlib_websocket.c:137-170 | The bytes sent are the frame, put together in the buffer, if it fits; the answer says whether it does. |
| WebSocket.Endpoint.DecodeFrame | src/stdlib/stdlib_websocket.c:172-232 | Reading a frame from a stream agrees with its specification on every stream, cut ones included. |
| WebSocket.Endpoint.UnmaskInPlace | src/stdlib/stdlib_websocket.c:211-215 | The loop unmasks the buffer in place. |
| ByteOrder.SwappedTwice | src/stdlib/stdlib_websocket.c:20-34 | Swapping the bytes of a 64-bit value twice is the identity, so each conversion inverts the other. |
| ByteOrder.Ntoh64 | src/stdlib/stdlib_websocket.c:20-26 | The loop computes the byte swap. |
| ByteOrder.Hton64 | src/stdlib/stdlib_websocket.c:28-34 | The loop computes the byte swap. |
| LockRuns.RunSafe | src/constellation/dfs/locks.c:128-336 | If a woken caller scans again, no run of acquire, wake-up, time-out, release, renewal, expiry and forced unlock leaves an exclusive lock beside another lock on its resource. |
| LockRuns.WakeIsSafe | src/constellation/dfs/locks.c:158-198 | A woken caller may take its lock without a new scan if and only if a scan would have let it. |
| LockRuns.GrantIsSafe | src/constellation/dfs/locks.c:136-198 | Adding a lock keeps a safe table safe if and only if the scan finds nothing in the way. |
| LockRuns.TwoWaitersBothEnter | src/constellation/dfs/locks.c:158-198 | Without the new scan two waiters for one exclusive lock both get it after one release. |
| LockRuns.ReleaseDropsOwnIff | src/constellation/dfs/locks.c:200-227 | A release drops the caller's own lock if and only if no lock before it has its id; otherwise that one is dropped and the caller's stays. |
| LockRuns.FreshReleasesOwn | src/constellation/dfs/locks.c:200-227 | After any run in which new ids were not in use, a release drops the caller's lock and no other. |
| LockRuns.SharedIdReleasesAnother | src/constellation/dfs/locks.c:200-227 | With one id for two locks the second caller's release drops the first one's lock, and a third caller gets its resource. |
| LockRuns.ReleaseIsExact | src/constellation/dfs/locks.c:200-227 | A release removes all locks with its id if and only if there is at most one. |
| LockLives.LivesUntilTaken | src/constellation/dfs/locks.c:128-396 | In every run with fresh ids a lock is in the table, renewed by its renewals and otherwise as it was granted, until its release, the unlocking of its resource or a cleanup after its expiry takes it away. |
| LockLives.StepKeepsOrTakes | src/constellation/dfs/locks.c:200-396 | Each single call takes away exactly the locks that it is meant to. |
| LockLives.GrantedFor | src/constellation/dfs/locks.c:166-198 | A lock is granted as asked for, behind the others, and the first cleanup later than the whole seconds of its timeout takes it; without a timeout none does. |
| Locks.LockTable.Scan | src/constellation/dfs/locks.c:133-148 | The loop finds a conflict exactly when there is one. |
| Locks.LockTable.Acquire | src/constellation/dfs/locks.c:128-198 | Grants and appends a lock if compatible; otherwise refuses or waits, changing nothing. |
| Locks.LockTable.AfterWait | src/constellation/dfs/locks.c:158-198 | Takes the lock without scanning, which is safe exactly when compatible. |
| Locks.LockTable.Release | src/constellation/dfs/locks.c:200-227 | Drops the first lock with the id and keeps the order of the rest. |
| Locks.LockTable.Renew | src/constellation/dfs/locks.c:229-240 | Extends exactly the lock it is called with, if that expires at all, and leaves every other as it was. |
| Locks.LockTable.CleanupExpired | src/constellation/dfs/locks.c:303-336 | Drops exactly the expired locks, keeps the order of the rest and counts them. |
| Locks.LockTable.ForceUnlock | src/constellation/dfs/locks.c:368-396 | Drops exactly the locks of the resource, keeps the order of the rest and counts them. |
| Locks.LockTable.IsHeld | src/constellation/dfs/locks.c:254-268 | Answers whether some lock holds the resource. |
| ScalerRuns.ScalingsInWindow | src/constellation/autoscale/scaler.c:434-519 | In every run with a positive clock that never goes back, the count stays within its limits and any window of so many seconds holds at most seconds / cooldown + 1 scalings of one direction. |
| ScalerRuns.RunKeepsInv | src/constellation/autoscale/scaler.c:434-471 | Over whole runs the count stays within its limits, the events chain up from one count to the next, and events of one direction are a cooldown apart. |
| ScalerRuns.WindowBound | src/constellation/autoscale/scaler.c:501-519 | Times a cooldown apart: a bound on how many fall into one window. |
| ScalerRuns.ClockAtZero | src/constellation/autoscale/scaler.c:515-518 | With a clock that reads 0 any number of scale-ups fit into one second, whatever the cooldown, so the window bound needs a positive clock. |
| ScalerRuns.CrossedLimits | src/constellation/autoscale/scaler.c:365-367 | With the limits the wrong way round a policy scales at most once in any run, to the upper limit, and is never within its limits. |
| ScalerOutcomes.RuleScalesIff | src/constellation/autoscale/scaler.c:347-471 | A rule scales if and only if it is enabled, its own cooldown has passed, its metric fires and the limits leave something of its adjustment; count, event, remembered time and counter then change as they should, and otherwise nothing does. |
| ScalerOutcomes.RunAccounts | src/constellation/autoscale/scaler.c:434-471 | After any number of evaluations every event is explained by an enabled rule, the counters count the events and evaluations, and the clock was read once for each enabled rule and evaluation and twice for each event. |
| ScalerOutcomes.NewestAreLast | src/constellation/autoscale/scaler.c:389-401 | The event list holds the latest events of the run, as many as it has room for, in order. |
| Autoscaler.Scaler.Scale | src/constellation/autoscale/scaler.c:347-421 | Clamps the new count, and records an event and starts a cooldown exactly when it changes. |
| Autoscaler.Scaler.CheckCooldown | src/constellation/autoscale/scaler.c:501-519 | Answers whether the cooldown of the direction is still running. |
| Autoscaler.Scaler.Record | src/constellation/autoscale/scaler.c:389-401 | The list keeps the newest events in order. |
| Autoscaler.Scaler.EvaluatePolicy | src/constellation/autoscale/scaler.c:434-471 | The loop over the rules agrees with the specification of an evaluation. |
| Routes.SubstitutedMatches | src/stdlib/stdlib_net.c:816-864 | A path made from a pattern and non-empty, slash-free values matches it and captures exactly those names and values in order. |
| Routes.MatchRebuilds | src/stdlib/stdlib_net.c:816-864 | On every match the captures put into the used part of the pattern rebuild the used part of the path; what is left of either starts with a slash, and one of them is used up. |
| Routes.AllParametersBound | src/stdlib/stdlib_net.c:816-864 | A match gives values to the first parameters of its pattern, in order, and to all of them if and only if the path has at least as many slashes as the pattern has before its last colon. |
| Routes.ShortPathMatches | src/stdlib/stdlib_net.c:858-864 | A path that stops before a slash of the pattern matches without a value for the parameter behind it. |
| RouteMatches.MatchIff | src/stdlib/stdlib_net.c:816-864 | A path matches a pattern with a result if and only if some front of the pattern with the captured values put in, all without slashes and none missing, is the path up to what is left, and what is left starts with a slash and belongs to one side only. |
| Routes.RouteMatch | src/stdlib/stdlib_net.c:816-864 | The loop over pattern and path agrees with the specification of a match. |
| Lexing.LexTiles | src/core/lexer.c:328-402 | The gaps and tokens in order are exactly the source, every token but the last has some text, the last is the end, and there are at most one more than characters. |
| Lexing.GapIsBlank | src/core/lexer.c:71-115 | A gap is nothing but blanks, comments up to the end of their line, and block comments up to their first end or the end of the source. |
| Lexing.GapsDoNotMatter | src/core/lexer.c:328-402 | Replacing every gap of an error-free source by one space leaves its tokens as they are. |
| LexTokens.LexIff | src/core/lexer.c:71-402 | There is exactly one way to cut a source into gaps and tokens, described without scanning, and it is what lexing gives. |
| LexTokens.ScanIff | src/core/lexer.c:261-402 | A text starts with exactly one token, a word, number, string, character, symbol from the table written out, or an error of a certain length, and the scanner finds it. |
| LexTokens.GapIff | src/core/lexer.c:71-115 | A text starts with exactly one gap: blanks and comments, and none of them after it. |
| Lexer.LineNumbersExact | src/core/lexer.c:328-402 | In every source the line given with a token is the line its text ends on if and only if neither it nor any token before it hides a line end; it is never too high. |
| Lexer.EscapedLineEnd | src/core/lexer.c:285-305 | A string whose backslash takes a line end along is given the line before the one it ends on. |
| Lexer.LinesExact | src/core/lexer.c:285-326 | Every line end in a token is counted if and only if none is escaped in a string or stands in a character literal. |
| Lexer.Lexer.SkipWhitespace | src/core/lexer.c:71-115 | Skips exactly the gap and counts its line ends. |
| Lexer.Lexer.Identifier | src/core/lexer.c:261-266 | Consumes the longest run of word characters. |
| Lexer.Lexer.NumberToken | src/core/lexer.c:268-283 | Consumes digits and a fraction, if digits follow its point. |
| Lexer.Lexer.StringToken | src/core/lexer.c:285-305 | Consumes a string with its escapes to the closing quote, or reports it unterminated. |
| Lexer.Lexer.CharToken | src/core/lexer.c:307-325 | Consumes a character literal, or reports it unterminated. |
| Lexer.Lexer.NextToken | src/core/lexer.c:328-402 | Each call skips one gap and consumes one token, as the lexing of the source says. |
| Lexer.Lexer.AdvanceToken | src/core/parser.c:155-164 | Takes the next token that is no error, and reports the errors before it. |
| Lexer.Lexer.AllTokens | src/core/parser.c:155-164 | Doing so to the end gives the parser all tokens of the source but the errors, in order, and reports all errors, in order. |
| Lexer.TokensAreLexemes | src/core/lexer.c:328-402 | The tokens of a source have the texts and kinds of its lexing. |

## Left out

- RaftProtocol.ElectionSafety: assumes that no term reaches its 64-bit limit, as do the other theorems about runs; `RaftExamples.WrappedTermsAreUnsafe` shows that it has to.
- Raft timers, threads and peers' addresses: each handler is one atomic step, time-outs may happen at any moment, and the placeholder for asking peers is the exchange of vote requests and replies.
- Raft restarts, log replication and membership changes: the source has only stubs for them; each node's log position is arbitrary and fixed.
- Interpreter values: strings are values without buffers, and a struct instance is a tree with one owner, which is how every operation of the machine treats it; only for plain indexing are instances objects of their own (`RefMachine.SharedIndexValidIff`).
- Interpreter calls: user functions, natives and the global return and thrown values are left out of the heap machine; `Enabled` says what evaluation guarantees about its own temporaries.
- Allocation: requests whose size fits 64 bits are granted, and a run goes on after it has written behind a buffer; freed addresses are not reused.
- Interpreter.Interpreter.DoIndex: models the branch that clones the element, for the reason given above.
- Parser errors: the first reported error ends the parse, so recovery and messages are left out, as are source positions, anonymous functions and the text of numbers.
- Statements.Executor.ExecStatement: takes an amount of fuel, one unit an iteration of `loop`, so that it ends; `CruiseLoops.RunsAreUnique` removes it from the meaning of a statement.
- Range cruises: `Cruise` always has a range; over anything else the source does nothing. Imports and declarations of types are left out.
- Expressions inside statements: their evaluation, echo and declarations are functions of the state that the semantics is given.
- Dht.HashRing.SortRing: sorts by insertion where the source calls the library's sort; only its contract, a sorted permutation, is used.
- Hashing: positions come from a function of node and number, collision-free only where a lemma says so; liveness of nodes is a set.
- Http.ClientRequest.Build: says of a head that does not fit its buffer only that there is no such message, as does `Http.ServerResponse.Build`; the source, which does not check, writes and reads behind the buffer then.
- HTTP connections: sockets, the event loop, pooling, and feeding a response in several reads.
- VirtualMachine.Vm.Interpret: runs a given number of instructions; what C leaves undefined is a fault, and reading the condition of a jump from a value that is no boolean is one too.
- Natives and floating-point arithmetic of the bytecode interpreter are functions it is given; printing and the building of chunks are left out.
- Rounding, the standard deviation, seasonal prediction and pattern detection: everything here is over exact reals.
- WebSocket.Endpoint.SendFrame: sends nothing when the payload does not fit its frame buffer; the source, which does not check, copies it behind the buffer.
- A payload cut short by the network is not noticed by the decoder and shows uninitialised memory; the model calls that garbled. The handshake is left out.
- Lock ids and the time are inputs, and which thread holds a `Lock` pointer is not tracked: a release names a lock by its id and a renewal by its place in the table.
- Autoscaler metrics: whether a rule fires is an input; policies are evaluated independently, and setting the count from outside is left out.
- Lexer columns, messages and the recognition of keywords among words.
- Gossip, metadata caches, the instance controller, array sorting, string helpers, sessions, cookies, templates, the garbage collector, compilers, debugger, package site and tools.
