# Verified core of the audio firmware

This project models parts of the Sound Open Firmware tree and its vendored Kconfig library, and
proves what they promise. Verify everything with `dafny verify dfyconfig.toml`.

**Key phrase buffer** (`KpbRing`, `KpbSession`, `KpbAccount`, `KpbCompletion`, `KpbBuffer`,
`KpbAlloc`). The history is a ring of separately allocated blocks. `KpbRing` shows that block
boundaries do not matter: the blocks behave as one circular buffer whose content is the last
bytes written, and the backward walk of `kpb_init_draining` finds where the requested bytes
start. `KpbSession` is the state machine of writer and draining task. One `kpb_copy` is one step;
the draining task's loop body is three steps (read and hand over, return the credit, reload), so
the writer can run between them. Its main theorem holds in every interleaving. `KpbAccount`
states it in terms of what was offered: a plain account of the events says which bytes of each
offer are taken and which request is accepted, the component keeps to it in every run
(`KeepsAccount`), and the host gets the requested end of what was taken before the request and
all that was taken since (`DeliversRecorded`, `DeliversOffered`). `KpbCompletion` says how
sessions end and in how many passes of the draining task. `KpbBuffer` is the component as linked
objects, each method proved to be a step of that machine. Two results limit what the source
promises. A session accepted with a request of 0 never completes (`ZeroRequestStalls`); every
other one does after as many passes as bytes are pending and fed meanwhile (`BoundedCompletion`).
And `kpb_prepare` keeps a count left over from a session that was reset: every run that completes
then hands the host exactly so many bytes more than were requested and fed (`LeftoverDelivered`),
so the delivery theorem holds after `Prepare` if and only if nothing is left over
(`DeliversWhen`).

**Kconfig** (`KconfigEval`, `KconfigAgree`, `KconfigDeps`, `KconfigGraph`, `KconfigLoop`,
`KconfigFuel`, `KconfigSurvive`, `KconfigCache`, `KconfigLaws`, `KconfigAssign`, `KconfigText`,
`KconfigGrammar`, `KconfigTree`, `KconfigHomes`, `KconfigMenu`, `KconfigAuto`). `KconfigEval` is
the evaluator without caches, together with the items each evaluation reads, which short circuits
make depend on values. `KconfigLaws` says what its values mean without naming how they are
computed: the order of the connectives, the six relations on numbers and strings, defaults,
ranges and the value of a symbol. `KconfigCache` is the caching evaluator; it answers any
sequence of operations like the cacheless one although invalidation stops at items that have no
cached visibility, for every configuration that the loop check passes and while its MODULES can
be evaluated (`KconfigSurvive`). `KconfigLoop` is the three-colour search: it finds a loop
exactly when there is one, and `LoopOrOrder` says when a static order for all user values exists.
The source takes a configuration that passes the search to be evaluable. `KconfigFuel` models
evaluation as recursion of any depth and proves when that is so: under given user values every
evaluation ends if and only if no tristate consulted while evaluating MODULES reaches visibility
or raw value m (`EndsWhen`). A tristate MODULES with `default m` passes the search and has no
value at any depth (`DefaultMLoops`). `KconfigAssign` proves that the assignable values of a
symbol are those it really takes, and in which one position that fails (`AssignableExact`,
`TornOffersM`); the documentation of `assignable` also leaves out the result (0, 1), which the
code returns exactly as `NOrM` says. `KconfigText` is the round trip of printer and parser, and
`KconfigGrammar` shows that the parser accepts exactly the sentences of the documented grammar,
each with its one reading (`ParsesGrammar`). `KconfigTree` and `KconfigMenu` are tree
finalization on values and on links, and the iterative walk, for any dependency relation between
nodes. `KconfigHomes` says in one pass over the file below which node each entry belongs, and
finalization puts it there (`FinalizedHomes`). `KconfigAuto` is the relation the source uses,
`_expr_depends_on`. Unlike its comment it counts `sym != y` and `y != sym` as dependencies: while
the symbol is n, an entry taken into its submenu is hidden if and only if it has one of the other
dependencies or the rest of its condition is n (`HidesWhen`, `SubmenuHides`, `UnequalYShows`).

**Block allocator** (`AllocMap`, `AllocSearch`, `AllocLive`, `AllocHeap`). Single-block and
multi-block allocation, release by any address, the heap invariant and exact inverses, for
requests of any size. `alloc_cont_blocks` is complete; `alloc_heap_buffer` is not, because it
asks for the alignment on top of the size (`AlignedRunRefused`), and `AllocHeapBuffer` states
exactly when it refuses. `get_ptr_from_heap` looks at first free blocks only and asks for the
alignment on top of the size unless that block is aligned: it refuses a request exactly when no
map's first free block has that room (`AcceptsWhen`), which without an alignment means that no
block fits. An aligned request for no bytes can be given the address behind its block
(`EmptyRequestOutside`), exactly when the lowest fitting block of the first map that has one
holds no aligned address (`StraysWhen`); the block is lost then (`EmptyRequestLoses`), and
releasing the address releases whatever other allocation holds it (`AllocateAndFree`).

**Smaller cores.** `HostSplit` splits one-shot copies over scatter-gather elements, `RingStream`
copies between rings and linear buffers, `Mixer` mixes rings of different sizes, `Blob` hands
configuration blobs over in chunks, `IrqCascade` keeps the enable counts of nested interrupt
controllers, `BaseLog` is the table-driven logarithm, `Basics` and `Arith` hold shared
definitions. Two more limits. A `comp_data_blob_get_cmd` between two chunks that moves `data_pos`
spoils the transfer: back, and the blob handed over still ends in what the memory held; on, and
none is handed over (`ReadBetween`, `ReadSpoils`). A user who disables a line that only a
cascading controller holds takes the controller's enable (`TakesWhen`, `EnableTaken`); the line
is then one short, and `Disable` states the exact change.

## Model
| member | source | states |
|---|---|---|
| KpbRing.BufferDataAppends | src/audio/kpb.c:846-963 | however the data is cut at block ends and wherever the write pointer wraps, the history afterwards is the last Size bytes of the old history followed by the data |
| KpbRing.WriteChunkHistory | src/audio/kpb.c:906-958 | one chunk up to a block end appends to the history and drops as many bytes at its old end |
| KpbRing.BufferDataLabels | src/audio/kpb.c:935-958 | the FREE and FULL labels of the blocks keep describing how much has been written since the last reset, including after the ring is full |
| KpbRing.BufferDataShape | src/audio/kpb.c:880-963 | buffering keeps every block's size, one current block, and write offsets inside their blocks |
| KpbRing.WalkFindsStart | src/audio/kpb.c:1099-1146 | for every fill history and number of blocks the backward walk selects the block and offset where the most recent drain_req bytes start, also in the old tail of the block being written |
| KpbRing.ReadForward | src/audio/kpb.c:1267-1288 | reading forward inside a block yields the oldest of the pending bytes |
| KpbRing.ReadAdvance | src/audio/kpb.c:1286-1297 | advancing the read point, onto the next block at a block's end, leaves exactly the remaining bytes pending |
| KpbRing.BufferKeepsPending | src/audio/kpb.c:800-826 | buffering no more than the free space leaves every pending byte unread and in place behind the same read point |
| KpbSession.StepKeeps | src/audio/kpb.c:663-836 | every step of the writer, of the start of draining and of the draining task, in any state, keeps the session invariant: free space, pending bytes and what the host has received account for every byte |
| KpbSession.EveryInterleavingDelivers | src/audio/kpb.c:1209-1338 | in every interleaving of real-time copies with the draining task's read, credit release and reload steps, hd.free is the size minus undrained and in-flight bytes, and what the host received plus what is pending is the last drain_req bytes of the history taken followed by everything taken since; nothing is left over when the state becomes HOST_COPY (what is taken of each offer: KpbAccount.KeepsAccount) |
| KpbSession.ExecKeeps | src/audio/kpb.c:663-836 | the session invariant over whole runs |
| KpbSession.StepSane | src/audio/kpb.c:663-836 | every step, also with a count left over, leads to a state in which every step can be taken: offsets inside their blocks, counters in range, the task's phase consistent |
| KpbAccount.KeepsAccount | src/audio/kpb.c:663-836 | in every run the component has taken exactly what a plain account of the events says: of each offer the first bytes, as many as there is room for in the sink, or while draining in the history buffer next to what is owed to the host; the selector sink gets what it has room for until then; and the first request admitted for no more than was taken and the buffer holds is served, every such one |
| KpbAccount.DeliversRecorded | src/audio/kpb.c:1209-1338 | from a prepared buffer, in every interleaving, the host has received a prefix of the last bytes taken before the accepted request, as many as it asked for, followed by everything taken since, and all of that once the state is HOST_COPY |
| KpbAccount.DeliversOffered | src/audio/kpb.c:663-836 | when there was room for every offer, what was taken is the concatenation of all offers and a completed session has delivered its end |
| KpbAccount.SelectorHears | src/audio/kpb.c:724-745 | the selector sink has got exactly the history, unless an offer was larger than the buffer |
| KpbAccount.PassHandsOver | src/audio/kpb.c:1267-1288 | one pass of the draining task hands over the oldest pending bytes, as many as the sink takes, the block still holds and drain_req asks for |
| KpbCompletion.ZeroRequestStalls | src/audio/kpb.c:1243-1338 | a session accepted with drain_req 0 never reaches HOST_COPY and hands the host nothing, whatever happens |
| KpbCompletion.PositiveRequestCompletes | src/audio/kpb.c:1243-1338 | with drain_req above 0 the draining task can always complete: some continuation reaches HOST_COPY from every reachable state |
| KpbCompletion.BoundedCompletion | src/audio/kpb.c:1248-1338 | in every interleaving a session with drain_req above 0 completes: the task makes no more passes than bytes are pending and are fed meanwhile, and after that many its next two steps switch to HOST_COPY |
| KpbCompletion.PassesBounded | src/audio/kpb.c:1248-1338 | passes so far plus bytes still pending are at most the bytes pending at first plus those fed since |
| KpbCompletion.LeftoverDelivered | src/audio/kpb.c:1317-1338 | in every interleaving from a prepared buffer with k bytes of buffered_while_draining left over, what the host got and what is pending is exactly k bytes more than were requested and fed; in HOST_COPY the host has got them |
| KpbCompletion.DeliversWhen | src/audio/kpb.c:512-539 | every run that completes delivers the requested history followed by everything fed, and nothing else, if and only if nothing is left over |
| KpbSession.FreshPrepared | src/audio/kpb.c:1525-1544 | a reset history buffer is a valid starting point of a run |
| KpbBuffer.ResetHistoryBuffer | src/audio/kpb.c:1525-1544 | the walk along next zeroes the data, rewinds the pointers and sets the label FREE of every block of the ring, once |
| KpbBuffer.KeyPhraseBuffer.Prepare | src/audio/kpb.c:512-539 | preparing, the first time or after a reset with c_hb anywhere in the ring, leaves the same ring counted from c_hb, zeroed; from there every run that completes delivers what was requested and fed if and only if no buffered_while_draining is left over |
| KpbBuffer.KeyPhraseBuffer.BufferAll | src/audio/kpb.c:846-963 | the loop over the linked blocks has the effect of BufferData on the ring |
| KpbBuffer.KeyPhraseBuffer.StoreChunk | src/audio/kpb.c:906-934 | stores up to the end of the current block and moves its write offset |
| KpbBuffer.KeyPhraseBuffer.NextBlock | src/audio/kpb.c:935-958 | labels the full block and hands over to next |
| KpbBuffer.KeyPhraseBuffer.RtCopy | src/audio/kpb.c:663-836 | kpb_copy in each state is the RtCopy step of the session, which KpbAccount ties to the bytes offered, and keeps its invariant |
| KpbBuffer.KeyPhraseBuffer.CopyInRun | src/audio/kpb.c:699-758 | kpb_copy in state RUN hands the first bytes offered to the selector sink, as many as it has room for, and appends the same bytes to the history, none of an offer larger than the buffer |
| KpbBuffer.KeyPhraseBuffer.CopyToHost | src/audio/kpb.c:759-799 | kpb_copy in state HOST_COPY hands the first bytes offered to the host, as many as the sink has room for |
| KpbBuffer.KeyPhraseBuffer.CopyInSession | src/audio/kpb.c:800-826 | kpb_copy while draining takes the first bytes offered, as many as hd.free allows |
| KpbBuffer.KeyPhraseBuffer.BeginDraining | src/audio/kpb.c:1052-1199 | kpb_init_draining is the BeginDraining step of the session and keeps its invariant |
| KpbBuffer.KeyPhraseBuffer.FindReadPoint | src/audio/kpb.c:1085-1177 | sets r_ptr of the block the walk found and of no other |
| KpbBuffer.KeyPhraseBuffer.WalkBack | src/audio/kpb.c:1099-1146 | the do-while loop along prev computes Walk |
| KpbBuffer.KeyPhraseBuffer.StartTask | src/audio/kpb.c:1243-1248 | the start of kpb_draining_task is the TaskStart step |
| KpbBuffer.KeyPhraseBuffer.Drain | src/audio/kpb.c:1267-1288 | reading and handing over one stretch is the DrainCopy step |
| KpbBuffer.KeyPhraseBuffer.Release | src/audio/kpb.c:1290-1297 | returning the credit is the DrainRelease step |
| KpbBuffer.KeyPhraseBuffer.Reload | src/audio/kpb.c:1317-1338 | taking over what was buffered meanwhile is the DrainReload step |
| KpbAlloc.AllocateHistoryBuffer | src/audio/kpb.c:255-351 | for every pattern of allocation failures it ends; it asks each pool for all that is missing, then for 0x100 bytes less after each refusal, and takes every block it is offered: the first records hold those blocks, a finished call returns the sum of their sizes, at most the request, over one circular doubly linked list, and falls short only when no pool is left to ask; it gets all of it in one block if the first pool has that; every block is backed when the request is met |
| KpbAlloc.FillRing | src/audio/kpb.c:288-345 | the allocation loop asks for memory in that order and keeps a well-formed ring of the blocks taken, in which only the last record may lack memory |
| KpbAlloc.GreedyMore | src/audio/kpb.c:294-343 | the order of the requests is kept by each further one, met or refused |
| KpbAlloc.Smaller | src/audio/kpb.c:337-343 | the unsigned step strictly decreases: 0x100 less, or 0 for sizes up to 0x100, whether the subtraction wraps or not |
| KpbAlloc.Append | src/audio/kpb.c:310-326 | a new record is linked in behind the last one, the ring stays circular both ways |
| KpbAlloc.TakeMemory | src/audio/kpb.c:294-308 | the last record gets its memory and the others keep theirs |
| KconfigAgree.KeyAgree | scripts/kconfig/kconfiglib.py:4061-4138 | a visibility, value or assignable set depends on nothing but the items its evaluation reads, taking short circuits into account |
| KconfigAgree.ExprAgree | scripts/kconfig/kconfiglib.py:5486-5540 | the same for the value of an expression: operands skipped by a short circuit do not matter |
| KconfigLaws.Connectives | scripts/kconfig/kconfiglib.py:5486-5505 | a conjunction is the lower and a disjunction the higher of its operands, also where one is skipped, and a negation is the distance to y |
| KconfigLaws.ConnectiveLaws | scripts/kconfig/kconfiglib.py:5486-5505 | De Morgan's law, commutativity, double negation |
| KconfigLaws.NumbersCompare | scripts/kconfig/kconfiglib.py:5507-5540 | each of the six relations between symbols that are numbers is y exactly when the numbers are so related and n otherwise; n, m and y count as 0, 1 and 2, int symbols are decimal, hex symbols hexadecimal, others in the base their text shows |
| KconfigLaws.StringsCompare | scripts/kconfig/kconfiglib.py:5507-5540 | between two string symbols, or where one side is no number, it is y exactly when the texts are so related: equal, or one before the other, which at the first place where they differ has ended or has the lower character |
| KconfigLaws.StringOrder | scripts/kconfig/kconfiglib.py:5845-5848 | _strcmp is negative exactly when the first text comes before the second and 0 exactly when they are equal; with the sides changed it changes sign |
| KconfigLaws.RelationLaws | scripts/kconfig/kconfiglib.py:5507-5540 | < is > with the sides changed, <= the negation of > and the disjunction of < and =, != the negation of =, on numbers and on texts |
| KconfigLaws.DefaultIs | scripts/kconfig/kconfiglib.py:4097-4103 | the value from the defaults is that of the first whose condition is not n, limited by its condition, and n if there is none |
| KconfigLaws.DefaultTextIs | scripts/kconfig/kconfiglib.py:3998-4011 | the text from the defaults is that of the first whose condition is not n |
| KconfigLaws.RangeIs | scripts/kconfig/kconfiglib.py:3954-3968 | the active range is the first whose condition is not n, a text that is no number counting as 0 |
| KconfigLaws.PromptsHighest | scripts/kconfig/kconfiglib.py:5775-5801 | the visibility from the prompts is the highest of their conditions |
| KconfigLaws.VisibilityIs | scripts/kconfig/kconfiglib.py:5775-5801 | a symbol is visible at the highest of its prompts' conditions, at y instead of m unless it is a tristate and MODULES is not n, and not at all without prompts |
| KconfigLaws.ValueLimits | scripts/kconfig/kconfiglib.py:4061-4138 | a symbol is never below what selects it; a bool, a tristate while MODULES is n, and one implied at y are never m |
| KconfigLaws.ValueUnset | scripts/kconfig/kconfiglib.py:4093-4125 | where no user value applies, the value is the highest of defaults, selects and, while the symbol's dependencies hold, implications, m being raised to y where the symbol cannot be m |
| KconfigLaws.NumberInRange | scripts/kconfig/kconfiglib.py:3946-4026 | the number of an int or hex symbol lies in its active range, wherever its value comes from |
| KconfigLaws.NumberTextIs | scripts/kconfig/kconfiglib.py:3946-4026 | it is the user's text while the symbol is visible if that lies in the range, else the first active default's if that does, else the nearer end |
| KconfigLaws.TextIs | scripts/kconfig/kconfiglib.py:4037-4047 | a string symbol has the user's text while it is visible and else the first active default's |
| KconfigLaws.PlainTexts | scripts/kconfig/kconfiglib.py:3927-3937 | the text of a bool or tristate symbol names its value, one without a type has its name as text, and so have n, m and y |
| KconfigDeps.KeyMayRead | scripts/kconfig/kconfiglib.py:3106-3148 | every item an evaluation may read is below it in the order and, unless it is MODULES or constant, has the evaluated symbol among its dependents |
| KconfigSurvive.SurvivorsKeep | scripts/kconfig/kconfiglib.py:4475-4504 | an item that invalidation left cached has the same value and reads under the new user values, whatever happened to MODULES |
| KconfigSurvive.InvalidationSound | scripts/kconfig/kconfiglib.py:4475-4504 | dropping a set closed under dependents, except where a dependent has no cached visibility, leaves a cache in which every entry is a from-scratch value and everything it read is cached too |
| KconfigSurvive.CalmSame | scripts/kconfig/kconfiglib.py:3907-3915 | what needs no tristate's type on the way has the same value and reads under every value of MODULES |
| KconfigSurvive.TypeCached | scripts/kconfig/kconfiglib.py:4475-4504 | if a surviving item needed a type on the way, MODULES is still cached |
| KconfigSurvive.PlainEvaluable | scripts/kconfig/kconfiglib.py:3907-3915 | with a static order MODULES can be evaluated under all user values |
| KconfigGraph.BuildDep | scripts/kconfig/kconfiglib.py:3106-3148 | the dependents recorded for each symbol are exactly the symbols that mention it in prompts, defaults, selects, implies, ranges or dependencies |
| KconfigGraph.MakeDependOn | scripts/kconfig/kconfiglib.py:5804-5820 | adds the symbol to the dependents of every name in an expression and changes nothing else |
| KconfigCache.Kconfig.ExprValue | scripts/kconfig/kconfiglib.py:5486-5540 | evaluation through the caches, with its short circuits, gives the from-scratch value, which KconfigLaws.Connectives and the comparisons there determine, and leaves the cache good |
| KconfigCache.Kconfig.CompareValue | scripts/kconfig/kconfiglib.py:5507-5540 | the same for relations, numeric where both sides are numbers and on strings otherwise, each relation as KconfigLaws.NumbersCompare and StringsCompare say |
| KconfigCache.Kconfig.Visibility | scripts/kconfig/kconfiglib.py:5775-5801 | the cached visibility is the from-scratch one |
| KconfigCache.Kconfig.TriValue | scripts/kconfig/kconfiglib.py:4061-4138 | the cached tristate value is the from-scratch one |
| KconfigCache.Kconfig.StrValue | scripts/kconfig/kconfiglib.py:3920-4058 | the cached string value is the from-scratch one, with ranges clamped |
| KconfigCache.Kconfig.Assignable | scripts/kconfig/kconfiglib.py:4422-4466 | the cached assignable values are the from-scratch ones |
| KconfigCache.Kconfig.RecInvalidate | scripts/kconfig/kconfiglib.py:4475-4504 | the recursion that stops at items without a cached visibility ends, because the number of cached visibilities falls; it drops a set of symbols none of whose dependents keeps a cached visibility, and of all such sets the least |
| KconfigCache.Kconfig.InvalidateIfPrompt | scripts/kconfig/kconfiglib.py:4506-4525 | after a change of one user value the cache is good again, also when the symbol has no prompt and nothing is invalidated |
| KconfigCache.Kconfig.SetValue | scripts/kconfig/kconfiglib.py:4186-4269 | accepts exactly the values that fit the type, and keeps every cached value equal to a from-scratch evaluation |
| KconfigCache.SetTristate | scripts/kconfig/kconfiglib.py:4229-4257 | 0, 1 and 2 and the texts n, m and y have the same effect and are stored as the former; a bool refuses m, and both types refuse other texts |
| KconfigCache.SetText | scripts/kconfig/kconfiglib.py:4229-4257 | the other types refuse tristate values and store texts as they are: int only decimal ones, hex only hexadecimal ones that are not negative |
| KconfigCache.SetKeepsTypes | scripts/kconfig/kconfiglib.py:4229-4257 | user values stay of their symbols' types; a refused assignment changes none and an accepted one only the symbol's own |
| KconfigCache.Kconfig.UnsetValue | scripts/kconfig/kconfiglib.py:4271-4278 | removes the user value and keeps the cache good |
| KconfigCache.Kconfig.Run | scripts/kconfig/kconfiglib.py:4061-4278 | for every configuration that the loop check passes: any sequence of set_value, unset_value and reads under whose user values MODULES can be evaluated gives the answers of the cacheless reference |
| KconfigAssign.BelowUnchanged | scripts/kconfig/kconfiglib.py:4186-4269 | setting a symbol changes no value or visibility of symbols ranked below it, nor its own visibility |
| KconfigAssign.BelowSame | scripts/kconfig/kconfiglib.py:4186-4278 | any change of one symbol's user value changes no value or visibility of symbols ranked below it, nor its own visibility |
| KconfigAssign.ValueWhenSet | scripts/kconfig/kconfiglib.py:4061-4138 | the value a visible symbol takes when it is set, in terms of its visibility, selects and implies before |
| KconfigAssign.AssignableWhen | scripts/kconfig/kconfiglib.py:4422-4466 | values are assignable exactly while the symbol is a visible bool or tristate one, and are given in order |
| KconfigAssign.AssignableRespected | scripts/kconfig/kconfiglib.py:4422-4466 | a value is assignable exactly when the symbol takes it on being set to it |
| KconfigAssign.TornOffersM | scripts/kconfig/kconfiglib.py:4422-4466 | a symbol visible at m, selected at m and implied at y offers m only and takes y whatever it is set to |
| KconfigAssign.AssignableExact | scripts/kconfig/kconfiglib.py:3707-3712 | the promise that assignable values are those that are respected holds for a visible symbol if and only if it is not in that position |
| KconfigAssign.TornHappens | scripts/kconfig/kconfiglib.py:4464-4466 | a configuration with such a symbol: one symbol at m selects it and another at y implies it |
| KconfigAssign.NOrM | scripts/kconfig/kconfiglib.py:4454-4466 | the result (0, 1) is returned if and only if the symbol is visible at m, nothing selects it and nothing implies it at y |
| KconfigAssign.NOrMHappens | scripts/kconfig/kconfiglib.py:4454-4466 | a symbol with that result |
| KconfigLoop.LoopCheck.Check | scripts/kconfig/kconfiglib.py:6053-6125 | the three-colour visit of one symbol finishes everything it reaches or returns a loop or the part of one that is found so far |
| KconfigLoop.LoopCheck.CheckAll | scripts/kconfig/kconfiglib.py:997-1000 | started from every defined symbol the search reports a loop exactly when the graph has one, and the loop it reports is one; otherwise the finishing order ranks every symbol above those it depends on |
| KconfigLoop.OrderMeansNoLoop | scripts/kconfig/kconfiglib.py:6053-6125 | a graph with an evaluation order has no loop |
| KconfigLoop.OrderRanks | scripts/kconfig/kconfiglib.py:6053-6125 | an order of the dependency graph with MODULES below the tristates is a static order: it holds for all user values |
| KconfigLoop.RankedNoLoop | scripts/kconfig/kconfiglib.py:6053-6125 | a configuration with a static order has no dependency loop |
| KconfigLoop.LoopOrOrder | scripts/kconfig/kconfiglib.py:997-1000 | the search finds a loop if and only if there is one; a static order, in which each symbol comes after all it may consult under any user values, exists if and only if the search passes and MODULES depends on no tristate |
| KconfigFuel.EndsWhen | scripts/kconfig/kconfiglib.py:4061-4138 | for a configuration that the search passes, under given user values: every evaluation ends if and only if no tristate consulted while evaluating MODULES reaches visibility or raw value m; otherwise exactly the evaluations end that meet no such tristate themselves |
| KconfigFuel.LoopOrEnds | scripts/kconfig/kconfiglib.py:997-1000 | the search, and that equivalence for every user assignment when it passes |
| KconfigFuel.KeyRight | scripts/kconfig/kconfiglib.py:4061-4138 | one property from right answers of those it reads is right; without need of a type it lacks a value exactly when one of them does, and in need of one it lacks a value when MODULES does |
| KconfigFuel.CalmEnds | scripts/kconfig/kconfiglib.py:3907-3915 | an evaluation that needs no tristate's type ends with the from-scratch value, whatever MODULES is |
| KconfigFuel.OnlyCalmEnds | scripts/kconfig/kconfiglib.py:3907-3915 | if the evaluation of MODULES needs a type, no evaluation that needs one ends, at any depth |
| KconfigFuel.AllEnd | scripts/kconfig/kconfiglib.py:4061-4138 | otherwise every evaluation ends, with the values for what MODULES turns out to be |
| KconfigFuel.RankedEnds | scripts/kconfig/kconfiglib.py:4061-4138 | with a static order the recursion ends with the from-scratch value |
| KconfigFuel.DefaultMLoops | scripts/kconfig/kconfiglib.py:4121-4125 | a tristate MODULES with default m passes the search and has no value at any depth, whatever the user sets |
| KconfigFuel.PromptAtNEnds | scripts/kconfig/kconfiglib.py:5797-5801 | one with a prompt at n and no default has no static order, and every evaluation ends |
| KconfigText.RoundTrip | scripts/kconfig/kconfiglib.py:5555-5596 | printing and parsing gives back an expression of equal value under every valuation, and the identical tree if and only if its chains are nested to the right |
| KconfigText.ExprBack | scripts/kconfig/kconfiglib.py:3014-3054 | a printed expression followed by anything that cannot continue it is parsed completely and the rest is left |
| KconfigText.AndBack | scripts/kconfig/kconfiglib.py:3056-3064 | the same for a conjunction and its parentheses |
| KconfigText.FactorBack | scripts/kconfig/kconfiglib.py:3066-3100 | the same for a factor: symbols, relations, negations and parenthesized expressions |
| KconfigText.NormEv | scripts/kconfig/kconfiglib.py:5555-5596 | re-nesting a chain to the right never changes its value |
| KconfigText.Parser.Expression | scripts/kconfig/kconfiglib.py:3014-3054 | the parser that moves a token index computes ParseExpr of the tokens from there and leaves the index behind them |
| KconfigText.Parser.AndExpression | scripts/kconfig/kconfiglib.py:3056-3064 | the same for conjunctions |
| KconfigText.Parser.Factor | scripts/kconfig/kconfiglib.py:3066-3100 | the same for factors, with the failures of the grammar |
| KconfigGrammar.ParsesGrammar | scripts/kconfig/kconfiglib.py:3014-3100 | the parser accepts a token sequence with nothing left over if and only if it is an expression of the documented grammar, and gives the expression it is |
| KconfigGrammar.OneReading | scripts/kconfig/kconfiglib.py:3014-3100 | the grammar is unambiguous |
| KconfigGrammar.ExprSound | scripts/kconfig/kconfiglib.py:3014-3054 | what is parsed off the front of any token sequence is a sentence of the grammar and the rest is left as it was |
| KconfigGrammar.ExprComplete | scripts/kconfig/kconfiglib.py:3014-3054 | every sentence of the grammar is parsed, whatever follows that cannot continue it |
| KconfigGrammar.PrintsGrammar | scripts/kconfig/kconfiglib.py:5555-5596 | what is printed is a sentence of the grammar, read as the expression with its chains nested to the right |
| KconfigGrammar.PrintOpens | scripts/kconfig/kconfiglib.py:5575-5596 | parentheses are printed around a disjunction in a conjunction, a conjunction in a disjunction and whatever but a symbol is negated, and nowhere else |
| KconfigGrammar.ReparsedValue | scripts/kconfig/kconfiglib.py:5486-5596 | printed and parsed again, an expression evaluates to the value it had, in every configuration and under all user values |
| KconfigTree.FinalizedOrder | scripts/kconfig/kconfiglib.py:3197-3262 | finalization keeps every node that is not an if exactly once and in the order of the file, and leaves no if node |
| KconfigHomes.FinalizedHomes | scripts/kconfig/kconfiglib.py:3197-3262 | every node that is not an if ends up, in the order of the file, below the nearest node around it that is a choice or has a prompt, where the nodes around it are those the file puts it below and the symbols open for it: a symbol without children of its own stays open for the nodes behind it as long as each depends on it or on a symbol opened since |
| KconfigHomes.LevelLifts | scripts/kconfig/kconfiglib.py:5973-6024 | flattening a level and removing its if nodes lifts the children of promptless nodes other than choices, keeps those of all others, and moves nothing else |
| KconfigHomes.AbsorbHomes | scripts/kconfig/kconfiglib.py:3237-3254 | a symbol takes exactly the nodes it stays open for |
| KconfigHomes.NothingMoves | scripts/kconfig/kconfiglib.py:5973-5999 | where every node has a prompt and none depends on another, every node keeps its parent |
| KconfigTree.FlattenKeeps | scripts/kconfig/kconfiglib.py:5973-5999 | flattening keeps the order of the nodes |
| KconfigTree.FlattenCleans | scripts/kconfig/kconfiglib.py:5973-5999 | after flattening an if node has no children left to lose |
| KconfigTree.RemoveIfsKeeps | scripts/kconfig/kconfiglib.py:6001-6024 | removing childless if nodes keeps all others in order |
| KconfigTree.AbsorbKeeps | scripts/kconfig/kconfiglib.py:3237-3254 | an implicit submenu and what is left behind it hold the same nodes in the same order |
| KconfigTree.AbsorbMaximal | scripts/kconfig/kconfiglib.py:3237-3254 | a symbol takes the nodes behind it that depend on it and stops only at one that does not |
| KconfigTree.FinalizeTidies | scripts/kconfig/kconfiglib.py:3257-3261 | afterwards no node without a prompt has children on any level, choices aside |
| KconfigTree.FinalizeIds | scripts/kconfig/kconfiglib.py:3197-3262 | no node is duplicated |
| KconfigMenu.Menu.FinalizeTree | scripts/kconfig/kconfiglib.py:3197-3262 | the in-place changes to list, next and parent turn the links of a tree into the links of the finalized tree, parents included, and touch no other node; where each node is then is KconfigHomes.FinalizedHomes |
| KconfigMenu.Menu.FinalizeChildren | scripts/kconfig/kconfiglib.py:3224-3231 | the loop over the children, each of which may absorb the ones behind it |
| KconfigMenu.Menu.ImplicitMenu | scripts/kconfig/kconfiglib.py:3237-3254 | the nodes behind a symbol that depend on it are finalized and moved below it |
| KconfigMenu.Menu.FlattenLevel | scripts/kconfig/kconfiglib.py:5973-5999 | the loop links the children of promptless nodes, choices aside, behind them and leaves those of all others, which KconfigHomes.LevelLifts states without it |
| KconfigMenu.Menu.LiftChildren | scripts/kconfig/kconfiglib.py:5985-5997 | one node's children are spliced in behind it and get its parent |
| KconfigMenu.Menu.RemoveIfNodes | scripts/kconfig/kconfiglib.py:6001-6024 | the two loops unlink the if nodes among the children, as RemoveIfs says |
| KconfigMenu.Menu.SkipIfs | scripts/kconfig/kconfiglib.py:6007-6009 | stops at the first node of the level that is not an if |
| KconfigMenu.Menu.NodeIter | scripts/kconfig/kconfiglib.py:1607-1629 | the iterative walk yields the recursive preorder of the nodes below the top |
| KconfigMenu.Menu.FinalizeAndWalk | scripts/kconfig/kconfiglib.py:1607-1629 | walking the finalized tree yields every node of the file that is not an if, once and in order, and the parent link of each is the node it belongs below |
| KconfigAuto.DependsWhen | scripts/kconfig/kconfiglib.py:5937-5962 | a dependency is found if and only if the conjunction holds one of the documented forms, or sym != y, or y != sym |
| KconfigAuto.FirmHides | scripts/kconfig/kconfiglib.py:5937-5962 | while the symbol is n, an expression with one of the documented forms is n |
| KconfigAuto.HidesWhen | scripts/kconfig/kconfiglib.py:5937-5962 | while the symbol is n, an expression found to depend on it is n if and only if it has one of the documented forms or is n without sym != y and y != sym; what is left then depends on the symbol no more |
| KconfigAuto.UnequalYShows | scripts/kconfig/kconfiglib.py:5956-5958 | sym != y and y != sym count as dependencies and are y while the symbol is n |
| KconfigAuto.SubmenuHides | scripts/kconfig/kconfiglib.py:5964-5971 | that equivalence for every entry an implicit submenu takes |
| AllocMap.AlignUpLeast | src/lib/alloc.c:176-187 | rounding up gives the lowest aligned address from there on |
| AllocMap.TakeOneKeeps | src/lib/alloc.c:190-225 | taking one unused block keeps the map invariant: free_count counts the unused headers, these are clear, first_free is the lowest unused block whenever there is one |
| AllocMap.TakeRunKeeps | src/lib/alloc.c:308-336 | taking a run of unused blocks keeps the map invariant |
| AllocMap.GiveBackKeeps | src/lib/alloc.c:526-543 | releasing an allocation keeps the map invariant, also when the map was full |
| AllocMap.TakeOneUndone | src/lib/alloc.c:190-225 | releasing the block just taken restores headers, counts and first_free exactly |
| AllocMap.TakeRunUndone | src/lib/alloc.c:308-336 | releasing the run just taken restores headers, counts and first_free exactly, also when it filled the map |
| AllocSearch.BlockMap.FindRun | src/lib/alloc.c:234-306 | the search is sound and complete: it returns the lowest aligned address with room in a free run and needs every block it takes; it fails only if no free run has such an address |
| AllocSearch.BlockMap.TakeBlock | src/lib/alloc.c:190-225 | the headers, counts and first_free after alloc_block_index |
| AllocSearch.BlockMap.TakeBlocks | src/lib/alloc.c:308-336 | the headers, counts and first_free after the tail of alloc_cont_blocks |
| AllocSearch.BlockMap.Release | src/lib/alloc.c:526-543 | the headers, counts and first_free after the tail of free_block |
| AllocSearch.BlockMap.constructor | src/include/sof/lib/mm_heap.h:45-47 | a map starts with every header clear and satisfies the invariant |
| AllocLive.AllocKeeps | src/lib/alloc.c:824-896 | handing out free blocks keeps the heap invariant: live pointers are aligned and in the first of their own blocks, allocations share no block, every used block belongs to one |
| AllocLive.FreeKeeps | src/lib/alloc.c:449-543 | releasing a live allocation keeps the heap invariant |
| AllocLive.LiveDisjoint | src/lib/alloc.c:118-141 | live allocations are aligned, inside the heap and share no byte, within a map and across maps |
| AllocLive.UsedUpdate | src/lib/alloc.c:536-539 | info.used moves by block size times the change of free_count |
| AllocHeap.MmHeap.InitHeapMap | src/lib/alloc.c:118-141 | each map begins where the one before it ends |
| AllocHeap.MmHeap.constructor | src/lib/alloc.c:118-141 | a new heap satisfies the invariant with nothing live and nothing used |
| AllocHeap.MmHeap.AllocBlockIndex | src/lib/alloc.c:190-225 | takes the block and accounts for it; the lowest aligned address from its start on becomes live if it lies in the block, and otherwise the block is lost |
| AllocHeap.MmHeap.AllocContBlocks | src/lib/alloc.c:234-341 | returns NULL if and only if no free run of the map holds an aligned region of that size; otherwise the lowest such region becomes live |
| AllocHeap.MmHeap.GetPtr | src/lib/alloc.c:404-446 | the first map whose first free block is aligned and holds the request, or has room for the alignment on top of it, gives that block; NULL if and only if no map's has; without an alignment, NULL if and only if no free block of any map holds the request |
| AllocHeap.AcceptsWhen | src/lib/alloc.c:422-437 | a map is accepted if and only if its first free block fits the request and is aligned or has align bytes to spare; without an alignment, if and only if some block of it fits |
| AllocHeap.AlignedFirstRefused | src/lib/alloc.c:422-437 | an aligned request is refused although the first free block fits it |
| AllocHeap.MmHeap.AllocHeapBuffer | src/lib/alloc.c:796-904 | for any size: takes the lowest fitting block of the first map that has one, at its aligned address; else the lowest place with room for size plus alignment in the last map of smaller blocks that has one; else NULL; a block is lost if and only if no bytes are asked for and that block holds no aligned address |
| AllocHeap.MmHeap.AllocSingle | src/lib/alloc.c:824-869 | a single block is found if and only if one fits: the lowest one of the first map that has one, at its aligned address |
| AllocHeap.FindBlock | src/lib/alloc.c:828-865 | the lowest block of a map in which an aligned place has room, or none |
| AllocHeap.MmHeap.AllocRun | src/lib/alloc.c:871-896 | from the last map of smaller blocks to the first, the lowest run that fits |
| AllocHeap.MmHeap.FreeBlock | src/lib/alloc.c:449-555 | for any address: releases exactly the allocation whose blocks hold it, shifted pointers included, and otherwise changes nothing |
| AllocHeap.MmHeap.Locate | src/lib/alloc.c:477-498 | the map and block that hold an address, or proof that no live allocation does |
| AllocHeap.MmHeap.AllocateAndFree | src/lib/alloc.c:449-543 | freeing the pointer alloc_heap_buffer just returned restores the whole heap state, unless the request asks for no bytes and its block holds no aligned address; then the block stays used and lost, and exactly the allocation that holds the address is released |
| AllocHeap.MmHeap.GetAndFree | src/lib/alloc.c:449-543 | freeing the pointer get_ptr_from_heap just returned restores the whole heap state |
| AllocHeap.MmHeap.Serve | src/lib/alloc.c:404-555 | any sequence of requests of any sizes and releases of any addresses keeps the invariant, each request changing the heap as it says; live allocations stay aligned, inside and disjoint; the blocks lost are those of requests for no bytes whose block holds no aligned address, less those regained by releasing another address in them |
| AllocHeap.MmHeap.ServeOne | src/lib/alloc.c:404-555 | one request changes maps, live pointers and lost blocks as its kind says, for given state and arguments |
| AllocHeap.SingleIsFit | src/lib/alloc.c:851-857 | the test for one block holds exactly when some aligned place in it has room |
| AllocHeap.RefusedMeansTight | src/lib/alloc.c:871-880 | a refused request had no place with align bytes to spare behind it; without alignment no place at all |
| AllocHeap.AlignedRunRefused | src/lib/alloc.c:871-880 | an aligned request for several blocks is refused although a free run fits it |
| AllocHeap.EmptyRequestOutside | src/lib/alloc.c:854-857 | an aligned request for no bytes can be given the address behind its block |
| AllocHeap.SingleInside | src/lib/alloc.c:854-857 | the address given is aligned, and lies in the block if and only if a byte was asked for or the block holds an aligned address; otherwise it is the address behind the block |
| AllocHeap.StraysWhen | src/lib/alloc.c:845-862 | a request is given an address outside its block, the one behind it, if and only if it asks for no bytes and the lowest fitting block of the first map that has one holds no aligned address |
| AllocHeap.LossIs | src/lib/alloc.c:404-555 | a request loses one block if it is such a request, regains one if it releases an address in a lost block, and else leaves the number of lost blocks |
| AllocHeap.EmptyRequestLoses | src/lib/alloc.c:845-862 | a heap and a request that lose a block |
| HostSplit.HostData.CopyOneShot | src/audio/host.c:197-226 | the loop ends, each transfer lies inside one element of each list, and joined together the transfers are the next address pairs of the two cyclic lists; a failing DMA leaves a prefix |
| HostSplit.NextCycles | src/audio/host.c:107-114 | the addresses from a cursor on are those of the element list read round and round |
| HostSplit.NextRun | src/audio/host.c:377-407 | a stretch inside one element is the byte-by-byte walk of the list |
| HostSplit.HcBuf.NextBuffer | src/audio/host.c:107-114 | the next element, the first behind the last; NULL exactly for an empty list |
| HostSplit.HostData.GetSplit | src/audio/host.c:116-132 | what is left fits both elements, and something waits only when one of them is used up |
| HostSplit.HostData.OneShotCallback | src/audio/host.c:377-407 | both sides move on by the bytes copied, to the next element where one ends |
| HostSplit.HostData.ElementsReset | src/audio/host.c:679-711 | both sides are at index 0 of their cycles; with an empty list the addresses stay |
| Mixer.MixN | src/audio/mixer.c:65-106 | for pointers up to the very end of their rings the chunked loops end and write at each sink position from w_ptr on, modulo its size, the saturated sum of the matching samples of all sources, each modulo its own size; every value written is one of the format, and the rest of the sink is unchanged |
| Mixer.MixChunk | src/audio/mixer.c:90-100 | a chunk without a wrap stores the mixed samples, each one of the format, and moves every source on |
| Mixer.MixedFits | src/audio/mixer.c:97-98 | a mixed sample lies in -0x8000 to 0x7fff, 24-bit or 32-bit likewise; it is the sum of the sources where that does, and the nearest such value otherwise |
| Mixer.AddSources | src/audio/mixer.c:91-95 | one sum over all sources, never leaving the accumulator on the way |
| Mixer.ChunkSize | src/audio/mixer.c:83-89 | the most samples before the sink or any source wraps |
| Mixer.WrapAll | src/audio/mixer.c:102-104 | every source is at its position modulo its ring |
| Mixer.TotalFits | src/audio/mixer.c:159-200 | sums of up to the array limit of samples fit int32_t for 16 and 24 bits and int64_t for 32 bits |
| Mixer.MixedPermuted | src/audio/mixer.c:111-154 | the order of the sources does not matter |
| Mixer.Decode | src/audio/mixer.c:140-141 | the sign-extended sample is one of the format and congruent to the container modulo its width |
| Mixer.SaturateNearest | src/audio/mixer.c:97-98 | saturation gives a value of the format, the nearest one |
| RingStream.StreamCopy | src/audio/component.c:496-519 | the sink from its write point on holds the source from its read point on, modulo both sizes, for any length, and every sink byte that is not reached is unchanged |
| RingStream.RingToRing | src/audio/component.c:507-516 | the loop ends, also when a pointer starts at the very end of its ring or the length exceeds either ring |
| RingStream.CopyFromLinear | src/audio/component.c:521-539 | the ring from its write point on holds the linear bytes, the last of them where they overlap |
| RingStream.CopyToLinear | src/audio/component.c:541-559 | the linear buffer holds the ring from its read point on, for any length |
| RingStream.ThereAndBack | src/audio/component.c:521-559 | copying linear data into a ring and back returns it |
| RingStream.RingWriteAt | src/audio/component.c:496-519 | what a ring write of any length means cell by cell: position p + i modulo the size holds the i-th byte of the last round, cells not reached are kept |
| RingStream.WriteThenRead | src/audio/component.c:521-559 | what was written into a ring is what is read from there |
| RingStream.WrapMod | src/include/sof/audio/audio_stream.h:224-234 | one wrap is the position modulo the size, up to a pointer at the very end |
| Blob.NeverPartial | src/audio/component.c:186-425 | in every interleaving of the chunks of a blob with comp_get_data_blob and with reads that leave data_pos alone, and whatever the component's state, a request sees the old blob before the last chunk and all of the new one after it |
| Blob.SetKeeps | src/audio/component.c:283-383 | each chunk in turn is accepted and lands behind the ones before it |
| Blob.LastTaken | src/audio/component.c:350-380 | the last chunk makes the blob the current one at once if the component is idle or has none; otherwise the component keeps its blob until it asks, and gets the new one then |
| Blob.Refused | src/audio/component.c:294-341 | a new blob is refused exactly while another is on its way, a chunk for want of memory exactly when the allocation fails or no first chunk came; nothing changes then |
| Blob.CompleteKept | src/audio/component.c:294-298 | a complete blob that is not picked up yet survives every further message that carries data, until a read moves data_pos |
| Blob.ReadsInOrder | src/audio/component.c:385-430 | chunked reads return the blob from its start, in order, and then the memory behind it |
| Blob.ReadInside | src/audio/component.c:416-420 | a read returns bytes of the blob alone if and only if it asks for none behind its end |
| Blob.ReadBetween | src/audio/component.c:342-425 | a transfer with one read between two chunks: the blob arrives if the read leaves data_pos alone or no bytes are to come; else, if data_pos moves back, the blob handed over is overwritten and its end still holds what the memory held; if it moves on, none is handed over, and the firmware stops at an assert if data_pos is inside the buffer |
| Blob.GoesAstray | src/audio/component.c:342-349 | from any data_pos the chunks land one behind the other until one does not fit, which stops the firmware or is written outside |
| Blob.ChunkOverruns | src/audio/component.c:342-345 | a chunk that does not fit stops the firmware when data_pos is inside the buffer; behind it the unsigned room wraps and the chunk is let through unless it exceeds the wrapped room |
| Blob.ReadSpoils | src/audio/component.c:396-425 | a read of nothing between two chunks makes the second overwrite the first |
| Blob.BlobHandler.Set | src/audio/component.c:283-383 | the new handler state and result of comp_data_blob_set_cmd, with its busy, empty, out-of-memory and overflow cases, the wrap of the unsigned room included |
| Blob.BlobHandler.GetData | src/audio/component.c:186-225 | the new handler state and the blob returned |
| Blob.BlobHandler.Get | src/audio/component.c:385-430 | the new handler state, result and bytes of comp_data_blob_get_cmd, reads past the blob included |
| IrqCascade.SettleLine | src/drivers/interrupt.c:303-311 | counting a line up or down changes what the line above is owed only when the controller's first line is enabled or its last one disabled |
| IrqCascade.CascadeRoot.EnableLine | src/drivers/interrupt.c:272-317 | the recursion up the parent chain settles every count; the controller's first enabled line enables the line it hangs on, once, and any number that is no controller's line switches the DSP mask |
| IrqCascade.CascadeRoot.DisableLine | src/drivers/interrupt.c:319-362 | the same for disabling, which ends at a line without a count on any level and leaves that line one less short |
| IrqCascade.CascadeRoot.Enable | src/drivers/interrupt.c:430-449 | any line: enable_count of every controller is its number of enabled lines, every line's count is what users hold plus one for each enabled controller hanging on it, less what the line is short, DSP lines follow their controllers; no line gets shorter; a number that is no controller's line is switched on in the DSP's mask and changes nothing else |
| IrqCascade.CascadeRoot.Disable | src/drivers/interrupt.c:451-470 | any line, balanced or not, also in a state with short lines: the same; the line gets one short if no user holds it and the line where disabling ends for want of a count one less; from a state without short lines none is short afterwards if and only if the call does not take an enable that no user holds; a number that is no controller's line is switched off in the DSP's mask and changes nothing else |
| IrqCascade.StopShort | src/drivers/interrupt.c:345-347 | a line above an enabled controller that has no count is short |
| IrqCascade.StillSound | src/drivers/interrupt.c:345-356 | no line's count ever exceeds what is held on it, and only taking makes a line short |
| IrqCascade.TakesWhen | src/drivers/interrupt.c:345-356 | a call takes such an enable exactly when no user holds the line and an enabled controller hangs on it |
| IrqCascade.EnableTaken | src/drivers/interrupt.c:345-356 | it can happen: disabling the line of another controller goes through |
| IrqCascade.CascadeRoot.Serve | src/drivers/interrupt.c:430-470 | any sequence of enables and disables, balanced or not, of any lines keeps all counts right up to what lines are short, never above; what users hold on each line is the tally of the requests for it, and each disable changes the shortfall as one alone does; no line gets short when no controller hangs on a line named |
| IrqCascade.CascadeRoot.GetParent | src/drivers/interrupt.c:137-161 | the one controller whose lines include the number, none for DSP lines |
| IrqCascade.CascadeRoot.Register | src/drivers/interrupt.c:52-101 | a new controller gets the numbers behind all others and nothing enabled; a taken name is refused and changes nothing |
| BaseLog.ShiftsAreZeros | src/math/base2log.c:82-110 | for every nonzero 32-bit input the unrolled rounds shift by exactly the number of leading zeros |
| BaseLog.HighByte | src/math/base2log.c:111-120 | all table indices are in range and neighbours |
| BaseLog.Monotone | src/math/base2log.c:82-120 | the logarithm is monotone over the whole domain and lies in 0 to 32 |
| BaseLog.Doubling | src/math/base2log.c:82-120 | doubling the input, when it fits, adds exactly 65536 |
| BaseLog.PowersExact | src/math/base2log.c:82-120 | powers of two have exact logarithms |
| BaseLog.LogsRise | src/math/base2log.c:39-51 | the table rises |
| BaseLog.Steps | src/math/base2log.c:39-51 | every step of the table is within one unit of that of 65536 times the logarithm, positive, and not higher than the one before |
| BaseLog.Between | src/math/base2log.c:114-120 | interpolation stays between two entries of the table |

## Left out
- KpbSession.EveryInterleavingDelivers: one credit update and one reload are atomic steps; that the source reads and writes hd.free without a lock inside such a step is not modelled. Reset, timeout and unsupported sample widths are not part of the session.
- KpbBuffer.KeyPhraseBuffer.StoreChunk: a block's memory is a sequence field, so aliasing of block memory is not captured; the links between blocks are objects changed in place.
- KpbBuffer.KeyPhraseBuffer.Prepare: the ring is there and as large as requested; allocation is KpbAlloc. Clients and notifications are left out.
- KpbBuffer.KeyPhraseBuffer.BeginDraining: host parameter validation and buffer attributes of the client are one boolean.
- KconfigCache.Kconfig.Run: choices, environment symbols, warnings and writing of .config files are not modelled; parsing and printing of numbers is a parameter of the configuration.
- KconfigText.RoundTrip: works on tokens; quoting and splitting of characters, and transform_m, are not modelled.
- KconfigMenu.Menu.FinalizeTree: menu nodes are numbers and the links are sequences indexed by them; propagation of dependencies, properties and choices, which do not move nodes, is left out and the dependency relation is a parameter, which KconfigAuto gives.
- KconfigMenu.Menu.NodeIter: without unique_syms; the generator's yields are collected in a list.
- Blob.ChunkOverruns: memcpy_s also refuses, and the firmware stops, when the place behind the buffer lies in the message itself; addresses of messages are not modelled, so the result Outside includes that case.
- AllocHeap.MmHeap.Serve: a block whose pointer lies outside it counts as live under its own address, so that the invariant can speak of it; what a caller writes through such a pointer is not modelled.
- AllocHeap.MmHeap.FreeBlock: cached and uncached aliases of an address and the choice between several heaps are left out; the panic for an address inside an unused block is a result value.
- AllocSearch.BlockMap.FindRun: addresses and sizes are unbounded and alignments are any number; the source allows powers of two, for which masking and rounding agree.
- HostSplit.HostData.CopyOneShot: a DMA copy and its callback are one atomic transfer; addresses are unbounded; how many bytes to copy is a parameter.
- Mixer.MixN: the three functions are one method over the sample format.
- RingStream.StreamCopy: source and sink rings are different memory.
- Blob.BlobHandler.Set: a chunk that would be written behind the new blob ends the run with a result of its own; what that write destroys is not modelled.
- Blob.BlobHandler.Get: the memory behind the blob is a parameter; ABI and size fields of the message are left out.
- Blob.ReadBetween: one read that moves data_pos; several of them may also put chunks in another order.
- IrqCascade.CascadeRoot.Enable: the counters of one core; global_mask controllers, handler lists and locks are left out. A DSP line follows the one controller on it until a user switches the line; of a DSP line with several controllers nothing is said.
- IrqCascade.CascadeRoot.Register: the line the controller hangs on exists; the source also takes a number nobody has yet, which a later controller, or the same one, may get.
- KconfigCache.Kconfig.SetValue: the new user values leave MODULES evaluable; under others the source's evaluation does not end (KconfigFuel.EndsWhen). Warning texts are not modelled.
- KconfigFuel.EndsWhen: for configurations that the loop check passes; evaluation is from scratch, without caches.
- KconfigAuto.HidesWhen: for bool and tristate symbols, which are those that have a value n.
- BaseLog.ShiftsAreZeros: the table of leading zeros of a byte is written as thresholds.
- The system heap (rmalloc_sys), which only grows, and saving and tracing of heaps.
- Decibel, tone and trigonometric helpers, drivers, power management, IPC dispatch and user interfaces.
