# Verified models of KLEE's state, OpenVPN's control channel and the state machine extractor

The repository combines an LLVM pass that extracts state machines, a fork of the symbolic executor KLEE, and
OpenVPN's `ssl.c` as the subject of the pass. This project models the parts with the most state and the most
arithmetic and proves what they are for.

* **Symbolic memory.** A byte of a KLEE object lives in up to three places: a concrete store, a known expression and a
  list of updates. `ObjectCache` says what the byte is and what must hold between the places; `Memory` is the
  class that updates them in place; `WideAccess` reads and writes values of any width, `Dereference` through a pointer
  that was resolved to an object. `AddressSpace` and `CopyOnWrite` share objects between forked address spaces by
  epoch: `World.Run` is the result for whole runs.
* **Execution states.** `ExecutionState` branches by forking a space and merges two paths into one that stands for
  exactly both. `Resolution` finds the objects a symbolic address may lie in.
* **Expressions.** `Words` are bit strings, `Expressions` their terms, `ExprBuilder` and `Constructors` the simplifying
  constructors with the proof that they keep every value. `Constraints` simplifies a new path constraint by the known
  ones and rewrites those by it; `ImpliedValues` is the backwards inference from an equation.
* **Control channel.** `ControlChannel` is the session machine of `ssl.c`, with the TLS library and the reliability
  layer as an arbitrary environment; `PseudoRandom` and `KeyExchange` are the TLS 1.0 PRF and the agreement of two peers.
* **Graphs.** `ControlDependence` builds the control dependence graph from the postdominator tree, which exists by
  `PostDominators`; `Graphs` holds the two searches; `CallPaths` is the call path tree and its summary.
* **Formats.** `KTest` is the test case file, `Strtol` the two number parsers.

An assignment gives bytes to the symbolic arrays; results about memory hold under every assignment. The solver is a
finite set of models of the current path; it answers right or not at all. The postdominator tree of LLVM is taken as
a parameter that agrees with the paths of the function.

Results that differ from what the code seems to promise:

* `resolve` does not keep a cap of 1 (`Resolution.CapOfOneFails`); `Resolution.Resolve` states exactly when it does.
* `getImpliedValues` tells the constants of a select apart by pointer; with equal constants it infers too much
  (`ImpliedValues.EqualBranchesUnsound`). `SelectExpr::create` builds no such select
  (`ImpliedValues.CreateSelectDistinct`), but `SelectExpr::alloc`, which the default builder of
  `KleeSE/lib/klee/Expr/ExprBuilder.cpp:35-38` calls, does. `ImpliedValues.SelectStepExact` states exactly when that
  step is right, and soundness of the whole is proved for selects with distinct constants.
* The summary of the root call path node is never reset, so it grows from one summary to the next
  (`CallPaths.CallPathManager.GetSummaryStatistics`).
* `strtol` and `strtoul` report "0x" without a hexadecimal digit as no conversion, where ISO C99 reads a zero
  (`Strtol.BareZeroX`). They agree with the standard exactly where the text has no such prefix (`Strtol.StandardExact`,
  `Strtol.UnsignedStandardExact`).

## Model

| member | source | states |
|---|---|---|
| `CopyOnWrite.World.Run` | KleeSE/lib/klee/Core/AddressSpace.h:48-56 | every run of forks, allocations, frees, constant and symbolic writes and reads over shared object states, some of them read-only, leaves every space with the memory it would have on its own, under every assignment, and every read that stays in bounds gives the byte last written there; read-only objects stay shared by all spaces that bind them as long as none is set up anew |
| `CopyOnWrite.World.Step` | KleeSE/lib/klee/Core/AddressSpace.cpp:22-50 | one operation changes exactly the memory of its own space, as on unshared memory, and keeps the ownership discipline |
| `CopyOnWrite.World.Own` | KleeSE/lib/klee/Core/AddressSpace.cpp:38-50 | getWriteable returns an object state that no other binding refers to, and changes no byte that any space sees |
| `CopyOnWrite.World.OwnedIsExclusive` | KleeSE/lib/klee/Core/AddressSpace.h:48-56 | an object state owned in its space's epoch is bound there only, although a fork leaves two spaces with one epoch |
| `CopyOnWrite.World.ForkSpace` | KleeSE/lib/klee/Core/AddressSpace.h:56 | a fork gives the child the parent's bytes and keeps the discipline: what both bind is owned strictly before both new epochs |
| `CopyOnWrite.World.WriteByte` | KleeSE/lib/klee/Core/Memory.cpp:411-430 | a write in one space is seen there at its offset and in no other space |
| `CopyOnWrite.World.ReadSymbolic` | KleeSE/lib/klee/Core/Memory.cpp:394-409 | a read through a symbolic offset may flush caches of a shared object, yet no space sees a changed byte and the result is the addressed byte |
| `Memory.ObjectState.constructor` | KleeSE/lib/klee/Core/Memory.cpp:95-115 | a new object is zero under every assignment and satisfies the cache invariants |
| `Memory.ObjectState.Symbolic` | KleeSE/lib/klee/Core/Memory.cpp:117-131 | a new symbolic object has the bytes of its array under every assignment |
| `Memory.ObjectState.Copy` | KleeSE/lib/klee/Core/Memory.cpp:133-155 | a copy in memory of its own has the same bytes, no owner, and the cache invariants |
| `Memory.ObjectState.GetUpdates` | KleeSE/lib/klee/Core/Memory.cpp:181-230 | building a constant array from the oldest constant writes changes no byte, and gives the update list a root |
| `Memory.ObjectState.SetReadOnly` | KleeSE/lib/klee/Core/Memory.h:188 | marking an object changes no byte |
| `Memory.ObjectState.InitializeTo` | KleeSE/lib/klee/Core/Memory.cpp:253-264 | filling a concrete store makes every byte that value under every assignment |
| `Memory.ObjectState.MakeSymbolic` | KleeSE/lib/klee/Core/Memory.cpp:241-251 | afterwards every byte is read through the update list |
| `Memory.ObjectState.FlushRangeForRead` | KleeSE/lib/klee/Core/Memory.cpp:281-299 | flushes a range into the update list; no byte changes under any assignment |
| `Memory.ObjectState.FlushRangeForWrite` | KleeSE/lib/klee/Core/Memory.cpp:301-329 | also drops the caches of the range; no byte changes under any assignment |
| `Memory.ObjectState.MarkByteFlushed` | KleeSE/lib/klee/Core/Memory.cpp:359-365 | without a mask it marks every byte, with one it marks one |
| `Memory.ObjectState.Read8` | KleeSE/lib/klee/Core/Memory.cpp:381-392 | the expression read evaluates, under every assignment, to the byte, which reading does not change |
| `Memory.ObjectState.Read8Symbolic` | KleeSE/lib/klee/Core/Memory.cpp:394-409 | as Read8, at the offset the assignment gives, wherever that is in bounds |
| `Memory.ObjectState.Write8Concrete` | KleeSE/lib/klee/Core/Memory.cpp:411-418 | one byte becomes the value, all others stay, under every assignment |
| `Memory.ObjectState.Write8` | KleeSE/lib/klee/Core/Memory.cpp:420-430 | one byte becomes the value of the expression, all others stay, under every assignment |
| `Memory.ObjectState.Write8Symbolic` | KleeSE/lib/klee/Core/Memory.cpp:432-447 | under every assignment the byte at the offset's value, if it is in bounds, and no other changes |
| `ObjectCache.FlushForReadKeeps` | KleeSE/lib/klee/Core/Memory.cpp:281-299 | flushing one byte keeps the three cache invariants and every byte's value |
| `ObjectCache.FlushForWriteKeeps` | KleeSE/lib/klee/Core/Memory.cpp:301-329 | so does flushing it for a write, which also forgets its cached forms |
| `ObjectCache.WriteKnownOk` | KleeSE/lib/klee/Core/Memory.cpp:420-430 | caching an expression as a byte's value keeps the invariants and changes that byte only |
| `ObjectCache.WriteConcreteOk` | KleeSE/lib/klee/Core/Memory.cpp:411-418 | so does storing a concrete value |
| `ObjectCache.ExtendOk` | KleeSE/lib/klee/Core/Memory.cpp:432-447 | laying a symbolic write over flushed bytes changes exactly the byte that its index evaluates to |
| `ObjectCache.RebuildOk` | KleeSE/lib/klee/Core/Memory.cpp:181-230 | a constant array filled by the oldest constant writes, with the remaining writes over it, stands for the same bytes as the whole list over zeros |
| `ObjectCache.ReadAtSymbolic` | KleeSE/lib/klee/Core/Memory.cpp:394-409 | a read expression at a symbolic index evaluates to the byte it addresses |
| `BitArrays.BitArray.Set` | KleeSE/include/klee/util/BitArray.h:35 | sets one bit of the packed words and no other |
| `BitArrays.BitArray.Unset` | KleeSE/include/klee/util/BitArray.h:36 | clears one bit of the packed words and no other |
| `BitArrays.BitArray.Copy` | KleeSE/include/klee/util/BitArray.h:29-31 | a copy agrees on every bit |
| `WideAccess.WriteThenRead` | KleeSE/lib/klee/Core/Memory.cpp:451-578 | for one bit and any whole number of bytes, either byte order, constant and in-bounds symbolic offsets, a read after a write evaluates to what was written; all other bytes keep their value, except the rest of a boolean's byte |
| `WideAccess.Write` | KleeSE/lib/klee/Core/Memory.cpp:496-521 | under every assignment the byte i places above the address becomes byte i of the value, counted from its lowest byte on a little-endian target and from its highest on a big-endian one; all other bytes keep their value |
| `WideAccess.Read` | KleeSE/lib/klee/Core/Memory.cpp:451-476 | under every assignment byte i of the value, counted from the lowest byte on a little-endian target and from the highest on a big-endian one, is the byte i places above the address; no byte of the memory changes |
| `WideAccess.WriteWord` | KleeSE/lib/klee/Core/Memory.cpp:556-578 | the 16, 32 and 64 bit paths store the bytes of the word, the lowest at the lowest address on a little-endian target and at the highest on a big-endian one |
| `WideAccess.WriteAt` | KleeSE/lib/klee/Core/Memory.cpp:523-554 | writes at a constant offset, constants through the fast paths, store the bytes of the value by address in the same order |
| `WideAccess.ReadAt` | KleeSE/lib/klee/Core/Memory.cpp:478-494 | reads at a constant offset put the bytes together by address in the same order |
| `WideAccess.SumNeverConst` | KleeSE/lib/klee/Expr/Expr.cpp:716-780 | adding a constant to a canonical sum, or subtracting one from a constant, never folds to a constant |
| `Dereferences.OffsetValue` | KleeSE/lib/klee/Core/Memory.h:111-134 | where a pointer lies in an object, its 32-bit offset is the distance from the object's start |
| `Dereferences.ResolvedOffset` | KleeSE/lib/klee/Core/Memory.h:111-134 | a canonical pointer that may lie in an object has an offset that wide accesses accept: constant and in bounds, or symbolic and canonical |
| `Dereferences.Load` | KleeSE/lib/klee/Core/Memory.cpp:451-476 | reading through a resolved pointer gives, wherever the pointer lies in the object, the bytes from its address on, the lowest of the value first on a little-endian target and last on a big-endian one, and changes none |
| `Dereferences.Store` | KleeSE/lib/klee/Core/Memory.cpp:496-521 | writing through a resolved pointer stores, wherever it lies in the object, the bytes of the value from its address on, the lowest first on a little-endian target and last on a big-endian one, and changes no other |
| `ExprBuilder.ReadSound` | KleeSE/lib/klee/Expr/Expr.cpp:516-555 | ReadExpr::create skips and answers from writes only where the value is unchanged |
| `ExprBuilder.SelectSound` | KleeSE/lib/klee/Expr/Expr.cpp:557-586 | SelectExpr::create keeps the value of the choice |
| `ExprBuilder.ConcatSound` | KleeSE/lib/klee/Expr/Expr.cpp:588-612 | ConcatExpr::create, merging adjacent extracts, keeps the value |
| `ExprBuilder.ExtractSound` | KleeSE/lib/klee/Expr/Expr.cpp:640-668 | ExtractExpr::create, pushed through concatenations, keeps the value |
| `ExprBuilder.SplitAndJoin` | KleeSE/lib/klee/Expr/Expr.cpp:588-668 | the two parts of a term, cut anywhere, join to the term itself again, and a concatenation cut at its seam gives back its operands |
| `ExprBuilder.ZExtSound` | KleeSE/lib/klee/Expr/Expr.cpp:680-691 | ZExtExpr::create keeps the value, and truncates to a smaller width |
| `ExprBuilder.AddConstSound` | KleeSE/lib/klee/Expr/Expr.cpp:716-734 | adding a constant, folded into linear terms, keeps the value modulo the width |
| `ExprBuilder.SubConstSound` | KleeSE/lib/klee/Expr/Expr.cpp:764-780 | subtracting from a constant, folded into linear terms, keeps the value modulo the width |
| `ExprBuilder.SubFromSound` | KleeSE/lib/klee/Expr/Expr.cpp:782-786 | subtracting a constant keeps the value modulo the width |
| `ExprBuilder.AndSound` | KleeSE/lib/klee/Expr/Expr.cpp:840-854 | AndExpr::create keeps the value |
| `ExprBuilder.OrSound` | KleeSE/lib/klee/Expr/Expr.cpp:856-870 | OrExpr::create keeps the value |
| `ExprBuilder.EqConstSound` | KleeSE/lib/klee/Expr/Expr.cpp:1045-1120 | comparing with a constant, pushed through booleans, extensions and linear terms, keeps the truth value |
| `ExprBuilder.EqSound` | KleeSE/lib/klee/Expr/Expr.cpp:1005-1016 | EqExpr::create keeps the truth value |
| `ExprBuilder.UltSound` | KleeSE/lib/klee/Expr/Expr.cpp:1145-1152 | UltExpr::create keeps the truth value |
| `ExprBuilder.UgeSound` | KleeSE/lib/klee/Expr/Expr.cpp:1134-1136 | UgeExpr::create keeps the truth value |
| `Constructors.AddSound` | KleeSE/lib/klee/Expr/Expr.cpp:736-762 | AddExpr::create of any two terms, which moves constants to the left, keeps the sum modulo the width |
| `Constructors.SubSound` | KleeSE/lib/klee/Expr/Expr.cpp:782-812 | SubExpr::create of any two terms keeps the difference modulo the width |
| `Constructors.MulSound` | KleeSE/lib/klee/Expr/Expr.cpp:814-838 | MulExpr::create keeps the product modulo the width |
| `Constructors.XorSound` | KleeSE/lib/klee/Expr/Expr.cpp:872-887 | XorExpr::create keeps the value |
| `Constructors.OneBitFormSound` | KleeSE/lib/klee/Expr/Expr.cpp:889-943 | on booleans division, remainder, shifts and signed comparisons keep their value as the conjunctions and disjunctions they become |
| `Constructors.BinSound` | KleeSE/lib/klee/Expr/Expr.cpp:889-1003 | the create function of every binary expression builds a term of the same width and value as the plain node |
| `Constructors.FoldsArithmetic` | KleeSE/lib/klee/Expr/Expr.cpp:736-887 | a difference of equal terms folds to zero, and a left operand of zero, or for products of one, leaves one of the operands of a sum, a product or an exclusive or |
| `Constructors.FoldsLogic` | KleeSE/lib/klee/Expr/Expr.cpp:840-1016 | a term compared with itself folds to true, and a constant left operand of all zeros or all ones decides a conjunction or disjunction or leaves the other operand |
| `Constructors.FoldsConstants` | KleeSE/lib/klee/Expr/Expr.cpp:706-1016 | every binary operation on two constants folds to a constant |
| `Constructors.SExtSound` | KleeSE/lib/klee/Expr/Expr.cpp:693-704 | SExtExpr::create keeps the value, and truncates to a smaller width |
| `Constructors.RebuildSound` | KleeSE/lib/klee/Expr/ExprVisitor.cpp:98-118 | a node of any kind rebuilt over operands of equal value has the value it had |
| `Expressions.SignedValue` | KleeSE/lib/klee/Expr/Expr.cpp:461-467 | a word is the bits of its signed value, which is negative exactly if the highest bit is set and lies in the signed range of the width |
| `Expressions.SignExtended` | KleeSE/lib/klee/Expr/Expr.cpp:373-375 | sign extension keeps the signed value |
| `Expressions.Truncates` | KleeSE/lib/klee/Expr/Expr.cpp:397-407 | signed division truncates toward zero: the remainder is smaller than the divisor and has the sign of the dividend |
| `Words.ToNatNot` | KleeSE/lib/klee/Expr/Expr.cpp:433-435 | the complement of a word counts down from the highest word |
| `Constraints.ReplaceSound` | KleeSE/lib/klee/Expr/Constraints.cpp:31-53 | replacing one expression by another all over a third keeps its value wherever the two are equal |
| `Constraints.LookupSound` | KleeSE/lib/klee/Expr/Constraints.cpp:104-121 | what the constraints say about an expression, its constant in an equation or the constant true, is its value wherever they hold |
| `Constraints.SimplifySound` | KleeSE/lib/klee/Expr/Constraints.cpp:100-123 | simplifying by the constraints already known keeps the value wherever they hold, for every depth of visiting rebuilt terms again |
| `Constraints.KnownIsUsed` | KleeSE/lib/klee/Expr/Constraints.cpp:100-123 | a term that the constraints equate with a constant becomes the constant of the first such equation, a constraint already known becomes true, if no part of the term is simplified first |
| `Constraints.RewriteHolds` | KleeSE/lib/klee/Expr/Constraints.cpp:75-94 | rewriting all constraints by an equality, adding changed ones anew, keeps what they mean together wherever the equality holds |
| `Constraints.AddInternalHolds` | KleeSE/lib/klee/Expr/Constraints.cpp:125-163 | splitting conjunctions, dropping the constant true and rewriting by equalities gives exactly the conjunction with the new constraint |
| `Constraints.AddConstraintHolds` | KleeSE/lib/klee/Expr/Constraints.cpp:165-168 | a simplified and added constraint leaves exactly the assignments that satisfy the path and the constraint |
| `Constraints.NeverFalse` | KleeSE/lib/klee/Expr/Constraints.cpp:129-132 | the assertion on a false constraint cannot fail where some assignment satisfies the path and the new constraint |
| `Constraints.ConstraintManager.AddConstraint` | KleeSE/lib/klee/Expr/Constraints.cpp:165-168 | the manager's list becomes the one described, and holds exactly where the old one and the new constraint do |
| `Constraints.ConstraintManager.RewriteConstraints` | KleeSE/lib/klee/Expr/Constraints.cpp:75-94 | every constraint is rewritten in order; reports a change exactly if one of them came out different |
| `ExecutionStates.ExecutionState.Merge` | KleeSE/lib/klee/Core/ExecutionState.cpp:187-346 | succeeds if and only if the program counters, the symbolics, the stack heights, the call site and function of every frame, and the bound objects are equal; a failed merge changes nothing; a merged state continues where either would: its program counter, symbolics and every frame but for the registers are those of both; after a success, where no read-only object differs, as the code asserts, the constraints hold exactly where one of the two did, and memory and registers are the first state's where its constraints hold and the second's elsewhere where those of the second hold |
| `ExecutionStates.CompareStacks` | KleeSE/lib/klee/Core/ExecutionState.cpp:197-211 | the stacks compare equal if and only if they have the same height and every frame the same call site and function |
| `ExecutionStates.ExecutionState.MergeMemory` | KleeSE/lib/klee/Core/ExecutionState.cpp:322-337 | every byte of every mutated object becomes the choice between the two memories, and no other space changes |
| `ExecutionStates.MergeObject` | KleeSE/lib/klee/Core/ExecutionState.cpp:324-336 | one mutated object, made private and rewritten byte by byte, is the first memory's object where the condition holds and the second's elsewhere |
| `ExecutionStates.MergeStacks` | KleeSE/lib/klee/Core/ExecutionState.cpp:303-320 | a register with a value on both sides becomes the choice between the two; one without keeps the first state's entry |
| `ExecutionStates.RegistersMean` | KleeSE/lib/klee/Core/ExecutionState.cpp:303-320 | what a merged stack means: a register with a value on both sides evaluates as that of the path taken, others are the first state's |
| `ExecutionStates.MergePaths` | KleeSE/lib/klee/Core/ExecutionState.cpp:292-343 | common constraints and the disjunction of the rests, simplified and rewritten as they are added, hold exactly where one of the two paths does; the first rest tells them apart |
| `ExecutionStates.ExecutionState.ReadOnlyAgree` | KleeSE/lib/klee/Core/ExecutionState.cpp:322-337 | the assertion that a mutated object is writable holds while read-only objects are shared by all spaces that bind them, which every run of the memory keeps |
| `ExecutionStates.UnionOfPaths` | KleeSE/lib/klee/Core/ExecutionState.cpp:211-227 | a path is its common part and its rest |
| `ExecutionStates.Conjunction` | KleeSE/lib/klee/Core/ExecutionState.cpp:292-299 | the conjunction built over a suffix holds exactly where all its members do |
| `ExecutionStates.ExecutionState.Branch` | KleeSE/lib/klee/Core/ExecutionState.cpp:126-137 | both sides see the same memory in spaces of their own, and the weights are equal and add up to the old weight |
| `ExecutionStates.ExecutionState.PopFrame` | KleeSE/lib/klee/Core/ExecutionState.cpp:143-149 | exactly the frame and the bindings of its stack objects disappear |
| `Resolution.Resolve` | KleeSE/lib/klee/Core/AddressSpace.cpp:163-286 | an answer reported complete lists exactly the feasible objects, each once; otherwise only feasible ones; with a budget of four queries an object and one more, only reaching a cap of 2 or more makes the answer incomplete, such a cap is kept, and a cap of 1 is kept if and only if at most one object is feasible |
| `Resolution.ResolveIn` | KleeSE/lib/klee/Core/AddressSpace.cpp:163-286 | on an address space whose objects do not overlap, a complete answer holds the pairs of exactly the bound objects the address may lie in |
| `Resolution.InAddressOrder` | KleeSE/lib/klee/Core/AddressSpace.h:30-34 | the map iterates over its objects by ascending address |
| `Resolution.ResolveOne` | KleeSE/lib/klee/Core/AddressSpace.cpp:73-161 | with budget enough, or whenever it answers, reports success if and only if some object may contain the address, and then reports one that may |
| `Resolution.ResolveConstant` | KleeSE/lib/klee/Core/AddressSpace.cpp:54-71 | finds the one object that contains a constant address, if there is one |
| `Resolution.SearchDown` | KleeSE/lib/klee/Core/AddressSpace.cpp:206-246 | the search below the example lists exactly the feasible objects there, or stops at an object the address must lie in |
| `Resolution.SearchUp` | KleeSE/lib/klee/Core/AddressSpace.cpp:248-282 | the search above it completes the list |
| `Resolution.BoundsCheckSound` | KleeSE/lib/klee/Core/Memory.h:111-134 | the unsigned comparison of the wrapped offset holds exactly for addresses of the object, zero-size objects included |
| `Resolution.CapOfOneFails` | KleeSE/lib/klee/Core/AddressSpace.cpp:227-236 | a run of resolve with a cap of 1, every query answered, that ends complete with two entries |
| `Resolution.AlwaysExcludes` | KleeSE/lib/klee/Core/AddressSpace.cpp:227-236 | if an object must contain the address no other may, so the fast path is exact |
| `ControlChannel.Run` | stubs/openvpn/ssl.c:3123-3277 | from initialisation, any sequence of processing calls and received control packets keeps the sessions well formed, never hands the lame duck session to tls_process, and yields a trace in which every call changes the sessions exactly as stated |
| `ControlChannel.StepMovesKeys` | stubs/openvpn/ssl.c:2710-3277 | between two states of a run a primary key moves on in rank with its exchanges extended, is renewed by a key in S_INITIAL once it can decrypt, fails and starts afresh, or is the promoted one of the untrusted session |
| `ControlChannel.RankOverRun` | stubs/openvpn/ssl.c:2710-3277 | over any stretch of a run without renewal, failure or promotion of a session its primary key is the same and its role-dependent rank never decreases |
| `ControlChannel.BetweenCalls` | stubs/openvpn/ssl.c:2730-2733 | between calls the active session's primary key is neither undefined nor in error, every retiring key in use has an expiry, the two keys of a session have different ids, and an active key has sent and received key material in the order of its role |
| `ControlChannel.TlsMulti.TlsMultiProcess` | stubs/openvpn/ssl.c:3123-3277 | every session is visited, failed and restarted exactly when one of its turns fails, goes on with the key that its turns make, or is promoted, as reported; soft errors are counted once per failing session, a hard error exactly if the active session failed and neither of its keys nor the retiring one of the lame duck is active; the lame duck session becomes the failed active one if that has an active retiring key and sessions are not single, is otherwise the old one, and either way is cleared exactly at its expiry; no session able to decrypt stays untrusted |
| `ControlChannel.TlsMulti.VisitSession` | stubs/openvpn/ssl.c:3144-3216 | a session is handed to tls_process only with a live key and a peer address; a failed one starts afresh; exactly a failed active session with an active retiring key, where sessions are not single, takes the place of the lame duck session, which otherwise stays as it was |
| `ControlChannel.TlsMulti.TlsPreDecrypt` | stubs/openvpn/ssl.c:3414-3760 | exactly the receiving session is touched, and its state afterwards is determined: a soft reset happens exactly for an authentic request on a key that can decrypt, a first packet names the peer; sessions and soft errors are counted exactly |
| `ControlChannel.TlsMulti.Route` | stubs/openvpn/ssl.c:3464-3626 | finds the receiver of a packet; nothing changes but a note of the sender's address in a session that an authentic first packet opens, or that the active session takes before it has a peer |
| `ControlChannel.TlsMulti.Accept` | stubs/openvpn/ssl.c:3630-3707 | the assertions on the state of the key hold, and the session is as the packet demands |
| `ControlChannel.DeliveryMovesKey` | stubs/openvpn/ssl.c:3630-3707 | a delivered packet names its sender as the peer, and renews the key exactly if it asks for that and the peer's key material has been received |
| `ControlChannel.StrangersCannotReachActive` | stubs/openvpn/ssl.c:3454-3625 | only authentic packets reach a session; once the active session has a peer, only packets with that session id and address reach it; the untrusted one is reached by its own peer, or by a first packet of the other role once the active session has a peer |
| `ControlChannel.FirstPacketOpens` | stubs/openvpn/ssl.c:3464-3626 | an authentic first packet of the other role and our version reaches a session without a peer, the active one if it has none, unless sessions are single and taken; any other hard reset reaches none |
| `ControlChannel.TlsProcess` | stubs/openvpn/ssl.c:2716-3110 | the primary key ends in S_ERROR if and only if one of the turns visited fails, and is otherwise exactly the key, history included, that the turns make of the one at entry: it has moved only forward, has sent its first packet, and if it is not active its deadline lies ahead; the retiring key is the one the soft reset or expiry leaves |
| `ControlChannel.Negotiate` | stubs/openvpn/ssl.c:2716-3060 | with an environment that holds nothing back for three turns, a client's and a server's key in S_INITIAL are both active after one call, each having sent and received its key message in the order of its role |
| `ControlChannel.AwaitedMovesUp` | stubs/openvpn/ssl.c:2781-3012 | a turn before the deadline that brings what a key waits for in its state does not fail and takes the key at least one state up |
| `ControlChannel.HandshakeSteps` | stubs/openvpn/ssl.c:2781-2881 | times out exactly when its deadline has passed, and otherwise sends its first packet and moves exactly as buffers and acknowledgements allow |
| `ControlChannel.KeySteps` | stubs/openvpn/ssl.c:2954-3012 | a key message is sent and received exactly in the order of the role, and a failure of either is an error |
| `ControlChannel.OneTurn` | stubs/openvpn/ssl.c:2760-3055 | fails if and only if negotiation is late or, short of sending a packet, an input, output or key message fails; otherwise the key, with its state, deadline and history of key messages, is exactly the one that greeting and key exchange make of it, and the turn repeats exactly while something changed |
| `ControlChannel.AtEntryIsLive` | stubs/openvpn/ssl.c:2735-2758 | renewal and expiry at entry keep the session well formed |
| `ControlChannel.AtEntryRenews` | stubs/openvpn/ssl.c:2735-2758 | a key is renewed exactly when it is active and time, bytes, packets or packet ids run out; it then retires for the transition window and its successor keeps the peer; otherwise only an expired retiring key goes |
| `ControlChannel.KeyStateInit` | stubs/openvpn/ssl.c:902-932 | a new primary key takes the session's next id and initial opcode |
| `ControlChannel.KeyStateSoftReset` | stubs/openvpn/ssl.c:2111-2123 | the primary key retires with an expiry, and its successor keeps the peer |
| `ControlChannel.RenewedIsLive` | stubs/openvpn/ssl.c:2111-2123 | after a soft reset the primary and the retiring key have different ids |
| `ControlChannel.NextKeyIdDiffers` | stubs/openvpn/ssl.c:924-932 | with at least two bits the next key id differs and is never 0 |
| `ControlChannel.SessionInit` | stubs/openvpn/ssl.c:1074-1124 | a new session has an id, an initial key numbered 0 and no peer |
| `ControlChannel.LameDuckMustDie` | stubs/openvpn/ssl.c:1227-1252 | a retiring key dies exactly at its expiry; the assertion that it has one holds |
| `ControlChannel.TlsMulti.MoveSession` | stubs/openvpn/ssl.c:1174-1196 | the destination becomes the source, which starts afresh |
| `KeyExchange.Agree` | stubs/openvpn/ssl.c:1790-1869 | two peers that know each other's session ids accept or reject together, hold equal key blocks, and each encrypts with the implicit IV the other decrypts with |
| `KeyExchange.Exchange` | stubs/openvpn/ssl.c:2023-2088 | after the two key messages both peers hold equal source material, each half of it the bytes that the random source of its side gave, the server's without a pre-master secret |
| `KeyExchange.SameMaterial` | stubs/openvpn/ssl.c:2023-2088 | reading a written message gives back the material and leaves nothing over |
| `KeyExchange.SameDerived` | stubs/openvpn/ssl.c:1854-1858 | equal material and crossed session ids give equal blocks and crossed implicit IVs |
| `KeyExchange.Peer.RandomizeWrite` | stubs/openvpn/ssl.c:2023-2054 | fails exactly for lack of room, and otherwise its own material and the message are the bytes that the random source gives in order, with the pre-master secret on the client only |
| `KeyExchange.Peer.Read` | stubs/openvpn/ssl.c:2056-2088 | fails exactly on a short message; the other side's pre-master secret, on a server, and the two random parts are those bytes of the message in order, and the rest is left over |
| `KeyExchange.Peer.GenerateDataChannelKeys` | stubs/openvpn/ssl.c:1929-1956 | works once and only for acceptable keys, and erases the material in any case; the block is the key expansion of the master secret, seeded with both random parts and the session ids, the client's always first, and a peer encrypts with its own half and decrypts with the other's |
| `KeyExchange.OpenvpnPrf` | stubs/openvpn/ssl.c:1744-1783 | the PRF of the concatenated label, seeds and session ids |
| `PseudoRandom.TlsPHash` | stubs/openvpn/ssl.c:1620-1687 | writes exactly the first bytes of the infinite stream of section 5 of RFC 2246, for every length |
| `PseudoRandom.TlsPrf` | stubs/openvpn/ssl.c:1707-1742 | computes the PRF of section 5 of RFC 2246 for every secret length, odd ones with the shared middle byte included |
| `PseudoRandom.PrfPrefix` | stubs/openvpn/ssl.c:1707-1742 | a shorter output is a prefix of a longer one |
| `PseudoRandom.BlockIsStream` | stubs/openvpn/ssl.c:1657-1680 | each digest is the next block of the stream |
| `PseudoRandom.HalvesCover` | stubs/openvpn/ssl.c:1722-1725 | the two halves cover the secret and overlap exactly in the middle byte of an odd one |
| `ControlDependence.ControlDependenceGraph.ComputeDependencies` | lib/CFG/CFG.cpp:81-163 | a block is a child, on a kind of edge, of exactly those blocks with a successor of that kind that it postdominates while it does not strictly postdominate the block; the root's children are the postdominators of the entry; parents mirror children |
| `ControlDependence.ControlDependenceGraph.ChildrenByBranch` | lib/CFG/CFG.cpp:65-79 | of a conditional block the true children are exactly the blocks that postdominate its first successor and do not strictly postdominate it, the false children those of a different second successor, and there are no other children; a block without a condition has other children only, by any of its successors |
| `PostDominators.PostDomTreeExists` | lib/CFG/CFG.cpp:81-163 | every control flow graph whose blocks all lead to an exit has a postdominator tree as ComputeDependencies asks for |
| `PostDominators.Comparable` | lib/CFG/CFG.cpp:120-147 | the postdominators of a block form a chain |
| `ControlDependence.ControlDependenceGraph.RootChildren` | lib/CFG/CFG.cpp:154-162 | the root's children are exactly the postdominators of the entry |
| `ControlDependence.ControlDependenceGraph.AddEdge` | lib/CFG/CFG.cpp:94-151 | one edge contributes the tree ancestors of its target that are not ancestors of its source, and the source if it is one of them |
| `ControlDependence.ControlDependenceGraph.AddAncestors` | lib/CFG/CFG.cpp:128-147 | the walk to the nearest common ancestor visits exactly the ancestors of the target alone |
| `ControlDependence.ControlDependenceGraph.AddParent` | lib/CFG/CFG.cpp:24-28 | adds the parent; that the node is a child already, which the code asserts, is proved at every call |
| `ControlDependence.NothingAdded` | lib/CFG/CFG.cpp:102-104 | an edge to another postdominator contributes nothing |
| `ControlDependence.ControlDependenceGraph.LinkByMeaning` | lib/CFG/CFG.cpp:94-151 | the tree's answer for an edge is control dependence by paths |
| `ControlDependence.ControlDependenceGraph.Controls` | lib/CFG/CFG.cpp:293-303 | ends for every block reachable from the entry; is true exactly for members of the chain of sole parents; if true, every chain of dependences from the root passes through the block |
| `ControlDependence.ControlDependenceGraph.SoleParentOnPath` | lib/CFG/CFG.cpp:293-303 | a sole parent other than the root lies earlier on every path from the entry, which is why the walk ends |
| `ControlDependence.ControlDependenceGraph.DoesInfluence` | lib/CFG/CFG.cpp:306-342 | true exactly if the one block is reached from the other by one or more parent edges |
| `Graphs.Influences` | lib/CFG/CFG.cpp:306-342 | the worklist search decides reachability by one or more edges and ends on every finite graph |
| `Graphs.FindAPath` | lib/FSMExtractor/FSMExtractor.cpp:233-284 | true exactly if a path of at least one edge leads to the goal with every later node in the loop and none its header; ends on every finite graph |
| `Graphs.ClosedHolds` | lib/CFG/CFG.cpp:322-340 | a set closed under edges that contains the successors of a node contains all it reaches |
| `CallPaths.CallPathManager.GetSummaryStatistics` | KleeSE/lib/klee/Core/CallPathManager.cpp:56-74 | for every key the statistics of all nodes with an ancestor-or-self of that key, each once, and the calls of its nodes; every node's summary is that of its subtree, the root's grows from call to call |
| `CallPaths.CallPathManager.GetCallPath` | KleeSE/lib/klee/Core/CallPathManager.cpp:88-102 | the same call leads to the same node ever after, a recursive one to an ancestor, and no key ever repeats on a chain |
| `CallPaths.CallPathManager.FramePushed` | KleeSE/lib/klee/Core/StatsTracker.cpp:368-380 | a call counts once, at the node its path leads to; what is recorded of every other node stays |
| `CallPaths.CallPathManager.ComputeCallPath` | KleeSE/lib/klee/Core/CallPathManager.cpp:76-85 | the nearest ancestor with the key, or else exactly one new child |
| `CallPaths.KeyOncePerChain` | KleeSE/lib/klee/Core/CallPathManager.cpp:76-85 | on a chain a key belongs to at most one node |
| `CallPaths.ExtendKeeps` | KleeSE/lib/klee/Core/CallPathManager.cpp:76-85 | a new child whose key no ancestor has keeps the tree folded and cached |
| `CallPaths.UnderStep` | KleeSE/lib/klee/Core/CallPathManager.cpp:64-73 | adding one node's sum to its key counts no node twice, because the key is folded |
| `CallPaths.HandOver` | KleeSE/lib/klee/Core/CallPathManager.cpp:66-68 | handing sums to parents in reverse order of creation gives every node its subtree |
| `CallPaths.CountNode` | KleeSE/lib/klee/Core/CallPathManager.cpp:64-73 | one round of the loop keeps the table right for the nodes seen so far |
| `ImpliedValues.ImpliedSound` | KleeSE/lib/klee/Core/ImpliedValue.cpp:28-187 | every pair produced from an equation with a solution holds in all its solutions |
| `ImpliedValues.GetImpliedValues` | KleeSE/lib/klee/Core/ImpliedValue.cpp:28-187 | appends exactly the implied pairs; the two assertions in it hold |
| `ImpliedValues.ImpliedAgree` | KleeSE/lib/klee/Core/ImpliedValue.cpp:200-209 | two pairs for one read agree |
| `ImpliedValues.StepHolds` | KleeSE/lib/klee/Core/ImpliedValue.cpp:31-187 | every equation the walk goes on to holds wherever the one before does |
| `ImpliedValues.BinStepHolds` | KleeSE/lib/klee/Core/ImpliedValue.cpp:100-181 | so for addition, subtraction, exclusive or, conjunction, disjunction and equality |
| `ImpliedValues.InvertibleComplete` | KleeSE/lib/klee/Core/ImpliedValue.cpp:74-100 | every byte of an expression built by invertible steps is found |
| `ImpliedValues.JunctionComplete` | KleeSE/lib/klee/Core/ImpliedValue.cpp:125-181 | what a true conjunction, a false disjunction and an equation with a constant imply of their operands is found |
| `ImpliedValues.SelectStepExact` | KleeSE/lib/klee/Core/ImpliedValue.cpp:52-72 | the step through a select between constants is right exactly if their values differ or the condition can only be true |
| `ImpliedValues.EqualBranchesUnsound` | KleeSE/lib/klee/Core/ImpliedValue.cpp:52-72 | an input with equal constants, told apart by pointer, for which a false pair is inferred |
| `ImpliedValues.CreateSelectDistinct` | KleeSE/lib/klee/Expr/Expr.cpp:557-586 | SelectExpr::create builds no select between equal constants, whatever the width |
| `Strtol.Strtol` | KleeSE/runtime/klee-libc/strtol.c:60-134 | the number that section 7.20.1.4 of ISO C99 describes, clamped to the range of long with ERANGE exactly if clamped, and the end just past the last digit; no conversion without digits after the prefix |
| `Strtol.Strtoul` | KleeSE/runtime/klee-libc/strtoul.c:57-112 | the same against the unsigned limit, a minus sign negating modulo one more than it |
| `Strtol.ReadDigits` | KleeSE/runtime/klee-libc/strtol.c:101-124 | reads the maximal run of digits; no intermediate value exceeds the limit, and overflow is noticed exactly |
| `Strtol.ReadPrefix` | KleeSE/runtime/klee-libc/strtol.c:60-82 | finds white space, sign, prefix and base |
| `Strtol.Characters` | KleeSE/runtime/klee-libc/strtol.c:101-114 | which value every digit and letter has, in either case, and which characters are white space |
| `Strtol.Cutoff` | KleeSE/runtime/klee-libc/strtol.c:84-124 | comparing with quotient and remainder of the limit is comparing with the limit |
| `Strtol.ResultUnique` | KleeSE/runtime/klee-libc/strtol.c:60-134 | the text determines the result |
| `Strtol.UnsignedResultUnique` | KleeSE/runtime/klee-libc/strtoul.c:57-112 | the text determines the unsigned result |
| `Strtol.StandardExact` | KleeSE/runtime/klee-libc/strtol.c:72-82 | the result is that of section 7.20.1.4 of ISO C99 exactly if the text has no prefix without a hexadecimal digit after it, where the standard reads a zero |
| `Strtol.UnsignedStandardExact` | KleeSE/runtime/klee-libc/strtoul.c:69-79 | the same for strtoul: the standard's result exactly if the text has no bare prefix |
| `Strtol.BareZeroX` | KleeSE/runtime/klee-libc/strtol.c:72-82 | the input 0x, for which both functions find no number and the standard reads a zero |
| `Strtol.PrintThenRead` | KleeSE/runtime/klee-libc/strtol.c:60-134 | reading a printed long in any base gives it back whole |
| `KTests.RoundTrip` | KleeSE/lib/klee/Basic/KTest.cpp:94-216 | what the writer writes the reader reads back, with the current version, consuming every byte |
| `KTests.SampleFile` | KleeSE/lib/klee/Basic/KTest.cpp:178-216 | the bytes of a written file from the magic to the last object |
| `KTests.NoPrefixParses` | KleeSE/lib/klee/Basic/KTest.cpp:94-216 | no proper prefix of a written file can be read |
| `KTests.DecodeCut` | KleeSE/lib/klee/Basic/KTest.cpp:94-155 | on a cut file the reader fails exactly where it would have read on |
| `KTests.File.ToFile` | KleeSE/lib/klee/Basic/KTest.cpp:178-216 | succeeds exactly without empty strings and objects, and then the file holds the encoding |
| `KTests.File.FromFile` | KleeSE/lib/klee/Basic/KTest.cpp:94-155 | reads what the format says or fails, older versions included |
| `KTests.OlderFilesRead` | KleeSE/lib/klee/Basic/KTest.cpp:94-155 | a file of any version up to the current one, with either magic, is read as what it holds; before version 2 there are no symbolic arguments |
| `KTests.WordRead` | KleeSE/lib/klee/Basic/KTest.cpp:25-40 | four bytes written big-endian are read back as the same word |
| `KTests.HighestFirst` | KleeSE/lib/klee/Basic/KTest.cpp:34-40 | a written word has its highest byte first |
| `KTests.StringsRead` | KleeSE/lib/klee/Basic/KTest.cpp:42-62 | strings are read back one by one |

## Left out

- CopyOnWrite.World.Run: which objects are read-only is fixed for a run; the executor marks external objects when it sets them up, and the line that would mark constant globals is commented out. A write to one does nothing, where the executor ends the path.
- WideAccess.Write: a symbolic offset must be canonical, so that adding a byte number to it cannot fold to a constant, as the assertion in `read8` and `write8` demands; `Dereferences.ResolvedOffset` shows that resolved pointers have such offsets.
- Constraints.ConstraintManager.AddConstraint: how deep rebuilt terms are visited again and changed constraints added again is bounded by a parameter, because nothing in the code bounds it; every result holds for every bound. A constraint that comes out as false stays in the list, where the code stops.
- ExecutionStates.ExecutionState.Merge: the order in which common constraints are added is arbitrary.
- Resolution.Resolve: time-outs and unanswered queries share one budget.
- ImpliedValues.GetImpliedValues: the source passes a null value for a false disjunction; the zero constant of that width is modelled. `Ne` is not canonical and not modelled, and neither is `checkForImpliedValues`, which repeats the work with a solver.
- ControlChannel.TlsMulti.TlsPreDecrypt: the data packet half, the reliability layer behind an accepted packet, and wake-up times are not modelled.
- ControlChannel.TlsProcess: what the buffers of the TLS object and the reliability layer hold is chosen by the environment in every turn; the loop ends when the environment is idle.
- KeyExchange.Agree: digests, key fix-up, key checks and the bytes of the random source are parameters; of the cipher contexts only the implicit IVs are modelled.
- CallPaths.CallPathManager.GetSummaryStatistics: a statistics record is one unbounded number.
- KTests.File.ToFile: errors of the file system and of memory allocation.
- Strtol.Strtol: the C locale; `LONG_MAX` and `ULONG_MAX` are parameters.
- The constants of OpenVPN's headers are not part of this model: key states are ordered as `state_name` lists them, key ids have two or more bits, and a key can decrypt from `S_GOT_KEY` on, on a server from `S_SENT_KEY` on.
- Nodes of the control dependence graph and of the call path tree are numbers into the sequences of their graph, and the sessions and keys of OpenVPN, which the code copies as structures, are values in fields; aliasing of pointers into them is not modelled.
- Epochs and reference counts are unbounded, so an epoch never wraps around.
- `copyInConcretes` and `copyOutConcretes`, which write concrete bytes behind the caches.
- The options for constant arrays and for equality over constant arrays, which are off by default.
- Division by zero has no value in KLEE; here the quotient is the dividend and the remainder zero, which is what the constructors for booleans build.
- `insertRegions` is never called. The pass's collection of conditions, LLVM's instruction decoding and the printing are not modelled.
- Certificates, passwords, management, logging, sockets and packet authentication of OpenVPN, beyond whether a packet is authentic.
