# Verified models of the algorithms in the notebook

This project models the algorithms of the repository in Dafny and proves what they are for.

- `CasStack.dfy`, `CasCode.dfy`, `Aba.dfy`, `Reuse.dfy`, `RunCas.dfy`, `RunDrain.dfy`, `RunWork.dfy` — the
  linked stack moved by compare-and-swap (`bench.c` and `aba.c`). `CasStack` is one transition system for both files: any number of threads,
  one step per load, store and CAS, weak CASes that may fail spuriously, and a log of the successful
  CASes. `CasCode` holds the retry loops as code over shared fields, interrupted before any
  access by whatever the other threads do. `Aba` is the node reuse of `aba.c`, `Reuse` which runs with reuse
  stay right. `RunCas` is the whole program
  `run_cas`: producers, consumers, the node pool, the counters and the join order.
  `RunDrain` is what it leaves on the stack, `RunWork` how long it takes.
- `MutexQueue.dfy`, `MutexRun.dfy` — the mutex and condition-variable ring buffer of `run_mutex`: the
  ring itself, and the protocol with one `signal` per operation and spurious wake-ups.
- `SpscRing.dfy` — the single-producer single-consumer ring of the shared-memory note, on a memory model
  in which the other side's index may be stale and a plain slot read may return any write not known to
  have been replaced.
- `AvlTree.dfy`, `Avl.dfy` — the AVL tree as a value, and the Python classes as linked nodes updated in place.
- `HeapOrder.dfy`, `HeapCode.dfy` — the 1-based array heap of node pointers.
- `Dfs.dfy` — the recursive and the explicit-stack traversal.
- `StringSearch.dfy`, `Itoa.dfy` — the string searches and `itoa`.
- `TopK.dfy` — `fast_partial_sort`.
- `CopyText.dfy` — `escape_for_copy` and the TEXT rows it feeds.
- `Tally.dfy`, `Items.dfy`, `Modular.dfy`, `Permute.dfy`, `Wrappers.dfy` — sums over threads, the benchmark's
  items, ring positions, sequences as multisets, `Option`.

The number of threads, items, slots and nodes is a parameter everywhere. The concurrent programs are
transition systems over their steps (`Do`, `Step`); the theorems quantify over every schedule. The code
that works in place on a struct (`CasCode.Stack`, `MutexQueue.Queue`, `SpscRing.RingQueue`,
`HeapCode.Heap`, `Avl.Vertex`, `Dfs.Search`, `CopyText.EscapeForCopy`) is a class or a method over
arrays, proved against a specification function whose own properties are proved as lemmas.

## Findings

- **Draining.** `run_cas` can end with items still on the stack, because a consumer looks at the stack
  before it looks at `cas_done` (`RunCas.TheStackNeedNotBeDrained`). `RunDrain.WhatIsLeft` says exactly
  what is left: the nodes whose push CAS succeeded after the last load of an empty top. So the stack is
  drained if and only if no push CAS succeeds after that load, for instance whenever a consumer loads
  an empty top after `cas_done` was stored. Without consumers every item is left.
- **Node reuse.** A run, with any amount of node reuse, keeps memory equal to the stack that its successful
  CASes replay to at every moment if and only if no pop CAS succeeds with a `next` that is no longer the
  node's `next` (`Reuse.ReuseIsRightIff`). One discipline rules such a pop out: no node is pushed again
  while a pop that loaded it is unfinished (`CasStack.Careful`, `Reuse.CarefulRunsHaveNoStalePop`). It is
  not necessary: pushing the popped node straight back does no harm, and with k > 0 new nodes pushed
  before it the stack is wrong (`Aba.AbaUnlinksTheNewNodes`). From every open window a run that pushes new
  nodes and then the loaded one breaks the stack (`Aba.CarelessPushBreaksTheStack`).
- **Equal children.** `heappop` stops at a node whose two children are equal and smaller, so equal keys can
  break the heap (`HeapOrder.EqualChildrenBreakTheHeap`). `HeapOrder.PopOrderIff` and
  `HeapOrder.TiesAreTheOnlyTrouble` say exactly when.
- **Wide keys.** `left` and `right` are `int` while keys are `long`, so distinct keys that do not fit in an
  `int` can break the heap too: a smaller child whose key is 2^31 - 1 is not seen
  (`HeapOrder.WideKeyHidesASmallerChild`), and the truncated comparison can lift the larger child
  (`HeapOrder.WideKeyPicksTheLargerChild`). `HeapOrder.PopOrderIff` covers them.
- **Freeing.** `heap_free` reads past the array once the heap is more than half full
  (`HeapCode.FreeStaysInBounds` is an if-and-only-if).
- **Initialising.** `heap_init` compares where it should assign, so the heap is well formed if and only if the
  memory it got happens to hold NULL in every slot (`HeapCode.Heap.constructor`).
- **Empty buffer.** `escape_for_copy` writes within `dst_size` if and only if it is not 0; with 0 it still
  writes the NUL to `dst[0]` (`CopyText.EscapeForCopy`).
- `bruteforce` searches for its second parameter in its first, whatever the names say; called like
  `boyer_moore`, by position, it gives the same answer.

## Model

| member | source | states |
|---|---|---|
| CasStack.StepInv | C/멀티쓰레드 동기화 벤치마크/bench.c:98-119 | every step of every thread keeps the invariant: the log of successful CASes replays as a LIFO stack, memory is exactly that stack as an acyclic chain, no node held by a thread is on it, and each thread's locals are still right, provided no node is pushed again inside an open pop |
| CasStack.CarefulRunsAreLifo | C/멀티쓰레드 동기화 벤치마크/bench.c:98-119 | linearizability: the invariant holds after every careful schedule of any number of threads |
| CasStack.LegalLog | C/멀티쓰레드 동기화 벤치마크/bench.c:109-119 | in such a log each pop took the node that was then on top and left the rest, and each "empty" answer was given when the stack was empty |
| CasStack.PushCasKeepsStack | C/멀티쓰레드 동기화 벤치마크/bench.c:102-105 | a successful push CAS puts exactly the pushed node on top of the abstract stack and of the chain |
| CasStack.PopCasKeepsStack | C/멀티쓰레드 동기화 벤치마크/bench.c:111-115 | a successful pop CAS removes exactly the abstract top, and the chain is the rest |
| CasStack.StepWindows | C/cas/aba.c:28-39 | no step makes a thread push a node that another thread has loaded in an unfinished pop |
| CasStack.ValuesConserved | C/멀티쓰레드 동기화 벤치마크/bench.c:98-119 | the values pushed are the values popped plus the values on the stack, as multisets |
| CasStack.StepRetryInv | C/멀티쓰레드 동기화 벤치마크/bench.c:102-105 | each genuine CAS failure of a thread is paid for by a success of another thread since its load of top |
| CasStack.FailuresAreBounded | C/멀티쓰레드 동기화 벤치마크/bench.c:111-115 | in every run, node reuse included, all genuine failures together are at most (threads - 1) times all successes, and each thread's are at most the others' successes |
| CasCode.OthersAreRelied | C/cas/aba.c:20-51 | whatever schedule the other threads run, a thread's place, nodes and log entries are untouched, no pop opens on its nodes, and top changes only by a logged success |
| CasCode.Stack.Interfere | C/cas/aba.c:28-39 | between two accesses of a thread the other threads run any schedule; what the thread relies on is kept |
| CasCode.Stack.LoadTop | C/멀티쓰레드 동기화 벤치마크/bench.c:103 | the load at the head of a loop is one step of the transition system |
| CasCode.Stack.StoreNext | C/멀티쓰레드 동기화 벤치마크/bench.c:104 | the write of the new node's next is one step |
| CasCode.Stack.LoadNext | C/멀티쓰레드 동기화 벤치마크/bench.c:114 | the read of the loaded node's next is one step |
| CasCode.Stack.CompareExchange | C/멀티쓰레드 동기화 벤치마크/bench.c:105 | the weak CAS is one step; it succeeds only on the expected top, and may fail spuriously |
| CasCode.Stack.Push | C/cas/aba.c:20-26 | the loop ends once interruptions end, and however it is interrupted it logs exactly one event for its thread: the push of its node |
| CasCode.Stack.CasPush | C/멀티쓰레드 동기화 벤치마크/bench.c:98-105 | a node fresh from the pool is pushed exactly once |
| CasCode.Stack.Pop | C/멀티쓰레드 동기화 벤치마크/bench.c:109-118 | the loop logs exactly one event: the pop of the node it returns, which the thread then owns, or the sight of an empty stack |
| Aba.ReuseInWindow | C/cas/aba.c:64-78 | from any state with t1 before its CAS and t2 holding the loaded node, pushing k new nodes and that node lets t1's CAS succeed and sets top to what t1 had read |
| Aba.CarelessPushBreaksTheStack | C/cas/aba.c:68-75 | from any state where t2 could push a node that t1 has loaded in an unfinished pop, whether or not t1 has read its next, that push is one the discipline forbids, and pushing k > 0 new nodes and then that one leaves memory that is not the stack its successful CASes replay to |
| Reuse.StepExact | C/cas/aba.c:28-39 | with any reuse so far, one more step leaves memory equal to the stack of the log if and only if it is not a pop CAS that succeeds with an out-of-date next |
| Reuse.RightIffNoStalePop | C/cas/aba.c:20-51 | for every schedule from any sound state, careful or not: memory is at every moment the stack its successful CASes replay to if and only if no pop CAS succeeds with an out-of-date next |
| Reuse.ReuseIsRightIff | C/cas/aba.c:20-78 | the same for every run of any number of threads from the empty stack |
| Reuse.CarefulRunsHaveNoStalePop | C/cas/aba.c:28-39 | the discipline is sufficient: careful runs have no such pop |
| Aba.AbaUnlinksTheNewNodes | C/cas/aba.c:56-78 | from any chain A, rest and for any k: t1's CAS succeeds, the chain is rest, the k new nodes are on no chain and held by nobody, and the stack is right if and only if k is 0 |
| RunCas.StepShape | C/멀티쓰레드 동기화 벤치마크/bench.c:121-140 | every move of every producer, consumer and the main thread keeps each thread where its program says, and is a careful step of the stack |
| RunCas.StepPoppedStayOut | C/멀티쓰레드 동기화 벤치마크/bench.c:89-96 | a node once popped belongs to a consumer for ever |
| RunCas.PoppedNodesNeverReturn | C/멀티쓰레드 동기화 벤치마크/bench.c:89-96 | a popped node is never top and never on the chain again, in any continuation |
| RunCas.PublishedNodesNeverChange | C/멀티쓰레드 동기화 벤치마크/bench.c:98-107 | a published node has a next, and keeps it and its val in any continuation |
| RunCas.PoolIsLargeEnough | C/멀티쓰레드 동기화 벤치마크/bench.c:93-96 | the pool index never exceeds producers times items, which is 16 less than the pool size |
| RunCas.StepCounts | C/멀티쓰레드 동기화 벤치마크/bench.c:106 | at every moment push_count and pop_count trail the successful CASes by exactly the threads between their CAS and their counter |
| RunCas.StepValues | C/멀티쓰레드 동기화 벤치마크/bench.c:116 | at every moment the values published are the items whose push succeeded, and the values popped are those read plus those pending |
| RunCas.StepPhases | C/멀티쓰레드 동기화 벤치마크/bench.c:206-209 | cas_done is stored only after every producer returned, no consumer is gone before it is stored, and a stack seen empty after that stays empty |
| RunCas.LeavesIff | C/멀티쓰레드 동기화 벤치마크/bench.c:132-138 | over every move, a consumer leaves exactly when it looks at cas_done after an empty pop and finds it set, and goes round again exactly when it finds it unset |
| RunCas.EndOfRun | C/멀티쓰레드 동기화 벤치마크/bench.c:187-222 | at the end of every run the pool gave out one node per item, the printed counters are exact, items consumed plus items on the chain are the items produced, and as values exactly the p * 1000 + i of every producer p and item i, so the printed total falls short exactly by what is on the chain, and the chain is empty when some consumer saw an empty top after cas_done |
| RunDrain.StepLooked | C/멀티쓰레드 동기화 벤치마크/bench.c:128-140 | at every moment the last thing that a consumer about to look at cas_done, or gone, did to the stack was to load an empty top |
| RunDrain.WhatIsLeft | C/멀티쓰레드 동기화 벤치마크/bench.c:132-138 | at the end of every run the chain is exactly the nodes whose push succeeded after the last load of an empty top, newest first; it is empty if and only if nothing was pushed after that load; with consumers there is such a load, and without any every item is left |
| RunDrain.ConsumersLeavePromptly | C/멀티쓰레드 동기화 벤치마크/bench.c:132-138 | in every run no consumer is gone before cas_done is stored, and after that none finds the stack empty twice |
| RunCas.TheStackNeedNotBeDrained | C/멀티쓰레드 동기화 벤치마크/bench.c:132-138 | a run of one producer, one consumer and one item that ends with the item on the stack |
| RunCas.RetriesAreBounded | C/멀티쓰레드 동기화 벤치마크/bench.c:187-222 | over a whole run genuine CAS failures are at most (threads - 1) times push_count plus pop_count |
| RunWork.StepIsCounted | C/멀티쓰레드 동기화 벤치마크/bench.c:98-140 | every move adds one step to a count made of the threads' places, the counted pops, the looks at an empty stack and the CAS failures |
| RunWork.LengthOfRun | C/멀티쓰레드 동기화 벤치마크/bench.c:187-222 | a finished run has exactly 6 P K + P + 2 steps, 6 for each pop, 3 for each look at an empty stack and 3 for each failed CAS, genuine or spurious |
| RunWork.RunsAreBounded | C/멀티쓰레드 동기화 벤치마크/bench.c:187-222 | any run, finished or not, has at most 12 P K + P + 5 C + 6 (P + C - 1) P K + 2 steps plus three for each look at an empty stack and each spurious failure, so only busy waiting and spurious failures can keep it going |
| MutexQueue.PutAppends | C/멀티쓰레드 동기화 벤치마크/bench.c:43-45 | filling the slot at tail appends to the contents and overwrites nothing held |
| MutexQueue.TakeDropsOldest | C/멀티쓰레드 동기화 벤치마크/bench.c:63-64 | advancing head drops exactly the oldest item |
| MutexQueue.Queue.constructor | C/멀티쓰레드 동기화 벤치마크/bench.c:29-34 | an empty, well-formed ring |
| MutexQueue.Queue.Put | C/멀티쓰레드 동기화 벤치마크/bench.c:43-45 | the producer's critical section on the struct appends the item |
| MutexQueue.Queue.Take | C/멀티쓰레드 동기화 벤치마크/bench.c:63-64 | the consumer's critical section on the struct drops the oldest item |
| MutexRun.StepShape | C/멀티쓰레드 동기화 벤치마크/bench.c:36-70 | mutual exclusion and the ring invariant: tail is head plus count modulo the size, count is between 0 and the size, a filling thread has a free slot and a taking thread an item, done means all producers returned |
| MutexRun.StepAwake | C/멀티쓰레드 동기화 벤치마크/bench.c:41-46 | no lost wake-up: while a consumer sleeps every item has a consumer awake for it or a signal still owed, and while a producer sleeps every free slot has a producer or a signal |
| MutexRun.NoDeadlock | C/멀티쓰레드 동기화 벤치마크/bench.c:36-70 | with at least one consumer and one slot, some thread can step without a spurious wake-up until the main thread has joined everybody |
| MutexRun.StepFifo | C/멀티쓰레드 동기화 벤치마크/bench.c:43-64 | items are released in the order they were put, and the ring holds exactly the rest |
| MutexRun.StepTotals | C/멀티쓰레드 동기화 벤치마크/bench.c:38-67 | the items put are the first ones of each producer, and takes equal the consumers' counts plus those not counted yet |
| MutexRun.StepWorks | C/멀티쓰레드 동기화 벤치마크/bench.c:36-70 | every step uses up work, and a spurious wake-up adds at most a constant |
| MutexRun.RunsAreBounded | C/멀티쓰레드 동기화 벤치마크/bench.c:154-182 | a run has at most 14 P K + 5 C + 6 steps plus three for each spurious wake-up |
| MutexRun.EndOfRun | C/멀티쓰레드 동기화 벤치마크/bench.c:169-182 | a run that cannot go on has joined everybody, the summed counts are producers times items, every item was put and released in the same order, the values being exactly the p * 1000 + i of every producer p and item i, and the buffer is empty |
| SpscRing.MaskIsMod | C/cas/공유메모리 + 락프리 원형큐.md:20 | masking with 2^k - 1 is the remainder modulo 2^k |
| SpscRing.NextIndexIsNextSlot | C/cas/공유메모리 + 락프리 원형큐.md:20 | for every power-of-two N up to 2^32 the masked uint32_t increment is the next slot |
| SpscRing.PushFailsOnlyWhenFull | C/cas/공유메모리 + 락프리 원형큐.md:22-23 | after its load of head, stale or not, push gives up exactly when that version leaves N - 1 items unread, and otherwise goes on to write its item |
| SpscRing.PopFailsOnlyWhenEmpty | C/cas/공유메모리 + 락프리 원형큐.md:33-34 | after its load of tail, stale or not, pop gives up exactly when that version equals the pops so far, and otherwise goes on to read |
| SpscRing.ReadIsTheDueItem | C/cas/공유메모리 + 락프리 원형큐.md:36 | the only write the consumer's plain read can return is the item due next |
| SpscRing.DueItemIsReadable | C/cas/공유메모리 + 락프리 원형큐.md:36 | that read always finds a written slot |
| SpscRing.NoUnreadSlotIsOverwritten | C/cas/공유메모리 + 락프리 원형큐.md:25 | when the producer writes a slot, every older item of that slot has been popped and the producer has acquired that fact |
| SpscRing.RunGood | C/cas/공유메모리 + 락프리 원형큐.md:18-40 | every interleaving keeps the indices, the views and the items consistent |
| SpscRing.PoppedIsAPrefixOfPushed | C/cas/공유메모리 + 락프리 원형큐.md:15-40 | for every interleaving and every power-of-two N, the items popped are a prefix of the items pushed, and at most N - 1 are held |
| SpscRing.PushCall | C/cas/공유메모리 + 락프리 원형큐.md:18-28 | a whole call of push, with any head it may load, pushes exactly its item, or nothing exactly when that head leaves N - 1 items unread |
| SpscRing.PopCall | C/cas/공유메모리 + 락프리 원형큐.md:30-39 | a whole call of pop, with any tail it may load, pops exactly the oldest unread item, or nothing exactly when that tail is the number popped |
| SpscRing.RingQueue.Push | C/cas/공유메모리 + 락프리 원형큐.md:18-28 | on the struct: fails exactly when the next tail is the head seen; with a current head, exactly at N - 1 items, and otherwise appends |
| SpscRing.RingQueue.Pop | C/cas/공유메모리 + 락프리 원형큐.md:30-39 | on the struct: fails exactly when head is the tail seen; with a current tail, exactly when empty, and otherwise returns and drops the oldest item |
| AvlTree.Balance | 자료구조 구현/트리/AVL/avltree.py:32-41 | never lifts a missing child, and keeps every cached height true |
| AvlTree.BalanceRepairs | 자료구조 구현/트리/AVL/avltree.py:32-41 | repairs any node with balanced subtrees whose heights differ by at most two, lowers it by at most one, and leaves a balanced node alone |
| AvlTree.BalanceKeepsInorder | 자료구조 구현/트리/AVL/avltree.py:46-60 | rotations move no key in the in-order list |
| AvlTree.PutBalanced | 자료구조 구현/트리/AVL/avltree.py:19-29 | one put keeps the tree balanced and raises it by at most one |
| AvlTree.PutInserts | 자료구조 구현/트리/AVL/avltree.py:19-29 | in order, put is insertion into the ascending list of keys |
| AvlTree.InsertAdds | 자료구조 구현/트리/AVL/avltree.py:22-27 | that insertion keeps strict order and adds exactly the key |
| AvlTree.PutDuplicate | 자료구조 구현/트리/AVL/avltree.py:26-29 | a key already present changes nothing, cached heights included |
| AvlTree.BalancedIsLarge | 자료구조 구현/트리/AVL/avltree.py:32-41 | a balanced tree of height h has at least Fib(h + 2) - 1 keys |
| AvlTree.ReachableTrees | 자료구조 구현/트리/AVL/avltree.py:16-29 | every tree reachable by puts has true cached heights, is balanced, and holds exactly the keys put, strictly ascending |
| AvlTree.PutIsLogarithmic | 자료구조 구현/트리/AVL/avltree.py:19-29 | in every reachable tree, two to half the depth of the recursion below put_item is at most the number of keys plus one; Avl.PutItem returns that count of its activations |
| Avl.LeftTurnOf | 자료구조 구현/트리/AVL/avltree.py:46-52 | the pointer rotation computes the left turn of the tree below the node |
| Avl.RightTurnOf | 자료구조 구현/트리/AVL/avltree.py:54-60 | the pointer rotation computes the right turn |
| Avl.BalanceOf | 자료구조 구현/트리/AVL/avltree.py:32-41 | on linked nodes, the balanced tree, built from the nodes of the old one |
| Avl.PutItem | 자료구조 구현/트리/AVL/avltree.py:19-29 | on linked nodes, the recursive put, with no sharing and only fresh nodes added, in exactly the counted number of activations |
| Avl.Avl.Put | 자료구조 구현/트리/AVL/avltree.py:16-17 | keeps the tree sorted, balanced and truly cached; the key list gets exactly the key, a duplicate leaves the tree as it was, and put_item is entered logarithmically often in the number of keys |
| HeapOrder.PushAddsTheNode | 자료구조 구현/heap.c:39-58 | heappush conserves the nodes and adds the new one |
| HeapOrder.PopRemovesTheRoot | 자료구조 구현/heap.c:59-95 | heappop conserves the nodes and removes the root |
| HeapOrder.PushKeepsOrder | 자료구조 구현/heap.c:48-57 | heappush keeps heap order, equal keys included |
| HeapOrder.PushSettles | 자료구조 구현/heap.c:48-57 | the new node ends at the root or below a strictly smaller parent |
| HeapOrder.PopOrderIff | 자료구조 구현/heap.c:74-93 | heappop keeps heap order if and only if every choice on the sinking node's way down is right, for all keys, those that do not fit in an int included |
| HeapOrder.ChosenIs | 자료구조 구현/heap.c:75-86 | for all keys: one smaller child moves up unless it reads as INT_MAX, of two the one that reads as the smaller int, and none when they read alike |
| HeapOrder.TiesAreTheOnlyTrouble | 자료구조 구현/heap.c:80-86 | for keys that fit in an int the choices are right exactly when the sinking node meets no two equal smaller children |
| HeapOrder.PopKeepsOrder | 자료구조 구현/heap.c:59-95 | heappop keeps heap order for distinct int-range keys |
| HeapOrder.EqualChildrenBreakTheHeap | 자료구조 구현/heap.c:80-86 | pushing 1, 2, 2, 3 and popping once leaves 3 at the root above a 2 |
| HeapOrder.WideKeyHidesASmallerChild | 자료구조 구현/heap.c:75-86 | pushing the distinct keys 1, 2^31 - 1, 2^35 and popping once leaves 2^35 at the root above 2^31 - 1 |
| HeapOrder.WideKeyPicksTheLargerChild | 자료구조 구현/heap.c:75-86 | pushing 1, 2, 2^32 + 1, 2^32 + 2 and popping once leaves 2^32 + 1 at the root above 2 |
| HeapOrder.DrainAscends | 자료구조 구현/heap.c:59-95 | popping a heap of distinct int-range keys until it is empty gives all keys in ascending order |
| HeapOrder.PushThenDrain | 자료구조 구현/heap.c:39-95 | pushing distinct int-range keys and popping as many gives them in ascending order, none missing |
| HeapOrder.DrainKeepsKeys | 자료구조 구현/heap.c:59-95 | popping any heap until it is empty, ordered or not, returns each key as often as it is held |
| HeapOrder.StaysOrderedIff | 자료구조 구현/heap.c:74-93 | for int-range keys the heap is in order before every pop of a whole drain if and only if no pop meets two equal smaller children |
| HeapOrder.PushThenDrainAll | 자료구조 구현/heap.c:39-95 | pushing any keys and popping as many loses and invents none; int-range keys come out non-descending when no pop meets such a tie |
| HeapCode.Heap.constructor | 자료구조 구현/heap.c:21-28 | takes any memory and leaves its slots as they are; the heap is well formed, and then empty, if and only if every slot is NULL |
| HeapCode.Heap.HeapPush | 자료구조 구현/heap.c:39-58 | on the array: slot i is non-NULL exactly for 1 <= i < cnt, the nodes are those of the specification, order is kept, and no freed node is live |
| HeapCode.Heap.ChooseChild | 자료구조 구현/heap.c:75-86 | the comparisons pick the child of the specification, int conversion and bounds tests included |
| HeapCode.Heap.HeapPop | 자료구조 구현/heap.c:59-95 | on the array: -1 and no change when empty; otherwise the root's key, which is least if the heap was ordered, the root freed, and the nodes of the specification left |
| HeapCode.PushAllThenPopAll | 자료구조 구현/heap.c:39-95 | on the array: up to MAX - 1 pushes of any keys and as many pops return each key as often as it was pushed and leave the heap empty, and distinct int keys come out in ascending order |
| HeapCode.EverySlotFreedOnce | 자료구조 구현/heap.c:29-34 | the post-order recursion from slot 1 frees each live slot exactly once and no other |
| HeapCode.PostOrderIsChildrenFirst | 자료구조 구현/heap.c:29-34 | no slot is freed before one below it, nor a right child before its left sibling |
| HeapCode.FreeStaysInBounds | 자료구조 구현/heap.c:29-38 | its reads stay inside the array if and only if the heap is empty or twice the count fits |
| HeapCode.Heap.NodeFreePost | 자료구조 구현/heap.c:29-34 | frees the nodes of the subtree in post-order, each array read in bounds |
| HeapCode.Heap.HeapFree | 자료구조 구현/heap.c:35-38 | frees exactly the live nodes, and no node is ever freed twice |
| Dfs.Search.DFS | 2022/0818_dfs.md:30-35 | on the visited array and the result list, the recursive traversal; called with nothing visited, its result is the one traversal of the matrix (IsTraversal) |
| Dfs.RestOfPush | 2022/0818_dfs.md:71-76 | going down to a neighbour and coming back leaves the same work as the recursive call |
| Dfs.RestOfPop | 2022/0818_dfs.md:77-78 | going back leaves the same work when no neighbour is left |
| Dfs.IterativeDFS | 2022/0818_dfs.md:65-78 | the explicit-stack loop ends, and its result is the recursive program's and the one traversal of the matrix, for every matrix and start |
| Dfs.VisitLists | 2022/0818_dfs.md:30-35 | a traversal lists exactly the vertices it visits, once each |
| Dfs.VisitCloses | 2022/0818_dfs.md:33-35 | every neighbour of a newly visited vertex is visited |
| Dfs.ResultIsReachable | 2022/0818_dfs.md:48-53 | the result lists exactly once each vertex that a walk along entries equal to 1 reaches, the start first |
| Dfs.VisitIsDepthFirst | 2022/0818_dfs.md:33-35 | each vertex listed is the least unlisted one with a 1 in the row of the last listed vertex that has any |
| Dfs.VisitIsTraversal | 2022/0818_dfs.md:30-53 | the result, stated on the matrix alone: start first, no repeats, exactly the reachable vertices, closed under entries equal to 1, in depth-first order |
| Dfs.TraversalIsUnique | 2022/0818_dfs.md:30-53 | there is only one such list |
| StringSearch.PreProcess | 2022/0812_string.md:130-137 | the table gives, for each character before the last place, its last distance from the end |
| StringSearch.SkipIsSafe | 2022/0812_string.md:155 | no skip jumps over a match |
| StringSearch.BoyerMoore | 2022/0812_string.md:140-156 | ends, and returns the leftmost match or -1, empty pattern included: the text is before + pattern + rest at the answer, and for no shorter before |
| StringSearch.BruteForce | 2022/0812_string.md:87-97 | returns the leftmost place where the second argument occurs in the first, or -1, in the same terms |
| StringSearch.Agree | 2022/0812_string.md:87-156 | the two programs agree on the same arguments in the same positions |
| Itoa.ItoA | 2022/0812_string.md:62-77 | the loop builds the decimal text |
| Itoa.TextReadsBack | 2022/0812_string.md:62-77 | reading the text back as signed decimal gives the number, with a minus sign exactly for negative numbers and no leading zero |
| Itoa.TextIsDecimal | 2022/0812_string.md:62-77 | the text is the decimal one: single digits stand for themselves, a further digit is appended to the text of the number before it, and a minus sign is put in front |
| TopK.SortSorts | python/nlargest구현.md:44 | the reference: a descending arrangement of the same elements |
| TopK.DescendingIsUnique | python/nlargest구현.md:33 | there is only one |
| TopK.RootIsKth | python/nlargest구현.md:24 | the root of the heap is the k-th largest element seen |
| TopK.TooSmall | python/nlargest구현.md:28 | an element not above the root leaves the k largest as they are |
| TopK.TakesRoot | python/nlargest구현.md:28-30 | a larger one takes the root's place among the k largest |
| TopK.FastPartialSort | python/nlargest구현.md:7-34 | for every K and every input, duplicates and short inputs included: K elements or all there are, descending, together with a rest they are the input, and no element of the rest is larger; equal to the first K of the descending sort |
| CopyText.EscapeForCopy | C/libpq/libpq copy.md:29-51 | writes the full escape of the longest prefix that fits and a NUL, and touches nothing after it; all of it lies within dst_size if and only if dst_size is not 0; the C string left in dst unescapes to a prefix of the source, and to all of it when dst_size is at least twice the length plus one |
| CopyText.FitsIsLongest | C/libpq/libpq copy.md:38-45 | no longer prefix would have fitted |
| CopyText.RoomForAll | C/libpq/libpq copy.md:34-49 | a buffer of twice the length plus one takes the whole string |
| CopyText.UnescapeUndoesEscape | C/libpq/libpq copy.md:39-41 | undoing the escapes gives the string back |
| CopyText.EscapeIsClean | C/libpq/libpq copy.md:9-15 | escaped text holds no raw tab or newline and is never `\N` or `\.` |
| CopyText.EscapeByCharacter | C/libpq/libpq copy.md:39-47 | a backslash becomes two backslashes, a tab a backslash and t, a newline a backslash and n, and every other character itself, each in its place |
| CopyText.NullColumns | C/libpq/libpq copy.md:14 | in the text of a row, the column between its tabs is `\N` if and only if the field is NULL, and otherwise the escaped field |
| CopyText.RowReadsBack | C/libpq/libpq copy.md:114 | a tab-separated row reads back, NULL columns included, stays on one line and is not the end marker |
| CopyText.RowsReadBack | C/libpq/libpq copy.md:105-120 | any rows of any fields written one after the other read back as they were |
| CopyText.EndMarkerEnds | C/libpq/libpq copy.md:15 | the reader stops at a line that is `\.`, whatever follows |

## Left out

- CasStack.FailuresAreBounded: is an upper bound; nothing is claimed about fairness between threads.
- CasCode.Stack.Push: ends because each interruption is taken from a finite list; without that a loop can be starved, as lock-free loops can.
- RunCas.EndOfRun: is about finished runs; the consumers' busy waiting has no bound, and `RunWork.RunsAreBounded` bounds the rest.
- SpscRing.RingQueue.Push: the struct is moved by one call at a time, with the head it loaded as an argument; interleaving and stale loads are in the transition system.
- CopyText.EscapeForCopy: sizes are unbounded, so a dst_size within two of SIZE_MAX, where j + 2 would wrap, is not modelled.
- TopK.FastPartialSort: heapify, heapreplace and sort are used by their contracts, on integers; ties between unequal objects do not arise.
- Dfs.Search.DFS: Python's recursion limit is not modelled.
- RunCas and MutexRun: item values and counters are unbounded integers; the constants of bench.c stay below 2^31.
- Weak memory in bench.c: its atomics are sequentially consistent, so steps interleave; in aba.c the plain load of top is one step of the same system.
- CopyText.RowsReadBack: the reader is the one of the note's table; a raw carriage return in a field, and the other escapes COPY knows, are not considered.
- pop_adaptive and the futex sleep: the producer's wake-up is not shown in the note.
- heappeak and heapcnt: one-line reads.
- TaggedPtr in aba.c: declared, never used.
- The CSV variant of COPY, snprintf truncation of a row, and the libpq calls.
- KMP in the string note: described, no code.
- Timing, printing, thread creation, argument parsing and the interactive input of the scripts.
- Sockets, Kafka, Django, nethogs, inotify, SIMD and perf notes, SQL answers and front-end exercises: I/O, library plumbing or prose.
- 자료구조 구현/queue/queue.c: append never sets next, so its behaviour depends on the allocator.
