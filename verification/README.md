# A verified model of an OHIE-style parallel blockchain node

The repository implements a proof-of-work node that runs many chains in parallel. Strong blocks
extend the chains; weak blocks carry transactions and are cited by strong blocks. Ranks order the
blocks across chains. This project models the node's logic in Dafny and proves what its design relies
on.

**The block forest of one chain** (`ForestSpec`, `BlockTree`, `Genealogy`, `TreeOps`, `ForestView`,
`BlockForest`). Every block is a node in a binary search tree on hashes and, at the same time, in a
genealogy tree spelled by `parent`, `child` and `sibling`. Blocks arrive in any order; a block whose
parent is unknown goes to one of a linked list of incomplete trees, whose roots stand for missing
blocks. `BlockForest.Chain` updates all of this in place. Its specification is one function: the
forest is `Canon(R)`, where `R` is the set of blocks retained. The four-way case split of the receive
step computes that function, so the order of arrival does not matter. The class keeps, in every step,
that all trees are disjoint ordered search trees with one acyclic genealogy each, that exactly the
incomplete roots hold no data, and that the cached tip is a deepest block of the main tree.

**Asking for missing blocks** (`AskSchedule`, `AskBook`, `AncestorSync`). When roots are asked for and
given up, how far apart the asks of ticks are over any run, that no root is left unasked, which further
asks arrivals make, what a peer answers from its own trees, and how many rounds bring an incomplete
tree into the main tree.

**Weak blocks** (`WeakTree`, `WeakBooks`, `FullBlocks`, `WeakStore`). `WeakBooks` is a state machine
over the books: known, full and cited blocks, the table of missing blocks, the table of waiting
requests. Its run theorems give conservation, cite-once, and exactly when a block is known, full,
announced and asked for. Every operation
of `WeakStore.Store`, which works in place on search trees and maps, makes one step of that machine.

**Citations** (`Citations`, `Handlers`). A strong block cites weak blocks, and a citation is recorded
only if the block enters the main tree at its arrival. `Citations` runs one chain and the books
together and says exactly which weak blocks are marked and which are cited twice; the methods of
`Handlers` work on the chains of a node and its weak blocks in place and make the steps of that run.

**Ranks, the confirm bar and commit stamps** (`Ranks`, `CommitBooks`, `Confirm`). Ranks rise along
parent links. When tips move, the bar is kept exactly if no new deep block has a next rank below it,
and the part of the order below it is final exactly if the new tips descend from its last blocks;
both hold while no tip leaves the block `T_DISCARD` below it. `Confirm.Confirmations` stamps blocks in
place along parent links and refines the books of `CommitBooks`, whose run theorems say, across fork
switches, exactly when a block is stamped and with which time.

**Merkle proofs and headers** (`Merkle`, `Headers`). Loops over levels against a recursive tree;
completeness for every number of chains, and position binding up to an explicit collision. Every
header that a miner makes passes the check of a receiver. SHA-256 is any function whose results are 64
hexadecimal digits.

**The ping floods** (`PingFlood`, `LatencyFlood`). In diameter mode hop counts relax asynchronously to
shortest distances, with a decreasing measure; in latency mode every node forwards once.

**The wire** (`Tokens`, `Framing`, `Wire`). Stream framing is independent of how bytes are split into
reads, exactly when keys are fresh; block messages survive writing and reading under an exact
condition; together, blocks cross the wire unchanged.

**The random generator** (`Twister`). The in-place block reload of the Mersenne Twister refines the
plain recurrence; a saved state continues the same stream, and 624 numbers determine it.

Where the code works in place, the model is a class or a method whose contract ties the new state to
a function of the old one; the lemmas then speak about that function. A hash is assumed to fix the
block's parent, depth, chain and mining time. The code itself checks chain and parent of a strong
block, the parent through the Merkle proof; depth, ranks and times are taken from the message.

## Model

| member | source | states |
|---|---|---|
| ForestSpec.RootAfterReceive | code/data/Blockchain.cpp:375-406 | Receiving a block moves exactly the blocks that waited for it: their nearest missing ancestor becomes that of the new parent, every other one stays. |
| ForestSpec.RootAfterDrop | code/data/Blockchain.cpp:1008-1026 | Giving up one incomplete tree leaves the nearest missing ancestor of every other block unchanged. |
| ForestSpec.StepIsCanon | code/data/Blockchain.cpp:685-811 | The branches of a receive (duplicate, join the main tree, start, extend, re-root, merge) together compute the canonical forest over one more block, a function of the set of blocks alone. |
| ForestSpec.DropIsCanon | code/data/Blockchain.cpp:1008-1026 | Dropping an incomplete tree gives the canonical forest over the blocks that are left. |
| ForestSpec.ReachableIsCanon | code/data/Blockchain.cpp:685-811 | After any sequence of arrivals and expiries the forest is the canonical one over the blocks still retained. |
| ForestSpec.OrderIndependence | code/data/Blockchain.cpp:685-811 | Two arrival orders of the same set of blocks, duplicates included, end in the same forest: the canonical one, with one incomplete tree for each missing ancestor, holding exactly the blocks that wait for it. |
| ForestSpec.MainIsConnected | code/data/Blockchain.cpp:685-811 | In the canonical forest the main tree holds exactly the blocks whose parents lead to genesis through received blocks. |
| BlockTree.FindBlockByHash | code/data/Blockchain.cpp:36-47 | The lookup finds a node exactly when the hash is in the tree, and then the node of that hash. |
| BlockTree.OneHashOneNode | code/data/Blockchain.cpp:36-47 | An ordered tree holds at most one node of a hash, so the lookup is unambiguous. |
| BlockTree.InsertOneNode | code/data/Blockchain.cpp:97-124 | In place, the tree becomes the one with the node added, or stays as it is when the hash is there already; the root stays. |
| BlockTree.InsertBlockOnlyByHash | code/data/Blockchain.cpp:77-94 | A fresh, unlinked node of the hash enters the tree in place, an equal hash to the left, and nothing but `left`/`right` of old nodes is written. |
| BlockTree.InsertBelowNodes | code/data/Blockchain.cpp:77-94 | That insertion adds exactly the node, and for a new hash it is the ordered insertion. |
| BlockTree.InsertSubtreeByHash | code/data/Blockchain.cpp:127-142 | In place, the nodes of the second tree move into the first, a node whose hash is there already stays out; only `left` and `right` are written, so all genealogy links survive. |
| BlockTree.InsertOneNodes | code/data/Blockchain.cpp:97-124 | The order is kept; a new hash adds exactly one node, a known one changes nothing. |
| BlockTree.InsertAllNodes | code/data/Blockchain.cpp:127-142 | Grafting keeps the order and joins the hash sets; trees without a common hash keep the union of their nodes. |
| Genealogy.LastSibling | code/data/Blockchain.cpp:203-206 | The walk along `sibling` ends at the last child. |
| Genealogy.AppendChild | code/data/Blockchain.cpp:195-207 | The new node or tree becomes the last child of its parent, no other child list changes, and the links again form one tree. |
| Genealogy.AllUnderRoot | code/data/Blockchain.cpp:178-210 | From every node of a family the parent links lead to its root. |
| Genealogy.OneAncestorPerLevel | code/data/Blockchain.cpp:178-210 | A node has one ancestor at each depth: the parent links are acyclic and linear. |
| Genealogy.FindMaxDepth | code/data/Blockchain.cpp:552-567 | The recursive walk over children and siblings returns the leftmost of the deepest nodes of the subtree: among equals an earlier child wins. |
| Genealogy.FindNumberOfNodes | code/data/Blockchain.cpp:215-227 | The count over the genealogy is the number of nodes of the subtree. |
| BlockForest.Chain.NumberOfNodes | code/data/Blockchain.cpp:879-879 | Counted from the root, it is the number of nodes of the main search tree, and of the hashes of the main tree. |
| Genealogy.IndexAgreesWithGenealogy | code/data/Blockchain.cpp:36-47 | A hash is in the search tree, where the lookup finds it, exactly when steps along `child` and `sibling` lead from the root to a node of that hash. |
| TreeOps.AddBlockByParentHash | code/data/Blockchain.cpp:178-210 | It fails exactly when the parent is absent; otherwise the tree gains one node, in both structures, as last child of the parent, and no other child list changes. |
| TreeOps.Graft | code/data/Blockchain.cpp:381-403 | A whole tree moves below a node of another one; the result is one well-formed tree with the union of the nodes. |
| BlockForest.RemoveOneChain | code/data/Blockchain.cpp:257-280 | The list loses exactly the given cell and keeps the order of the others. |
| BlockForest.Chain.constructor | code/data/Blockchain.cpp:458-493 | A new chain is valid: genesis alone, stamped from the start, no incomplete tree. |
| BlockForest.Chain.IsIncompleteHash | code/data/Blockchain.cpp:283-295 | The cell whose missing block has the hash, or null exactly when there is none. |
| BlockForest.Chain.IsInIncomplete | code/data/Blockchain.cpp:298-312 | True exactly when the given parent is the block's own and the block is in an incomplete tree other than as its root, that is, was received before. |
| BlockForest.Chain.FindIncompleteBlock | code/data/Blockchain.cpp:315-329 | A node of the hash in some incomplete tree, or null exactly when no tree holds it. |
| BlockForest.Chain.FindCells | code/data/Blockchain.cpp:350-359 | The first cells whose trees hold the block and its parent, null exactly when there are none, and the last cell. |
| BlockForest.Chain.StartIncomplete | code/data/Blockchain.cpp:362-374 | Neither block nor parent known: a new two-node tree is appended. |
| BlockForest.Chain.ExtendIncomplete | code/data/Blockchain.cpp:375-378 | Only the parent known: its tree gains the block. |
| BlockForest.Chain.RerootIncomplete | code/data/Blockchain.cpp:379-389 | Only the block known, as a root: its tree gets the parent as new missing root, whose ask counters start from zero; all others keep theirs. |
| BlockForest.Chain.MergeIncomplete | code/data/Blockchain.cpp:390-408 | Both known: the two trees become one and one list cell disappears. |
| BlockForest.Chain.AddBlockToIncomplete | code/data/Blockchain.cpp:332-412 | The four-way case split makes the forest step of the specification, in place; only a new missing root starts its counters from zero. |
| BlockForest.Chain.HomeBranch | code/data/Blockchain.cpp:350-390 | The two lookups select the branch that the specification takes, and a block found in a tree without having been received is its root. |
| BlockForest.Chain.JoinMainTree | code/data/Blockchain.cpp:695-731 | The block, or the whole incomplete tree that waited for it, joins the main tree; the newly attached nodes are one subtree. |
| BlockForest.Chain.Store | code/data/Blockchain.cpp:733-757 | With the data stored, the forest is canonical again and exactly the incomplete roots have no data. |
| BlockForest.Chain.UpdateDeepest | code/data/Blockchain.cpp:759-764 | Although only the new subtree is scanned, the cache is again a deepest block of the whole main tree; it changes exactly when the new subtree is strictly deeper, and then to its leftmost deepest block. |
| BlockForest.Chain.StepOfReceive | code/data/Blockchain.cpp:685-811 | The step of a receive yields the canonical forest of the larger set, and changes nothing for a block received before. |
| BlockForest.Chain.LookupOfReceive | code/data/Blockchain.cpp:690-695 | The lookups in the main tree tell which blocks were received before. |
| BlockForest.Chain.AddReceivedBlock | code/data/Blockchain.cpp:685-811 | Keeps the whole invariant; forest and ask counters make the arrival step, so that every root that stays missing keeps its counters and a new one starts from zero; `added` is false exactly for a block received before, and the parent is asked for exactly when an added block has its parent outside the main tree. The main tree only grows, and new nodes have no stamps. |
| BlockForest.Chain.AddMinedBlock | code/data/Blockchain.cpp:995-1005 | A mined block on the deepest one joins the main tree and becomes the cached deepest block; invariant and ask counters are kept. |
| BlockForest.Chain.DropIncomplete | code/data/Blockchain.cpp:1017-1018 | The tree and exactly the blocks below it are given up; the invariant holds. |
| BlockForest.Chain.PollCell | code/data/Blockchain.cpp:1014-1021 | One list cell at a tick, by the clock alone: asked for at most the gap ago it is left as it is; otherwise its counter goes up by one, and it is asked for and stamped with now, or given up when the counter exceeds the limit. |
| BlockForest.Chain.GetIncompleteChainHashes | code/data/Blockchain.cpp:1008-1026 | Exactly the missing blocks that are due by the clock are asked for, each once and in list order, and get the time and one more count; exactly those over the limit are given up; all others keep their counters. Cells are unlinked during the walk; forest and counters make the tick step, and the invariant holds. |
| BlockForest.Chain.RootsAreKeys | code/data/Blockchain.cpp:283-295 | The list names every missing block of the forest exactly once. |
| AskSchedule.PollIsLocal | code/data/Blockchain.cpp:1008-1026 | A tick treats every incomplete tree alone. |
| AskSchedule.AskTimesAreTicks | code/data/Blockchain.cpp:1014-1021 | A tree is asked for only at ticks, in their order. |
| AskSchedule.AsksAreSpacedAndBounded | code/data/Blockchain.cpp:1014-1021 | One entry over ticks alone: under a clock that does not go back, two asks are more than the minimum gap apart, and there are at most as many as the limit leaves, for every limit below the largest 32-bit number. |
| AskBook.TickedIsPoll | code/data/Blockchain.cpp:1008-1026 | What a tick does to the list is what it does to the counters by root. |
| AskBook.KeepsOrAsks | code/data/Blockchain.cpp:332-412 | While a root is missing, arrivals and mined blocks leave its counters alone and ticks treat it by the schedule. |
| AskBook.DueRootIsAsked | code/data/Blockchain.cpp:1014-1021 | A missing block last asked for more than the gap ago is asked for by a tick, with new time and count, as long as the limit is not reached; at the limit it is given up; within the gap nothing changes. |
| AskBook.LateTickAsks | code/data/Blockchain.cpp:1014-1021 | Over any run: a tick more than the gap after the last tick that asked for a missing root asks for it again, or gives it up if `NO_ASKS_BEFORE_REMOVING` ticks did already. |
| AskBook.AskedOrGone | code/data/Blockchain.cpp:1008-1026 | No root is stranded: after one more late tick than the limit, however ticks and arrivals are mixed, it is missing no more: blocks arrived, or it was given up. |
| AskBook.TickAsksAreSpacedAndBounded | code/data/Blockchain.cpp:1008-1026 | Over any run of arrivals, mined blocks and ticks: from the moment a block becomes a missing root until it stops being one, the ticks that ask for it are more than the minimum gap apart and number at most `NO_ASKS_BEFORE_REMOVING`. Asks made on arrival are not among them. |
| AskBook.AsksOfARoot | code/network/process_buffer.cpp:219-238 | All asks for a root while it is missing: the tick asks are those of its schedule; the asks on arrival are one for each child it gains, the moment that child is first received, whatever the clock says; the rest are new blocks that name it as trailing. |
| AskBook.TwoSiblingsAskAtOnce | code/network/process_buffer.cpp:230-238 | Spacing fails for all asks together: any two new blocks with one missing parent, received in a row, ask for it twice with no tick between. |
| AskBook.GivenUpAfterLimit | code/data/Blockchain.cpp:1017-1018 | A tick gives up a missing root only after exactly `NO_ASKS_BEFORE_REMOVING` asks for it. |
| AskSchedule.LargestLimitNeverExpires | code/data/Blockchain.cpp:1016-1017 | With the largest 32-bit limit the wrapping counter never exceeds it, so nothing is removed. |
| AncestorSync.AskCount | code/network/requests.cpp:13-18 | The number asked for reaches from the missing block to the own depth, and is 1 when that is no number. |
| AncestorSync.AnswerAsk | code/network/process_buffer.cpp:118-136 | From its own trees, by lookup and parent links, a node sends exactly the block and its next ancestors as far as it holds them, up to both limits. |
| AncestorSync.HeldIsReply | code/network/process_buffer.cpp:129-136 | A peer connected to the block sends all that is asked for. |
| AncestorSync.HeldIsPrefix | code/network/process_buffer.cpp:129-136 | Any other peer sends a prefix of that, which ends at its own missing root of the block. |
| AncestorSync.RootThrough | code/data/Blockchain.cpp:375-408 | With more blocks received, the missing root of a block is the missing root of its old one, also across merges. |
| AncestorSync.RoundAdvances | code/consensus/pow/pow.cpp:478-496 | One round of ask, reply of a peer that holds the path, and receive brings the missing root closer to the main tree by the number of blocks asked for, or into it. |
| AncestorSync.SyncBound | code/consensus/pow/pow.cpp:478-496 | If the missing root is k blocks above the main tree and each round is answered by a peer that holds its path, ceil(k / MAX_ASK_BLOCKS) rounds put the whole incomplete tree into the main tree, whatever else arrives meanwhile. |
| WeakTree.FindWeakBlockByHash | code/data/Blockchain.cpp:56-61 | The lookup is null exactly when no weak block of the tree has the hash. |
| WeakTree.InsertWeakBlockByHash | code/data/Blockchain.cpp:835-845 | In place, the tree becomes the one with the new node, an equal hash to the left. |
| WeakTree.InsertKeepsOrder | code/data/Blockchain.cpp:835-845 | A new hash keeps the order and adds exactly one node. |
| WeakTree.GetUnsitedBlocks | code/data/Blockchain.cpp:859-869 | The list grows by the full uncited blocks of the tree in walk order, and exactly the full ones become cited. |
| WeakTree.UnsitedIsExact | code/data/Blockchain.cpp:859-869 | That list holds every full, uncited block of the tree, nothing else, and nothing twice. |
| WeakStore.Store.HaveFullWeakBlock | code/data/Blockchain.cpp:975-982 | True exactly when the block is known in that chain and full. |
| WeakStore.Store.AddReceivedWeakBlock | code/data/Blockchain.cpp:813-833 | Makes the receive step of the books; `added` exactly for a hash not known before. |
| WeakStore.Store.AddMinedWeakBlock | code/consensus/pow/miner.cpp:150-158 | Makes the mining step: the block is known and full at once and enters no table. |
| WeakStore.Store.StillWaitingForFullBlock | code/data/Blockchain.cpp:984-992 | Registers the request exactly when none waits for the hash. |
| WeakStore.Store.OnHaveFullBlock | code/network/process_buffer.cpp:333-348 | Makes the step of an offered full block. |
| WeakStore.Store.SetBlockFull | code/data/Blockchain.cpp:1082-1095 | The hash leaves both tables; a block found in its chain becomes full and is counted. |
| WeakStore.Store.OnFullBlock | code/network/process_buffer.cpp:402-531 | Makes the step of an arriving full block: a completion exactly when the delivery passes all checks and the block is known in that chain and not full. |
| FullBlocks.CheckDelivery | code/network/process_buffer.cpp:432-498 | The checks accept exactly a delivery with the announced number of transactions, all verified, whose header fields pass for hash, chain and announced parent. |
| FullBlocks.PassingBindsParent | code/network/process_buffer.cpp:479-498 | A passing delivery whose chain root is that of some tips shows that the announced parent is the tip of that chain, or yields two strings with one digest. |
| WeakStore.Store.GetNonFullBlocks | code/data/Blockchain.cpp:1030-1058 | Announces the least due hashes up to the cap, each with its own chain, and restamps exactly those; its removal list is always empty. |
| WeakStore.Store.RemoveWaitingBlocks | code/data/Blockchain.cpp:1062-1077 | Exactly the requests older than the longest wait go; the others stay with their times. |
| WeakStore.Store.OnTick | code/consensus/pow/pow.cpp:499-521 | Makes the tick step of the books: announcements, and removal of exactly the requests older than the longest wait. |
| WeakStore.Store.SetWeakBlockSited | code/data/Blockchain.cpp:64-74 | Marks exactly the listed blocks that are known in the chain. |
| WeakStore.Store.MineCitations | code/consensus/pow/miner.cpp:285-294 | Makes the citation step: the list of a mined block is exactly what was full and uncited in its chain. |
| WeakBooks.BooksStaySound | code/data/Blockchain.cpp:813-833 | In every state of every run the missing-block table holds exactly the known blocks that are not full, each with its own chain, and received = processed + missing. |
| WeakBooks.CitedOnce | code/consensus/pow/miner.cpp:285-317 | Over any run no weak block is in two locally mined citation lists, nor in one after `set_weak_block_sited` marked it; a list leaves no full block of its chain uncited. Which received citations get marked at all is the subject of Citations. |
| Citations.CitedIffOnTime | code/network/process_buffer.cpp:198-206 | In every state of every run a weak block is marked as cited if and only if a block of the main tree lists it that came on time: mined here, or received when its parent was in the main tree and the weak block was known. |
| Citations.OnTimeStays | code/network/process_buffer.cpp:198-206 | A block that came on time is in the main tree with its list ever after, so a mark never outlives the citation. |
| Citations.ListIsOfArrival | code/network/process_buffer.cpp:198-206 | Every block held has the list of one arrival, and whether it came on time for a weak block is decided then: it was mined here, or its parent was in the main tree and the weak block known. A later graft marks nothing. |
| Citations.MinedListIsExact | code/consensus/pow/miner.cpp:285-294 | A block mined here lists, each once, exactly the full weak blocks of its chain that no main block cites on time; one that main blocks already list is cited again if and only if all of those came late. |
| Citations.CitedTwice | code/network/process_buffer.cpp:198-206 | A double citation from any state with a full, unmarked weak block: a block that cites it arrives before its parent, the parent arrives, a block is mined; both citing blocks are then in the main tree. |
| Handlers.OnProcessBlock | code/network/process_buffer.cpp:166-238 | The whole handler on the chains of a node and its weak blocks: a header that fails the checks changes nothing; otherwise the named chain and the books make the arrival step of Citations, marks included, all other chains only see the marks, the trailing block is asked for exactly when a new block names one outside its main tree, and the parent exactly when a new block has it outside the main tree. |
| Handlers.OnMined | code/consensus/pow/miner.cpp:285-317 | The mining call on a chain and the books: the block lists what was full and uncited, and joins the main tree as the new cached tip, unless there is nothing to cite, when it is not added at all. |
| Handlers.OnTick | code/data/Blockchain.cpp:1008-1026 | A tick that gives up incomplete trees leaves main tree, lists and marks alone. |
| Headers.CheckHeader | code/network/process_buffer.cpp:172-191 | Every mined header is accepted, and whatever is accepted has the chain and the hash that the digest of both roots gives, and a proof that leads from the parent to the chain root. |
| Headers.MakeHeader | code/consensus/pow/miner.cpp:192-257 | The miner's fields: chain and hash from the digest of chain root and transaction root, the tip of that chain as parent, and the proof of its position. The result passes the check of every receiver. |
| Headers.MinedPasses | code/network/process_buffer.cpp:172-191 | Completeness: a header made from any tips passes. |
| Headers.PassingIsDigested | code/network/process_buffer.cpp:172-181 | Only the chain in the last six digits and the hash in the first 16 digits of the digest pass. |
| Handlers.AsksAreOfTheBooks | code/network/process_buffer.cpp:219-238 | The messages that the handler sends are, chain by chain, the asks of the arrival in the ask books. |
| WeakBooks.AsksAreSpaced | code/data/Blockchain.cpp:984-992 | Two requests for one full block with no completion between them are more than `MAX_WAIT_FOR_FULL_BLOCK_MILLSECONDS` apart. |
| WeakBooks.WaitingIffPending | code/data/Blockchain.cpp:984-992 | In every state exactly those requests wait whose question was not repeated, answered by a completion, or outlived by a tick; each with the time of its question. |
| WeakBooks.OfferIsTakenUp | code/network/process_buffer.cpp:333-348 | An offer is taken up if and only if the block is not full in the named chain and no such question is pending. |
| WeakBooks.LateOfferIsTakenUp | code/data/Blockchain.cpp:1062-1077 | The converse of spacing: once a tick comes more than the longest wait after an unanswered question, the next offer is asked for again. |
| WeakBooks.OldRequestsGo | code/data/Blockchain.cpp:1062-1077 | A tick keeps exactly the requests that are not older than the longest wait. |
| WeakBooks.KnownIffBrought | code/data/Blockchain.cpp:813-833 | Over any run a block is known if and only if its message arrived or it was mined here. |
| WeakBooks.FullIffDelivered | code/data/Blockchain.cpp:1082-1095 | Over any run a block is full if and only if it was mined here, or a good delivery for its own chain came while it was known. |
| WeakBooks.CompletionClears | code/data/Blockchain.cpp:1082-1095 | A completion leaves neither an entry nor a request and counts one processed block. |
| WeakBooks.AnnouncedIffAmongLeast | code/data/Blockchain.cpp:1030-1058 | A tick announces a missing block if and only if it was last announced more than the gap ago and fewer smaller ones are due than `MAX_ASK_NON_FULL_IN_ONE_GO`, the smallest due one always. |
| WeakBooks.StampIsLastAnnouncement | code/data/Blockchain.cpp:1034-1036 | The stamp of a missing block is the time of its last announcement, 0 before the first. |
| WeakBooks.NoAskAfterCompletion | code/network/process_buffer.cpp:334-348 | After completion an offer is taken up again exactly when the message names another chain than the block's own and no request waits; so an offer that names the right chain never is. |
| WeakBooks.AnnouncementsAreSpaced | code/data/Blockchain.cpp:1030-1058 | Two announcements of one block are more than their own gap apart, and none follows completion. |
| CommitBooks.LinesStamp | code/data/Blockchain.cpp:1169-1185 | One update stamps exactly the blocks on the lines that were mined before now, with the current time, and rewrites no stamp. |
| CommitBooks.TotalsBalance | code/data/Blockchain.cpp:1171-1173 | Over any run, fork switches included, totals and latency sums are the count and the sum of delays over all stamped blocks other than genesis. |
| CommitBooks.StampsAreWrittenOnce | code/data/Blockchain.cpp:1170-1240 | No later update changes or removes a stamp. |
| CommitBooks.CommittedAfterPartial | code/data/Blockchain.cpp:1157-1252 | Under a non-decreasing clock a committed block was partially confirmed, no later than it was committed. |
| CommitBooks.PartialWhenFound | code/data/Blockchain.cpp:1159-1186 | A block is partially confirmed if and only if some update found it on a line after its mining time, whatever the other chains look like; its stamp is the time of the first such update. |
| CommitBooks.CommittedWhenAllDeep | code/data/Blockchain.cpp:1194-1252 | A block is committed if and only if some update found it on a line, after its mining time, while every chain had a deep block; its stamp is the time of the first such update. |
| CommitBooks.StampedBlocksAreClosed | code/data/Blockchain.cpp:1169-1252 | When no block of the lines was mined before its parent, every stamped block has a stamped parent. |
| Confirm.LineIsLine | code/data/Blockchain.cpp:1169-1185 | The parent walk from a block ends at genesis and has one block per depth. |
| Confirm.UpIsSuffix | code/data/Blockchain.cpp:1161-1166 | The block T_DISCARD above the tip exists exactly when the tip is that deep, and its line is the tail of the tip's line. |
| Confirm.MainTreeHasAncestry | code/data/Blockchain.cpp:1161-1166 | The main tree of a valid chain, and its cached tip, meet all that the stamps rely on: parent links, parent hashes, mining times and names. |
| Confirm.JoinNamed | code/data/Blockchain.cpp:1159-1186 | So do the main trees of two sets of chains together, when they have no hash in common. |
| Confirm.MainsAreNamed | code/data/Blockchain.cpp:1159-1186 | So do the main trees of all chains of a node. |
| Confirm.Confirmations.Follow | code/data/Blockchain.cpp:1157-1258 | When main trees have grown by blocks without stamps, the books cover the larger trees and neither entries nor totals change. |
| Handlers.ReceiveAndFollow | code/network/process_buffer.cpp:167-206 | After any received block, of whatever branch, all blocks in the main trees are covered by the books of the stamps again, with the same entries and totals: what joined, a whole waiting tree included, has no stamps. |
| Confirm.Confirmations.Discard | code/data/Blockchain.cpp:1161-1166 | The walk returns the block that many parents above, or null. |
| Confirm.Confirmations.PartialLine | code/data/Blockchain.cpp:1169-1185 | The in-place walk makes the stamping of the books along the line. |
| Confirm.Confirmations.ConfirmBar | code/data/Blockchain.cpp:1194-1219 | No bar exactly when a chain lacks a deep block; otherwise the least next rank of the deep blocks. |
| Confirm.Confirmations.UpdateCommittedTimes | code/data/Blockchain.cpp:1147-1258 | The whole update makes the step of the books for both kinds of stamps; the commit loop does not look at the bar. |
| Confirm.HeapBarIsBar | code/data/Blockchain.cpp:1194-1219 | The bar over the nodes is the bar of the ranks. |
| Ranks.NextRank | code/consensus/pow/miner.cpp:270-271 | The next rank exceeds the rank exactly when the trailing one does or the 32-bit rank has not run out. |
| Ranks.MineHeader | code/consensus/pow/miner.cpp:192-273 | The trailing tip is the first with the largest next rank; rank, next rank, parent and depth of the mined block; its next rank is at least that of every tip until the 32-bit rank runs out, when it becomes 0. |
| Ranks.MinedIsHonest | code/consensus/pow/miner.cpp:269-274 | A mined block keeps rank(child) = next_rank(parent) < next_rank(child) for all blocks exactly while the rank has not run out. |
| Ranks.RanksRise | code/consensus/pow/miner.cpp:269-271 | Along parent links a descendant ranks at or above the next rank of every ancestor. |
| Ranks.BarIsKeptByTips | code/data/Blockchain.cpp:1194-1219 | Whatever the tips become, the bar is kept if and only if every chain still has a deep block and the next rank of each is at least the old bar. |
| Ranks.SwitchKeepsBar | code/data/Blockchain.cpp:1194-1219 | For a switch of one tip that reduces to the new tip: the bar is kept if and only if it has a deep block whose next rank is not below the bar, which can be looked up before the switch. |
| Ranks.BarsNeverDropIff | code/data/Blockchain.cpp:1194-1219 | Over any history the bars never drop if and only if no step lets a tip fall below the bar before it. |
| Ranks.BarNeverDrops | code/data/Blockchain.cpp:1194-1219 | In particular they never drop as long as each tip stays a descendant of its deep block and gets no less deep. |
| Ranks.FinalIffDescends | code/data/Blockchain.cpp:1194-1219 | However the tips move, the blocks of a chain ranked below the bar are the same afterwards if and only if the new tip descends from the last of them. |
| Ranks.BelowTheBarIsFinal | code/data/Blockchain.cpp:1194-1219 | In particular they are the same at every later moment of a run in which tips descend from their deep blocks. |
| Ranks.MinedAboveEveryBar | code/consensus/pow/miner.cpp:269-271 | A block mined on any tip gets a rank at or above every earlier bar. |
| Ranks.DeepForkLowersTheBar | code/data/Blockchain.cpp:1194-1219 | The exact condition of SwitchKeepsBar can fail for honest blocks: in two chains whose blocks are all mined by the rule, a switch to a deeper fork lowers the bar from 3 to 2. |
| Merkle.ComputeMerkleTreeRoot | code/verify/verify.cpp:45-59 | The level loop computes the recursive root. |
| Merkle.RootOfHalves | code/verify/verify.cpp:45-59 | The root of a full tree is the digest of the roots of its two halves, left before right. |
| Merkle.ComputeMerkleProof | code/verify/verify.cpp:61-89 | The level loop computes leaf, siblings and root. |
| Merkle.VerifyMerkleProof | code/verify/verify.cpp:99-129 | The loop accepts exactly if one of the first two entries is the hash and the climb over the siblings ends in the last entry and in the root. |
| Merkle.PadLeaves | code/consensus/pow/miner.cpp:215-229 | Padding with empty leaves to the next power of two. |
| Merkle.Padded | code/consensus/pow/miner.cpp:215-229 | The padded leaves are a power of two, with the tips in front and 32 zeros in every other place. |
| Merkle.CeilLog2Covers | code/verify/verify.cpp:92-96 | The exact ceiling of log2. |
| Merkle.BlockhashRoundTrip | code/verify/verify.cpp:20-34 | Every 64-bit hash has 16 lower-case digits and comes back from them. |
| Merkle.DigestHasHash | code/verify/verify.cpp:31-34 | The hash of every 64-digit digest is the value of its first 16 digits. |
| Merkle.HexValueJoin | code/verify/verify.cpp:20-34 | Digits are read most significant first. |
| Merkle.ChainIdFromHash | code/verify/verify.cpp:37-40 | The chain of a hash is below the number of chains. |
| Merkle.DigestHasChain | code/verify/verify.cpp:37-40 | Every 64-digit digest has a chain: its last six digits modulo the number of chains. |
| Merkle.ProofIsAccepted | code/verify/verify.cpp:61-129 | On a full tree the computed proof has depth + 2 entries, ends in the root, and is accepted. |
| Merkle.MinedProofVerifies | code/consensus/pow/miner.cpp:192-257 | For every number of chains and every chain, the proof of a mined block has the length `merkle_proof_length()`, ends in the computed root and verifies against the parent hash. |
| Merkle.CollisionIsReal | code/verify/verify.cpp:99-129 | The pair extracted from a false proof is two distinct strings with equal SHA-256. |
| Merkle.PositionBinding | code/verify/verify.cpp:99-129 | If a proof of the required length verifies for a chain index, the parent is the leaf at that index, or the proof yields an explicit SHA-256 collision. |
| PingFlood.PingTable.AddPing | code/consensus/pow/pow.cpp:777-795 | In diameter mode records and reports exactly what is new or has fewer hops; in latency mode exactly what is new. |
| LatencyFlood.AddedOnlyOnce | code/consensus/pow/pow.cpp:791-794 | Over any calls, those of other pings included, a call for a latency ping answers true if and only if it is the first for that ping. |
| LatencyFlood.FirstCountStays | code/consensus/pow/pow.cpp:791-794 | The recorded count of a latency ping is that of its first call for ever. |
| LatencyFlood.OnePingPerEdge | code/network/process_buffer.cpp:83-95 | A latency flood sends exactly one ping over every edge that leaves a node that heard and none over any other; it takes no more steps than there are edges; records stand for real walks and never change; with nothing on its way every reachable node has heard. |
| PingFlood.HandleFollowsAddPing | code/network/process_buffer.cpp:83-95 | A network step decides as `add_ping` does. |
| PingFlood.StartInv | code/consensus/pow/pow.cpp:532-545 | The start of a ping meets the flood invariant. |
| PingFlood.StepInv | code/network/process_buffer.cpp:60-97 | Every delivery, in any order, keeps: records and messages stand for real walks, improvements are on their way, hop counts are bounded. |
| PingFlood.StepDecreases | code/network/process_buffer.cpp:83-95 | Every delivery decreases a natural number, so the flood terminates. |
| PingFlood.QuiescentIsShortest | code/network/process_buffer.cpp:83-95 | With no message on its way, every record is the shortest hop distance. |
| PingFlood.FloodFindsDistances | code/consensus/pow/pow.cpp:532-545 | Every run of a diameter ping is bounded in length; at every moment a record stands for a real walk; and with no message left, every node that can be reached has heard the ping with its shortest hop distance. |
| Framing.Positions | code/network/process_buffer.cpp:36-42 | The loop lists exactly the positions of `#`, then one past the end. |
| Framing.ProcessBuffer | code/network/process_buffer.cpp:13-57 | The loop over positions, with both breaks and the keys of one call, handles the messages and leaves the buffer that the recursive scan says, for any bytes; a buffer that starts with anything else is cleared. |
| Framing.OneRead | code/consensus/pow/pow.cpp:117-124 | One read handles exactly the messages it completes, and keeps the unfinished one or a rejected last one. |
| Framing.ReadsDoNotMatter | code/network/process_buffer.cpp:545-548 | However the stream is split into reads, the same messages are handled in order and the same bytes stay, if and only if no message that parses repeats the key that an earlier one registered. |
| Framing.EveryMessageArrives | code/consensus/pow/pow.cpp:334-345 | When every message parses and keys are fresh, exactly the sent messages are handled and exactly the unfinished suffix stays. |
| Tokens.Split | code/utils/misc.cpp:5-34 | The do-while loop computes the recursive split. |
| Tokens.SplitOfJoin | code/utils/misc.cpp:5-34 | Splitting a joined list of delimiter-free tokens gives the list back, except that an empty last token is lost. |
| Tokens.JoinOfSplit | code/utils/misc.cpp:5-34 | Joining the pieces of any text gives the text back without a final delimiter. |
| Tokens.NumberRoundTrip | code/utils/misc.cpp:36-59 | `safe_stoull` recovers every 64-bit number from its text; `safe_stoi` recovers exactly those below 2^31 and flags the others. |
| Tokens.NumeralIsRead | code/utils/misc.cpp:36-59 | Both readers skip white space, take a sign and the digits, and ignore the rest; out of range gives 0 and a report, negative numbers wrap into the unsigned field. |
| Tokens.NoNumeral | code/utils/misc.cpp:36-59 | Text without a number at the front gives 0 and is reported. |
| Tokens.ValueJoin | code/utils/misc.cpp:36-59 | Digits are read most significant first. |
| Wire.CreateProcessBlock | code/network/requests.cpp:358-381 | The built text is the comma-joined list of the 16 fields in the order of the protocol, the proof and the weak blocks. |
| Wire.ReadWeak | code/network/requests.cpp:415-419 | Reads exactly the announced number of hashes, or reports that there are fewer fields. |
| Wire.ParseProcessBlock | code/network/requests.cpp:384-433 | The parser, with its rejections and with every read past the last field, computes what the fields mean. |
| Wire.ParseIsExact | code/network/requests.cpp:384-433 | For any fields: too few are rejected without a key, a key seen before is rejected, any other registers its key; the block is read, field by field, exactly when as many weak blocks follow as announced and a strict reader finds every number proper, a sender and an existing chain. |
| Wire.HandlerIsParser | code/network/requests.cpp:389-391 | Framing rejects a block message and registers its key exactly as the parser does, and too few fields register none; a message of another kind is passed over, neither rejected nor registered. |
| Wire.FieldsRoundTrip | code/network/requests.cpp:396-419 | Reading the fields gives the block back exactly when its `stoi` numbers are small. |
| Wire.BlockRoundTrip | code/network/requests.cpp:358-433 | Sending and reading back recovers sender, every field and both lists if and only if the proof has the reader's length, at least one weak block is cited, the `stoi` numbers are below 2^31 and a strict reader has nothing to object. |
| Wire.BlocksCrossTheWire | code/network/process_buffer.cpp:545-548 | Blocks with fresh keys arrive over the stream one by one, in order and unchanged, however the bytes are split. |
| Wire.KeysAgree | code/network/requests.cpp:391-391 | Two blocks of one peer on one chain share the duplicate key if and only if the texts of parent and hash run together alike; with hash texts of equal length, only for the same parent and hash. |
| Wire.DifferentBlocksMayShareAKey | code/network/requests.cpp:391-391 | Two different blocks for which they do. |
| Twister.Generator.constructor | code/network/MersenneTwister.h:160-166 | Seeding yields the first block after the seeded one, with nothing drawn. |
| Twister.Generator.Initialize | code/network/MersenneTwister.h:228-243 | The loop fills the state with the seeding recurrence. |
| Twister.Generator.Reload | code/network/MersenneTwister.h:246-259 | The three in-place phases replace the block by the next block of the plain recurrence. |
| Twister.Generator.RandInt | code/network/MersenneTwister.h:124-138 | The i-th number is the tempering of word 624 + i of the recurrence. |
| Twister.Generator.Save | code/network/MersenneTwister.h:288-295 | The saved words and count stand for the same place in the stream. |
| Twister.Generator.Load | code/network/MersenneTwister.h:298-306 | A loaded generator stands at the saved place of the stream. |
| Twister.BlockDeterminesStream | code/network/MersenneTwister.h:246-259 | A block determines every later word, wherever in the stream it stands. |
| Twister.NumbersDetermineStream | code/network/MersenneTwister.h:124-138 | Any 624 numbers drawn in a row determine all later ones, since tempering loses nothing. |
| Twister.TemperRoundTrip | code/network/MersenneTwister.h:133-137 | Every word can be recovered from its tempered number. |
| Twister.FirstNewWord | code/network/MersenneTwister.h:246-259 | The first word after the initial block comes from words 397, 0 and 1. |
| Twister.ReferenceValues | code/network/MersenneTwister.h:124-138 | Values of the three mixing functions at single words. |
| Twister.SameStateSameStream | code/network/MersenneTwister.h:288-306 | Two generators with the same words and count draw the same numbers for ever, so saving and loading at any point continues the stream. |

## Left out

- Sockets, timers, Boost strands, the peer write queue and the mutex wrapper: each handler, mining call and network tick is one atomic step.
- `code/consensus/raft` and `code/miner_bk.cpp`: the election is a stub, and the miners there refer to a field that does not exist.
- SHA-256 and ECDSA internals: the hash is a parameter, signatures are absent.
- Configuration, files, printing, statistics text, peer discovery, transaction text and random mining times: input and output, or easy.
- Arrays over chain ids: `BlockForest.Chain` is one chain, and there is one such object for each chain id; `WeakStore.Store` and `Confirm.Confirmations` span all chains, and the handlers take the list of chains.
- Freed memory: list cells and nodes that are unlinked are simply no longer referred to, and a node's `nb`, which the original leaves unset after `malloc` for a missing block, is `None`.
- The value of `nb.besited` of a new weak block: the original compares instead of assigning (`code/consensus/pow/miner.cpp:142`); the model has the intended initial value false.
- `time_received`, reception latencies, `is_full_block` of strong blocks and the unused strong-block entries of the missing-block table: no rule depends on them.
- The comment above `add_received_block` (`code/data/Blockchain.cpp:574`): it promises more than the code, which asks for the parent whenever that is outside the main tree; the model follows the code.
- BlockForest.Chain.AddReceivedBlock: a message that names a wrong parent or depth for its hash is not modelled, because the hash is taken to fix them; genesis is the one exception and is ignored as the code does.
- BlockForest.Chain.AddMinedBlock: the mined hash is taken to be new: no node of the chain has it, and none waits for it.
- Genealogy.FindNumberOfNodes: the count is unbounded here, an `int` in the original.
- ForestSpec.OrderIndependence: about arrivals without removals; with removals, ForestSpec.ReachableIsCanon says which blocks are retained.
- AskSchedule.AsksAreSpacedAndBounded: needs a clock that does not go back; the unsigned subtraction itself is modelled with its wrap-around.
- AncestorSync.SyncBound: a round is complete when the reply of the peer has been received; lost replies are rounds that do not count.
- WeakStore.Store.AddReceivedWeakBlock: the handler does not verify the hash of a weak block, so that a hash fixes its chain is an assumption here, not a check; a message that names another chain is not modelled.
- WeakStore.Store.AddMinedWeakBlock: the mined hash is taken to be new.
- WeakStore.Store.OnFullBlock: whether one transaction verifies is a parameter; the header fields that the original copies into the weak block before it checks them are not modelled.
- WeakBooks.BooksStaySound: the counters are unbounded here, 32-bit in the original.
- CommitBooks.TotalsBalance: sums are unbounded here, `unsigned long` in the original; there is one stamp of each kind per block, as `NO_T_DISCARDS` is 1.
- Confirm.Confirmations.UpdateCommittedTimes: the test `confirm_bar < 0` is never true for an unsigned value and is absent; that committed blocks lie below the bar is not claimed, since the code does not test it.
- Handlers.OnProcessBlock: a trailing chain id beyond the number of chains, which the original uses as an index unchecked, is not modelled; forwarding the block to peers and interrupting the miner are output.
- Handlers.ReceiveAndFollow: hashes of different chains are taken to be distinct.
- Ranks.BarNeverDrops: the ranks in received blocks are taken to follow the mining rule; the original does not check them.
- Ranks.MineHeader: the header also serves weak blocks, which are mined by the same lines; transaction roots and counts are the remainder field.
- Merkle.PositionBinding: floating-point `log` and `pow` are replaced by an exact ceiling of log2.
- PingFlood.FloodFindsDistances: every sent message is dispatched; the original drops a second ping of one sender within one read.
- LatencyFlood.OnePingPerEdge: likewise; the elapsed times that are written to a file are output.
- Framing.ReadsDoNotMatter: whether a message parses depends on its text alone; handlers that reject because of the node's state, such as a full block with a wrong number of transactions, are not part of this model, and with `PRINT_TRANSMISSION_ERRORS` set the original exits where a buffer does not start with `#`.
- Tokens.Split: the delimiter is one character, as in every call.
- Wire.ParseProcessBlock: reading past the last field, which the original does not prevent, is the outcome `Undefined`.
- The other message kinds (`#ask_block`, `#full_block`, `#ping` and the offers) are written and parsed in the same way; only the richest one is modelled.
- Twister.Generator.Save: the count is returned beside the array of words instead of stored behind them.
- The array and time seeds and the bounded `randInt(n)` of the generator: the latter terminates only with probability one.
