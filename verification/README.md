# Chain state of a proof-of-space-and-time node, modelled in Dafny

This project models the chain-state core of the node and proves what its code relies on. It has three parts.

**The ledger under reorganisations.** A block becomes the new peak whenever it is valid and connected, even if it is lower than the old one. The coin table is rolled back to the fork and the branch is applied again. The reference is `Ledger.Replay`: apply every transaction block from genesis to the peak, in order. `Blockchains.Blockchain` is the object with its height index, summaries, coin store and block store; `ChainState.View` is the machine it is proved to follow, over any sequence of received blocks and restarts. Validity of a body (`Ledger.BodyValid`) speaks of the block's own ancestors only, although the code decides it from the peak's table and a list of changes since the fork.

**Consensus time.** A chain of headers is a sequence of records indexed by height (`Headers.Rec`). `Headers.ValidNext` gathers the chain rules of header validation; `Headers.ValidHeaders` is a chain every step of which obeys them. From it follow the order of signage points, the spacing of transaction blocks and challenge blocks, where sub-epoch summaries fall, that every retarget finds its two measuring blocks, where the VDF of a signage point starts, and that the challenge a proof of space answers is that VDF's.

**Node-side indexes.** The mempool with its four indexes and eviction, and the finished sub-slots kept beyond the peak.

## How the code is represented

- A coin is an inductive value whose parent is another coin or a height's pool or farmer reward. The coin is its own name, which stands for injective hashing. `Coinbase.RewardParentsDistinct` proves what the real reward ids need for that.
- SQL tables are maps. The generator's result is given data: spends with the coins they create.
- Objects with fields are classes; loops are loops. Functions and lemmas speak of the values they compute.
- Walks that follow `prev_hash` over records are index steps on the chain sequence `c` in the header part. The one fetch that goes by the height index instead, in the retarget, reads records of which each comes with its own chain (`Headers.Paths`), since the index may name blocks of several. What that fetch returns is proved of `Blockchains.Blockchain.GetBlocksAtHeight`.
- An error path is an `Option`. Where the code raises, the model returns no result or the error `Raised`.
- Proofs, signatures, proof-of-space quality and hashing are parameters or absent.

## What the code does not guarantee

Each item names the docstring, comment or caller that relies on more, an input for which it fails, and the exact condition under which it holds.

- **The index test.** `contains_block_in_peak_chain` is documented as "True if the header_hash is in current chain" (chia/consensus/blockchain.py:677-678), and `receive_block` refuses a block on its word (line 191). After a reorganisation to a lower peak it also says yes to abandoned blocks (`ChainState.StaleEntryRun`, and `ChainState.LowerPeakLeavesStale` for every such move). It is right about all known blocks exactly when the index reaches no higher than the peak (`ChainState.InPeakChainExact`), that is, exactly when no peak since the last restart was higher than the present one (`ChainState.TestIsRightIff`).
- **Fetching ancestors.** `_get_blocks_at_height` is documented to "only fetch ancestors of prev_b" (chia/consensus/difficulty_adjustment.py:17-20), and the retarget relies on it (lines 97-104). For a block above the peak with a stale index entry it can return blocks of the peak's path (`Blockchains.StaleFetch`). It returns the ancestors of an indexed block exactly when every index entry it reads is one, and up to the peak exactly when the last height read is at or below the fork (`Blockchains.Blockchain.GetBlocksAtHeight`). A retarget can fail on such a fetch although the block's own chain prescribes parameters (`Progress.ForeignFetchFails`).
- **The coin report.** `rollback_to_block` "Returns the list of coin records that have been modified" (chia/full_node/coin_store.py:340-344), and wallets are told of changes from it (chia/full_node/full_node.py:1350). A coin that the rollback makes unspent again is missing. Every run after which a coin can be spent has a continuation whose report misses it (`SpendingChains.EveryRunCanMiss`, `SpendingChains.ReportCanMiss`). The report is complete exactly when the new branch spends again every older coin the abandoned one spent (`Blockchains.ReportIsCompleteOnChains`).
- **The challenge lookup.** "If block state is correct, we should always find a challenge here" (chia/consensus/block_header_validation.py:464). For an overflow block in the sub-slot of a genesis block that came after exactly one sub-slot, `get_block_challenge` runs off its list (`BlockChallenges.LookupCanFail`); on a chain that obeys the rules, exactly then (`BlockChallenges.LookupFailsIff`). The search for the start of the signage point's VDF would fail on the same headers, so after a successful lookup it never does (`BlockChallenges.ChallengeAndVdf`).
- **A peak's two sub-slots.** `new_peak` expects the signage point's sub-slot to be "None if not overflow, or in first/second slot" (chia/full_node/full_node_store.py:668). In two cases next to genesis `get_sp_and_ip_sub_slots` hands it the wrong one (`SubSlotStores.SlotCanRepeat`, `SubSlotStores.GenesisCanBePassed`; exactly these by `SubSlotStores.SpAndIpSubSlots`). In the first the stored sub-slots are not linked, and only there (`SubSlotStores.PeakEntriesLink`).
- **The staking coefficient.** A stake below the minimum gives 20 and enough stake is meant to lower it (chia/consensus/blockchain.py:1011-1027). A stake just above the minimum can give more than 20 (`Staking.CutoffRaises`), exactly when it is below the 7980th part of the farmer's space (`Staking.CutoffCanRaise`).
- **The stake of a branch block.** Header validation reads the stake one height below the block (chia/consensus/block_header_validation.py:505-515), but along the peak's path. It is that of the block's own ancestors exactly when both chains gained the same for the puzzle hash since their fork (`Blockchains.StakeReadIsOwn`). Any spendable coin can make the difference (`SpendingChains.StakeCanDiffer`).

The retarget theorems (`Retargets.LaterMeasureStart`, `Retargets.MeasurementsTile`, `Retargets.ParamsRetarget`, `Retargets.ParamsAreSane`) speak of the parameters the block's own chain prescribes. The code computes these when the last block's parent is not indexed, or is indexed at or below the peak. For one with a stale entry above the peak it does when the records fetched are its own ancestors (`Retargets.FetchAgrees`); `Retargets.FetchesOwnIff` says exactly when that is.

The comment in the epoch search puts the opening of an epoch at most `2*MAX + MIN - 3` blocks after the surpassed height. The bound proved here is one block later; the fetched stretch covers it.

## Model

| member | source | states |
|---|---|---|
| `Coins.RewardSplit` | chia/consensus/block_rewards.py:17-67 | pool and farmer reward of a height add up to its issuance on both sides of the reward change, and before it are 7 to 1 |
| `Coins.RewardHalves` | chia/consensus/block_rewards.py:17-67 | the issuance of a height is 1 coin, halved every three years until nine have passed; the first height has a million |
| `Coinbase.BytesRoundTrip` | chia/consensus/coinbase.py:13-18 | a height encoded in 16 big-endian bytes decodes to itself |
| `Coinbase.ParentIdTells` | chia/consensus/coinbase.py:13-18 | a reward parent id tells the role, by its half of the genesis challenge, and the height |
| `Coinbase.RewardParentsDistinct` | chia/consensus/coinbase.py:13-18 | two reward parent ids are equal only for the same height and role; a pool and a farmer id coincide exactly when the halves of the genesis challenge do and the height is the same |
| `Ledger.NoSpendFromNothing` | chia/consensus/block_body_validation.py:276-391 | with no coin to spend and no reward claimed, a block cannot spend: ephemeral coins need a first parent |
| `Ledger.GenesisSpendsNothing` | chia/consensus/block_body_validation.py:276-391 | a valid first block has no removals |
| `Ledger.ReplayInv` | chia/full_node/coin_store.py:73-128 | the table of a valid chain: spent exactly if spent above height 0, confirmed before spent, parents present, rewards only below the claimed height |
| `Ledger.CreatedIsFresh` | chia/full_node/coin_store.py:398-421 | a coin a valid block creates is not in its ancestors' table, by induction on the coin's ancestry |
| `Ledger.CreatedAllFresh` | chia/full_node/coin_store.py:398-421 | so the primary-key insert of an accepted block cannot fail, though no check compares outputs with the table |
| `Ledger.RollbackUndoesApply` | chia/full_node/coin_store.py:340-395 | rolling back below a block undoes it |
| `Ledger.RollbackIsReplay` | chia/full_node/coin_store.py:340-395 | rolling a chain's table back to height `f` is the replay of its first `f + 1` blocks |
| `Ledger.SinceByHeight` | chia/consensus/block_body_validation.py:284-352 | what the blocks above `f` create and spend is exactly what the table confirms and spends above `f` |
| `Ledger.SinceIsDisjoint` | chia/consensus/block_body_validation.py:324-352 | a block of a branch creates and spends nothing a later one creates or spends, so the `assert`s while collecting hold |
| `Ledger.CreatedRow` | chia/full_node/coin_store.py:73-128 | a coin keeps the height and timestamp of the block that created it |
| `Ledger.StakeIsRolledBackUnspent` | chia/full_node/coin_store.py:440-454 | coins unspent before height `h` are those unspent after rolling back to `h - 1` |
| `Ledger.StakeIsPrefixUnspent` | chia/full_node/coin_store.py:440-454 | they are the unspent coins in the replay of the first `h` blocks, or of all blocks for a height above the tip |
| `Ledger.StakeIsSettled` | chia/consensus/blockchain.py:1037-1040 | two chains with the same first `h` blocks agree on the stake at `h`, however they go on |
| `Conservation.CoinsBetweenSum` | chia/consensus/block_body_validation.py:104-153 | a range of heights has two reward coins each, worth its issuance and fees |
| `Conservation.ExpectedRewardsSum` | chia/consensus/block_body_validation.py:104-153 | the rewards a block must claim are worth the issuance since the last claim and the fees of the last transaction block |
| `Conservation.RewardCoinsFit` | chia/consensus/block_body_validation.py:422-424 | no expected reward coin exceeds the largest amount, thanks to the check on the block that earned it |
| `Conservation.RewardsClaimedOnce` | chia/consensus/block_body_validation.py:104-153 | the reward coins in the table are one pool and one farmer coin for every height below the last claim, and no other |
| `Conservation.UnspentSumStep` | chia/consensus/block_body_validation.py:393-428 | a block adds to the unspent total what it claims and takes off its fees |
| `Conservation.Conserved` | chia/consensus/block_body_validation.py:393-428 | unspent coins and the last transaction block's fees are worth the base rewards of the heights claimed, on every valid chain |
| `BodyRules.TableIsHistory` | chia/full_node/coin_store.py:73-128 | on a valid chain a coin has a row exactly when some block creates it, spent exactly when some block spends it; the row names that height, that timestamp, that spending height, and a reward as such |
| `BodyRules.DueRewards` | chia/consensus/block_body_validation.py:104-153 | the coins to claim are the pool and farmer coin of each height from the last-but-one transaction block, exclusive, to the last |
| `BodyRules.OutputsAre` | chia/consensus/block_body_validation.py:190-228 | the additions of a body are the outputs of its spends, each a child of the coin spent |
| `BodyRules.SpendsObey` | chia/consensus/block_body_validation.py:393-433 | every spend on a valid chain reveals the puzzle of its coin, and a block's reserved fees are not negative and add up to no more than the fees, which are what its spends leave over |
| `BodyRules.VerdictNamesFirst` | chia/consensus/block_body_validation.py:104-433 | ten rules written out over the chain's blocks: no error exactly when all hold, and else the error that belongs to the first one broken, for a spend that of the first bad one |
| `BranchStakes.StakeSince` | chia/full_node/coin_store.py:440-454 | the stake on a chain is the stake at any of its blocks, plus what later blocks create for the puzzle hash, minus what they spend of it |
| `BranchStakes.StakesAgreeIff` | chia/full_node/coin_store.py:440-454 | two branches leave the same stake exactly when they gained the same since their fork |
| `BlockTree.ChainOfAncestor` | chia/consensus/find_fork_point.py:18-27 | the ancestors of an ancestor are a prefix |
| `BlockTree.ChainStable` | chia/consensus/blockchain.py:835-843 | adding a block record changes no other block's ancestors |
| `BlockTree.FindForkPoint` | chia/consensus/find_fork_point.py:18-33 | the walk ends at the height of the highest common ancestor, -1 if there is none |
| `BlockTree.ForkIsUnique` | chia/consensus/find_fork_point.py:18-33 | that height is unique |
| `BlockTree.ForkIsSymmetric` | chia/consensus/find_fork_point.py:18-33 | and does not depend on the order of the blocks |
| `BlockTree.ForkOfChild` | chia/consensus/blockchain.py:365-377 | a block off a chain forks from it where its parent does, so body validation and peak adoption use one height |
| `BlockTree.ExtendValid` | chia/consensus/blockchain.py:231-260 | on valid ancestors and with a valid header, a body is valid exactly when the longer chain is |
| `CoinStores.CoinStore.CacheGet` | chia/util/lru_cache.py:10-15 | a cached value is returned and becomes the most recent, the others keeping their order; a miss changes nothing |
| `CoinStores.CoinStore.CachePut` | chia/util/lru_cache.py:17-21 | the key becomes the most recent; every other entry stays, save the oldest exactly when the key is new and the cache full |
| `CoinStores.CoinStore.GetCoinRecord` | chia/full_node/coin_store.py:131-143 | whatever is cached, a lookup gives the table's row and leaves cache and table coherent |
| `CoinStores.CoinStore.GetUnspentCoinsBeforeHeight` | chia/full_node/coin_store.py:440-454 | exactly the rows of the puzzle hash confirmed before the height and not spent before it |
| `CoinStores.CoinStore.AddCoinRecords` | chia/full_node/coin_store.py:398-421 | succeeds exactly when all names are new and distinct; then the rows are added, else the table is unchanged |
| `CoinStores.CoinStore.SetSpent` | chia/full_node/coin_store.py:424-438 | marks exactly the named rows spent, in table and cache alike |
| `CoinStores.CoinStore.NewBlock` | chia/full_node/coin_store.py:73-128 | the table becomes the block's application; inserting fails exactly on a duplicate or known name |
| `CoinStores.CoinStore.RollbackCache` | chia/full_node/coin_store.py:345-366 | the cache is rolled back like the table |
| `CoinStores.CoinStore.RollbackToBlock` | chia/full_node/coin_store.py:340-395 | table and cache rolled back; the returned records are exactly the rows confirmed above the height, with height and timestamp cleared |
| `BodyValidation.VerdictIsValidity` | chia/consensus/block_body_validation.py:104-433 | the ordered checks report no error exactly when the body is valid on its own ancestors, whatever the fork height |
| `BodyValidation.ForkViewIsReplay` | chia/consensus/block_body_validation.py:354-391 | the peak's table cut at the fork plus the changes since decides each removal as the ancestors' replay does |
| `BodyValidation.CheckHeader` | chia/consensus/block_header_validation.py:816-827 | the named previous transaction block is the last one among the ancestors; the error says which of the two rules fails |
| `BodyValidation.CollectExpectedRewards` | chia/consensus/block_body_validation.py:108-147 | the walk collects exactly the reward coins to be claimed |
| `BodyValidation.CheckRewardClaims` | chia/consensus/block_body_validation.py:104-161 | accepted exactly when the claims are the expected coins, each once |
| `BodyValidation.CollectReorgBlocks` | chia/consensus/block_body_validation.py:284-323 | the branch blocks above the fork, by height, and their number |
| `BodyValidation.CollectSinceFork` | chia/consensus/block_body_validation.py:284-352 | the collected additions carry height and timestamp of their replay rows; removals are those since the fork |
| `BodyValidation.CheckRemoval` | chia/consensus/block_body_validation.py:354-391 | the verdict of the ancestors' replay, and a record with the coin's birth data on that chain |
| `BodyValidation.CheckRemovals` | chia/consensus/block_body_validation.py:354-391 | the first failing removal's error |
| `BodyValidation.CheckFees` | chia/consensus/block_body_validation.py:393-433 | the first of minting, reserved fees, maximum amount, stated fees and puzzle hashes that fails (what each says of the block: `BodyRules.VerdictNamesFirst`) |
| `BodyValidation.CheckOutputs` | chia/consensus/block_body_validation.py:228-275 | amounts, duplicate outputs, duplicate spends, in order |
| `BodyValidation.ForkHeight` | chia/consensus/block_body_validation.py:276-283 | the fork of the block's ancestors with the peak's chain |
| `BodyValidation.ValidateBlockBody` | chia/consensus/block_body_validation.py:35-433 | the error is the verdict on the block's own ancestors, from any peak, and so names the first rule the block breaks; none exactly when the body is valid |
| `ChainState.ReceiveKeepsInv` | chia/consensus/blockchain.py:172-301 | every received block keeps: all stored chains valid, the index exact up to the peak, without gaps, and naming known blocks of the right height |
| `ChainState.ResultsAre` | chia/consensus/blockchain.py:190-301 | when each of the five results comes: known exactly if the index names the block; else disconnected exactly if its parent is unknown, invalid exactly if the chain it ends is; a valid one is an orphan exactly if it is a second first block |
| `ChainState.ReceiveDoes` | chia/consensus/blockchain.py:262-301 | a refused block changes nothing, an orphan is stored only, and a new peak is stored, is the peak and overwrites the index exactly at the heights of its chain |
| `ChainState.RunKeepsHeaders` | chia/consensus/blockchain.py:172-301 | over every run each stored block passes the two header rules among its own ancestors |
| `ChainState.KnownBlockReturns` | chia/consensus/blockchain.py:190-301 | over every run a stored block that the index does not name is no known block: received again it is the new peak, or at height 0 an orphan |
| `ChainState.KnownChainsNameLastTx` | chia/consensus/block_header_validation.py:816-827 | over every run each transaction block of a stored chain names the last transaction block below it, and the first block is one |
| `ChainState.EveryRunConserves` | chia/consensus/blockchain.py:172-463 | after any sequence of blocks and restarts, with any reorganisations, the peak's chain is valid, its rewards claimed once and its coins conserved |
| `ChainState.InPeakChainExact` | chia/consensus/blockchain.py:677-682 | the index test agrees with membership in the peak's chain on all known blocks exactly when no index entry is above the peak |
| `ChainState.IndexReaches` | chia/consensus/blockchain.py:131-301 | over a run the index holds exactly the heights up to the highest peak since the last restart |
| `ChainState.TestIsRightIff` | chia/consensus/blockchain.py:131-301 | over a run: exactly when no peak since the last restart was higher than the present one |
| `ChainState.LowerPeakLeavesStale` | chia/consensus/blockchain.py:283-290 | every move to a lower peak leaves the abandoned blocks above it in the index, off the chain yet refused as known |
| `ChainState.StaleEntryRun` | chia/consensus/blockchain.py:677-682 | four blocks that lead there |
| `ChainState.RestartMakesTestExact` | chia/consensus/blockchain.py:131-151 | after a restart the peak's chain is the same and the test exact at every height |
| `BlockStores.BlockStore.AddFullBlock` | chia/full_node/block_store.py:73-103 | stores the block and its row, not flagged as peak |
| `BlockStores.BlockStore.SetPeak` | chia/full_node/block_store.py:332-341 | exactly the block's row is flagged |
| `BlockStores.BlockStore.GetPeakHeightDicts` | chia/full_node/block_store.py:291-330 | the rebuilt index and summaries are those of the peak's path |
| `Blockchains.ReportIsCompleteIff` | chia/consensus/blockchain.py:379-441 | the report names every changed coin exactly when none is silently unspent |
| `Blockchains.ReportIsCompleteOnChains` | chia/consensus/blockchain.py:379-441 | that is, exactly when the new branch spends again every older coin the abandoned one spent |
| `CoinReports.ReportIs` | chia/consensus/blockchain.py:379-441 | a coin is reported exactly when the new branch creates or spends it or the abandoned one created it; with its new row if the new branch touches it, else with its old row cleared |
| `Blockchains.ReapplyBranch` | chia/consensus/blockchain.py:408-441 | re-applying the branch turns the fork's table into the replay of the new chain, and the report into the change set |
| `Blockchains.CollectBlocksToAdd` | chia/consensus/blockchain.py:393-406 | the blocks from the new tip down to the fork, also when nothing is shared |
| `Blockchains.Blockchain.DeleteSummariesAbove` | chia/consensus/blockchain.py:384-391 | keeps exactly the summaries up to the fork |
| `Blockchains.Blockchain.ForkWithPeak` | chia/consensus/blockchain.py:365-377 | the fork of the new block's chain with the peak's |
| `Blockchains.Blockchain.AdoptBranch` | chia/consensus/blockchain.py:379-460 | from the peak's table to the replay of the branch; summaries cut; peak flag moved |
| `Blockchains.Blockchain.IndexRecords` | chia/consensus/blockchain.py:283-288 | index overwritten along the new path only, summaries those of the new chain |
| `Blockchains.Blockchain.Classify` | chia/consensus/blockchain.py:190-260 | the outcome the view machine prescribes, touching the coin cache only, with the error that names the cause: no parent, wrong height, the header rule that fails, or the verdict on the body; none for a block that is accepted or known |
| `Blockchains.Blockchain.StoreOrphan` | chia/consensus/blockchain.py:338-360 | a second genesis is stored and changes nothing else |
| `Blockchains.Blockchain.BecomePeak` | chia/consensus/blockchain.py:269-290 | stores and memory move together to the new peak |
| `Blockchains.Blockchain.ReceiveBlock` | chia/consensus/blockchain.py:172-301 | the object follows the view machine; its coin table is the replay of the new peak's chain; the error names the cause; fork height and change report are as specified |
| `Blockchains.Blockchain.HandleAll` | chia/consensus/blockchain.py:131-301 | after any sequence of blocks and restarts the object is where the view machine is, its coin table is the replay of the peak's chain, and its summaries are exactly those of that chain's blocks |
| `Blockchains.Blockchain.LoadChainFromStore` | chia/consensus/blockchain.py:131-151 | peak, index and summaries are rebuilt from the stores |
| `Blockchains.Blockchain.RestartNode` | chia/consensus/blockchain.py:131-151 | a restart keeps the peak's chain and drops exactly the index entries off it |
| `Blockchains.Blockchain.GetBlocksAtHeight` | chia/consensus/difficulty_adjustment.py:11-49 | by walking, the stretch of the block's ancestors; by index, what the index names, failing exactly when it does not reach; up to the block's own height it reaches, and the result is the block's ancestors exactly when each index entry read is one; within the peak's chain, exactly up to the fork |
| `Blockchains.StaleFetch` | chia/consensus/difficulty_adjustment.py:29-38 | after four blocks, fetching height 1 from an indexed block gives a block that is not its ancestor |
| `Blockchains.Blockchain.GetPeakFarmerStaking` | chia/consensus/blockchain.py:1037-1040 | for any block, the sum of what the peak's chain below its height leaves unspent on the puzzle hash |
| `Blockchains.Blockchain.StakeForBlock` | chia/consensus/blockchain.py:986-1006 | the stake read for a block of a height: on the peak's chain below the height before, or below the highest indexed one |
| `Blockchains.StakeReadIsOwn` | chia/consensus/block_header_validation.py:505-515 | it is the stake of the block's own ancestors exactly when both chains gained the same for the puzzle hash since their fork |
| `SpendingChains.MovedIsValid` | chia/consensus/block_body_validation.py:228-433 | every spendable coin can be spent by a next block that passes the header rules and body checks |
| `SpendingChains.SomethingIsSpendable` | chia/consensus/block_body_validation.py:104-161 | every valid chain is due rewards, and a valid next block that claims them leaves them spendable |
| `SpendingChains.StakeCanDiffer` | chia/consensus/blockchain.py:1037-1040 | two next blocks on the same chain whose branches differ in stake by exactly that coin |
| `SpendingChains.SpendableCanBeMissed` | chia/full_node/coin_store.py:364-395 | on every valid chain, every spendable coin has two valid next blocks whose reorganisation changes its row and does not report it |
| `SpendingChains.EveryRunCanMiss` | chia/consensus/blockchain.py:379-441 | every run after which a coin can be spent goes on with two blocks that both become the peak, the second with a report that misses the coin's change |
| `SpendingChains.ReportCanMiss` | chia/full_node/coin_store.py:364-395 | such runs exist: two blocks, then the one that spends and its rival |
| `PotIterations.DefaultOk` | chia/consensus/default_constants.py:6-28 | the default constants satisfy the relations assumed |
| `PotIterations.SpItersInSlot` | chia/consensus/pot_iterations.py:14-22 | a signage point lies in its sub-slot, at least an interval before the end |
| `PotIterations.IpItersExact` | chia/consensus/pot_iterations.py:8-43 | the guards pass exactly the admissible inputs, and the modulus takes a sub-slot off exactly for overflow blocks |
| `SignificantBits.CountSignificantBits` | chia/util/significant_bits.py:18-27 | counts from the highest set bit to the lowest; a number that fits `n` bits counts at most `n` |
| `SignificantBits.TruncateFits` | chia/util/significant_bits.py:1-15 | a truncated number fits the bits kept |
| `SignificantBits.TruncateKeepsTop` | chia/util/significant_bits.py:1-15 | and stays at or above any power of two it was at or above |
| `SignificantBits.TruncateIsClose` | chia/util/significant_bits.py:1-15 | truncation loses less than one part in two to the bits kept less one |
| `SignificantBits.TruncateIsGreatest` | chia/util/significant_bits.py:1-15 | no number that fits the bits kept lies between |
| `SignificantBits.RoundDownFits` | chia/consensus/difficulty_adjustment.py:265-267 | rounding down to a multiple of a power of two keeps fitting |
| `SignificantBits.FitsSpan` | chia/util/significant_bits.py:18-27 | a number is some value of at most `n` bits shifted left exactly when its count is at most `n` |
| `SignagePoints.InfusedAfterSp` | chia/consensus/block_record.py:73-94 | overflow or not, infusion is `extra` intervals and the required iterations after the signage point, each in its own sub-slot |
| `SignagePoints.SsiChanges` | chia/consensus/difficulty_adjustment.py:355-410 | sub-slot iterations change only at a block that opens an epoch |
| `SignagePoints.ValidFlows` | chia/consensus/block_header_validation.py:556-588 | along a valid chain infusion sub-slots continue or follow each other as check 10 computes, and a lone new sub-slot before an overflow block keeps its length |
| `SignagePoints.SlotsTile` | chia/consensus/block_header_validation.py:562-577 | infusion sub-slots of two blocks are the same or disjoint, disjoint when a sub-slot ended between |
| `SignagePoints.OverflowsFirst` | chia/consensus/block_header_validation.py:936-940 | in one sub-slot no overflow block follows another kind |
| `SignagePoints.ChainIsOrdered` | chia/consensus/block_header_validation.py:562-730 | along every valid chain total iterations never decrease, signage points never go backwards, across overflows and retargets, and no signage point coincides with an earlier infusion |
| `TxBlocks.SpBetweenTxs` | chia/consensus/difficulty_adjustment.py:240-247 | a last block that is no transaction block has its signage point between the infusions of the last two |
| `TxBlocks.WalkEndsAtSecondLastTx` | chia/consensus/difficulty_adjustment.py:240-247 | the retarget walk stops at the second-to-last transaction block of the chain, in both cases |
| `TxBlocks.SlotHolds` | chia/consensus/block_header_validation.py:453-462 | a sub-slot holds at most the maximum of blocks |
| `TxBlocks.SlotEndsWithin` | chia/consensus/block_header_validation.py:453-462 | a new sub-slot starts within that many blocks |
| `TxBlocks.TxComesSoon` | chia/consensus/block_header_validation.py:709-730 | fewer than twice that many blocks in a row are no transaction blocks |
| `TxBlocks.TimesIncrease` | chia/consensus/block_header_validation.py:838-843 | timestamps strictly increase over transaction blocks |
| `Deficits.DeficitRange` | chia/consensus/deficit.py:25-53 | the deficit stays within 0 and the minimum, and is the minimum only on overflow blocks; exactly when: `Deficits.FullDeficitIff` |
| `Deficits.DeficitFalls` | chia/consensus/deficit.py:25-53 | below the minimum it falls by one per block until 0 |
| `Deficits.FullDeficitIff` | chia/consensus/deficit.py:25-53 | a block has the full deficit exactly when it overflows and the block that opened its sub-slot came after a single sub-slot and a block of deficit 0 |
| `Deficits.ZeroStays` | chia/consensus/deficit.py:25-53 | deficit 0 lasts to the end of the sub-slot |
| `Deficits.ChallengeBlocksApart` | chia/consensus/block_record.py:70-71 | challenge blocks are at least the minimum apart |
| `Deficits.OneChallengePerSlot` | chia/consensus/block_record.py:70-71 | no sub-slot holds two |
| `Deficits.SlotCarriesDeficit` | chia/consensus/block_header_validation.py:360-391 | every finished sub-slot of a block carries the same deficit, reset once the last was 0, and the block counts down from it, save the overflow out of a single reset sub-slot |
| `SubEpochs.OneSummaryPerWindow` | chia/consensus/difficulty_adjustment.py:163-189 | an aligned window holds at most one summary, the first none |
| `SubEpochs.SummaryIff` | chia/consensus/block_header_validation.py:393-451 | a block carries a summary exactly when it is the first of its window, the first window excepted, to come in a new sub-slot after a block of deficit 0 |
| `SubEpochs.SummaryIsForced` | chia/consensus/block_header_validation.py:393-451 | every later window gets its summary within `2*MAX + MIN - 2` blocks |
| `SubEpochs.NoSummaryAtWindowEnd` | chia/consensus/difficulty_adjustment.py:163-189 | the last block of a window carries none |
| `Retargets.ClampBounds` | chia/consensus/difficulty_adjustment.py:256-263 | a clamped value is at least the least and at most the factor times the reference |
| `Retargets.DifficultyBounds` | chia/consensus/difficulty_adjustment.py:333-352 | a retargeted difficulty is at least 1, at most the factor above the old one, and counts no more than the significant bits |
| `Retargets.SsiBounds` | chia/consensus/difficulty_adjustment.py:249-268 | retargeted sub-slot iterations are a positive multiple of the signage points, at most the factor above the reference, and count no more than the significant bits |
| `Retargets.DifficultyIsMeasured` | chia/consensus/difficulty_adjustment.py:337-351 | within the clamp the new difficulty is, up to its significant bits, the measured weight per target number of blocks and target time |
| `Retargets.SsiIsMeasured` | chia/consensus/difficulty_adjustment.py:249-266 | within the clamp the new sub-slot iterations are, up to significant bits and rounding, the measured iterations per second times the target time |
| `Retargets.FinishesSoon` | chia/consensus/difficulty_adjustment.py:74-89 | an epoch ends within a bounded number of blocks after it is surpassed |
| `Retargets.FirstMeasureStart` | chia/consensus/difficulty_adjustment.py:86-89 | the first epoch is measured from genesis |
| `Retargets.LaterMeasureStart` | chia/consensus/difficulty_adjustment.py:97-132 | otherwise, fetching from its own chain, the stretch holds the block that opened the epoch, the sanity checks pass, and the search gives the second-to-last transaction block before it |
| `Retargets.MeasurementsTile` | chia/consensus/difficulty_adjustment.py:52-132 | measured on its own chain, a stretch starts at the very block where the one before it ended |
| `Retargets.MeasuredStretch` | chia/consensus/difficulty_adjustment.py:237-254 | both ends exist, in order, with positive elapsed time |
| `Retargets.DifficultyIsPositive` | chia/consensus/block_header_validation.py:907-916 | every block adds at least 1 |
| `Retargets.WeightIncreases` | chia/consensus/block_header_validation.py:907-910 | weight strictly increases along every valid chain |
| `Retargets.ParamsStay` | chia/consensus/difficulty_adjustment.py:355-410 | without a new epoch the next block has the last one's parameters |
| `Retargets.ParamsRetarget` | chia/consensus/difficulty_adjustment.py:192-352 | at a new epoch the retarget succeeds, within its bounds, and neither significant-bits assertion fires; the values: `MeasuredParams.ParamsAreMeasured` |
| `MeasuredParams.MeasureStartIs` | chia/consensus/difficulty_adjustment.py:52-132 | the measured stretch starts at genesis for the first epoch, else at the second-to-last transaction block before the first summary of the epoch now ending |
| `MeasuredParams.ParamsAreMeasured` | chia/consensus/difficulty_adjustment.py:192-352 | at a new epoch both parameters follow from weights, totals and timestamps of the two ends: the whole part of the measured ratio, limited to the factor of its reference value, and the greatest number with the significant bits below; the ends are named |
| `Retargets.ParamsAreSane` | chia/consensus/difficulty_adjustment.py:355-410 | on every valid chain the next parameters exist, a positive multiple and at least 1 |
| `Retargets.FetchAgrees` | chia/consensus/difficulty_adjustment.py:52-132 | with an own fetch, the computed parameters are those the own chain prescribes |
| `Retargets.FetchReaches` | chia/consensus/difficulty_adjustment.py:97-104 | where an epoch ends, an index that reaches the last block's parent reaches every height fetched, so the assertion on it holds |
| `Retargets.FetchesOwnIff` | chia/consensus/difficulty_adjustment.py:97-104 | an indexed fetch gives own ancestors exactly when, as far as it is up to the peak, it is at or below the fork, and the entries it reads above the peak are own ancestors |
| `Progress.CanBeExtended` | chia/consensus/block_header_validation.py:524-588 | every valid chain can be extended by a block in a new sub-slot, exactly when the prescribed sub-slot iterations are at least twice the number of signage points |
| `Progress.EpochCanEnd` | chia/consensus/difficulty_adjustment.py:139-189 | from the starting parameters there are valid chains after which a new epoch opens, within a block bound |
| `Progress.ForeignFetchFails` | chia/consensus/difficulty_adjustment.py:237-254 | a valid chain, and an index that names another below height 2: through it the retarget fails, though the chain's own blocks prescribe parameters |
| `DifficultyAdjustment.CanFinishSubAndFullEpoch` | chia/consensus/difficulty_adjustment.py:139-189 | true exactly when the window has no summary yet and the last block's deficit is 0; for an epoch, also when the window is aligned to one |
| `DifficultyAdjustment.FindOpening` | chia/consensus/difficulty_adjustment.py:106-123 | the first block with a summary from the surpassed height on, or none within the fetched stretch |
| `DifficultyAdjustment.BacktrackToSecondTx` | chia/consensus/difficulty_adjustment.py:125-132 | the second-to-last transaction block up to a height |
| `DifficultyAdjustment.SecondToLastTxInPreviousEpoch` | chia/consensus/difficulty_adjustment.py:52-132 | the record that starts the measured stretch, walking back or through any index, with the failures of the fetch and the sanity checks |
| `DifficultyAdjustment.LastTxBeforeSignagePoint` | chia/consensus/difficulty_adjustment.py:240-247 | computes its end |
| `DifficultyAdjustment.RetargetSsi` | chia/consensus/difficulty_adjustment.py:249-268 | the closing assertion on the count of significant bits holds for every measured stretch |
| `DifficultyAdjustment.RetargetDifficulty` | chia/consensus/difficulty_adjustment.py:333-352 | the same for the difficulty |
| `DifficultyAdjustment.NextSubSlotItersAndDifficulty` | chia/consensus/difficulty_adjustment.py:355-410 | the parameters of the next block, walking back or through any index; by walking, those `MeasuredParams.ParamsAreMeasured` and `Retargets.ParamsStay` give |
| `HeaderValidation.CheckSlotDeficits` | chia/consensus/block_header_validation.py:360-391 | accepted exactly when every finished sub-slot carries the prescribed deficit |
| `HeaderValidation.CheckSlotSize` | chia/consensus/block_header_validation.py:453-462 | accepted exactly within the maximum of blocks |
| `HeaderValidation.CheckSummary` | chia/consensus/block_header_validation.py:393-451 | accepted exactly when a summary is there if and only if a sub-epoch ends; the error says which is missing |
| `HeaderValidation.CheckTotalIters` | chia/consensus/block_header_validation.py:562-588 | accepted exactly when the total continues from the previous block and no conversion raises; a wrong total and a raised conversion are told apart |
| `HeaderValidation.CheckTransactionBlock` | chia/consensus/block_header_validation.py:709-730 | accepted exactly when it is a transaction block if and only if its signage point is after the last one's infusion, with a later timestamp; the error says which fails |
| `HeaderValidation.CheckRecord` | chia/consensus/block_header_validation.py:360-586 | the chain checks in order: none fails exactly when the record has the given parameters and meets the rules, and the error is the one of the first check that fails |
| `HeaderRules.VerdictNamesBreach` | chia/consensus/block_header_validation.py:360-843 | thirteen rules written out over the records: no error exactly when all hold, and else the error that belongs to the first one broken |
| `HeaderRules.PassesIff` | chia/consensus/block_header_validation.py:360-916 | a record that keeps the thirteen rules is one that has the parameters and meets the chain rules, and conversely |
| `HeaderValidation.ValidateHeader` | chia/consensus/block_header_validation.py:847-918 | no check fails exactly for a header that meets the chain rules under the computed parameters; with an own fetch, exactly for one that extends the valid chain |
| `VdfStarts.StartInPrevSlot` | chia/consensus/vdf_info_computation.py:51-70 | cases 4 and 6: from the last infusion before the signage point, or the start of its sub-slot |
| `VdfStarts.OverflowInSameSlot` | chia/consensus/vdf_info_computation.py:71-120 | case 5: the same, in the sub-slot before; fails exactly after a genesis block with one sub-slot |
| `VdfStarts.AfterSlots` | chia/consensus/vdf_info_computation.py:31-44 | cases 1 and 2: from the start of the signage point's sub-slot, in which nothing was infused |
| `VdfStarts.AtGenesis` | chia/consensus/vdf_info_computation.py:45-50 | case 3: from the genesis challenge |
| `VdfStarts.SignagePointVdfInfo` | chia/consensus/vdf_info_computation.py:28-154 | in every case the start lies in the signage point's own sub-slot, nothing is infused between, start and iterations add up, the challenges name that sub-slot; by itself it fails exactly in the genesis case |
| `BlockChallenges.GetBlockChallenge` | chia/consensus/get_block_challenge.py:54-96 | the last or second-to-last sub-slot hash that the records of the chain hold, none if they hold too few |
| `BlockChallenges.LookupFailsIff` | chia/consensus/get_block_challenge.py:75-95 | fails exactly for a complete overflow block in the sub-slot of a genesis block after at most one sub-slot; on a valid chain, after exactly one |
| `BlockChallenges.ChallengeNamesSpSlot` | chia/consensus/get_block_challenge.py:54-96 | on linked sub-slots the challenge found is the hash at the start of the sub-slot in which the signage point lies |
| `BlockChallenges.SkippedIsCompleted` | chia/consensus/get_block_challenge.py:61-75 | for an unfinished overflow block the lookup gives what it will give once the sub-slot it lacks is added |
| `BlockChallenges.OpensOne` | chia/consensus/block_header_validation.py:562-577 | along a valid chain one sub-slot begins at a time |
| `BlockChallenges.ChallengeIsVdfs` | chia/consensus/block_header_validation.py:467-619 | on linked sub-slots every correct start has the challenge that the lookup finds |
| `BlockChallenges.ChallengeAndVdf` | chia/consensus/block_header_validation.py:464-619 | lookup and then search on a header that meets the rules: only the lookup can fail, and the VDF starts from the challenge found |
| `BlockChallenges.LookupCanFail` | chia/consensus/get_block_challenge.py:75-95 | two linked headers that meet every chain rule, the second without a challenge to be found |
| `Staking.CoefficientFalls` | chia/consensus/blockchain.py:1007-1027 | with enough stake, more of it never raises the coefficient, which lies strictly between 0.5 and 20.05 |
| `Staking.CoefficientIs` | chia/consensus/blockchain.py:1007-1027 | its value in every case, as an equation without division |
| `Staking.ItersAre` | chia/consensus/pot_iterations.py:46-65 | required iterations are the whole part of the product over the divisor, with the scaled difficulty cut to a whole number, and at least 1 |
| `Staking.CutoffCanRaise` | chia/consensus/blockchain.py:1007-1027 | it exceeds the 20 of no stake exactly when the stake is below the 7980th part of the farmer's space |
| `Staking.CutoffRaises` | chia/consensus/blockchain.py:1007-1027 | network 1382400, 80 of the 13824 blocks: stake 1 gives more than the 20 of no stake |
| `Staking.StakeNeverRaisesIters` | chia/consensus/pot_iterations.py:46-65 | required iterations are at least 1 and never rise with enough stake |
| `Mempools.EvictsCheapestFirst` | chia/full_node/mempool.py:66-70 | the eviction order ascends in fee per cost, as products of fee and cost |
| `Mempools.DropFlat` | chia/full_node/mempool.py:50-54 | deleting an item takes exactly it out of the eviction order |
| `Mempools.PutFlat` | chia/full_node/mempool.py:74-78 | adding an item to its bucket inserts it in the eviction order after all that pay no more |
| `Mempools.InsertSplits` | chia/full_node/mempool.py:74-78 | an inserted item follows a prefix that pays no more and precedes one that pays more |
| `Mempools.VictimsAreShortest` | chia/full_node/mempool.py:66-70 | the victims are the shortest prefix that makes room, which exists for a cost within the limit |
| `Mempools.IndexesAnswer` | chia/full_node/mempool.py:10-17 | a lookup by name, by added or by removed coin finds an item exactly when it is in the pool and has that name or coin |
| `Mempools.Mempool.RemoveFromPool` | chia/full_node/mempool.py:40-56 | all four indexes and the total lose exactly the item |
| `Mempools.Mempool.MakeRoom` | chia/full_node/mempool.py:66-70 | terminates; evicts exactly the victims; an item over the limit empties the pool and fails |
| `Mempools.Mempool.AddToPool` | chia/full_node/mempool.py:58-84 | the indexes stay consistent and within the limit; what remains is the old order without the victims, with the item inserted |
| `Mempools.Mempool.GetMinFeeRate` | chia/full_node/mempool.py:19-38 | the rate, which times the cost is the fee, of the last victim that adding such a cost would evict; 0 if it fits, none if it never can |
| `SubSlotStores.SpAndIpSubSlots` | chia/consensus/blockchain.py:501-552 | the infusion's sub-slot, and the signage point's except in two cases next to genesis |
| `SubSlotStores.SlotBeforeLinks` | chia/consensus/block_header_validation.py:112-134 | on a linked chain a sub-slot starts from the hash of the one before it |
| `SubSlotStores.SubSlotStore.NewFinishedSubSlot` | chia/full_node/full_node_store.py:252-459 | appends exactly a new sub-slot that starts where the last ends, with the peak's infusion if it lies inside and a proof over the rest; keeps one for later exactly if only its infusion is unknown; linked before exactly if linked after |
| `SubSlotStores.SubSlotStore.ResetToPeak` | chia/full_node/full_node_store.py:678-730 | the entries become those kept for the peak, with their totals; the `assert` holds |
| `SubSlotStores.PeakEntriesLink` | chia/full_node/full_node_store.py:720-730 | one or two entries, linked exactly outside the repeated-sub-slot case |
| `SubSlotStores.PeakEntriesEnd` | chia/full_node/full_node_store.py:720-730 | the last entry starts where the peak's infusion sub-slot does, and the infusion lies inside |
| `BlockChallenges.PeakEntriesOpen` | chia/full_node/full_node_store.py:678-730 | each entry holds the sub-slot whose end is its total; there are two exactly for an overflow peak outside the cases next to genesis |
| `SubSlotStores.SubSlotStore.NewPeak` | chia/full_node/full_node_store.py:664-755 | of the sub-slots that waited for this peak the first one that is already an entry, or continues the last entry with a proof over the iterations left, ends the search, and in the second case is appended with its total; all waiting ones are dropped; linked exactly outside that case |
| `SubSlotStores.SubSlotStore.GetFinishedSubSlots` | chia/full_node/full_node_store.py:763-808 | a result is a stretch of the entries and a chain without gaps from the last included challenge to the requested one; none only if no entries lead there |
| `SubSlotStores.HandedOutSlotsLink` | chia/consensus/block_header_validation.py:108-134 | sub-slots so handed out pass checks 2a to 2c in a block, and end in the requested challenge |
| `SubSlotStores.SlotCanRepeat` | chia/consensus/blockchain.py:535-552 | a valid genesis block for which the entries are not linked |
| `SubSlotStores.GenesisCanBePassed` | chia/consensus/blockchain.py:543-552 | three valid, linked headers for which the walk passes genesis |

## Left out

- Body checks 1 to 4, 6 to 9, 11, 12, 21 and 22: hashes, generator, cost, roots, filter, conditions and signatures.
- Header checks on VDFs, proofs of space, signatures, foliage, the infused challenge chain and the future-time limit; the sub-epoch summary's content (check 3c) beyond its presence.
- The staking coefficient as an input of header validation: required iterations are given with the header, and `Staking` states what the coefficient does to them.
- Exception and cancellation paths of `receive_block`: only committed operations are modelled, so cache and summaries are never left ahead of the database.
- Eviction of block records and the block cache: every ancestor a walk needs is present.
- In the ledger part a block carries the two header rules the ledger needs, that the first block is a transaction block and that the previous transaction block is named rightly; the other chain rules are those of the header part.
- The hint store and hint changes.
- Signage-point lists and the caches of future signage points and infusion points beside the finished sub-slots; the checks on proofs and summaries when a sub-slot is appended are one given predicate.
- Upper ends of 32, 64 and 128-bit integers: negative conversions are modelled where they decide an outcome, overflow of large values is not.
- Rounding of floats and decimals: fee per cost and the coefficient are exact reals, the space behind a coefficient is an exact floor.
- Constants are abstract with the documented relations and two more that the defaults satisfy: `2*MIN + 1 < MAX`, without which the sanity check of the epoch search can fail, and an epoch of at least two sub-epochs.
- Pre-validation in other processes, weight proofs, sync, networking, RPC, wallet, farmer, timelord and the rest of the node.
- SubSlotStores.SubSlotStore.GetFinishedSubSlots: without a previous block it requires the first entry to be the genesis one, as the code asserts.
- Mempools.Mempool.AddToPool: requires an item without conflicts, which the code's caller establishes; conflicting items would overwrite index entries.
- BodyValidation.ValidateBlockBody: of the cited span checks 1 to 4, 6 to 9, 11 and 12 are absent; they compare hashes, roots, costs and the generator with data that is not modelled.
- Blockchains.Blockchain.Classify: of header validation only the two rules above decide the outcome; the others are those of `HeaderValidation.ValidateHeader`, on records without coins.
- Blockchains.Blockchain.ReceiveBlock: the same two header rules.
- Blockchains.Blockchain.LoadChainFromStore: loads every block record, where the code keeps those close to the peak and reads the others from the store when asked.
- HeaderValidation.CheckSummary: the content of a summary (check 3c) is not compared, only its presence.
- HeaderValidation.CheckRecord: the challenge lookup is separate (`BlockChallenges`); the comparison with the given challenge, proof-of-space, VDF and signature checks of the span are absent, and required iterations are given.
- HeaderValidation.ValidateHeader: the same checks are absent, and those on the foliage.
- SubSlotStores.SubSlotStore.NewFinishedSubSlot: the proofs and the reward-chain, summary and infused-chain checks are one given predicate of the sub-slot and its iterations.
