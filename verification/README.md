# Perfect database engine: a verified model

A Dafny model of Sanmill's Perfect DB engine (`crates/perfect-db`, C++ and Rust) and of the puzzle
de-duplication scripts that share its board symmetries. `dafny verify dfyconfig.toml` checks it.

The model follows the program from the bottom up.

* `Bits`, `Subsets`, `Collapse`: machine words as numbers, the k-subset step, the squeeze of the black word.
* `Symmetry`, `BoardSymmetries`: groups of point permutations of any width, and the sixteen of the board with
  their byte tables.
* `Orbits`, `OrbitEntry`, `Canonical`, `PerfectHasher` (Rust), `PerfectHash` and `PerfectHashTheorems` (C++),
  `EntryAgreement` (both): the symmetry-aware index. Both hashers are modelled for any width up to 24 and any
  closed table of operations; the C++ one needs the identity last.
* `OrbitCount`, `BinomialValues`, `SlotCount`: how many orbits and slots there can be.
* `Evals`, `SectorData`, `Query`, `WdlPlane`, `Fifo`, `Database`, `PlaneCache`, `EngineSector`, `HashCache`:
  entries and redirects, canonical keys, the packed plane, and the three bounded caches, each invisible to the answers.
* `MillRules`, `RuleTables`, `Game`, `GameInvariant`, `Verdicts`, `Turns`, `TurnTheorems`, `GameSymmetry`, `SolverView`:
  the rules, the game state machine, the generator, what every run keeps, and equivariance.
* `Ids`, `SectorGraph`, `WorkUnits`, `SectorPlay`, `Reached`: the graph of sectors, its merge into work units,
  why play never leaves it, and what holds of every position reached.
* `Values`, `Choices`: values relative to a sector, their order, and the choice of the best moves.
* `PuzzleSymmetries`, `Similarity`, `Conflicts`, `Pruning`, `PuzzlePackage`: the puzzle scripts.

A sector file is a source that may be absent, unreadable, corrupt, or decoded into one raw entry per slot;
reading it is the only I/O, and it is a parameter. An assertion of the source is modelled as a result: a flag of
`MakeMove`, the error `Panicked`, or a proof that it cannot fail.

Where code and comments disagree the code is followed. The Rust comments call the plane cache LRU
(wdl_plane.rs:217 and 232), but it evicts in load order, as the sector cache does (`Fifo.NotLeastRecentlyUsed`).
The comment on the packed key says that all presentations share a key; that holds for the Rust probe, which
folds over all recorded operations, and not for the C++ direct index: `PerfectHashTheorems.MirroredPairDiffers`
is a pair it tells apart, and `IndexInvariantIff` says exactly when it does not. `GetMoveList` drops a move that
closes a mill when the opponent has no stone to take, although make_move accepts that move and passes the turn
(`TurnTheorems.FirstHalves`, `TurnTheorems.MillIsDropped`); that concerns set-up positions only, since it never
happens in a position reached by play (`Reached.ReachedHalves`). Equal solver keys of the puzzle scripts do not
always mean the same position, since a hand of sixteen or more runs into the next field:
`Similarity.ZeroMeansSameKeyIff` says exactly when they do.

## Model

| member | source | states |
|---|---|---|
| `Subsets.NextChooseIsLeast` | crates/perfect-db/csrc/perfect_hash.cpp:72-79 | next_choose(x) is the least number above x with the same number of one bits, for every positive word whose sum with its lowest bit stays below 2^31 |
| `Subsets.BoardStepFits` | crates/perfect-db/csrc/perfect_hash.cpp:72-79 | every word of at most 24 points meets that condition, so the loops never step on a word that overflows |
| `Subsets.WordsNext` | crates/perfect-db/csrc/perfect_hash.cpp:111-111 | stepping with next_choose from one k-subset of n points gives the next one in ascending order, and from the last one a number past the loop bound, so every k-subset is visited exactly once and the counter guard never fires |
| `Subsets.WordsSound` | crates/perfect-db/csrc/perfect_hash.cpp:169-170 | every listed word lies on the n points and has k bits |
| `Subsets.WordsComplete` | crates/perfect-db/csrc/perfect_hash.cpp:169-170 | every word on the n points is listed among those with its bit count |
| `Subsets.WordsAscending` | crates/perfect-db/csrc/perfect_hash.cpp:169-170 | the listing is strictly ascending |
| `Subsets.WordsCount` | crates/perfect-db/csrc/perfect_hash.cpp:177-182 | the number of k-subsets is the binomial coefficient, so the index never reaches the table length |
| `Subsets.CombinationMasks` | crates/perfect-db/src/index/hash.rs:307-321 | the Rust loop collects exactly the k-subsets in ascending order, as many as the binomial coefficient |
| `Subsets.BinomByProduct` | crates/perfect-db/src/index/hash.rs:231-239 | the running product, with its divisions, is the binomial coefficient given by Pascal's rule |
| `Collapse.CollapseLoop` | crates/perfect-db/csrc/perfect_hash.cpp:255-267 | the shifting loop computes the black bits at the white-free points, closed up, at every width |
| `Collapse.UncollapseLoop` | crates/perfect-db/csrc/perfect_hash.cpp:238-247 | the shifting loop deals the squeezed bits out to the white-free points again, keeping the white word |
| `Collapse.ExpandCompact` | crates/perfect-db/csrc/perfect_hash.cpp:238-267 | uncollapse undoes collapse on disjoint words, the stone count is kept and the squeezed word is below 2^(n - whites) |
| `Collapse.CompactExpand` | crates/perfect-db/csrc/perfect_hash.cpp:238-267 | collapse undoes uncollapse on every squeezed word below that bound, and the result avoids the white points |
| `Symmetry.TransformLoop` | crates/perfect-db/src/index/symmetry.rs:83-95 | the bit loop computes the permuted word; the Python loop of the puzzle scripts has the same form |
| `Symmetry.TCompose` | crates/perfect-db/src/index/symmetry.rs:83-95 | for any closed table of permutations, transforming twice is transforming by the composed entry |
| `Symmetry.TInverse` | crates/perfect-db/src/index/symmetry.rs:66-72 | the inverse entry undoes a transformation on every board word |
| `Symmetry.T48Board` | crates/perfect-db/src/index/symmetry.rs:97-105 | transforming a board keeps disjointness and both stone counts |
| `BoardSymmetries.SlowIsT` | crates/perfect-db/csrc/perfect_symmetries_slow.cpp:9-237 | each of the sixteen shifting functions, composed as in the source, is the permutation in the table, on every 24-bit word |
| `BoardSymmetries.BoardIsGroup` | crates/perfect-db/csrc/perfect_symmetries.cpp:83-83 | the sixteen operations are closed under composition, inv lists the inverses, and the identity is last |
| `BoardSymmetries.SymmetryTables.constructor` | crates/perfect-db/csrc/perfect_symmetries.cpp:33-63 | the loops fill the three byte tables with the transforms of every byte at every position |
| `BoardSymmetries.SymmetryTables.Sym24IsT` | crates/perfect-db/csrc/perfect_symmetries.cpp:65-75 | three table reads or-ed together are the permutation of the whole word |
| `BoardSymmetries.SymmetryTables.Sym48IsT48` | crates/perfect-db/csrc/perfect_symmetries.cpp:77-81 | the 48-bit transform permutes both colours |
| `PerfectHash.FillOrbits` | crates/perfect-db/csrc/perfect_hash.cpp:108-163 | visiting the white words in ascending order and overwriting per operation leaves each word with its orbit's number, the inverse of the last operation that takes the seed to it, and the mask of all operations that take it to the seed |
| `PerfectHash.LastInverseIsGood` | crates/perfect-db/csrc/perfect_hash.cpp:120-160 | because the identity is visited last, the overwritten entry of the seed acts as the identity, and every other entry leads to the seed |
| `PerfectHash.FillInverse` | crates/perfect-db/csrc/perfect_hash.cpp:165-175 | the descending overwrite leaves the least word of each orbit |
| `PerfectHash.FillRanks` | crates/perfect-db/csrc/perfect_hash.cpp:177-187 | g_lookup and g_inv_lookup number the black words in ascending order and invert each other |
| `OrbitCount.EightTimesSeeds` | crates/perfect-db/csrc/perfect_hash.cpp:108-163 | eight times the number of orbits is at most the number of words left alone, summed over the quarter turns with and without the ring exchange |
| `SlotCount.SlotsFit` | crates/perfect-db/csrc/perfect_hash.cpp:189-189 | the slots of every sector with at most twelve white stones are fewer than 2^31, so the count and every index fit the int that holds them |
| `PerfectHash.Hash.constructor` | crates/perfect-db/csrc/perfect_hash.cpp:83-199 | the object is built with all five tables filled as the loops say, for any width up to 24 points and any table with the identity last |
| `Evals.SymIsRead` | crates/perfect-db/csrc/perfect_eval_elem.cpp:129-151 | the entry the writer stores for an operation, zero and one less than its negation, reads as a redirect by that operation |
| `Evals.RedirectIsWritten` | crates/perfect-db/src/file_format/sector.rs:81-98 | exactly the entries written for some operation are redirects; no value or count is one |
| `PerfectHash.WrittenRedirectIsFollowed` | crates/perfect-db/csrc/perfect_hash.cpp:215-229 | a board whose own slot holds a redirect written for an operation is read at the slot of what that operation makes of the board's canonical image |
| `PerfectHash.Hash.HashOf` | crates/perfect-db/csrc/perfect_hash.cpp:215-229 | the returned slot is the direct slot of the canonical image or, for a redirect, the slot of the redirected board; its entry is never a redirect when redirects resolve |
| `PerfectHash.Hash.InverseHash` | crates/perfect-db/csrc/perfect_hash.cpp:231-236 | the returned board is the one the index stands for |
| `PerfectHash.IndexIsFixed` | crates/perfect-db/csrc/perfect_hash.cpp:215-229 | the filled tables leave no choice: a board's image and index depend on the operations and stone counts alone, so any two tables built for one sector index every board alike |
| `PerfectHashTheorems.NumberIsOrbit` | crates/perfect-db/csrc/perfect_hash.cpp:111-163 | two white words share f_lookup exactly when they lie in one orbit |
| `PerfectHashTheorems.InverseIsLeast` | crates/perfect-db/csrc/perfect_hash.cpp:165-175 | f_inv_lookup is the least word of the orbit |
| `PerfectHashTheorems.SymReachesSeed` | crates/perfect-db/csrc/perfect_hash.cpp:115-159 | f_sym_lookup maps every word onto its representative, and is the identity on the representative |
| `PerfectHashTheorems.Sym2IsExact` | crates/perfect-db/csrc/perfect_hash.cpp:118-118 | f_sym_lookup2 has bit j set exactly when operation j maps the word onto its representative |
| `PerfectHashTheorems.HashOfInverse` | crates/perfect-db/csrc/perfect_hash.cpp:215-236 | re-indexing the board of index i gives i, for every index below the count |
| `PerfectHashTheorems.InverseOfHash` | crates/perfect-db/csrc/perfect_hash.cpp:215-236 | the index of every board is in range and stands for that board's canonical image, which is a presentation of it |
| `PerfectHashTheorems.EqualIndexIsSymmetric` | crates/perfect-db/csrc/perfect_hash.cpp:215-236 | two boards share an index exactly when their canonical images coincide, so only symmetric boards do |
| `PerfectHashTheorems.MirroredPairDiffers` | crates/perfect-db/csrc/perfect_hash.cpp:146-152 | a concrete pair of symmetric boards with different direct indices |
| `PerfectHashTheorems.IndexInvariantIff` | crates/perfect-db/csrc/perfect_hash.cpp:146-152 | exactly when all presentations of a board have one index: when the operations recorded for its white word agree on its black word |
| `Orbits.SameOrbitIffSameLeast` | crates/perfect-db/src/index/hash.rs:281-305 | two words lie in one orbit exactly when their least images coincide |
| `Orbits.InverseOfDirect` | crates/perfect-db/src/index/hash.rs:175-219 | for a board whose white word is a seed, the direct index is in range and inverse_board returns the board |
| `Orbits.DirectOfInverse` | crates/perfect-db/src/index/hash.rs:175-219 | inverse_board of any index is a seed board whose direct index is that index |
| `Orbits.DirectIndexInjective` | crates/perfect-db/src/index/hash.rs:187-219 | boards with seed white words and one direct index are equal |
| `Orbits.DirectIndexOrder` | crates/perfect-db/src/index/hash.rs:187-219 | the numbering is in order: by white word, and for one white word by squeezed black word |
| `PerfectHasher.BuildWhiteLookup` | crates/perfect-db/src/index/hash.rs:281-305 | the map holds for every white word its orbit number and exactly the operations that reach the seed; the assertion that no pattern is in two orbits never fires |
| `PerfectHasher.New` | crates/perfect-db/src/index/hash.rs:56-86 | the hasher's tables are the orbit table, the seeds, and the ranks of the black words |
| `PerfectHasher.HashProbe` | crates/perfect-db/src/index/hash.rs:102-163 | the loop over the recorded operations yields the least image with the seed as its white word, and that board's index |
| `PerfectHasher.DirectHashIndex` | crates/perfect-db/src/index/hash.rs:187-219 | the direct index without the fold |
| `PerfectHasher.InverseBoardAt` | crates/perfect-db/src/index/hash.rs:175-185 | the board of an index |
| `Canonical.CanonCharacterises` | crates/perfect-db/src/index/hash.rs:128-150 | two boards have one canonical board exactly when one is a presentation of the other |
| `Canonical.CanonIsLeastImage` | crates/perfect-db/src/index/hash.rs:128-150 | the canonical board is the least of the images whose white word is the seed |
| `Canonical.CanonInvariant` | crates/perfect-db/src/index/hash.rs:128-150 | all presentations fold to one canonical board |
| `Canonical.ProbeRoundTrip` | crates/perfect-db/src/index/hash.rs:102-185 | the probe's index is in range and inverse_board of it is the probe's canonical board |
| `Canonical.ProbeIndexCharacterises` | crates/perfect-db/src/index/hash.rs:102-163 | the probe's index is a complete invariant of boards up to symmetry |
| `EntryAgreement.EntryAgreesIff` | crates/perfect-db/src/database.rs:713-752 | Hash::hash and evaluate_raw read one entry for every presentation of a board exactly when its presentations with a seed as white word all resolve to the entry of its canonical slot |
| `EntryAgreement.SectorAgreesIff` | crates/perfect-db/csrc/perfect_hash.cpp:215-229 | the two lookups read the same entries for all boards of a sector exactly when every slot resolves to the entry of its position's canonical slot |
| `Query.FoldIsBoard` | crates/perfect-db/src/database.rs:497-521 | the folded board has the folded sector's stone counts |
| `Query.PresentedFolds` | crates/perfect-db/src/database.rs:497-521 | every presentation of a query folds to the same sector and to the transformed board |
| `Query.UnpackPack` | crates/perfect-db/src/wdl_plane.rs:167-213 | unpacking a packed key returns the sector and slot |
| `Query.KeyOrder` | crates/perfect-db/src/wdl_plane.rs:167-180 | packing is strictly monotone in sector and slot |
| `Query.PackedIsUntagged` | crates/perfect-db/src/wdl_plane.rs:182-189 | a packed key never sets the tag bit, for counts up to twelve |
| `Query.SlotFits` | crates/perfect-db/src/wdl_plane.rs:167-174 | the slot of every query fits in 32 bits, so the assertion in pack_canonical_key never fires |
| `Query.KeyCharacterises` | crates/perfect-db/src/wdl_plane.rs:373-377 | two queries have one canonical key exactly when they fold to one sector and to symmetric boards |
| `Query.KeyIsInvariant` | crates/perfect-db/src/wdl_plane.rs:158-166 | symmetric and colour-mirrored queries have the same key |
| `WdlPlane.PutThenRead` | crates/perfect-db/src/wdl_plane.rs:59-70 | writing a two-bit code changes that place of the byte and no other |
| `WdlPlane.Plane.WdlAt` | crates/perfect-db/src/wdl_plane.rs:47-57 | one less than the slot's code, which is the value of the abstract array in a valid plane; the panics, out of range and on a fourth code, are the preconditions |
| `WdlPlane.Plane.Set` | crates/perfect-db/src/wdl_plane.rs:59-70 | updates one element of the abstract array of -1, 0 and 1, whatever the length |
| `WdlPlane.Build` | crates/perfect-db/src/wdl_plane.rs:83-121 | building succeeds exactly when every redirect resolves, and then every element is the value of the slot's resolved entry |
| `WdlPlane.FromToBytes` | crates/perfect-db/src/wdl_plane.rs:123-155 | parsing a serialised plane returns it |
| `WdlPlane.ToFromBytes` | crates/perfect-db/src/wdl_plane.rs:123-155 | serialising a parsed plane returns the accepted bytes |
| `WdlPlane.Load` | crates/perfect-db/src/wdl_plane.rs:132-154 | a parsed file becomes a plane that is valid, so that wdl_at never panics, exactly when no slot holds the fourth code |
| `WdlPlane.FourthCodeIsAccepted` | crates/perfect-db/src/wdl_plane.rs:132-154 | a file with a slot of the fourth code that parses |
| `WdlPlane.Save` | crates/perfect-db/src/wdl_plane.rs:123-130 | the file starts with the four letters and version one, and ends with the packed slots from byte thirteen on |
| `WdlPlane.SaveThenLoad` | crates/perfect-db/src/wdl_plane.rs:123-155 | a valid plane written and parsed again is valid and has the same values |
| `Database.PlaneRefinesDatabase` | crates/perfect-db/src/wdl_plane.rs:357-368 | whenever the plane answers, the database gives an outcome of the same sign; whenever the database gives an outcome, the plane answers its sign or the build of a faulty sector panics; both refuse the same queries with the same errors |
| `Database.WrittenRedirectIsRead` | crates/perfect-db/src/database.rs:713-752 | when the canonical slot holds a redirect written for an operation, the answer is the entry in the slot of what that operation makes of the canonical board, or a parse error if that redirects again |
| `Database.OutcomeReads` | crates/perfect-db/src/database.rs:587-602 | an outcome's steps are the second key of the entry read, and it is a win or loss exactly when the absolute value is the virtual win or loss |
| `Database.Database.EvictSectorForInsert` | crates/perfect-db/src/database.rs:811-829 | eviction removes the oldest sectors from map and queue together until there is room; its expect and assertion never fire |
| `Database.Database.LoadSector` | crates/perfect-db/src/database.rs:773-809 | loading succeeds exactly when the source has the sector, keeps queue and map in step, and changes nothing on failure |
| `Database.Database.EvaluateRaw` | crates/perfect-db/src/database.rs:701-756 | the answer is the uncached one, after any history of calls |
| `Database.Database.EvaluateOutcome` | crates/perfect-db/src/database.rs:764-771 | likewise for outcomes |
| `PlaneCache.WdlPlaneCache.BuildPlane` | crates/perfect-db/src/wdl_plane.rs:334-349 | a plane is built exactly when the source allows it, and is the plane of that sector |
| `PlaneCache.WdlPlaneCache.PlaneFor` | crates/perfect-db/src/wdl_plane.rs:299-322 | the queue lists the cached planes without repeats and within capacity; failures leave the planes alone |
| `PlaneCache.WdlPlaneCache.WdlForQuery` | crates/perfect-db/src/wdl_plane.rs:357-368 | the answer is the uncached one, after any history of calls |
| `Fifo.NotLeastRecentlyUsed` | crates/perfect-db/src/wdl_plane.rs:299-322 | the queue evicts in load order: asked for a, b, a and c with room for two it drops a, used after b |
| `Fifo.AfterLoadIsSound` | crates/perfect-db/src/database.rs:793-802 | a load keeps the queue duplicate-free and within capacity, and drops only the oldest key, only when full |
| `EngineSector.Sector.AllocateHash` | crates/perfect-db/csrc/perfect_sector.cpp:310-335 | the table built is one for this sector's counts and entries |
| `EngineSector.Sector.Ask` | crates/perfect-db/csrc/perfect_wrappers.cpp:69-70 | a sector whose table is loaded answers with a slot and entry that depend on its operations, counts and entries alone |
| `EngineSector.Sector.AskFresh` | crates/perfect-db/csrc/perfect_sector.cpp:53-55 | a table built for the purpose gives that same answer |
| `HashCache.LoadedHashes.Access` | crates/perfect-db/csrc/perfect_wrappers.cpp:30-72 | each access loads the sector's table, stamps it newest, keeps the timestamp set and the inverse map mirror images, and returns the answer a freshly built table gives, whatever was loaded and released before |
| `HashCache.LoadedHashes.AccessAll` | crates/perfect-db/csrc/perfect_wrappers.cpp:28-61 | from an empty cache, over any run of accesses every answer is the one a freshly built table gives; the loaded sectors, oldest first, are the last eight by last use, and exactly those hold a table |
| `HashCache.LoadedHashes.ReleaseOldest` | crates/perfect-db/csrc/perfect_wrappers.cpp:37-46 | the released table is the least recently used one |
| `HashCache.RunIsLastFew` | crates/perfect-db/csrc/perfect_wrappers.cpp:28-61 | over every access sequence the loaded tables, oldest first, are the last eight distinct sectors by last use |
| `HashCache.LoadedIff` | crates/perfect-db/csrc/perfect_wrappers.cpp:28-61 | a sector is loaded exactly when it was accessed and fewer than eight other sectors were accessed since |
| `RuleTables.FillMillPos` | crates/perfect-db/csrc/perfect_rules.cpp:36-60 | the loops fill in the sixteen lines |
| `RuleTables.FillInvMillPos` | crates/perfect-db/csrc/perfect_rules.cpp:64-84 | each row lists the lines through its point in ascending order |
| `RuleTables.FillBoardGraph` | crates/perfect-db/csrc/perfect_rules.cpp:85-116 | filling the edges one way and closing the table in place gives exactly the adjacency |
| `RuleTables.FillAdjacency` | crates/perfect-db/csrc/perfect_rules.cpp:117-129 | each row lists a point's neighbours in ascending order |
| `MillRules.AdjacentImage` | crates/perfect-db/csrc/perfect_rules.cpp:91-116 | every symmetry keeps edges, both ways |
| `MillRules.OnLineImage` | crates/perfect-db/csrc/perfect_rules.cpp:36-60 | every symmetry carries lines onto lines, both ways |
| `Game.CheckMill` | crates/perfect-db/csrc/perfect_rules.cpp:213-226 | the result is -1 exactly when the point is in no mill, and otherwise the last full line through it |
| `Game.FindMove` | crates/perfect-db/csrc/perfect_rules.cpp:229-246 | the scan tells exactly whether the side is blocked |
| `Game.GameState.MakeMove` | crates/perfect-db/csrc/perfect_game_state.cpp:51-117 | the new state is the specified one, and the flag says whether every assertion on the way held |
| `GameInvariant.ConsistentKept` | crates/perfect-db/csrc/perfect_game_state.cpp:51-152 | every half-move that trips no assertion keeps counts equal to the board, both hands empty in the second phase, the second phase once they are and no capture is pending, and a stone to take while one is |
| `GameInvariant.TimedKept` | crates/perfect-db/csrc/perfect_game_state.cpp:75-112 | the clock stays within the limit, an open game's mover can move, and a lost game's loser is to move and short of stones or blocked |
| `GameInvariant.FutureStep` | crates/perfect-db/csrc/perfect_game_state.cpp:34-37 | stones on board and in hand change only by a capture, by one |
| `GameInvariant.PotentialDrops` | crates/perfect-db/csrc/perfect_game_state.cpp:51-117 | every half-move lowers the potential |
| `GameInvariant.RunKeeps` | crates/perfect-db/csrc/perfect_game_state.cpp:51-152 | the invariants and conservation hold along every run, which is no longer than the potential of its start |
| `GameInvariant.EveryGame` | crates/perfect-db/csrc/perfect_game_state.cpp:51-152 | from the empty board: the invariants, conservation of stones up to captures, and at most 204 * maxKSZ + 50 half-moves |
| `Verdicts.GameStands` | crates/perfect-db/csrc/perfect_game_state.cpp:51-117 | in every game the clock is the number of board moves at the end of the list since the last placement or capture, the move count its length, and the game is over exactly by that clock, by a side short of stones or by a blocked one, with the winner and the block flag those give |
| `Verdicts.DrawnByClock` | crates/perfect-db/csrc/perfect_game_state.cpp:75-79 | a game is drawn by the clock exactly when fifty such moves have been made, up to a capture the last of them earned, and the side to move is neither blocked nor short of stones |
| `Verdicts.AcceptedIff` | crates/perfect-db/csrc/perfect_game_state.cpp:119-152 | with no capture pending exactly the placements from the hand on empty points and the moves of one's own stones to empty points trip no assertion |
| `Verdicts.AcceptedCaptureIff` | crates/perfect-db/csrc/perfect_game_state.cpp:119-152 | with one pending, exactly the captures of opposing stones and the half-moves that close another mill |
| `Turns.SetMoves` | crates/perfect-db/csrc/perfect_player.cpp:174-184 | exactly the placements, each marked with whether it closes a mill |
| `Turns.SlideMoves` | crates/perfect-db/csrc/perfect_player.cpp:186-199 | exactly the slides and, with three stones left, the jumps |
| `Turns.WithTakingMoves` | crates/perfect-db/csrc/perfect_player.cpp:204-224 | exactly the completions of a mill by a permitted capture: of a stone on no full line, or of any when all are on full lines |
| `Turns.OnlyTakingMoves` | crates/perfect-db/csrc/perfect_player.cpp:226-246 | exactly the permitted captures, in the same sense |
| `Turns.GetMoveList` | crates/perfect-db/csrc/perfect_player.cpp:255-289 | exactly the turns of the rules, each once, for the standard and Lasker variants; a turn that takes a stone is listed with exactly the stones that may be taken |
| `Turns.MillsAreProtected` | crates/perfect-db/csrc/perfect_player.cpp:204-246 | while the opponent has a stone on no full line, no turn takes one of a full line and each of the others can be taken; when all its stones are on full lines, each can |
| `Turns.MakeMoveInState` | crates/perfect-db/csrc/perfect_player.cpp:296-324 | the whole turn is played on a copy and the original is untouched |
| `TurnTheorems.TakeableAfterMove` | crates/perfect-db/csrc/perfect_player.cpp:204-224 | captures computed before the move are those permitted after it |
| `TurnTheorems.GeneratedTurnsPlay` | crates/perfect-db/csrc/perfect_player.cpp:296-324 | no assertion fails while a generated turn is played; afterwards the turn has passed, no capture is pending and the counts agree |
| `TurnTheorems.FirstHalves` | crates/perfect-db/csrc/perfect_player.cpp:275-284 | an offered move starts a generated turn exactly when it closes no mill or the opponent has a stone to take |
| `TurnTheorems.SlidesAndJumps` | crates/perfect-db/csrc/perfect_player.cpp:186-199 | a slide takes an own stone to an empty neighbour, or with exactly three left on the board and in hand to any empty point, and once the hand is empty each of these is offered |
| `TurnTheorems.MillIsDropped` | crates/perfect-db/csrc/perfect_player.cpp:275-284 | a set-up position that is consistent and timed, with no black stone on the board, where make_move accepts a move that closes a mill and passes the turn, and no generated turn starts with it |
| `TurnTheorems.CanMoveIffTurn` | crates/perfect-db/csrc/perfect_rules.cpp:229-246 | with an opponent's stone on the board and three stones left, can_move holds exactly when the list is nonempty |
| `TurnTheorems.TurnIffOffer` | crates/perfect-db/csrc/perfect_player.cpp:255-289 | without those conditions, when the list is nonempty |
| `Reached.ReachedIsStocked` | crates/perfect-db/csrc/perfect_game_state.cpp:51-117 | after any turns from the empty board the counts agree and no capture is pending; after at least one, the side that has just moved has a stone on the board |
| `Reached.ReachedHalves` | crates/perfect-db/csrc/perfect_player.cpp:275-284 | in every position reached by play each offered move starts a generated turn, so no mill is dropped there |
| `Reached.ReachedCanMoveIff` | crates/perfect-db/csrc/perfect_rules.cpp:229-246 | in every position reached by play whose mover has three stones left, can_move holds exactly when the list is nonempty |
| `Reached.DroppedMillIsSetUp` | crates/perfect-db/csrc/perfect_player.cpp:275-284 | the position of the dropped mill is not reached by play |
| `GameSymmetry.StepShown` | crates/perfect-db/csrc/perfect_game_state.cpp:51-117 | make_move commutes with each of the sixteen symmetries and with exchanging the colours |
| `GameSymmetry.LegalShown` | crates/perfect-db/csrc/perfect_game_state.cpp:119-152 | the assertions do not tell a state from its image |
| `GameSymmetry.TurnsAreImages` | crates/perfect-db/csrc/perfect_player.cpp:255-289 | the turns of an image are exactly the images of the turns, one for one |
| `GameSymmetry.ApplyShown` | crates/perfect-db/csrc/perfect_player.cpp:296-324 | playing a whole turn commutes with symmetry and colour exchange |
| `SolverView.NegateSwaps` | crates/perfect-db/csrc/perfect_player.cpp:570-573 | negate_board exchanges the two colours' words |
| `SolverView.NegateTwice` | crates/perfect-db/csrc/perfect_player.cpp:570-573 | negating twice gives the board back |
| `SolverView.BoardHash` | crates/perfect-db/csrc/perfect_player.cpp:543-557 | the loop and the negation produce the mover's stones low and the opponent's above |
| `SolverView.LookupShown` | crates/perfect-db/csrc/perfect_player.cpp:520-560 | seen through any symmetry and either colouring, a position has the same sector and the transformed board word |
| `SolverView.KeyIsBoard` | crates/perfect-db/csrc/perfect_player.cpp:126-146 | the board word is a board with the sector's counts |
| `SolverView.SameLookup` | crates/perfect-db/src/database.rs:497-521 | the C++ player and the Rust query look a position up in the same sector under the same word |
| `SectorGraph.GraphFunc` | crates/perfect-db/csrc/perfect_sector_graph.cpp:81-105 | the neighbours in ascending order, each once, without the sector itself when asked |
| `SectorGraph.Graph.Search` | crates/perfect-db/csrc/perfect_sector_graph.cpp:114-146 | the search lists exactly the reachable sectors, their links, and exactly the transposed links |
| `Ids.LessIsNumber` | crates/perfect-db/csrc/perfect_common.h:233-238 | sectors are ordered as their counts are, the mover's stones on the board first, then the opponent's, then the two hands |
| `SectorGraph.CyclesAreTwins` | crates/perfect-db/csrc/perfect_sector_graph.cpp:100-102 | every cycle runs between a sector and its negation |
| `SectorGraph.TwinsAreNegations` | crates/perfect-db/csrc/perfect_sector_graph.cpp:183-184 | the assertion s1 == -s2 never fails |
| `SectorGraph.TwineIff` | crates/perfect-db/csrc/perfect_common.h:209-222 | on reachable sectors the closed form says exactly which have a twin |
| `WorkUnits.Merge` | crates/perfect-db/csrc/perfect_sector_graph.cpp:177-190 | the in-place merge makes twins share the smaller sector's unit |
| `WorkUnits.AddAdj` | crates/perfect-db/csrc/perfect_sector_graph.cpp:156-166 | the units holding a predecessor become parents, once each, and child counts stay exact |
| `WorkUnits.InitWuGraph` | crates/perfect-db/csrc/perfect_sector_graph.cpp:170-204 | the finished graph: one unit per sector or pair, parents as linked, child_count the number of units naming it as parent |
| `WorkUnits.FlagIsClosedForm` | crates/perfect-db/csrc/perfect_common.h:222-222 | the computed twine flag equals Id::is_twine |
| `WorkUnits.ParentsAreHeavier` | crates/perfect-db/csrc/perfect_sector_graph.cpp:192-200 | every parent is strictly heavier than its child, so the units form no cycle, for every maxKsz from three |
| `SectorPlay.TurnIsEdge` | crates/perfect-db/csrc/perfect_sector_graph.cpp:18-105 | a complete turn leaves the opponent with fewer than three stones or follows an edge |
| `SectorPlay.EveryPositionHasASector` | crates/perfect-db/csrc/perfect_player.cpp:126-146 | after any turns from the empty board the side to move is short of stones or its sector is listed, so the sector lookup never misses |
| `Values.UndoNegatesAbsolute` | crates/perfect-db/csrc/perfect_wrappers.h:129-138 | undo_negate negates the absolute value exactly, even when 16-bit arithmetic wraps |
| `Values.UndoReverses` | crates/perfect-db/csrc/perfect_wrappers.h:160-188 | undo_negate reverses compare exactly unless the corrected key is zero for two values that differ only in distance, which it makes equal |
| `Values.UndoTwice` | crates/perfect-db/csrc/perfect_wrappers.h:129-138 | negating back and forth restores the relative key |
| `Values.UndoTwiceDistance` | crates/perfect-db/csrc/perfect_wrappers.h:129-138 | there and back with a step each way adds two to the distance where the keys have one sign, nothing where they differ, and leaves one where a key is zero |
| `Values.MateIsOneFurther` | crates/perfect-db/csrc/perfect_wrappers.h:129-138 | a win in some number of moves is one move earlier the opponent's loss in one more, and conversely; entering a capture position adds none |
| `Values.RangeIsClear` | crates/perfect-db/csrc/perfect_sec_val.cpp:67-70 | the range asserted when sector values are loaded rules out overflow |
| `Values.CompareIsOrder` | crates/perfect-db/csrc/perfect_eval_elem.cpp:197-223 | compare is a weak order and the operators agree with it |
| `Values.CompareMeans` | crates/perfect-db/csrc/perfect_eval_elem.cpp:197-223 | the greater key is better; with one key, a positive value is better the sooner and a negative one the later |
| `Values.NegateReverses` | crates/perfect-db/src/database.rs:560-579 | negating outcomes reverses strict_cmp; only draws and identical outcomes compare equal |
| `Values.StrictIsOrder` | crates/perfect-db/src/database.rs:560-571 | strict_cmp is a weak order |
| `Values.StrictIsCompare` | crates/perfect-db/src/database.rs:587-602 | on the values of one sector the Rust order is the C++ order with all draws made equal |
| `Choices.GetAllMaxBy` | crates/perfect-db/csrc/perfect_player.cpp:342-400 | by letter: all moves with the best letter, in order; by value: all moves equal to the greatest value and not below the minimum; the verdict is a win, draw or loss as the letter of the moves kept is, and a loss when none is |
| `Choices.BestIsGreatest` | crates/perfect-db/csrc/perfect_player.cpp:376-386 | the running best is at least every value and is one of them or the minimum |
| `Choices.ValueRefinesLetter` | crates/perfect-db/csrc/perfect_player.cpp:349-387 | every move chosen by value is one chosen by letter |
| `PuzzleSymmetries.SymmetryPermutations` | scripts/mill_puzzle_similarity.py:131-169 | the permutations computed from coordinates are the engine's, in this order |
| `PuzzleSymmetries.SymmetriesDiffer` | scripts/mill_puzzle_similarity.py:165-165 | the sixteen permutations are pairwise different, as the script asserts |
| `PuzzleSymmetries.ScriptedIsGroup` | scripts/mill_puzzle_similarity.py:154-166 | they are the sixteen operations, each once, pairwise different, and form a group |
| `Similarity.DistanceSymmetric` | scripts/mill_puzzle_similarity.py:232-252 | the distance is symmetric across the minimum over symmetries |
| `Similarity.DistanceTriangle` | scripts/mill_puzzle_similarity.py:232-252 | the triangle inequality holds across the minimum |
| `Similarity.DistanceZero` | scripts/mill_puzzle_similarity.py:232-252 | distance zero means the same position up to symmetry and to which colour moves |
| `Similarity.SameKeyIff` | scripts/mill_puzzle_similarity.py:219-229 | for any hands, two canonical solver keys are equal exactly when the or-ed hand fields are equal and one symmetry matches the boards |
| `Similarity.ZeroMeansSameKeyIff` | scripts/mill_puzzle_similarity.py:219-252 | for any hands, distance zero and equal keys agree on two positions exactly unless their boards match, their hand fields are equal and their hands differ |
| `Similarity.ZeroIffSameKey` | scripts/mill_puzzle_similarity.py:219-229 | with hands below sixteen, distance zero exactly when the canonical solver keys are equal |
| `Similarity.KeyOverflows` | scripts/mill_puzzle_similarity.py:226-227 | an instance of such a collision: sixteen stones in one hand against one in the other, one key at distance seventeen |
| `PuzzlePackage.ApartIsPseudometric` | scripts/mill_puzzle_similarity.py:232-252 | for the scripts' own symmetries: a symmetric distance with the triangle inequality, and exactly when distance zero and equal keys agree |
| `PuzzlePackage.ApartIs` | scripts/mill_puzzle_similarity.py:232-252 | the distance is the difference of both hands plus the number of points where the movers' stones differ plus that for the other side's, through the permutation that makes it least |
| `PuzzlePackage.CheckIds` | scripts/mill_puzzle_similarity.py:262-275 | ids are accepted exactly when none is empty and none repeats, and the error names an offender |
| `Conflicts.SortConflicts` | scripts/mill_puzzle_similarity.py:289-296 | the sort keeps every conflict and leaves them strictly ascending by distance, then left id, then right id |
| `Conflicts.SortedMeans` | scripts/mill_puzzle_similarity.py:289-296 | along the sorted list distances never fall, and among equal ones the ids rise at the first character that differs |
| `PuzzlePackage.FindPositionConflicts` | scripts/mill_puzzle_similarity.py:255-296 | two puzzles are listed, the earlier on the left and with their distance, exactly when it is below the minimum; each pair once, sorted by distance and then by ids |
| `Pruning.KeyOrder` | scripts/prune_mill_puzzle_similarity.py:30-45 | the preference key is a total order |
| `Pruning.SolveIsBest` | scripts/prune_mill_puzzle_similarity.py:48-73 | the search returns an independent set that no independent set is preferred to under the whole key |
| `Pruning.SolveIsLargest` | scripts/prune_mill_puzzle_similarity.py:48-73 | in particular one of greatest size |
| `Pruning.BestIsUnique` | scripts/prune_mill_puzzle_similarity.py:30-45 | the best set is unique |
| `Pruning.BestBeats` | scripts/prune_mill_puzzle_similarity.py:30-45 | against any other independent set the best one is larger, or as large with the lesser sum of places, or with that sum too has the first place that is in only one of them |
| `Pruning.PivotIsIrrelevant` | scripts/prune_mill_puzzle_similarity.py:57-63 | branching on any available node gives the same answer |
| `Pruning.LargestIndependentSet` | scripts/prune_mill_puzzle_similarity.py:53-73 | the recursion, run, computes it |
| `PuzzlePackage.LinkPuzzles` | scripts/prune_mill_puzzle_similarity.py:90-93 | the neighbour sets hold exactly the conflicts, both ways |
| `PuzzlePackage.Prune` | scripts/prune_mill_puzzle_similarity.py:76-98 | the puzzles kept stay in the package's order, and their choice beats every other choice of mutually dissimilar ones by size, then by the lesser sum of places, then by the first place in only one of the two |

## Left out

- Reading and parsing sector files, headers, providers, the mutex, logging and the on-disk `.wdl2` cache: I/O. A file that is partly unreadable is modelled as unreadable or corrupt as a whole.
- PerfectHash.Hash.HashOf: requires that a redirect at the board's own slot resolves, which the source asserts when it follows it.
- HashCache.LoadedHashes.Access: assumes that allocation succeeds, that a file read again holds the same entries, that a redirect at the board's own slot resolves, and that the access counter, a machine integer, does not overflow. Tables allocated by the sector iterator of the C interface are not modelled; a reset is a new object.
- Database.PlaneRefinesDatabase: covers queries with at most twelve stones of each colour on the board, the bound SectorId asserts; the variant check on the query is not modelled.
- Query.KeyOrder: the count bound of SectorId is a precondition, and so is that the slots fit in 32 bits, which Query.SlotFits proves of every query's slot.
- Game.GameState.MakeMove: the null move and its error code are not modelled, nor is deleting the move object; integers are unbounded.
- Turns.GetMoveList: states which turns are listed and that each is listed once, not their order; the cached value field of a turn is not modelled.
- Values.UndoReverses: distances are unbounded integers, so overflow of the 32-bit distance is not modelled.
- Choices.GetAllMaxBy: a value's name is modelled by the class of its first character; the options that pick the mode are one flag.
- Pruning.LargestIndependentSet: the memo of lru_cache is not modelled, since it does not change results.
- PuzzlePackage.FindPositionConflicts: strings are compared code by code as Python does. FEN text is parsed elsewhere, so a puzzle comes with its position, and hand counts are not negative.
- SectorGraph.Graph.Search: starts from the one opening sector; the extended build with several starts is not modelled.
- WorkUnits.InitWuGraph: the set wu_ids, which only lists the units' ids, is not kept.
- Morabaraba: its lines and board graph, and check_mill on them, where the stored row lengths are those of the standard table.
- The text format of GameState, set_over_and_check_valid_setup, the setup mode, and the choice of a random move.
- check_hash_init_consistency and the debug assertions of unpack_canonical_key and hash_probe, which restate proved facts.
- The fast table-driven collapse, which is compiled only without the wrapper.
- Constraint-solver scripts, mining, translations, performance scripts and the user interface.
