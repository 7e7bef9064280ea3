# Board tensors and corpus selection for detecting computer-assisted chess

This project models the data-preparation core of *Detecting Cheating in Chess*:

- **Game replay.** A game's moves go through a move converter. After each ply the
  converter's FEN string is cut to its piece-placement field. Each run-length digit
  becomes that many `'0'` characters, the `'/'` separators are dropped, and the 64
  characters are reshaped into an 8×8 board (`moves_to_fen`).
- **Encoding.** A window of plies `[min, max)` is one-hot encoded into 12 piece
  channels, in the order `P,R,N,B,Q,K,p,r,n,b,q,k` (`getFenPerChannel`).
- **Keep loop.** `main` collects the tensors that have at least one non-zero entry,
  each with its game's label.
- **Selection.** `filterAndBalanceData` keeps games by ply count, result, time control
  and a human White. It then balances four groups to the size of the smallest: Black is
  a computer or a human, and Black wins or loses.

Files:

- `common.dfy`, module `Common`: `Option`, `Result`, and the order-keeping filter `Filter`
  used both for `df[mask]` and for character filters.
- `fen.dfy`, module `Fen`: the pure string step from a full FEN string to a board.
- `replay.dfy`, module `Replay`: the replay loop, as a fold and as the method `MovesToFen`.
- `channels.dfy`, module `Channels`: the encoding, as a pure tensor function and as the
  method `GetFenPerChannel`, which fills an `array4<int>` in place.
- `driver.dfy`, module `Driver`: the keep-and-align loop of `main`, as the fold
  `Corpus` and the method `BuildCorpus`.
- `balance.dfy`, module `Balance`: the pure selection rule over a sequence of rows.

The move converter (`pgn_to_fen.PgnToFen`) is not part of this model. It is the
parameter `step: (S, M) -> Option<(S, string)>`. It maps a converter state and a move to
the next state and the full FEN that `getFullFen()` reports. It returns `None` where
`move()` or `getFullFen()` raises. `start` is the state that `resetBoard()` leaves.

Two behaviours of the code that are easy to misread:

- **Short window.** A game shorter than the window is not simply truncated.
  `res[:, k, :, :] = mask` goes through numpy broadcasting, with the
  window holding L plies and the result holding T = `max - min` plies:
  - L == T: the window is copied;
  - L == 1: the single snapshot is repeated T times;
  - any other L: `ValueError`. `main` does not catch it, so the whole run aborts.

  `Channels.FenPerChannel` returns `None` in that last case, and `BuildCorpus` reports
  `Broadcast(i)` for the first such game `i`.
- **No failure counter.** `main` keeps no count of failed games. A game whose replay
  fails becomes the all-zero tensor and is dropped by the `count_nonzero` test.

## Model

| member | source | states |
|---|---|---|
| Fen.PlacementField | python_code/moves_to_fen.py:24 | `fen.split(" ")[0]`: the characters of the FEN up to the first space; characterised by `Fen.PlacementFieldMeaning` |
| Fen.ReplaceChain | python_code/moves_to_fen.py:25-36 | the eight chained `replace` calls `'1'→"0"` … `'8'→"00000000"`, in that order; equal to the per-character expansion by `Fen.ChainIsExpansion` |
| Fen.StripSlashes | python_code/moves_to_fen.py:37 | `replace("/", "")`: the order-keeping filter on `c != '/'`; characterised by `Fen.StripSlashesMeaning` |
| Fen.FenToBoard | python_code/moves_to_fen.py:24-39 | one snapshot: `Reshape(StripSlashes(ReplaceChain(PlacementField(fen))))`, None where the reshape raises; characterised by `Fen.OtherFieldsIgnored` and `Fen.WellFormedPlacement` |
| Fen.PlacementFieldMeaning | python_code/moves_to_fen.py:24 | `split(" ")[0]` is the longest prefix without a space: a prefix of the FEN, containing no space, and followed by a space unless it is the whole string |
| Fen.OtherFieldsIgnored | python_code/moves_to_fen.py:24 | two FEN strings with the same placement field give the same board, so side to move, castling, en passant and clocks are discarded |
| Fen.AnyOrderIsExpansion | python_code/moves_to_fen.py:25-36 | any chain of replaces that turns each digit 1..8 into that many '0's and covers all eight digits, in any order and even with repeats, equals the per-character expansion |
| Fen.ChainIsExpansion | python_code/moves_to_fen.py:25-36 | the source's chain `replace("1","0")…replace("8","00000000")` equals the per-character expansion |
| Fen.ExpansionMeaning | python_code/moves_to_fen.py:25-36 | the expansion is as long as the text's board width (digit d counts d), no digit 1..8 remains, and the non-'0' characters other than digits stay in order |
| Fen.StripSlashesMeaning | python_code/moves_to_fen.py:37 | `replace("/", "")` leaves no '/' and keeps every other character exactly as often as it occurs |
| Fen.Reshape | python_code/moves_to_fen.py:38-39 | `np.reshape(…, [8, 8])` succeeds exactly on 64 characters; the result is 8×8 with `b[r][c] == flat[8r + c]` (row-major) |
| Fen.WellFormedPlacement | python_code/moves_to_fen.py:24-39 | for eight rank texts of width 8 joined by '/', stripping leaves exactly 64 squares, and board row r is rank text r expanded, so row 0 is the first rank written (rank 8) |
| Fen.ZerosDropped | python_code/moves_to_fen.py:25-36 | a run of '0's has no other character, so the expansion of a digit contributes nothing once the '0's are dropped |
| Replay.FenTrace | python_code/moves_to_fen.py:21-23 | a successful trace has one FEN per move |
| Replay.ReplayWith | python_code/moves_to_fen.py:21-40 | a successful replay has one board per move |
| Replay.ReplaySucceedsIff | python_code/moves_to_fen.py:20-46 | whole-game atomicity: the replay succeeds exactly when the converter accepts every move and every reported FEN converts to a board; otherwise nothing is returned |
| Replay.ReplayBoardsFollowTrace | python_code/moves_to_fen.py:21-40 | on success board t is the conversion of the FEN reported right after move t, in move order |
| Replay.TracePrefix | python_code/moves_to_fen.py:21-23 | the FEN after move t depends only on moves 0..t |
| Replay.ReplayYieldsBoards | python_code/moves_to_fen.py:37-40 | every board of a successful replay is 8×8 |
| Replay.GameSnapshots | python_code/moves_to_fen.py:13-46 | the whole of `moves_to_fen`: the replay with `FenToBoard`, and None when it fails or there are no moves; the loop `Replay.MovesToFen` returns exactly this |
| Replay.MovesToFen | python_code/moves_to_fen.py:13-46 | the appending loop returns the boards when every move succeeds and the list is non-empty, and None otherwise (the empty list included, because `np.stack([])` raises); a result has one 8×8 board per move |
| Channels.Slice | python_code/moves_to_fen.py:58 | Python slice `[min:max]` clamped to the input: its length and `w[t] == snaps[min + t]` |
| Channels.Frames | python_code/moves_to_fen.py:60-61 | numpy broadcasting of the window into `max - min` slices: a copy, or one snapshot repeated |
| Channels.FenPerChannel | python_code/moves_to_fen.py:49-62 | `getFenPerChannel`: the zero tensor for a None input, the one-hot encoding of the broadcast window, or None where numpy raises; characterised by `Channels.TensorShape`, `Channels.OneHotExact` and `Channels.ShortInput` |
| Channels.TensorShape | python_code/moves_to_fen.py:52-57 | every result has shape `(max-min, 12, 8, 8)`; a `None` input gives the all-zero tensor |
| Channels.OneHotExact | python_code/moves_to_fen.py:51-62 | with at least `max` snapshots, `res[t][k][r][c] == 1` exactly when square (r, c) of snapshot `min + t` holds `pieceList[k]`, and 0 otherwise |
| Channels.OneHotConsequences | python_code/moves_to_fen.py:58-62 | every entry is 0 or 1, at most one channel is set per square, and an empty '0' square sets no channel |
| Channels.ShortInput | python_code/moves_to_fen.py:58-61 | the encoding fails exactly when the window is non-empty, the input is shorter than `max`, and it does not hold exactly `min + 1` snapshots; with `min + 1` snapshots the single snapshot is repeated |
| Channels.NonZeroIffPiece | python_code/moves_to_fen.py:59-62 | the encoded tensor has a non-zero entry exactly when some square of some frame holds one of the twelve piece letters |
| Channels.GetFenPerChannel | python_code/moves_to_fen.py:49-62 | the channel-by-channel fill of a fresh `(max-min)×12×8×8` array succeeds exactly when the tensor function does, and then holds that tensor |
| Driver.Accumulate | python_code/moves_to_fen.py:91-98 | the loop of `main` over the per-game outcomes: append tensor and label when the tensor is non-zero, stop at the first game where numpy raised; characterised by `Driver.AccumulateFails` and `Driver.KeepAligned` |
| Driver.Corpus | python_code/moves_to_fen.py:88-100 | `main` without the I/O: the accumulated tensors and labels, or `EmptyBatch` when nothing was kept; `Driver.BuildCorpus` returns exactly this |
| Driver.AccumulateFails | python_code/moves_to_fen.py:91-98 | the loop completes exactly when every game's encoding succeeds; otherwise it reports the first failing game |
| Driver.KeepAligned | python_code/moves_to_fen.py:91-98 | kept tensors and labels have equal length; entry j of both comes from the same game; kept games are in input order; a game is kept exactly when its tensor has a non-zero entry |
| Driver.ErrorPersists | python_code/moves_to_fen.py:91-98 | an exception in an earlier game ends the run, so no later game can change the outcome |
| Driver.EmptyBatchIff | python_code/moves_to_fen.py:99-100 | stacking fails with an empty batch exactly when every encoding succeeds but no game is kept |
| Driver.FailedReplayDropped | python_code/moves_to_fen.py:45-57 | a game whose replay fails becomes the all-zero tensor and is never kept by the non-zero test at line 96 |
| Driver.KeptIffPiece | python_code/moves_to_fen.py:92-97 | a replayed game with at least `max` plies is kept exactly when some ply in the window has a piece on the board |
| Driver.AnyNonZeroMatches | python_code/moves_to_fen.py:96 | `count_nonzero(a) > 0` on the array agrees with the tensor it holds |
| Driver.EncodeGame | python_code/moves_to_fen.py:92-95 | replaying one game and filling its array succeeds exactly when `GameTensor` does, and the fresh array then holds that tensor |
| Driver.BuildCorpus | python_code/moves_to_fen.py:88-100 | the loop of `main` fails exactly when the fold does, with the same error; on success the labels equal the fold's and each array holds the corresponding kept tensor |
| Balance.Filtered | dataLoaderAndPreprocessing.py:21-25 | the five masks applied in the order of lines 21-25; characterised by `Balance.FilteredCount` |
| Balance.MinGroupSize | dataLoaderAndPreprocessing.py:32-33 | `n_min`, the minimum of the four group lengths; characterised by `Balance.MinGroupSizeIsMin` |
| Balance.TakeBalanced | dataLoaderAndPreprocessing.py:28-35 | the first `n_min` rows of each of the four groups, concatenated in the order of line 34; characterised by `Balance.BalanceCounts` and `Balance.BalanceSubset` |
| Balance.Relabel | dataLoaderAndPreprocessing.py:38-39 | `fillna(0)` then `replace("Yes", 1)` on the two flags of a row, which must be missing or "Yes"; the other columns are unchanged |
| Balance.FilterAndBalance | dataLoaderAndPreprocessing.py:20-40 | the whole of `filterAndBalanceData` without the shuffles: filter, balance, relabel; characterised by `Balance.RetainedPassFilters`, `Balance.CohortsBalanced` and `Balance.NothingInvented` |
| Common.Filter | dataLoaderAndPreprocessing.py:21-25 | a mask keeps only rows it accepts and never lengthens the table |
| Common.FilterCount | dataLoaderAndPreprocessing.py:21-25 | a mask keeps every copy of an accepted row and no copy of a rejected one |
| Balance.FilteredCount | dataLoaderAndPreprocessing.py:21-25 | a row survives the five masks exactly when `plymin < PlyCount < plymax`, the result is decisive, the time control is whitelisted and White is human, and then as often as in the input |
| Balance.RetainedPassFilters | dataLoaderAndPreprocessing.py:21-39 | every output row has `plymin < PlyCount < plymax`, result "1-0" or "0-1", time control "300+0", "600+0" or "900+0", White flag 0, and Black flag in {0, 1}, equal to 1 exactly when it was "Yes" |
| Balance.CohortsBalanced | dataLoaderAndPreprocessing.py:28-35 | `n_min` is at most every group size and equal to one; each of the four groups contributes exactly `n_min` rows; the output has `4 * n_min` rows |
| Balance.BalanceCounts | dataLoaderAndPreprocessing.py:32-35 | for any table, each cohort occurs exactly `n_min` times in the balanced concatenation, whose length is `4 * n_min` |
| Balance.MinGroupSizeIsMin | dataLoaderAndPreprocessing.py:32-33 | `min([...])` of the four lengths is at most each and equal to one |
| Balance.CohortsDisjoint | dataLoaderAndPreprocessing.py:28-31 | no row belongs to two of the four groups |
| Balance.BalanceRow | dataLoaderAndPreprocessing.py:28-35 | every balanced row comes from the table and belongs to one of the four groups |
| Balance.BalanceSubset | dataLoaderAndPreprocessing.py:28-35 | the balanced concatenation is a sub-multiset of the table |
| Balance.NothingInvented | dataLoaderAndPreprocessing.py:21-35 | the output rows, before recoding, are a sub-multiset of the filtered table, which is a sub-multiset of the input: nothing is duplicated or invented |
| Balance.ShuffledTableBalancesAlike | dataLoaderAndPreprocessing.py:26-35 | the shuffle at line 26 reorders the filtered table; any two orders of it give the same `n_min`, the same output size and the same number of rows of every cohort |
| Balance.ReshuffledOutputBalanced | dataLoaderAndPreprocessing.py:36 | any reordering of the output, such as the reshuffle at line 36, has the same length and the same number of rows of every cohort |
| Balance.GroupCountOfMultiset | dataLoaderAndPreprocessing.py:28-31 | each group's length depends only on the multiset of rows, not on their order |
| Balance.ShuffleInvariant | dataLoaderAndPreprocessing.py:21-25 | two input tables with the same rows in any order give the same filtered multiset, the same group sizes and the same output size |

## Left out

- The move converter `pgn_to_fen.PgnToFen`: it is not part of this model. Chess rules are not modelled; the converter is the parameter `step`.
- The attacked-square tensors that the training code loads: their producer is not part of this model.
- The two `df.sample(frac=1)` shuffles: randomness is not modelled. The model keeps the
  input order, so each group's prefix is its first `n_min` rows. Which rows are picked
  depends on the order; `Balance.ShuffledTableBalancesAlike` and
  `Balance.ReshuffledOutputBalanced` show that the counts do not.
- `reset_index`: row indices are not modelled.
- `fillna(0)` and `replace("Yes", 1)` on columns other than the two computer flags: the
  other columns are the opaque `rest`.
- Reading parquet and JSON, `loadData`, `np.savez_compressed`, logging, `tqdm` and the
  `click` command line: I/O. `Driver.BuildCorpus` returns the tensors and labels instead.
- The `astype(int)` conversions: the model's entries are already integers.
- Negative ply bounds and `max < min`: the bounds are `nat`, and the model requires
  `min <= max`, because `np.zeros` with a negative dimension raises before anything else
  happens. Negative slice indices are not modelled.
- A missing or non-integer `PlyCount` (`NaN` in pandas): ply counts are `int`.
- The other files (training, prediction, `pgn_to_json.py`, `preprocess.py`,
  `eval_get_moves.py`): model building and training, third-party parsing, and I/O.
