/**
 * The loop of `main` in moves_to_fen.py: for each (moves, label) pair of the
 * corpus, replay the game, encode its window, and keep the tensor and its
 * label when the tensor has a non-zero entry; then stack what was kept.
 */
module Driver {
  import opened Common
  import opened Fen
  import opened Replay
  import opened Channels

  /** Why `main` produces no batch. */
  datatype Failure =
    | Broadcast(game: nat)  // getFenPerChannel raised on this game; nothing catches it
    | EmptyBatch            // no game was kept: `np.stack` of an empty list raises

  /** `getFenPerChannel(moves_to_fen(moves), lo, hi)` for one game. */
  function GameTensor<S, M>(step: (S, M) -> Option<(S, string)>, start: S, moves: seq<M>, lo: nat, hi: nat): Option<Tensor>
    requires lo <= hi
  {
    ReplayYieldsBoards(step, start, moves);
    FenPerChannel(GameSnapshots(step, start, moves), lo, hi)
  }

  /** What the loop body sees for each game: the game's tensor (None where numpy raised) and its label. */
  function Outcomes<S, M>(step: (S, M) -> Option<(S, string)>, start: S, games: seq<(seq<M>, int)>, lo: nat, hi: nat): (rs: seq<(Option<Tensor>, int)>)
    requires lo <= hi
    ensures |rs| == |games|
    ensures forall i :: 0 <= i < |games| ==> rs[i] == (GameTensor(step, start, games[i].0, lo, hi), games[i].1)
  {
    seq(|games|, i requires 0 <= i < |games| => (GameTensor(step, start, games[i].0, lo, hi), games[i].1))
  }

  /** Whether the loop keeps a game: its tensor exists and has a non-zero entry. */
  predicate Keeps(x: Option<Tensor>)
  {
    x.Some? && NonZero(x.value)
  }

  /**
   * The kept tensors and labels after the loop has seen the outcomes `rs`,
   * or the first game on which numpy raised.
   */
  function Accumulate(rs: seq<(Option<Tensor>, int)>): Result<(seq<Tensor>, seq<int>), Failure>
  {
    if rs == [] then Ok(([], []))
    else
      var last := |rs| - 1;
      match Accumulate(rs[..last])
      case Err(f) => Err(f)
      case Ok(acc) =>
        match rs[last].0
        case None => Err(Broadcast(last))
        case Some(x) => if NonZero(x) then Ok((acc.0 + [x], acc.1 + [rs[last].1])) else Ok(acc)
  }

  /** The outcome of `main` before the arrays are written out. */
  function Corpus<S, M>(step: (S, M) -> Option<(S, string)>, start: S, games: seq<(seq<M>, int)>, lo: nat, hi: nat): Result<(seq<Tensor>, seq<int>), Failure>
    requires lo <= hi
  {
    match Accumulate(Outcomes(step, start, games, lo, hi))
    case Err(f) => Err(f)
    case Ok(acc) => if acc.0 == [] then Err(EmptyBatch) else Ok(acc)
  }

  /** The indices of the kept games, in corpus order. */
  function KeptIndices(rs: seq<(Option<Tensor>, int)>): (ks: seq<nat>)
    ensures forall j :: 0 <= j < |ks| ==> ks[j] < |rs|
  {
    if rs == [] then []
    else
      var last := |rs| - 1;
      KeptIndices(rs[..last]) + (if Keeps(rs[last].0) then [last] else [])
  }

  // ---------------------------------------------------------------------------
  // Properties.

  /**
   * The loop fails exactly when some game's tensor raises, and then it is the
   * first such game that is reported.
   */
  lemma {:induction false} AccumulateFails(rs: seq<(Option<Tensor>, int)>)
    ensures Accumulate(rs).Ok? <==> forall i :: 0 <= i < |rs| ==> rs[i].0.Some?
    ensures Accumulate(rs).Err? ==>
              Accumulate(rs).error.Broadcast? && Accumulate(rs).error.game < |rs| &&
              rs[Accumulate(rs).error.game].0.None? &&
              forall i :: 0 <= i < Accumulate(rs).error.game ==> rs[i].0.Some?
  {
    if rs != [] {
      var last := |rs| - 1;
      var prefix := rs[..last];
      AccumulateFails(prefix);
      assert forall i :: 0 <= i < last ==> prefix[i] == rs[i];
    }
  }

  /**
   * Kept tensors and labels stay aligned: on success, entry j of both comes
   * from game ks[j], the kept indices are increasing, and a game is kept
   * exactly when its tensor has a non-zero entry.
   */
  lemma {:induction false} KeepAligned(rs: seq<(Option<Tensor>, int)>)
    requires Accumulate(rs).Ok?
    ensures |Accumulate(rs).value.0| == |Accumulate(rs).value.1| == |KeptIndices(rs)|
    ensures forall j :: 0 <= j < |KeptIndices(rs)| ==>
              Some(Accumulate(rs).value.0[j]) == rs[KeptIndices(rs)[j]].0 &&
              Accumulate(rs).value.1[j] == rs[KeptIndices(rs)[j]].1
    ensures forall j1, j2 :: 0 <= j1 < j2 < |KeptIndices(rs)| ==> KeptIndices(rs)[j1] < KeptIndices(rs)[j2]
    ensures forall i :: 0 <= i < |rs| ==> (i in KeptIndices(rs) <==> Keeps(rs[i].0))
  {
    if rs != [] {
      var last := |rs| - 1;
      var prefix := rs[..last];
      KeepAligned(prefix);
      assert forall i :: 0 <= i < last ==> prefix[i] == rs[i];
    }
  }

  /** `main` reports an empty batch exactly when no game raised and none was kept. */
  lemma EmptyBatchIff<S, M>(step: (S, M) -> Option<(S, string)>, start: S, games: seq<(seq<M>, int)>, lo: nat, hi: nat)
    requires lo <= hi
    ensures var rs := Outcomes(step, start, games, lo, hi);
            Corpus(step, start, games, lo, hi) == Err(EmptyBatch) <==> Accumulate(rs).Ok? && KeptIndices(rs) == []
  {
    var rs := Outcomes(step, start, games, lo, hi);
    if Accumulate(rs).Ok? {
      KeepAligned(rs);
    } else {
      AccumulateFails(rs);
    }
  }

  lemma {:induction false} ErrorPersists(rs: seq<(Option<Tensor>, int)>, i: nat)
    requires i <= |rs| && Accumulate(rs[..i]).Err?
    ensures Accumulate(rs) == Accumulate(rs[..i])
    decreases |rs| - i
  {
    if i < |rs| {
      assert rs[..i + 1][..i] == rs[..i];
      ErrorPersists(rs, i + 1);
    } else {
      assert rs[..i] == rs;
    }
  }

  /** A game whose replay fails contributes nothing and does not stop the loop. */
  lemma FailedReplayDropped<S, M>(step: (S, M) -> Option<(S, string)>, start: S, moves: seq<M>, lo: nat, hi: nat)
    requires lo <= hi && GameSnapshots(step, start, moves).None?
    ensures GameTensor(step, start, moves, lo, hi).Some?
    ensures !Keeps(GameTensor(step, start, moves, lo, hi))
  {
    TensorShape(None, lo, hi);
  }

  /**
   * A game that replays to at least `hi` snapshots is kept exactly when some
   * square of a snapshot in the window lo..hi holds a piece.
   */
  lemma KeptIffPiece<S, M>(step: (S, M) -> Option<(S, string)>, start: S, moves: seq<M>, lo: nat, hi: nat)
    requires lo <= hi
    requires GameSnapshots(step, start, moves).Some? && hi <= |GameSnapshots(step, start, moves).value|
    ensures AllBoards(GameSnapshots(step, start, moves).value)
    ensures var bs := GameSnapshots(step, start, moves).value;
            Keeps(GameTensor(step, start, moves, lo, hi)) <==>
            exists t, r, c | lo <= t < hi && 0 <= r < 8 && 0 <= c < 8 :: bs[t][r][c] in Pieces
  {
    ReplayYieldsBoards(step, start, moves);
    var bs := GameSnapshots(step, start, moves).value;
    var window := Slice(bs, lo, hi);
    var frames := Frames(window, hi - lo);
    assert AllBoards(frames);
    NonZeroIffPiece(frames);
    assert forall t :: 0 <= t < hi - lo ==> frames[t] == bs[lo + t];
    if exists t, r, c | lo <= t < hi && 0 <= r < 8 && 0 <= c < 8 :: bs[t][r][c] in Pieces {
      var t, r, c :| lo <= t < hi && 0 <= r < 8 && 0 <= c < 8 && bs[t][r][c] in Pieces;
      assert frames[t - lo][r][c] in Pieces;
    }
  }

  // ---------------------------------------------------------------------------
  // The loop of `main`.

  /** `np.count_nonzero(a) > 0`. */
  predicate AnyNonZero(a: array4<int>)
    reads a
  {
    exists t, k, r, c | 0 <= t < a.Length0 && 0 <= k < a.Length1 && 0 <= r < a.Length2 && 0 <= c < a.Length3 ::
      a[t, k, r, c] != 0
  }

  lemma AnyNonZeroMatches(a: array4<int>, x: Tensor)
    requires Holds(a, x)
    ensures AnyNonZero(a) == NonZero(x)
  {
    if NonZero(x) {
      var t, k, r, c :| 0 <= t < |x| && 0 <= k < |x[t]| && 0 <= r < |x[t][k]| && 0 <= c < |x[t][k][r]| && x[t][k][r][c] != 0;
      assert a[t, k, r, c] != 0;
    }
  }

  /** Lines 92-95 of `main` for one game: replay it, then encode its window into a fresh array. */
  method EncodeGame<S, M>(step: (S, M) -> Option<(S, string)>, start: S, moves: seq<M>, lo: nat, hi: nat)
    returns (x: Option<array4<int>>)
    requires lo <= hi
    ensures x.Some? <==> GameTensor(step, start, moves, lo, hi).Some?
    ensures x.Some? ==> fresh(x.value) && Holds(x.value, GameTensor(step, start, moves, lo, hi).value)
  {
    var fen := MovesToFen(step, start, moves);
    ReplayYieldsBoards(step, start, moves);
    x := GetFenPerChannel(fen, lo, hi);
  }

  /**
   * `main` without the file I/O: the loop over the corpus, then the stacking.
   * The i-th kept array and label are the corpus outcome's i-th tensor and label.
   */
  method BuildCorpus<S, M>(step: (S, M) -> Option<(S, string)>, start: S, games: seq<(seq<M>, int)>, lo: nat, hi: nat)
    returns (out: Result<(seq<array4<int>>, seq<int>), Failure>)
    requires lo <= hi
    ensures out.Err? <==> Corpus(step, start, games, lo, hi).Err?
    ensures out.Err? ==> out.error == Corpus(step, start, games, lo, hi).error
    ensures out.Ok? ==>
              var want := Corpus(step, start, games, lo, hi).value;
              out.value.1 == want.1 && |out.value.0| == |want.0| &&
              forall j :: 0 <= j < |want.0| ==> Holds(out.value.0[j], want.0[j])
  {
    var resList: seq<array4<int>> := [];
    var labelList: seq<int> := [];
    ghost var tensors: seq<Tensor> := [];
    ghost var rs := Outcomes(step, start, games, lo, hi);
    var i := 0;
    while i < |games|
      invariant 0 <= i <= |games|
      invariant Accumulate(rs[..i]) == Ok((tensors, labelList))
      invariant |resList| == |tensors| && forall j :: 0 <= j < |resList| ==> Holds(resList[j], tensors[j])
    {
      assert rs[..i + 1][..i] == rs[..i];
      var x := EncodeGame(step, start, games[i].0, lo, hi);
      if x.None? {
        ErrorPersists(rs, i + 1);
        return Err(Broadcast(i));
      }
      ghost var want := GameTensor(step, start, games[i].0, lo, hi).value;
      AnyNonZeroMatches(x.value, want);
      if AnyNonZero(x.value) {
        resList := resList + [x.value];
        tensors := tensors + [want];
        labelList := labelList + [games[i].1];
      }
      i := i + 1;
    }
    assert rs[..i] == rs;
    if resList == [] {
      return Err(EmptyBatch);
    }
    return Ok((resList, labelList));
  }
}
