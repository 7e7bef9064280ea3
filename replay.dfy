/**
 * `moves_to_fen`: replay a game's moves through the move converter and keep
 * one 8x8 snapshot per ply. The converter (`pgn_to_fen.PgnToFen`) is not part
 * of this model; it is the parameter `step`, which maps a converter state and
 * a move to the next state and the full FEN string `getFullFen()` reports,
 * or to None when `move()` or `getFullFen()` raises. `start` is the state
 * `resetBoard()` leaves.
 */
module Replay {
  import opened Common
  import opened Fen

  /** The converter's full FEN after each move, or None once it raises. */
  function FenTrace<S, M>(step: (S, M) -> Option<(S, string)>, s: S, moves: seq<M>): (fs: Option<seq<string>>)
    ensures fs.Some? ==> |fs.value| == |moves|
    decreases |moves|
  {
    if moves == [] then Some([])
    else match step(s, moves[0])
      case None => None
      case Some(next) =>
        match FenTrace(step, next.0, moves[1..])
        case None => None
        case Some(rest) => Some([next.1] + rest)
  }

  /**
   * The loop of `moves_to_fen`: one board per move, None if any move or
   * FEN step fails. `toBoard` is the string step; `moves_to_fen` uses FenToBoard,
   * and the properties below hold whatever it is.
   */
  function ReplayWith<S, M>(step: (S, M) -> Option<(S, string)>, toBoard: string -> Option<Board>, s: S, moves: seq<M>): (r: Option<seq<Board>>)
    ensures r.Some? ==> |r.value| == |moves|
    decreases |moves|
  {
    if moves == [] then Some([])
    else match step(s, moves[0])
      case None => None
      case Some(next) =>
        match toBoard(next.1)
        case None => None
        case Some(b) =>
          match ReplayWith(step, toBoard, next.0, moves[1..])
          case None => None
          case Some(rest) => Some([b] + rest)
  }

  function ReplayFrom<S, M>(step: (S, M) -> Option<(S, string)>, s: S, moves: seq<M>): Option<seq<Board>>
  {
    ReplayWith(step, FenToBoard, s, moves)
  }

  /** Every snapshot of a successful replay is an 8x8 board. */
  lemma {:induction false} ReplayYieldsBoards<S, M>(step: (S, M) -> Option<(S, string)>, s: S, moves: seq<M>)
    ensures ReplayFrom(step, s, moves).Some? ==> AllBoards(ReplayFrom(step, s, moves).value)
    decreases |moves|
  {
    if moves != [] && step(s, moves[0]).Some? {
      var next := step(s, moves[0]).value;
      ReplayYieldsBoards(step, next.0, moves[1..]);
      var rest := ReplayFrom(step, next.0, moves[1..]);
      if FenToBoard(next.1).Some? && rest.Some? {
        var bs := [FenToBoard(next.1).value] + rest.value;
        assert forall t :: 1 <= t < |bs| ==> bs[t] == rest.value[t - 1];
      }
    }
  }

  /** The whole of `moves_to_fen`: `np.stack` of an empty list raises too, so no moves gives None. */
  function GameSnapshots<S, M>(step: (S, M) -> Option<(S, string)>, start: S, moves: seq<M>): Option<seq<Board>>
  {
    match ReplayFrom(step, start, moves)
    case None => None
    case Some(bs) => if bs == [] then None else Some(bs)
  }

  function Prepend(done: seq<Board>, rest: Option<seq<Board>>): Option<seq<Board>>
  {
    match rest
    case None => None
    case Some(bs) => Some(done + bs)
  }

  lemma PrependTwice(done: seq<Board>, b: Board, rest: Option<seq<Board>>)
    ensures Prepend(done, Prepend([b], rest)) == Prepend(done + [b], rest)
  {
    if rest.Some? {
      assert done + ([b] + rest.value) == (done + [b]) + rest.value;
    }
  }

  /** One ply of the replay: a failing move or FEN step ends it, otherwise the board goes in front. */
  lemma ReplayUnfold<S, M>(step: (S, M) -> Option<(S, string)>, toBoard: string -> Option<Board>, s: S, moves: seq<M>)
    requires moves != []
    ensures step(s, moves[0]).None? ==> ReplayWith(step, toBoard, s, moves) == None
    ensures step(s, moves[0]).Some? && toBoard(step(s, moves[0]).value.1).None? ==> ReplayWith(step, toBoard, s, moves) == None
    ensures step(s, moves[0]).Some? && toBoard(step(s, moves[0]).value.1).Some? ==>
              ReplayWith(step, toBoard, s, moves) ==
              Prepend([toBoard(step(s, moves[0]).value.1).value], ReplayWith(step, toBoard, step(s, moves[0]).value.0, moves[1..]))
  {
  }

  lemma TraceUnfold<S, M>(step: (S, M) -> Option<(S, string)>, s: S, moves: seq<M>)
    requires moves != []
    ensures step(s, moves[0]).None? ==> FenTrace(step, s, moves) == None
    ensures step(s, moves[0]).Some? ==>
              var next := step(s, moves[0]).value;
              var tr := FenTrace(step, next.0, moves[1..]);
              FenTrace(step, s, moves) == (if tr.Some? then Some([next.1] + tr.value) else None)
  {
  }

  /**
   * The replay is all-or-nothing and follows the converter: it succeeds
   * exactly when the converter accepts every move and every FEN it reports
   * converts to a board.
   */
  lemma {:induction false} ReplaySucceedsIff<S, M>(step: (S, M) -> Option<(S, string)>, toBoard: string -> Option<Board>, s: S, moves: seq<M>)
    ensures ReplayWith(step, toBoard, s, moves).Some? <==>
              FenTrace(step, s, moves).Some? &&
              forall t :: 0 <= t < |moves| ==> toBoard(FenTrace(step, s, moves).value[t]).Some?
    decreases |moves|
  {
    if moves != [] {
      ReplayUnfold(step, toBoard, s, moves);
      TraceUnfold(step, s, moves);
      if step(s, moves[0]).Some? {
        var next := step(s, moves[0]).value;
        ReplaySucceedsIff(step, toBoard, next.0, moves[1..]);
        var tr := FenTrace(step, next.0, moves[1..]);
        if tr.Some? {
          var fs := FenTrace(step, s, moves).value;
          assert fs == [next.1] + tr.value;
          if ReplayWith(step, toBoard, s, moves).Some? {
            forall t | 0 <= t < |moves|
              ensures toBoard(fs[t]).Some?
            {
              if t > 0 {
                assert fs[t] == tr.value[t - 1];
              }
            }
          } else if toBoard(next.1).Some? {
            var t' :| 0 <= t' < |moves| - 1 && toBoard(tr.value[t']).None?;
            assert fs[t' + 1] == tr.value[t'];
          } else {
            assert fs[0] == next.1;
          }
        }
      }
    }
  }

  /** On success, board t is the conversion of the FEN the converter reported right after move t. */
  lemma {:induction false} ReplayBoardsFollowTrace<S, M>(step: (S, M) -> Option<(S, string)>, toBoard: string -> Option<Board>, s: S, moves: seq<M>)
    requires ReplayWith(step, toBoard, s, moves).Some?
    ensures FenTrace(step, s, moves).Some?
    ensures forall t :: 0 <= t < |moves| ==>
              toBoard(FenTrace(step, s, moves).value[t]) == Some(ReplayWith(step, toBoard, s, moves).value[t])
    decreases |moves|
  {
    ReplaySucceedsIff(step, toBoard, s, moves);
    if moves != [] {
      ReplayUnfold(step, toBoard, s, moves);
      TraceUnfold(step, s, moves);
      var next := step(s, moves[0]).value;
      ReplayBoardsFollowTrace(step, toBoard, next.0, moves[1..]);
      var tr := FenTrace(step, next.0, moves[1..]).value;
      var rest := ReplayWith(step, toBoard, next.0, moves[1..]).value;
      var fs := [next.1] + tr;
      var bs := [toBoard(next.1).value] + rest;
      assert forall t :: 1 <= t < |moves| ==> fs[t] == tr[t - 1] && bs[t] == rest[t - 1];
    }
  }

  /** The FEN reported after move t depends only on moves 0..t: it is the last one of that prefix's trace. */
  lemma {:induction false} TracePrefix<S, M>(step: (S, M) -> Option<(S, string)>, s: S, moves: seq<M>, t: nat)
    requires FenTrace(step, s, moves).Some? && t < |moves|
    ensures FenTrace(step, s, moves[..t + 1]) == Some(FenTrace(step, s, moves).value[..t + 1])
    decreases t
  {
    var next := step(s, moves[0]).value;
    var fs := FenTrace(step, s, moves).value;
    var tail := FenTrace(step, next.0, moves[1..]).value;
    assert fs == [next.1] + tail;
    var prefix := moves[..t + 1];
    assert prefix[0] == moves[0];
    if t == 0 {
      assert prefix[1..] == [];
      assert FenTrace(step, next.0, prefix[1..]) == Some([]);
      assert [next.1] + [] == [next.1];
      assert fs[..1] == [next.1];
    } else {
      assert prefix[1..] == moves[1..][..t];
      TracePrefix(step, next.0, moves[1..], t - 1);
      assert fs[..t + 1] == [next.1] + tail[..t];
    }
  }

  /** `moves_to_fen` as written in Python: a loop that appends one board per move and abandons the game on the first failure. */
  method MovesToFen<S, M>(step: (S, M) -> Option<(S, string)>, start: S, moves: seq<M>) returns (r: Option<seq<Board>>)
    ensures r == GameSnapshots(step, start, moves)
    ensures r.Some? ==> |r.value| == |moves| > 0 && AllBoards(r.value)
  {
    var fenlist: seq<Board> := [];
    var state := start;
    var i := 0;
    assert moves[i..] == moves;
    assert ReplayFrom(step, start, moves).Some? ==> [] + ReplayFrom(step, start, moves).value == ReplayFrom(step, start, moves).value;
    while i < |moves|
      invariant 0 <= i <= |moves|
      invariant |fenlist| == i
      invariant ReplayFrom(step, start, moves) == Prepend(fenlist, ReplayFrom(step, state, moves[i..]))
    {
      assert moves[i..][0] == moves[i] && moves[i..][1..] == moves[i + 1..];
      ReplayUnfold(step, FenToBoard, state, moves[i..]);
      var out := step(state, moves[i]);
      if out.None? {
        return None;
      }
      var fen := FenToBoard(out.value.1);
      if fen.None? {
        return None;
      }
      PrependTwice(fenlist, fen.value, ReplayFrom(step, out.value.0, moves[i + 1..]));
      fenlist := fenlist + [fen.value];
      state := out.value.0;
      i := i + 1;
    }
    assert moves[i..] == [];
    assert fenlist + [] == fenlist;
    ReplayYieldsBoards(step, start, moves);
    if fenlist == [] {
      return None;
    }
    return Some(fenlist);
  }
}
