/**
 * `getFenPerChannel`: keep the plies `lo..hi` of a game's snapshots and one-hot
 * encode every square into 12 piece channels, giving a tensor indexed by
 * time, channel, row and column.
 */
module Channels {
  import opened Common
  import opened Fen

  /** `pieceList`: channel k marks the squares holding the letter Pieces[k]. */
  const Pieces: string := "PRNBQKprnbqk"

  /** Time, channel, row, column. */
  type Tensor = seq<seq<seq<seq<int>>>>

  predicate HasShape(x: Tensor, n: nat)
  {
    |x| == n &&
    forall t :: 0 <= t < n ==>
      |x[t]| == 12 &&
      forall k :: 0 <= k < 12 ==>
        |x[t][k]| == 8 && forall r :: 0 <= r < 8 ==> |x[t][k][r]| == 8
  }

  /** Python's `snaps[lo:hi]` along the time axis, which stops at the end of the sequence. */
  function Slice(snaps: seq<Board>, lo: nat, hi: nat): (w: seq<Board>)
    requires lo <= hi
    ensures |w| == (if hi <= |snaps| then hi - lo else if lo <= |snaps| then |snaps| - lo else 0)
    ensures forall t :: 0 <= t < |w| ==> w[t] == snaps[lo + t]
  {
    if |snaps| <= lo then [] else if hi <= |snaps| then snaps[lo..hi] else snaps[lo..]
  }

  /**
   * The snapshot that `res[:, k, :, :] = mask` writes into each of the n time
   * slices: the window itself when it has n snapshots, and its only snapshot,
   * broadcast to every slice, when it has one.
   */
  function Frames(window: seq<Board>, n: nat): (f: seq<Board>)
    requires |window| == n || |window| == 1
    ensures |f| == n
    ensures forall t :: 0 <= t < n ==> f[t] == window[if |window| == n then t else 0]
  {
    if |window| == n then window else seq(n, _ => window[0])
  }

  /** One cell of the encoding: 1 when the square holds channel k's piece letter. */
  function Cell(b: Board, k: nat, r: nat, c: nat): int
    requires IsBoard(b) && k < 12 && r < 8 && c < 8
  {
    if b[r][c] == Pieces[k] then 1 else 0
  }

  function Encode(frames: seq<Board>): Tensor
    requires AllBoards(frames)
  {
    seq(|frames|, t requires 0 <= t < |frames| =>
      seq(12, k requires 0 <= k < 12 =>
        seq(8, r requires 0 <= r < 8 =>
          seq(8, c requires 0 <= c < 8 => Cell(frames[t], k, r, c)))))
  }

  /** `np.zeros((n, 12, 8, 8))`. */
  function ZeroTensor(n: nat): Tensor
  {
    seq(n, _ => seq(12, _ => seq(8, _ => seq(8, _ => 0))))
  }

  /**
   * The whole of `getFenPerChannel`; None where numpy raises a ValueError
   * because the window can neither fill nor be broadcast to the `hi - lo`
   * time slices.
   */
  function FenPerChannel(input: Option<seq<Board>>, lo: nat, hi: nat): Option<Tensor>
    requires lo <= hi
    requires input.Some? ==> AllBoards(input.value)
  {
    if input.None? then Some(ZeroTensor(hi - lo))
    else
      var window := Slice(input.value, lo, hi);
      if |window| == hi - lo || |window| == 1 then Some(Encode(Frames(window, hi - lo))) else None
  }

  predicate NonZero(x: Tensor)
  {
    exists t, k, r, c | 0 <= t < |x| && 0 <= k < |x[t]| && 0 <= r < |x[t][k]| && 0 <= c < |x[t][k][r]| ::
      x[t][k][r][c] != 0
  }

  // ---------------------------------------------------------------------------
  // Properties.

  lemma EncodeAt(frames: seq<Board>, t: nat, k: nat, r: nat, c: nat)
    requires AllBoards(frames) && t < |frames| && k < 12 && r < 8 && c < 8
    ensures HasShape(Encode(frames), |frames|)
    ensures Encode(frames)[t][k][r][c] == Cell(frames[t], k, r, c)
  {
  }

  /** The result always has shape (hi - lo, 12, 8, 8), and a failed game (None) gives the all-zero tensor. */
  lemma TensorShape(input: Option<seq<Board>>, lo: nat, hi: nat)
    requires lo <= hi
    requires input.Some? ==> AllBoards(input.value)
    ensures FenPerChannel(input, lo, hi).Some? ==> HasShape(FenPerChannel(input, lo, hi).value, hi - lo)
    ensures input.None? ==> FenPerChannel(input, lo, hi).Some? && !NonZero(FenPerChannel(input, lo, hi).value)
  {
    if input.Some? {
      var window := Slice(input.value, lo, hi);
      if |window| == hi - lo || |window| == 1 {
        var frames := Frames(window, hi - lo);
        assert AllBoards(frames);
        if hi - lo > 0 {
          EncodeAt(frames, 0, 0, 0, 0);
        } else {
          assert HasShape(Encode(frames), 0);
        }
      }
    }
  }

  /**
   * With at least `hi` snapshots the window is exact: entry (t, k, r, c) is 1
   * when square (r, c) of snapshot lo + t holds channel k's piece, and 0
   * otherwise.
   */
  lemma OneHotExact(snaps: seq<Board>, lo: nat, hi: nat)
    requires lo <= hi <= |snaps| && AllBoards(snaps)
    ensures FenPerChannel(Some(snaps), lo, hi).Some?
    ensures forall t, k, r, c | 0 <= t < hi - lo && 0 <= k < 12 && 0 <= r < 8 && 0 <= c < 8 ::
              FenPerChannel(Some(snaps), lo, hi).value[t][k][r][c] == (if snaps[lo + t][r][c] == Pieces[k] then 1 else 0)
  {
    var window := Slice(snaps, lo, hi);
    var frames := Frames(window, hi - lo);
    assert AllBoards(frames);
    forall t, k, r, c | 0 <= t < hi - lo && 0 <= k < 12 && 0 <= r < 8 && 0 <= c < 8
      ensures Encode(frames)[t][k][r][c] == (if snaps[lo + t][r][c] == Pieces[k] then 1 else 0)
    {
      EncodeAt(frames, t, k, r, c);
    }
  }

  /**
   * Every entry is 0 or 1, no square has two channels set, and an empty
   * square ('0') sets none: these hold of every tensor the function returns.
   */
  lemma OneHotConsequences(input: Option<seq<Board>>, lo: nat, hi: nat, t: nat, r: nat, c: nat)
    requires lo <= hi
    requires input.Some? ==> AllBoards(input.value)
    requires FenPerChannel(input, lo, hi).Some? && t < hi - lo && r < 8 && c < 8
    ensures forall k :: 0 <= k < 12 ==> FenPerChannel(input, lo, hi).value[t][k][r][c] in {0, 1}
    ensures forall k1, k2 :: 0 <= k1 < k2 < 12 ==>
              FenPerChannel(input, lo, hi).value[t][k1][r][c] == 0 || FenPerChannel(input, lo, hi).value[t][k2][r][c] == 0
    ensures input.Some? && hi <= |input.value| && input.value[lo + t][r][c] == '0' ==>
              forall k :: 0 <= k < 12 ==> FenPerChannel(input, lo, hi).value[t][k][r][c] == 0
  {
    TensorShape(input, lo, hi);
    if input.Some? {
      var window := Slice(input.value, lo, hi);
      var frames := Frames(window, hi - lo);
      assert AllBoards(frames);
      forall k | 0 <= k < 12 {
        EncodeAt(frames, t, k, r, c);
      }
      assert forall k1, k2 :: 0 <= k1 < k2 < 12 ==> Pieces[k1] != Pieces[k2];
    }
  }

  /**
   * What numpy does with a game shorter than `hi` plies: it raises exactly
   * when the window is non-empty as configured (lo < hi) and the game is
   * short by more than the single-snapshot case; with exactly lo + 1
   * snapshots that last snapshot is broadcast to every time slice.
   */
  lemma ShortInput(snaps: seq<Board>, lo: nat, hi: nat)
    requires lo <= hi && AllBoards(snaps)
    ensures FenPerChannel(Some(snaps), lo, hi).None? <==> lo < hi && |snaps| < hi && |snaps| != lo + 1
    ensures |snaps| == lo + 1 < hi ==>
              forall t, k, r, c | 0 <= t < hi - lo && 0 <= k < 12 && 0 <= r < 8 && 0 <= c < 8 ::
                FenPerChannel(Some(snaps), lo, hi).value[t][k][r][c] == Cell(snaps[lo], k, r, c)
  {
    var window := Slice(snaps, lo, hi);
    if |snaps| == lo + 1 < hi {
      var frames := Frames(window, hi - lo);
      assert AllBoards(frames);
      forall t, k, r, c | 0 <= t < hi - lo && 0 <= k < 12 && 0 <= r < 8 && 0 <= c < 8
        ensures Encode(frames)[t][k][r][c] == Cell(snaps[lo], k, r, c)
      {
        EncodeAt(frames, t, k, r, c);
      }
    }
  }

  /** A tensor is non-zero exactly when some square of some encoded snapshot holds a piece letter. */
  lemma NonZeroIffPiece(frames: seq<Board>)
    requires AllBoards(frames)
    ensures NonZero(Encode(frames)) <==>
              exists t, r, c | 0 <= t < |frames| && 0 <= r < 8 && 0 <= c < 8 :: frames[t][r][c] in Pieces
  {
    var x := Encode(frames);
    if NonZero(x) {
      var t, k, r, c :| 0 <= t < |x| && 0 <= k < |x[t]| && 0 <= r < |x[t][k]| && 0 <= c < |x[t][k][r]| && x[t][k][r][c] != 0;
      EncodeAt(frames, t, k, r, c);
      assert frames[t][r][c] == Pieces[k];
    }
    if exists t, r, c | 0 <= t < |frames| && 0 <= r < 8 && 0 <= c < 8 :: frames[t][r][c] in Pieces {
      var t, r, c :| 0 <= t < |frames| && 0 <= r < 8 && 0 <= c < 8 && frames[t][r][c] in Pieces;
      var k :| 0 <= k < 12 && Pieces[k] == frames[t][r][c];
      EncodeAt(frames, t, k, r, c);
    }
  }

  // ---------------------------------------------------------------------------
  // The in-place fill of `getFenPerChannel`.

  /** The array holds exactly the tensor `x`. */
  predicate Holds(a: array4<int>, x: Tensor)
    reads a
  {
    HasShape(x, a.Length0) && a.Length1 == 12 && a.Length2 == 8 && a.Length3 == 8 &&
    forall t, k, r, c | 0 <= t < a.Length0 && 0 <= k < 12 && 0 <= r < 8 && 0 <= c < 8 :: a[t, k, r, c] == x[t][k][r][c]
  }

  /**
   * `getFenPerChannel` as written: allocate the zero tensor, then set channel
   * k from the mask `window == pieceList[k]`, one channel at a time. None is
   * numpy's ValueError when the window cannot be broadcast.
   */
  method GetFenPerChannel(input: Option<seq<Board>>, lo: nat, hi: nat) returns (res: Option<array4<int>>)
    requires lo <= hi
    requires input.Some? ==> AllBoards(input.value)
    ensures res.Some? <==> FenPerChannel(input, lo, hi).Some?
    ensures res.Some? ==> fresh(res.value) && Holds(res.value, FenPerChannel(input, lo, hi).value)
  {
    var n := hi - lo;
    var a := new int[n, 12, 8, 8]((t, k, r, c) => 0);
    if input.None? {
      return Some(a);
    }
    var window := Slice(input.value, lo, hi);
    if |window| != n && |window| != 1 {
      return None;
    }
    ghost var frames := Frames(window, n);
    assert AllBoards(frames);
    var k := 0;
    while k < 12
      invariant 0 <= k <= 12
      invariant forall t, j, r, c | 0 <= t < n && 0 <= j < 12 && 0 <= r < 8 && 0 <= c < 8 ::
                  a[t, j, r, c] == if j < k then Cell(frames[t], j, r, c) else 0
    {
      forall t, r, c | 0 <= t < n && 0 <= r < 8 && 0 <= c < 8 {
        a[t, k, r, c] := if window[if |window| == n then t else 0][r][c] == Pieces[k] then 1 else 0;
      }
      k := k + 1;
    }
    forall t, j, r, c | 0 <= t < n && 0 <= j < 12 && 0 <= r < 8 && 0 <= c < 8
      ensures a[t, j, r, c] == Encode(frames)[t][j][r][c]
    {
      EncodeAt(frames, t, j, r, c);
    }
    TensorShape(input, lo, hi);
    return Some(a);
  }
}
