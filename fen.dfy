/**
 * The string step of `moves_to_fen`: from the converter's full FEN string to
 * one 8x8 board of single characters, where every empty square is '0'.
 *
 *   fen.split(" ")[0]                      -> PlacementField
 *   .replace("1", "0") ... .replace("8", "00000000")   -> ReplaceChain
 *   list(fen.replace("/", ""))             -> StripSlashes
 *   np.reshape(fen, [8, 8])                -> Reshape (raises unless 64 characters)
 */
module Fen {
  import opened Common

  /** A snapshot: rows of characters; row 0 is the first rank written (rank 8). */
  type Board = seq<seq<char>>

  predicate IsBoard(b: Board)
  {
    |b| == 8 && forall r :: 0 <= r < 8 ==> |b[r]| == 8
  }

  predicate AllBoards(bs: seq<Board>)
  {
    forall t :: 0 <= t < |bs| ==> IsBoard(bs[t])
  }

  // ---------------------------------------------------------------------------
  // Placement field: the text before the first space.

  /** `fen.split(" ")[0]`: the longest prefix of `fen` without a space. */
  function PlacementField(fen: string): (p: string)
  {
    if fen == [] || fen[0] == ' ' then [] else [fen[0]] + PlacementField(fen[1..])
  }

  /** The placement field is the text up to, and not including, the first space (all of `fen` if it has none). */
  lemma {:induction false} PlacementFieldMeaning(fen: string)
    ensures PlacementField(fen) <= fen
    ensures ' ' !in PlacementField(fen)
    ensures |PlacementField(fen)| < |fen| ==> fen[|PlacementField(fen)|] == ' '
  {
    if fen != [] && fen[0] != ' ' {
      PlacementFieldMeaning(fen[1..]);
    }
  }

  /** Whatever follows the placement field is never looked at. */
  lemma {:induction false} PlacementFieldOfPrefix(p: string, rest: string)
    requires ' ' !in p
    requires rest == [] || rest[0] == ' '
    ensures PlacementField(p + rest) == p
  {
    if p != [] {
      assert (p + rest)[0] == p[0];
      assert (p + rest)[1..] == p[1..] + rest;
      PlacementFieldOfPrefix(p[1..], rest);
    } else {
      assert p + rest == rest;
    }
  }

  // ---------------------------------------------------------------------------
  // Digit expansion.

  /** Python's `s.replace(target, by)` for a one-character `target`. */
  function ReplaceAll(s: string, target: char, repl: string): (r: string)
  {
    if s == [] then []
    else (if s[0] == target then repl else [s[0]]) + ReplaceAll(s[1..], target, repl)
  }

  /** The eight `replace` calls of `moves_to_fen`, in the order it chains them. */
  const DigitReplacements: seq<(char, string)> :=
    [('1', "0"), ('2', "00"), ('3', "000"), ('4', "0000"),
     ('5', "00000"), ('6', "000000"), ('7', "0000000"), ('8', "00000000")]

  /** `s.replace(steps[0]).replace(steps[1])...`, left to right. */
  function ReplaceEach(s: string, steps: seq<(char, string)>): string
    decreases |steps|
  {
    if steps == [] then s else ReplaceEach(ReplaceAll(s, steps[0].0, steps[0].1), steps[1..])
  }

  function ReplaceChain(s: string): string
  {
    ReplaceEach(s, DigitReplacements)
  }

  function Zeros(n: nat): (z: string)
    ensures |z| == n && forall i :: 0 <= i < n ==> z[i] == '0'
  {
    seq(n, _ => '0')
  }

  predicate IsCountDigit(c: char)
  {
    '1' <= c <= '8'
  }

  function DigitValue(c: char): nat
    requires IsCountDigit(c)
  {
    c as int - '0' as int
  }

  /** The per-character reading of the placement format: a digit d is d empty squares. */
  function ExpandChar(c: char): string
  {
    if IsCountDigit(c) then Zeros(DigitValue(c)) else [c]
  }

  function ExpandDigits(s: string): string
  {
    if s == [] then [] else ExpandChar(s[0]) + ExpandDigits(s[1..])
  }

  lemma {:induction false} ReplaceAllConcat(a: string, b: string, target: char, repl: string)
    ensures ReplaceAll(a + b, target, repl) == ReplaceAll(a, target, repl) + ReplaceAll(b, target, repl)
  {
    if a == [] {
      assert a + b == b;
    } else {
      assert (a + b)[0] == a[0];
      assert (a + b)[1..] == a[1..] + b;
      ReplaceAllConcat(a[1..], b, target, repl);
    }
  }

  lemma {:induction false} ReplaceEachConcat(a: string, b: string, steps: seq<(char, string)>)
    ensures ReplaceEach(a + b, steps) == ReplaceEach(a, steps) + ReplaceEach(b, steps)
    decreases |steps|
  {
    if steps != [] {
      ReplaceAllConcat(a, b, steps[0].0, steps[0].1);
      ReplaceEachConcat(ReplaceAll(a, steps[0].0, steps[0].1), ReplaceAll(b, steps[0].0, steps[0].1), steps[1..]);
    }
  }

  lemma ReplaceOneChar(c: char, target: char, repl: string)
    ensures ReplaceAll([c], target, repl) == if c == target then repl else [c]
  {
    assert [c][1..] == [];
  }

  lemma {:induction false} ReplaceInZeros(n: nat, target: char, repl: string)
    requires target != '0'
    ensures ReplaceAll(Zeros(n), target, repl) == Zeros(n)
  {
    if n > 0 {
      assert Zeros(n)[1..] == Zeros(n - 1);
      ReplaceInZeros(n - 1, target, repl);
    }
  }

  /** A replace step that turns one count digit into its run of zeros. */
  predicate IsDigitStep(step: (char, string))
  {
    IsCountDigit(step.0) && step.1 == Zeros(DigitValue(step.0))
  }

  predicate Targets(steps: seq<(char, string)>, c: char)
  {
    exists i :: 0 <= i < |steps| && steps[i].0 == c
  }

  lemma {:induction false} ReplaceEachInZeros(n: nat, steps: seq<(char, string)>)
    requires forall i :: 0 <= i < |steps| ==> IsDigitStep(steps[i])
    ensures ReplaceEach(Zeros(n), steps) == Zeros(n)
    decreases |steps|
  {
    if steps != [] {
      ReplaceInZeros(n, steps[0].0, steps[0].1);
      ReplaceEachInZeros(n, steps[1..]);
    }
  }

  /** One character through a chain of digit steps: expanded if some step targets it, untouched otherwise. */
  lemma {:induction false} ReplaceEachOneChar(c: char, steps: seq<(char, string)>)
    requires forall i :: 0 <= i < |steps| ==> IsDigitStep(steps[i])
    ensures ReplaceEach([c], steps) == if Targets(steps, c) then ExpandChar(c) else [c]
    decreases |steps|
  {
    if steps != [] {
      ReplaceOneChar(c, steps[0].0, steps[0].1);
      if c == steps[0].0 {
        ReplaceEachInZeros(DigitValue(c), steps[1..]);
      } else {
        ReplaceEachOneChar(c, steps[1..]);
        if Targets(steps, c) {
          var i :| 0 <= i < |steps| && steps[i].0 == c;
          assert steps[1..][i - 1].0 == c;
        }
        if Targets(steps[1..], c) {
          var i :| 0 <= i < |steps[1..]| && steps[1..][i].0 == c;
          assert steps[i + 1].0 == c;
        }
      }
    }
  }

  /**
   * Any chain of digit replaces that covers all eight digits, in any order,
   * equals the per-character expansion: a replacement only ever produces '0',
   * and '0' is never a replacement target, so no step sees the output of
   * another.
   */
  lemma {:induction false} AnyOrderIsExpansion(s: string, steps: seq<(char, string)>)
    requires forall i :: 0 <= i < |steps| ==> IsDigitStep(steps[i])
    requires forall c :: IsCountDigit(c) ==> Targets(steps, c)
    ensures ReplaceEach(s, steps) == ExpandDigits(s)
  {
    if s != [] {
      assert s == [s[0]] + s[1..];
      ReplaceEachConcat([s[0]], s[1..], steps);
      ReplaceEachOneChar(s[0], steps);
      if Targets(steps, s[0]) {
        var i :| 0 <= i < |steps| && steps[i].0 == s[0];
        assert IsDigitStep(steps[i]);
      }
      AnyOrderIsExpansion(s[1..], steps);
    } else {
      ReplaceEachInZeros(0, steps);
      assert Zeros(0) == s;
    }
  }

  /** The chain in `moves_to_fen`, '1' to '8', is one such chain. */
  lemma ChainIsExpansion(s: string)
    ensures ReplaceChain(s) == ExpandDigits(s)
  {
    var steps := DigitReplacements;
    assert "0" == Zeros(1) && "00" == Zeros(2) && "000" == Zeros(3) && "0000" == Zeros(4);
    assert "00000" == Zeros(5) && "000000" == Zeros(6);
    assert "0000000" == Zeros(7) && "00000000" == Zeros(8);
    forall c | IsCountDigit(c)
      ensures Targets(steps, c)
    {
      var k := DigitValue(c) - 1;
      assert steps[k].0 == c;
    }
    AnyOrderIsExpansion(s, steps);
  }

  /** Board width of a piece of placement text: a digit counts its value, any other character one. */
  function Width(s: string): nat
  {
    if s == [] then 0 else (if IsCountDigit(s[0]) then DigitValue(s[0]) else 1) + Width(s[1..])
  }

  lemma {:induction false} ExpandDigitsConcat(a: string, b: string)
    ensures ExpandDigits(a + b) == ExpandDigits(a) + ExpandDigits(b)
  {
    if a == [] {
      assert a + b == b;
    } else {
      assert (a + b)[0] == a[0];
      assert (a + b)[1..] == a[1..] + b;
      ExpandDigitsConcat(a[1..], b);
    }
  }

  /**
   * What the expansion means: every digit d in 1..8 becomes exactly d '0'
   * characters (so the length is the width), no such digit remains, and the
   * other characters, apart from '0', come out unchanged and in order.
   */
  lemma {:induction false} ExpansionMeaning(s: string)
    ensures |ExpandDigits(s)| == Width(s)
    ensures forall i :: 0 <= i < |ExpandDigits(s)| ==> !IsCountDigit(ExpandDigits(s)[i])
    ensures Filter(ExpandDigits(s), c => c != '0') == Filter(s, c => c != '0' && !IsCountDigit(c))
  {
    if s != [] {
      ExpansionMeaning(s[1..]);
      FilterConcat(ExpandChar(s[0]), ExpandDigits(s[1..]), c => c != '0');
      var z := Zeros(if IsCountDigit(s[0]) then DigitValue(s[0]) else 0);
      if IsCountDigit(s[0]) {
        assert Filter(z, c => c != '0') == [] by {
          ZerosDropped(|z|);
        }
      }
    }
  }

  lemma {:induction false} ZerosDropped(n: nat)
    ensures Filter(Zeros(n), c => c != '0') == []
  {
    if n > 0 {
      assert Zeros(n)[1..] == Zeros(n - 1);
      ZerosDropped(n - 1);
    }
  }

  // ---------------------------------------------------------------------------
  // Removing the rank separators and reshaping.

  /** `fen.replace("/", "")`. */
  function StripSlashes(s: string): string
  {
    Filter(s, c => c != '/')
  }

  /** `np.reshape(flat, [8, 8])`: row-major, and an error unless there are exactly 64 cells. */
  function Reshape(flat: seq<char>): (b: Option<Board>)
    ensures b.Some? <==> |flat| == 64
    ensures b.Some? ==> IsBoard(b.value)
    ensures b.Some? ==> forall r, c :: 0 <= r < 8 && 0 <= c < 8 ==> b.value[r][c] == flat[8 * r + c]
  {
    if |flat| != 64 then None
    else Some(seq(8, r requires 0 <= r < 8 => flat[8 * r .. 8 * r + 8]))
  }

  /** StripSlashes leaves no '/' and keeps every other character as often as it occurs, in order. */
  lemma StripSlashesMeaning(s: string)
    ensures '/' !in StripSlashes(s)
    ensures forall x :: x != '/' ==> multiset(StripSlashes(s))[x] == multiset(s)[x]
  {
    forall x | x != '/'
      ensures multiset(StripSlashes(s))[x] == multiset(s)[x]
    {
      FilterCount(s, c => c != '/', x);
    }
  }

  /** One snapshot from the converter's full FEN string, or None where numpy would raise. */
  function FenToBoard(fen: string): Option<Board>
  {
    Reshape(StripSlashes(ReplaceChain(PlacementField(fen))))
  }

  /** Only the placement field matters: the side to move, castling, en passant and clocks are dropped. */
  lemma OtherFieldsIgnored(p: string, rest1: string, rest2: string)
    requires ' ' !in p
    ensures FenToBoard(p + " " + rest1) == FenToBoard(p + " " + rest2)
  {
    assert p + " " + rest1 == p + (" " + rest1);
    assert p + " " + rest2 == p + (" " + rest2);
    PlacementFieldOfPrefix(p, " " + rest1);
    PlacementFieldOfPrefix(p, " " + rest2);
  }

  // ---------------------------------------------------------------------------
  // Well-formed placement fields.

  predicate IsPieceLetter(c: char)
  {
    c in "PRNBQKprnbqk"
  }

  /** One rank of a placement field: piece letters and digits 1..8, eight squares wide. */
  predicate IsRankText(rank: string)
  {
    (forall i :: 0 <= i < |rank| ==> IsPieceLetter(rank[i]) || IsCountDigit(rank[i])) && Width(rank) == 8
  }

  /** The ranks written one after another, separated by '/'. */
  function JoinRanks(ranks: seq<string>): string
  {
    if ranks == [] then []
    else if |ranks| == 1 then ranks[0]
    else ranks[0] + "/" + JoinRanks(ranks[1..])
  }

  function Concat(rows: seq<string>): string
  {
    if rows == [] then [] else rows[0] + Concat(rows[1..])
  }

  function ExpandAll(ranks: seq<string>): (rows: seq<string>)
    ensures |rows| == |ranks|
    ensures forall i :: 0 <= i < |ranks| ==> rows[i] == ExpandDigits(ranks[i])
  {
    if ranks == [] then [] else [ExpandDigits(ranks[0])] + ExpandAll(ranks[1..])
  }

  lemma {:induction false} ExpandJoin(ranks: seq<string>)
    ensures ExpandDigits(JoinRanks(ranks)) == JoinRanks(ExpandAll(ranks))
  {
    if |ranks| > 1 {
      var tail := JoinRanks(ranks[1..]);
      ExpandDigitsConcat(ranks[0] + "/", tail);
      ExpandDigitsConcat(ranks[0], "/");
      assert ExpandDigits("/") == "/";
      ExpandJoin(ranks[1..]);
      assert ExpandAll(ranks)[1..] == ExpandAll(ranks[1..]);
    }
  }

  lemma {:induction false} SpaceFreeJoin(ranks: seq<string>)
    requires forall i :: 0 <= i < |ranks| ==> ' ' !in ranks[i]
    ensures ' ' !in JoinRanks(ranks)
  {
    if |ranks| > 1 {
      SpaceFreeJoin(ranks[1..]);
      assert JoinRanks(ranks) == ranks[0] + "/" + JoinRanks(ranks[1..]);
    }
  }

  lemma {:induction false} StripJoin(rows: seq<string>)
    requires forall i :: 0 <= i < |rows| ==> '/' !in rows[i]
    ensures StripSlashes(JoinRanks(rows)) == Concat(rows)
  {
    StripSlashesMeaning(JoinRanks(rows));
    if |rows| == 1 {
      NoSlashKept(rows[0]);
      assert Concat(rows) == rows[0] + Concat([]);
    } else if |rows| > 1 {
      FilterConcat(rows[0] + "/", JoinRanks(rows[1..]), c => c != '/');
      FilterConcat(rows[0], "/", c => c != '/');
      NoSlashKept(rows[0]);
      StripJoin(rows[1..]);
      StripSlashesMeaning(JoinRanks(rows[1..]));
    }
  }

  lemma {:induction false} NoSlashKept(s: string)
    requires '/' !in s
    ensures Filter(s, c => c != '/') == s
  {
    if s != [] {
      NoSlashKept(s[1..]);
    }
  }

  lemma {:induction false} ConcatRows(rows: seq<string>)
    requires forall i :: 0 <= i < |rows| ==> |rows[i]| == 8
    ensures |Concat(rows)| == 8 * |rows|
    ensures forall r, c :: 0 <= r < |rows| && 0 <= c < 8 ==> Concat(rows)[8 * r + c] == rows[r][c]
  {
    if rows != [] {
      ConcatRows(rows[1..]);
      forall r, c | 1 <= r < |rows| && 0 <= c < 8
        ensures Concat(rows)[8 * r + c] == rows[r][c]
      {
        assert Concat(rows)[8 * r + c] == Concat(rows[1..])[8 * (r - 1) + c];
      }
    }
  }

  lemma {:induction false} ExpandedRank(rank: string)
    requires IsRankText(rank)
    ensures |ExpandDigits(rank)| == 8
    ensures ' ' !in rank && '/' !in ExpandDigits(rank)
  {
    ExpansionMeaning(rank);
    assert forall i :: 0 <= i < |rank| ==> rank[i] != ' ';
    NoSlashInExpansion(rank);
  }

  lemma {:induction false} NoSlashInExpansion(s: string)
    requires '/' !in s
    ensures '/' !in ExpandDigits(s)
  {
    if s != [] {
      NoSlashInExpansion(s[1..]);
    }
  }

  lemma FlatSquares(ranks: seq<string>, rest: string)
    requires forall i :: 0 <= i < |ranks| ==> IsRankText(ranks[i])
    requires rest == [] || rest[0] == ' '
    ensures StripSlashes(ReplaceChain(PlacementField(JoinRanks(ranks) + rest))) == Concat(ExpandAll(ranks))
  {
    forall i | 0 <= i < |ranks| {
      ExpandedRank(ranks[i]);
    }
    SpaceFreeJoin(ranks);
    PlacementFieldOfPrefix(JoinRanks(ranks), rest);
    ChainIsExpansion(JoinRanks(ranks));
    ExpandJoin(ranks);
    StripJoin(ExpandAll(ranks));
  }

  lemma ReshapeRows(rows: seq<string>)
    requires |rows| == 8 && forall i :: 0 <= i < 8 ==> |rows[i]| == 8
    ensures Reshape(Concat(rows)) == Some(rows)
  {
    ConcatRows(rows);
    var b := Reshape(Concat(rows));
    forall r | 0 <= r < 8
      ensures b.value[r] == rows[r]
    {
      assert forall c :: 0 <= c < 8 ==> b.value[r][c] == rows[r][c];
    }
    assert |b.value| == |rows|;
    assert b.value == rows;
  }

  /**
   * For a well-formed placement field of eight ranks, removing '/' leaves
   * exactly 64 squares, reshaping succeeds, and row r of the board is rank
   * text r expanded; row 0 is the first rank written (rank 8).
   */
  lemma WellFormedPlacement(ranks: seq<string>, rest: string)
    requires |ranks| == 8 && forall i :: 0 <= i < 8 ==> IsRankText(ranks[i])
    requires rest == [] || rest[0] == ' '
    ensures |StripSlashes(ReplaceChain(PlacementField(JoinRanks(ranks) + rest)))| == 64
    ensures FenToBoard(JoinRanks(ranks) + rest) == Some(ExpandAll(ranks))
  {
    FlatSquares(ranks, rest);
    forall i | 0 <= i < 8 {
      ExpandedRank(ranks[i]);
    }
    ReshapeRows(ExpandAll(ranks));
  }
}
