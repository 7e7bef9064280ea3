/**
 * `filterAndBalanceData` in dataLoaderAndPreprocessing.py: keep the games of
 * the configured length, with a decisive result, a whitelisted time control
 * and a human White player; then take equally many games from each of the
 * four groups (Black computer or human, Black winning or losing), and recode
 * the computer flags as numbers.
 */
module Balance {
  import opened Common

  /** One row of the games table: the columns the selection reads, and the other columns as `rest`. */
  datatype GameRow<P> = GameRow(
    plyCount: int,
    result: string,
    timeControl: string,
    whiteIsComp: Option<string>,  // "Yes", or missing (None) for a human
    blackIsComp: Option<string>,
    rest: P)

  /** A row after `fillna(value=0)` and `replace("Yes", 1)`: both flags are numbers. */
  datatype LabelledRow<P> = LabelledRow(
    plyCount: int,
    result: string,
    timeControl: string,
    whiteIsComp: int,
    blackIsComp: int,
    rest: P)

  // ---------------------------------------------------------------------------
  // The four filters.

  function LongerThan<P>(plymin: int): GameRow<P> -> bool
  {
    (g: GameRow<P>) => g.plyCount > plymin
  }

  function ShorterThan<P>(plymax: int): GameRow<P> -> bool
  {
    (g: GameRow<P>) => g.plyCount < plymax
  }

  /** No draws. */
  predicate Decisive<P>(g: GameRow<P>)
  {
    g.result == "1-0" || g.result == "0-1"
  }

  predicate AllowedTimeControl<P>(g: GameRow<P>)
  {
    g.timeControl == "300+0" || g.timeControl == "600+0" || g.timeControl == "900+0"
  }

  /** White is always the human player. */
  predicate WhiteHuman<P>(g: GameRow<P>)
  {
    g.whiteIsComp.None?
  }

  /** The five masks, applied one after another as `filterAndBalanceData` does. */
  function Filtered<P>(df: seq<GameRow<P>>, plymin: int, plymax: int): seq<GameRow<P>>
  {
    Filter(Filter(Filter(Filter(Filter(df, LongerThan(plymin)), ShorterThan(plymax)), Decisive), AllowedTimeControl), WhiteHuman)
  }

  // ---------------------------------------------------------------------------
  // Balancing.

  datatype Cohort = ComputerWinning | ComputerLosing | HumanWinning | HumanLosing

  predicate InCohort<P>(g: GameRow<P>, c: Cohort)
  {
    match c
    case ComputerWinning => g.blackIsComp == Some("Yes") && g.result == "0-1"
    case ComputerLosing => g.blackIsComp == Some("Yes") && g.result == "1-0"
    case HumanWinning => g.blackIsComp.None? && g.result == "0-1"
    case HumanLosing => g.blackIsComp.None? && g.result == "1-0"
  }

  function Member<P>(c: Cohort): GameRow<P> -> bool
  {
    g => InCohort(g, c)
  }

  function Group<P>(rows: seq<GameRow<P>>, c: Cohort): seq<GameRow<P>>
  {
    Filter(rows, Member(c))
  }

  /** `len` of one group. */
  function Count<P>(rows: seq<GameRow<P>>, c: Cohort): nat
  {
    |Group(rows, c)|
  }

  /** `n_min`: the size of the smallest group. */
  function MinGroupSize<P>(rows: seq<GameRow<P>>): nat
  {
    var a, b, c, d := Count(rows, ComputerWinning), Count(rows, ComputerLosing), Count(rows, HumanWinning), Count(rows, HumanLosing);
    var ab := if a <= b then a else b;
    var cd := if c <= d then c else d;
    if ab <= cd then ab else cd
  }

  /** The first `n_min` rows of each group, concatenated in the order `filterAndBalanceData` uses. */
  function TakeBalanced<P>(rows: seq<GameRow<P>>): seq<GameRow<P>>
  {
    var n := MinGroupSize(rows);
    Group(rows, ComputerWinning)[..n] + Group(rows, ComputerLosing)[..n] +
    Group(rows, HumanWinning)[..n] + Group(rows, HumanLosing)[..n]
  }

  /** The selected rows, before recoding. */
  function Balanced<P>(df: seq<GameRow<P>>, plymin: int, plymax: int): seq<GameRow<P>>
  {
    TakeBalanced(Filtered(df, plymin, plymax))
  }

  /** A flag after `fillna(0)` then `replace("Yes", 1)`. */
  function Recode(flag: Option<string>): int
    requires flag.None? || flag == Some("Yes")
  {
    if flag.None? then 0 else 1
  }

  predicate Recodable<P>(g: GameRow<P>)
  {
    (g.whiteIsComp.None? || g.whiteIsComp == Some("Yes")) && (g.blackIsComp.None? || g.blackIsComp == Some("Yes"))
  }

  function Relabel<P>(g: GameRow<P>): LabelledRow<P>
    requires Recodable(g)
  {
    LabelledRow(g.plyCount, g.result, g.timeControl, Recode(g.whiteIsComp), Recode(g.blackIsComp), g.rest)
  }

  /** The whole of `filterAndBalanceData`, without the two shuffles. */
  function FilterAndBalance<P>(df: seq<GameRow<P>>, plymin: int, plymax: int): (out: seq<LabelledRow<P>>)
  {
    var b := Balanced(df, plymin, plymax);
    BalancedRecodable(df, plymin, plymax);
    seq(|b|, i requires 0 <= i < |b| => Relabel(b[i]))
  }

  // ---------------------------------------------------------------------------
  // Properties of the building blocks.

  lemma CohortsDisjoint<P>(g: GameRow<P>, c: Cohort, d: Cohort)
    requires InCohort(g, c) && InCohort(g, d)
    ensures c == d
  {
    assert "0-1" != "1-0";
  }

  // ---------------------------------------------------------------------------
  // Properties of balancing, for any rows.

  lemma GroupRow<P>(rows: seq<GameRow<P>>, c: Cohort, j: nat)
    requires j < |Group(rows, c)|
    ensures Group(rows, c)[j] in rows && InCohort(Group(rows, c)[j], c)
  {
    var g := Group(rows, c)[j];
    assert Member(c)(g);
    FilterCount(rows, Member(c), g);
    assert g in multiset(Group(rows, c));
  }

  lemma BalanceRow<P>(rows: seq<GameRow<P>>, i: nat)
    requires i < |TakeBalanced(rows)|
    ensures TakeBalanced(rows)[i] in rows
    ensures InCohort(TakeBalanced(rows)[i], ComputerWinning) || InCohort(TakeBalanced(rows)[i], ComputerLosing) ||
            InCohort(TakeBalanced(rows)[i], HumanWinning) || InCohort(TakeBalanced(rows)[i], HumanLosing)
  {
    var n := MinGroupSize(rows);
    var c := if i < n then ComputerWinning else if i < 2 * n then ComputerLosing else if i < 3 * n then HumanWinning else HumanLosing;
    var j := if i < n then i else if i < 2 * n then i - n else if i < 3 * n then i - 2 * n else i - 3 * n;
    assert TakeBalanced(rows)[i] == Group(rows, c)[j];
    GroupRow(rows, c, j);
  }

  /** A prefix of one group holds only that group's cohort. */
  lemma PartCount<P>(rows: seq<GameRow<P>>, d: Cohort, n: nat, c: Cohort)
    requires n <= |Group(rows, d)|
    ensures Filter(Group(rows, d)[..n], Member(c)) == if d == c then Group(rows, d)[..n] else []
  {
    var part := Group(rows, d)[..n];
    forall i | 0 <= i < |part|
      ensures InCohort(part[i], d)
    {
      GroupRow(rows, d, i);
    }
    if d == c {
      FilterAll(part, Member(c));
    } else {
      forall i | 0 <= i < |part|
        ensures !Member(c)(part[i])
      {
        if InCohort(part[i], c) {
          CohortsDisjoint(part[i], d, c);
        }
      }
      FilterNone(part, Member(c));
    }
  }

  /** Each cohort contributes exactly `MinGroupSize(rows)` rows. */
  lemma BalanceCounts<P>(rows: seq<GameRow<P>>, c: Cohort)
    ensures Count(TakeBalanced(rows), c) == MinGroupSize(rows)
    ensures |TakeBalanced(rows)| == 4 * MinGroupSize(rows)
  {
    var n := MinGroupSize(rows);
    var p0, p1, p2, p3 := Group(rows, ComputerWinning)[..n], Group(rows, ComputerLosing)[..n],
                          Group(rows, HumanWinning)[..n], Group(rows, HumanLosing)[..n];
    assert TakeBalanced(rows) == p0 + p1 + p2 + p3;
    PartCount(rows, ComputerWinning, n, c);
    PartCount(rows, ComputerLosing, n, c);
    PartCount(rows, HumanWinning, n, c);
    PartCount(rows, HumanLosing, n, c);
    FilterConcat(p0 + p1 + p2, p3, Member(c));
    FilterConcat(p0 + p1, p2, Member(c));
    FilterConcat(p0, p1, Member(c));
  }

  /** `MinGroupSize` is the size of the smallest group. */
  lemma MinGroupSizeIsMin<P>(rows: seq<GameRow<P>>)
    ensures forall c :: MinGroupSize(rows) <= Count(rows, c)
    ensures exists c :: MinGroupSize(rows) == Count(rows, c)
  {
    var n := MinGroupSize(rows);
    if n == Count(rows, ComputerWinning) {
    } else if n == Count(rows, ComputerLosing) {
    } else if n == Count(rows, HumanWinning) {
    } else {
      assert n == Count(rows, HumanLosing);
    }
  }

  /** A row occurs in a prefix of its group at most as often as in the rows, and in no other group. */
  lemma PartOccurrences<P>(rows: seq<GameRow<P>>, d: Cohort, n: nat, g: GameRow<P>)
    requires n <= |Group(rows, d)|
    ensures multiset(Group(rows, d)[..n])[g] <= if InCohort(g, d) then multiset(rows)[g] else 0
  {
    var grp := Group(rows, d);
    assert grp == grp[..n] + grp[n..];
    assert multiset(grp) == multiset(grp[..n]) + multiset(grp[n..]);
    FilterCount(rows, Member(d), g);
  }

  lemma BalanceSubset<P>(rows: seq<GameRow<P>>)
    ensures multiset(TakeBalanced(rows)) <= multiset(rows)
  {
    var n := MinGroupSize(rows);
    var p0, p1, p2, p3 := Group(rows, ComputerWinning)[..n], Group(rows, ComputerLosing)[..n],
                          Group(rows, HumanWinning)[..n], Group(rows, HumanLosing)[..n];
    assert TakeBalanced(rows) == p0 + p1 + p2 + p3;
    assert multiset(TakeBalanced(rows)) == multiset(p0) + multiset(p1) + multiset(p2) + multiset(p3);
    forall g
      ensures multiset(TakeBalanced(rows))[g] <= multiset(rows)[g]
    {
      PartOccurrences(rows, ComputerWinning, n, g);
      PartOccurrences(rows, ComputerLosing, n, g);
      PartOccurrences(rows, HumanWinning, n, g);
      PartOccurrences(rows, HumanLosing, n, g);
      var cs := [ComputerWinning, ComputerLosing, HumanWinning, HumanLosing];
      forall p, q | 0 <= p < q < 4 && InCohort(g, cs[p])
        ensures !InCohort(g, cs[q])
      {
        if InCohort(g, cs[q]) {
          CohortsDisjoint(g, cs[p], cs[q]);
        }
      }
    }
    MultisetIncluded(TakeBalanced(rows), rows);
  }

  /** Group sizes depend only on the multiset of rows. */
  lemma GroupCountOfMultiset<P>(r1: seq<GameRow<P>>, r2: seq<GameRow<P>>, c: Cohort)
    requires multiset(r1) == multiset(r2)
    ensures Count(r1, c) == Count(r2, c)
  {
    forall x
      ensures multiset(Group(r1, c))[x] == multiset(Group(r2, c))[x]
    {
      FilterCount(r1, Member(c), x);
      FilterCount(r2, Member(c), x);
    }
    MultisetEqual(Group(r1, c), Group(r2, c));
    assert |multiset(Group(r1, c))| == |Group(r1, c)|;
    assert |multiset(Group(r2, c))| == |Group(r2, c)|;
  }

  // ---------------------------------------------------------------------------
  // Properties of the selection.

  /** A row survives the five masks exactly when it passes all four filters. */
  lemma FilteredCount<P>(df: seq<GameRow<P>>, plymin: int, plymax: int, g: GameRow<P>)
    ensures multiset(Filtered(df, plymin, plymax))[g] ==
              if plymin < g.plyCount < plymax && Decisive(g) && AllowedTimeControl(g) && WhiteHuman(g)
              then multiset(df)[g] else 0
  {
    var s1 := Filter(df, LongerThan(plymin));
    var s2 := Filter(s1, ShorterThan(plymax));
    var s3 := Filter(s2, Decisive);
    var s4 := Filter(s3, AllowedTimeControl);
    FilterCount(df, LongerThan(plymin), g);
    FilterCount(s1, ShorterThan(plymax), g);
    FilterCount(s2, Decisive, g);
    FilterCount(s3, AllowedTimeControl, g);
    FilterCount(s4, WhiteHuman, g);
  }

  lemma FilteredRow<P>(df: seq<GameRow<P>>, plymin: int, plymax: int, g: GameRow<P>)
    requires g in Filtered(df, plymin, plymax)
    ensures plymin < g.plyCount < plymax && Decisive(g) && AllowedTimeControl(g) && WhiteHuman(g)
  {
    FilteredCount(df, plymin, plymax, g);
    assert multiset(Filtered(df, plymin, plymax))[g] > 0;
  }

  lemma BalancedRecodable<P>(df: seq<GameRow<P>>, plymin: int, plymax: int)
    ensures forall i :: 0 <= i < |Balanced(df, plymin, plymax)| ==> Recodable(Balanced(df, plymin, plymax)[i])
  {
    var f := Filtered(df, plymin, plymax);
    forall i | 0 <= i < |TakeBalanced(f)|
      ensures Recodable(TakeBalanced(f)[i])
    {
      BalanceRow(f, i);
      FilteredRow(df, plymin, plymax, TakeBalanced(f)[i]);
    }
  }

  /**
   * Every retained game is of the configured length, decisive, played at
   * 300+0, 600+0 or 900+0, with a human White; and after recoding White's
   * flag is 0 and Black's is 1 for a computer and 0 for a human.
   */
  lemma RetainedPassFilters<P>(df: seq<GameRow<P>>, plymin: int, plymax: int)
    ensures var out := FilterAndBalance(df, plymin, plymax);
            var b := Balanced(df, plymin, plymax);
            |out| == |b| &&
            forall i :: 0 <= i < |out| ==>
              plymin < out[i].plyCount < plymax &&
              (out[i].result == "1-0" || out[i].result == "0-1") &&
              (out[i].timeControl == "300+0" || out[i].timeControl == "600+0" || out[i].timeControl == "900+0") &&
              out[i].whiteIsComp == 0 &&
              out[i].blackIsComp in {0, 1} &&
              (out[i].blackIsComp == 1 <==> b[i].blackIsComp == Some("Yes")) &&
              out[i].rest == b[i].rest
  {
    var f := Filtered(df, plymin, plymax);
    var b := TakeBalanced(f);
    forall i | 0 <= i < |b|
      ensures plymin < b[i].plyCount < plymax && Decisive(b[i]) && AllowedTimeControl(b[i]) && WhiteHuman(b[i])
    {
      BalanceRow(f, i);
      FilteredRow(df, plymin, plymax, b[i]);
    }
  }

  /**
   * Each of the four groups contributes exactly `n_min` rows, `n_min` is the
   * size of the smallest group, and the output has `4 * n_min` rows.
   */
  lemma CohortsBalanced<P>(df: seq<GameRow<P>>, plymin: int, plymax: int)
    ensures var f := Filtered(df, plymin, plymax);
            var n := MinGroupSize(f);
            (forall c :: n <= Count(f, c)) &&
            (exists c :: n == Count(f, c)) &&
            (forall c :: Count(Balanced(df, plymin, plymax), c) == n) &&
            |FilterAndBalance(df, plymin, plymax)| == 4 * n
  {
    var f := Filtered(df, plymin, plymax);
    MinGroupSizeIsMin(f);
    forall c
      ensures Count(TakeBalanced(f), c) == MinGroupSize(f)
    {
      BalanceCounts(f, c);
    }
    BalanceCounts(f, ComputerWinning);
  }

  /** Nothing is duplicated or invented: the output rows, before recoding, are a sub-multiset of the filtered input, itself a sub-multiset of the input. */
  lemma NothingInvented<P>(df: seq<GameRow<P>>, plymin: int, plymax: int)
    ensures multiset(Balanced(df, plymin, plymax)) <= multiset(Filtered(df, plymin, plymax))
    ensures multiset(Filtered(df, plymin, plymax)) <= multiset(df)
  {
    var f := Filtered(df, plymin, plymax);
    forall g
      ensures multiset(f)[g] <= multiset(df)[g]
    {
      FilteredCount(df, plymin, plymax, g);
    }
    MultisetIncluded(f, df);
    BalanceSubset(f);
  }

  /**
   * The shuffle of the filtered table (`df.sample(frac=1)` before the groups
   * are taken) cannot change how many rows are selected: two tables holding
   * the same rows in any order have the same `n_min`, the same number of rows
   * of every cohort after balancing, and the same output size.
   */
  lemma ShuffledTableBalancesAlike<P>(r1: seq<GameRow<P>>, r2: seq<GameRow<P>>)
    requires multiset(r1) == multiset(r2)
    ensures MinGroupSize(r1) == MinGroupSize(r2)
    ensures |TakeBalanced(r1)| == |TakeBalanced(r2)|
    ensures forall c :: Count(TakeBalanced(r1), c) == Count(TakeBalanced(r2), c)
  {
    GroupCountOfMultiset(r1, r2, ComputerWinning);
    GroupCountOfMultiset(r1, r2, ComputerLosing);
    GroupCountOfMultiset(r1, r2, HumanWinning);
    GroupCountOfMultiset(r1, r2, HumanLosing);
    assert MinGroupSize(r1) == MinGroupSize(r2);
    forall c
      ensures Count(TakeBalanced(r1), c) == Count(TakeBalanced(r2), c)
    {
      BalanceCounts(r1, c);
      BalanceCounts(r2, c);
    }
    BalanceCounts(r1, ComputerWinning);
    BalanceCounts(r2, ComputerWinning);
  }

  /**
   * The reshuffle of the output (`df.sample(frac=1)` after balancing) keeps
   * the balance: any reordering has the same length and the same number of
   * rows of every cohort.
   */
  lemma ReshuffledOutputBalanced<P>(out1: seq<GameRow<P>>, out2: seq<GameRow<P>>)
    requires multiset(out1) == multiset(out2)
    ensures |out1| == |out2|
    ensures forall c :: Count(out1, c) == Count(out2, c)
  {
    assert |multiset(out1)| == |out1| && |multiset(out2)| == |out2|;
    forall c
      ensures Count(out1, c) == Count(out2, c)
    {
      GroupCountOfMultiset(out1, out2, c);
    }
  }

  /**
   * Reordering the input table changes neither the filtered rows, as a
   * multiset, nor any group size, nor the output size.
   */
  lemma ShuffleInvariant<P>(df1: seq<GameRow<P>>, df2: seq<GameRow<P>>, plymin: int, plymax: int)
    requires multiset(df1) == multiset(df2)
    ensures multiset(Filtered(df1, plymin, plymax)) == multiset(Filtered(df2, plymin, plymax))
    ensures forall c :: Count(Filtered(df1, plymin, plymax), c) == Count(Filtered(df2, plymin, plymax), c)
    ensures |FilterAndBalance(df1, plymin, plymax)| == |FilterAndBalance(df2, plymin, plymax)|
  {
    var f1 := Filtered(df1, plymin, plymax);
    var f2 := Filtered(df2, plymin, plymax);
    forall g
      ensures multiset(f1)[g] == multiset(f2)[g]
    {
      FilteredCount(df1, plymin, plymax, g);
      FilteredCount(df2, plymin, plymax, g);
    }
    MultisetEqual(f1, f2);
    forall c
      ensures Count(f1, c) == Count(f2, c)
    {
      GroupCountOfMultiset(f1, f2, c);
    }
    ShuffledTableBalancesAlike(f1, f2);
  }
}
