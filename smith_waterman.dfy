/** smith_waterman (src/align.cpp): local alignment by dynamic programming over a score matrix H
    and a predecessor matrix P, followed by a traceback from the best cell.

    The specification is given cell by cell: Entry(i, j) is what the fill loop stores in H[i][j]
    and P[i][j], Best(i, j) is the running maximum after the loop has visited cell (i, j) in
    row-major order, and Trace(i, j) is where the traceback stops when it starts at (i, j). */
module SmithWaterman {
  import opened Text

  const MatchScore := 3
  const MismatchScore := -1
  const DeletionScore := -6
  const InsertionScore := -6

  /** The struct smith_waterman returns; both spans are zero-based with an inclusive end. */
  datatype AlignmentResult = AlignmentResult(score: int, seq1Start: int, seq1End: int, seq2Start: int, seq2End: int)

  /** One cell of H with its predecessor in P: 'D' diagonal, 'U' up, 'L' left, ' ' none. */
  datatype Cell = Cell(score: int, pred: char)

  /** The maximum tracked by the fill loop: max_score at (max_i, max_j). */
  datatype Top = Top(score: int, i: nat, j: nat)

  function Substitution(a: char, b: char): (s: int)
    ensures s == MatchScore <==> ToUpper(a) == ToUpper(b)
    ensures s == MatchScore || s == MismatchScore
  {
    if ToUpper(a) == ToUpper(b) then MatchScore else MismatchScore
  }

  /** The choice among the three candidate scores, clamped at 0: a candidate replaces the current
      value only when strictly greater, tried in the order diagonal, up, left. */
  function Choose(diagonal: int, up: int, left: int): Cell {
    var afterDiagonal := if diagonal > 0 then Cell(diagonal, 'D') else Cell(0, ' ');
    var afterUp := if up > afterDiagonal.score then Cell(up, 'U') else afterDiagonal;
    if left > afterUp.score then Cell(left, 'L') else afterUp
  }

  /** Choose keeps the maximum of 0 and the three candidates, and its predecessor says which
      candidate won: ties go to the diagonal, then up, then left; ' ' exactly when the cell is 0. */
  lemma ChooseSpec(diagonal: int, up: int, left: int)
    ensures var c := Choose(diagonal, up, left);
      && c.score >= 0 && c.score >= diagonal && c.score >= up && c.score >= left
      && (c.pred == 'D' <==> diagonal > 0 && diagonal >= up && diagonal >= left)
      && (c.pred == 'U' <==> up > 0 && up > diagonal && up >= left)
      && (c.pred == 'L' <==> left > 0 && left > diagonal && left > up)
      && (c.pred == ' ' <==> c.score == 0)
      && (c.pred == 'D' ==> c.score == diagonal)
      && (c.pred == 'U' ==> c.score == up)
      && (c.pred == 'L' ==> c.score == left)
      && (c.pred == 'D' || c.pred == 'U' || c.pred == 'L' || c.pred == ' ')
  {
  }

  /** H[i][j] and P[i][j] once the fill loop has reached them; row 0 and column 0 keep their
      initial 0 and ' '. */
  function Entry(s1: string, s2: string, i: nat, j: nat): Cell
    requires i <= |s1| && j <= |s2|
    decreases i + j
  {
    if i == 0 || j == 0 then Cell(0, ' ')
    else Choose(Entry(s1, s2, i - 1, j - 1).score + Substitution(s1[i - 1], s2[j - 1]),
                Entry(s1, s2, i - 1, j).score + DeletionScore,
                Entry(s1, s2, i, j - 1).score + InsertionScore)
  }

  /** Cell (a, b) comes strictly before cell (i, j) in row-major order. */
  predicate Before(a: int, b: int, i: int, j: int) {
    a < i || (a == i && b < j)
  }

  /** (max_score, max_i, max_j) after the fill loop has visited every cell of rows 1..i-1 and
      cells 1..j of row i. */
  function Best(s1: string, s2: string, i: nat, j: nat): (t: Top)
    requires i <= |s1| && j <= |s2|
    ensures t.i <= i && t.j <= |s2|
    decreases i, j
  {
    if i == 0 then Top(0, 0, 0)
    else if j == 0 then Best(s1, s2, i - 1, |s2|)
    else
      var previous := Best(s1, s2, i, j - 1);
      var h := Entry(s1, s2, i, j).score;
      if h > previous.score then Top(h, i, j) else previous
  }

  /** Where the traceback loop stops when started at (i, j). It never moves right or down, and
      it stops on the top row, the left column or a cell of score 0. */
  function Trace(s1: string, s2: string, i: nat, j: nat): (r: (nat, nat))
    requires i <= |s1| && j <= |s2|
    ensures r.0 <= i && r.1 <= j
    ensures r.0 == 0 || r.1 == 0 || Entry(s1, s2, r.0, r.1).score == 0
    decreases i + j
  {
    if i > 0 && j > 0 && Entry(s1, s2, i, j).score > 0 then
      var pred := Entry(s1, s2, i, j).pred;
      if pred == 'D' then Trace(s1, s2, i - 1, j - 1)
      else if pred == 'U' then Trace(s1, s2, i - 1, j)
      else if pred == 'L' then Trace(s1, s2, i, j - 1)
      else (i, j)
    else (i, j)
  }

  /** The result smith_waterman returns. */
  function Align(s1: string, s2: string): AlignmentResult {
    var top := Best(s1, s2, |s1|, |s2|);
    var start := Trace(s1, s2, top.i, top.j);
    AlignmentResult(top.score, start.0, top.i - 1, start.1, top.j - 1)
  }

  /** H and P hold Entry for every cell (a, b) with a < rows, and for the first cols cells of row
      `rows` when that row exists; the later rows still hold their initial column 0. */
  ghost predicate Filled(s1: string, s2: string, H: array2<int>, P: array2<char>, rows: nat, cols: nat)
    reads H, P
  {
    && H.Length0 == P.Length0 == |s1| + 1 && H.Length1 == P.Length1 == |s2| + 1
    && rows <= |s1| + 1 && cols <= |s2| + 1
    && (forall a, b {:trigger H[a, b]} :: 0 <= a < rows && 0 <= b <= |s2| ==> H[a, b] == Entry(s1, s2, a, b).score)
    && (forall a, b {:trigger P[a, b]} :: 0 <= a < rows && 0 <= b <= |s2| ==> P[a, b] == Entry(s1, s2, a, b).pred)
    && (rows <= |s1| ==> forall b {:trigger H[rows, b]} :: 0 <= b < cols ==> H[rows, b] == Entry(s1, s2, rows, b).score)
    && (rows <= |s1| ==> forall b {:trigger P[rows, b]} :: 0 <= b < cols ==> P[rows, b] == Entry(s1, s2, rows, b).pred)
    && (forall a :: rows < a <= |s1| ==> H[a, 0] == 0 && P[a, 0] == ' ')
  }

  /** The fill loop of smith_waterman: H, P and the first strict maximum in row-major order. */
  method FillMatrices(seq1: string, seq2: string) returns (H: array2<int>, P: array2<char>, top: Top)
    ensures fresh(H) && fresh(P)
    ensures Filled(seq1, seq2, H, P, |seq1| + 1, 0)
    ensures top == Best(seq1, seq2, |seq1|, |seq2|)
  {
    var m, n := |seq1|, |seq2|;
    H := new int[m + 1, n + 1]((_, _) => 0);
    P := new char[m + 1, n + 1]((_, _) => ' ');
    top := Top(0, 0, 0);
    var i := 1;
    while i <= m
      invariant 1 <= i <= m + 1
      invariant Filled(seq1, seq2, H, P, i, 1)
      invariant top == Best(seq1, seq2, i - 1, n)
    {
      top := FillRow(seq1, seq2, H, P, i, top);
      i := i + 1;
    }
  }

  /** One pass of the inner loop: fills row i of H and P and updates the running maximum. */
  method FillRow(seq1: string, seq2: string, H: array2<int>, P: array2<char>, i: nat, top: Top)
    returns (top': Top)
    requires 1 <= i <= |seq1|
    requires Filled(seq1, seq2, H, P, i, 1)
    requires top == Best(seq1, seq2, i - 1, |seq2|)
    modifies H, P
    ensures Filled(seq1, seq2, H, P, i + 1, 1)
    ensures top' == Best(seq1, seq2, i, |seq2|)
    ensures forall a, b {:trigger H[a, b]} {:trigger P[a, b]} :: i < a < H.Length0 && 0 <= b < H.Length1 ==> H[a, b] == old(H[a, b]) && P[a, b] == old(P[a, b])
  {
    var n := |seq2|;
    var maxScore: int, maxI: nat, maxJ: nat := top.score, top.i, top.j;
    var j := 1;
    while j <= n
      invariant 1 <= j <= n + 1
      invariant Filled(seq1, seq2, H, P, i, j)
      invariant Top(maxScore, maxI, maxJ) == Best(seq1, seq2, i, j - 1)
      invariant forall a, b {:trigger H[a, b]} {:trigger P[a, b]} :: i < a < H.Length0 && 0 <= b < H.Length1 ==> H[a, b] == old(H[a, b]) && P[a, b] == old(P[a, b])
    {
      FillCell(seq1, seq2, H, P, i, j);

      if H[i, j] > maxScore {
        maxScore := H[i, j];
        maxI := i;
        maxJ := j;
      }
      j := j + 1;
    }
    top' := Top(maxScore, maxI, maxJ);
  }

  /** The body of the inner fill loop up to the update of the maximum: compute cell (i, j), then
      store it into H and P. */
  method FillCell(seq1: string, seq2: string, H: array2<int>, P: array2<char>, i: nat, j: nat)
    requires 1 <= i <= |seq1| && 1 <= j <= |seq2|
    requires Filled(seq1, seq2, H, P, i, j)
    modifies H, P
    ensures Filled(seq1, seq2, H, P, i, j + 1)
    ensures forall a, b :: 0 <= a < H.Length0 && 0 <= b < H.Length1 && (a, b) != (i, j) ==>
      H[a, b] == old(H[a, b]) && P[a, b] == old(P[a, b])
  {
    var maxVal, pred := ComputeCell(seq1, seq2, H, i, j);
    H[i, j] := maxVal;
    P[i, j] := pred;
  }

  /** The three candidate scores from the neighbouring cells and the choice among them. */
  method ComputeCell(seq1: string, seq2: string, H: array2<int>, i: nat, j: nat) returns (maxVal: int, pred: char)
    requires 1 <= i <= |seq1| && 1 <= j <= |seq2|
    requires H.Length0 == |seq1| + 1 && H.Length1 == |seq2| + 1
    requires H[i - 1, j - 1] == Entry(seq1, seq2, i - 1, j - 1).score
    requires H[i - 1, j] == Entry(seq1, seq2, i - 1, j).score
    requires H[i, j - 1] == Entry(seq1, seq2, i, j - 1).score
    ensures Cell(maxVal, pred) == Entry(seq1, seq2, i, j)
  {
    var matchScore := H[i - 1, j - 1];
    if ToUpper(seq1[i - 1]) == ToUpper(seq2[j - 1]) {
      matchScore := matchScore + MatchScore;
    } else {
      matchScore := matchScore + MismatchScore;
    }
    var deleteScore := H[i - 1, j] + DeletionScore;
    var insertScore := H[i, j - 1] + InsertionScore;

    maxVal := 0;
    pred := ' ';
    if matchScore > maxVal {
      maxVal := matchScore;
      pred := 'D';
    }
    if deleteScore > maxVal {
      maxVal := deleteScore;
      pred := 'U';
    }
    if insertScore > maxVal {
      maxVal := insertScore;
      pred := 'L';
    }
  }

  /** The traceback loop of smith_waterman: from (i, j), follow P while the cell scores above 0. */
  method TraceBack(seq1: string, seq2: string, H: array2<int>, P: array2<char>, i: nat, j: nat)
    returns (ti: nat, tj: nat)
    requires Filled(seq1, seq2, H, P, |seq1| + 1, 0)
    requires i <= |seq1| && j <= |seq2|
    ensures (ti, tj) == Trace(seq1, seq2, i, j)
  {
    ti, tj := i, j;
    while ti > 0 && tj > 0 && H[ti, tj] > 0
      invariant ti <= i && tj <= j
      invariant Trace(seq1, seq2, ti, tj) == Trace(seq1, seq2, i, j)
      decreases ti + tj
    {
      var pred := P[ti, tj];
      if pred == 'D' {
        ti, tj := ti - 1, tj - 1;
      } else if pred == 'U' {
        ti := ti - 1;
      } else if pred == 'L' {
        tj := tj - 1;
      } else {
        break;
      }
    }
  }

  /** smith_waterman: fill, then trace back from the maximum. */
  method SmithWaterman(seq1: string, seq2: string) returns (result: AlignmentResult)
    ensures result == Align(seq1, seq2)
  {
    var H, P, top := FillMatrices(seq1, seq2);
    var i, j := TraceBack(seq1, seq2, H, P, top.i, top.j);
    result := AlignmentResult(top.score, i, top.i - 1, j, top.j - 1);
  }

  /** Every cell of H is at least 0; P holds ' ' exactly in the cells of score 0, and otherwise
      names the candidate that produced the score. */
  lemma EntrySpec(s1: string, s2: string, i: nat, j: nat)
    requires i <= |s1| && j <= |s2|
    ensures var c := Entry(s1, s2, i, j);
      && c.score >= 0
      && (c.pred == ' ' <==> c.score == 0)
      && (c.pred == 'D' || c.pred == 'U' || c.pred == 'L' || c.pred == ' ')
      && (i > 0 && j > 0 && c.pred == 'D' ==> c.score == Entry(s1, s2, i - 1, j - 1).score + Substitution(s1[i - 1], s2[j - 1]))
      && (i > 0 && j > 0 && c.pred == 'U' ==> c.score == Entry(s1, s2, i - 1, j).score + DeletionScore)
      && (i > 0 && j > 0 && c.pred == 'L' ==> c.score == Entry(s1, s2, i, j - 1).score + InsertionScore)
  {
    if i > 0 && j > 0 {
      ChooseSpec(Entry(s1, s2, i - 1, j - 1).score + Substitution(s1[i - 1], s2[j - 1]),
                 Entry(s1, s2, i - 1, j).score + DeletionScore,
                 Entry(s1, s2, i, j - 1).score + InsertionScore);
    }
  }

  lemma ChooseAtMost(diagonal: int, up: int, left: int, bound: int)
    requires 0 <= bound && diagonal <= bound && up <= bound && left <= bound
    ensures Choose(diagonal, up, left).score <= bound
  {
  }

  function Min(a: int, b: int): int { if a <= b then a else b }

  /** No cell scores more than a perfect match of its shorter prefix: H[i][j] <= 3 * min(i, j).
      This bounds every score by 3 * min(|s1|, |s2|), so the int arithmetic of the source never
      overflows for sequences of realistic length. */
  lemma {:induction false} ScoreBound(s1: string, s2: string, i: nat, j: nat)
    requires i <= |s1| && j <= |s2|
    ensures Entry(s1, s2, i, j).score <= 3 * Min(i, j)
    decreases i + j
  {
    if i > 0 && j > 0 {
      ScoreBound(s1, s2, i - 1, j - 1);
      ScoreBound(s1, s2, i - 1, j);
      ScoreBound(s1, s2, i, j - 1);
      var diagonal := Entry(s1, s2, i - 1, j - 1).score + Substitution(s1[i - 1], s2[j - 1]);
      var up := Entry(s1, s2, i - 1, j).score + DeletionScore;
      var left := Entry(s1, s2, i, j - 1).score + InsertionScore;
      var bound := 3 * Min(i, j);
      assert diagonal <= 3 * Min(i - 1, j - 1) + 3 == bound;
      assert up <= 3 * Min(i - 1, j) <= bound;
      assert left <= 3 * Min(i, j - 1) <= bound;
      ChooseAtMost(diagonal, up, left, bound);
    }
  }

  /** Best(i, j) is the first strict maximum, in row-major order, of the cells the fill loop has
      visited by then: its score is at least every visited cell's (and at least 0), it is reached
      at its position, and every earlier cell scores less. The position is (0, 0) when no cell
      scores above 0. */
  lemma {:induction false} BestIsFirstMaximum(s1: string, s2: string, i: nat, j: nat)
    requires i <= |s1| && j <= |s2|
    ensures var t := Best(s1, s2, i, j);
      && t.score >= 0
      && (forall a, b :: 1 <= a <= |s1| && 1 <= b <= |s2| && Before(a, b, i, j + 1) ==> Entry(s1, s2, a, b).score <= t.score)
      && (t.score == 0 ==> t.i == 0 && t.j == 0)
      && (t.score > 0 ==>
            && 1 <= t.i && 1 <= t.j && Before(t.i, t.j, i, j + 1)
            && Entry(s1, s2, t.i, t.j).score == t.score
            && forall a, b :: 1 <= a && 1 <= b <= |s2| && Before(a, b, t.i, t.j) ==> Entry(s1, s2, a, b).score < t.score)
    decreases i, j
  {
    if i == 0 {
    } else if j == 0 {
      BestIsFirstMaximum(s1, s2, i - 1, |s2|);
    } else {
      BestIsFirstMaximum(s1, s2, i, j - 1);
      EntrySpec(s1, s2, i, j);
    }
  }

  /** smith_waterman's score is the maximum over all of H (0 for an empty input), and
      (seq1_end + 1, seq2_end + 1) is the first cell in row-major order that attains it. */
  lemma AlignIsFirstMaximum(s1: string, s2: string)
    ensures var r := Align(s1, s2);
      && r.score >= 0
      && (forall a, b :: 0 <= a <= |s1| && 0 <= b <= |s2| ==> Entry(s1, s2, a, b).score <= r.score)
      && (r.score > 0 ==>
            && 1 <= r.seq1End + 1 <= |s1| && 1 <= r.seq2End + 1 <= |s2|
            && Entry(s1, s2, r.seq1End + 1, r.seq2End + 1).score == r.score
            && forall a, b :: 1 <= a && 1 <= b <= |s2| && Before(a, b, r.seq1End + 1, r.seq2End + 1) ==> Entry(s1, s2, a, b).score < r.score)
  {
    BestIsFirstMaximum(s1, s2, |s1|, |s2|);
  }

  /** When nothing scores above 0, as for an empty input, both spans are (0, -1). */
  lemma AlignZero(s1: string, s2: string)
    requires Align(s1, s2).score == 0
    ensures Align(s1, s2) == AlignmentResult(0, 0, -1, 0, -1)
  {
    BestIsFirstMaximum(s1, s2, |s1|, |s2|);
  }

  /** An empty input scores 0. */
  lemma AlignEmpty(s1: string, s2: string)
    requires s1 == [] || s2 == []
    ensures Align(s1, s2) == AlignmentResult(0, 0, -1, 0, -1)
  {
    BestIsFirstMaximum(s1, s2, |s1|, |s2|);
    if s1 != [] {
      assert forall a :: 0 <= a <= |s1| ==> Entry(s1, s2, a, 0).score == 0;
    }
  }

  /** When something matches, both spans are non-empty and lie inside their sequences. The
      first traceback step from the maximum is always diagonal: an up or left step would mean a
      neighbouring, earlier cell scored 6 more than the maximum. */
  lemma AlignSpansInBounds(s1: string, s2: string)
    requires Align(s1, s2).score > 0
    ensures var r := Align(s1, s2);
      && 0 <= r.seq1Start <= r.seq1End < |s1|
      && 0 <= r.seq2Start <= r.seq2End < |s2|
  {
    var top := Best(s1, s2, |s1|, |s2|);
    BestIsFirstMaximum(s1, s2, |s1|, |s2|);
    var i, j := top.i, top.j;
    if i - 1 >= 1 {
      assert Before(i - 1, j, |s1|, |s2| + 1);
    }
    if j - 1 >= 1 {
      assert Before(i, j - 1, |s1|, |s2| + 1);
    }
    StepFromPositive(s1, s2, i, j);
    var start := Trace(s1, s2, i - 1, j - 1);
    assert Align(s1, s2) == AlignmentResult(top.score, start.0, i - 1, start.1, j - 1);
  }

  /** A positive cell whose upper and left neighbours score no more than it came diagonally. */
  lemma StepFromPositive(s1: string, s2: string, i: nat, j: nat)
    requires 1 <= i <= |s1| && 1 <= j <= |s2|
    requires Entry(s1, s2, i, j).score > 0
    requires Entry(s1, s2, i - 1, j).score <= Entry(s1, s2, i, j).score
    requires Entry(s1, s2, i, j - 1).score <= Entry(s1, s2, i, j).score
    ensures Entry(s1, s2, i, j).pred == 'D'
    ensures Trace(s1, s2, i, j) == Trace(s1, s2, i - 1, j - 1)
  {
    EntrySpec(s1, s2, i, j);
  }

  /** The score never exceeds 3 * min(|s1|, |s2|). */
  lemma AlignScoreBound(s1: string, s2: string)
    ensures Align(s1, s2).score <= 3 * Min(|s1|, |s2|)
  {
    var top := Best(s1, s2, |s1|, |s2|);
    BestIsFirstMaximum(s1, s2, |s1|, |s2|);
    if top.score > 0 {
      ScoreBound(s1, s2, top.i, top.j);
    }
  }
}
