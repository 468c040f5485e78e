/** The classification report of `tools/eval_class_relation.py`: a confusion matrix, per-label precision,
    recall and F1, and the accuracy. */
module ConfusionMetrics {
  import opened Order
  import opened Text

  /** `_normalize_class` of a value's text, empty for a missing one. */
  function Normalize(text: string): string {
    if Strip(text) == "" then "UNKNOWN" else Strip(text)
  }

  type Cell = (string, string)

  /** A row with its two labels as written. */
  datatype Row = Row(gold: string, pred: string)

  function CellOf(row: Row): Cell { (Normalize(row.gold), Normalize(row.pred)) }

  /** What can be counted: one cell of the matrix, or the cells behind a figure of the report. */
  datatype Query = At(cell: Cell) | Support(tag: string) | TruePositive(tag: string) | FalsePositive(tag: string)
                 | FalseNegative(tag: string) | Hit | Miss

  predicate Matches(q: Query, cell: Cell) {
    match q
    case At(c) => cell == c
    case Support(l) => cell.0 == l
    case TruePositive(l) => cell == (l, l)
    case FalsePositive(l) => cell.1 == l && cell.0 != l
    case FalseNegative(l) => cell.0 == l && cell.1 != l
    case Hit => cell.0 == cell.1
    case Miss => cell.0 != cell.1
  }

  ghost function Count(rows: seq<Row>, q: Query): nat {
    if rows == [] then 0 else Count(rows[..|rows| - 1], q) + if Matches(q, CellOf(rows[|rows| - 1])) then 1 else 0
  }

  ghost function Labels(rows: seq<Row>): set<string> {
    (set row | row in rows :: CellOf(row).0) + (set row | row in rows :: CellOf(row).1)
  }

  // ------------------------------------------------------------------ the program

  /** A `Counter`: its keys in insertion order and their counts. */
  ghost predicate Tallies(order: seq<Cell>, matrix: map<Cell, nat>, rows: seq<Row>) {
    NoRepeats(order) && (forall c :: c in order <==> c in matrix)
    && (forall c | c in matrix :: matrix[c] == Count(rows, At(c))) && forall c | c !in matrix :: Count(rows, At(c)) == 0
  }

  /** The counting loop of `eval_classification`. */
  method CountCells(rows: seq<Row>) returns (correct: nat, labels: set<string>, order: seq<Cell>, matrix: map<Cell, nat>)
    ensures correct == Count(rows, Hit) && labels == Labels(rows) && Tallies(order, matrix, rows)
  {
    hide Normalize, CellOf, Tallies;
    correct, labels, order, matrix := 0, {}, [], map[];
    NoTally();
    for i := 0 to |rows|
      invariant correct == Count(rows[..i], Hit) && labels == Labels(rows[..i]) && Tallies(order, matrix, rows[..i])
    {
      assert rows[..i + 1][..i] == rows[..i];
      assert rows[..i + 1] == rows[..i] + [rows[i]];
      OneMoreTally(order, matrix, rows[..i], rows[i]);
      hide Count;
      var cell := CellOf(rows[i]);
      ghost var before := matrix;
      labels := labels + {cell.0} + {cell.1};
      if cell !in matrix {
        order := order + [cell];
        matrix := matrix[cell := 0];
      }
      matrix := matrix[cell := matrix[cell] + 1];
      assert matrix == before[cell := if cell in before then before[cell] + 1 else 1];
      if cell.0 == cell.1 {
        correct := correct + 1;
      }
    }
    assert rows[..|rows|] == rows;
  }

  lemma NoTally()
    ensures Tallies([], map[], [])
  {
  }

  lemma OneMoreTally(order: seq<Cell>, matrix: map<Cell, nat>, rows: seq<Row>, row: Row)
    requires Tallies(order, matrix, rows)
    ensures var cell := CellOf(row);
            if cell in matrix then Tallies(order, matrix[cell := matrix[cell] + 1], rows + [row])
            else Tallies(order + [cell], matrix[cell := 1], rows + [row])
    ensures Labels(rows + [row]) == Labels(rows) + {CellOf(row).0} + {CellOf(row).1}
    ensures Count(rows + [row], Hit) == Count(rows, Hit) + if CellOf(row).0 == CellOf(row).1 then 1 else 0
  {
    hide CellOf;
    assert (rows + [row])[..|rows|] == rows;
    assert forall c :: Count(rows + [row], At(c)) == Count(rows, At(c)) + if CellOf(row) == c then 1 else 0;
    assert forall r :: r in rows + [row] <==> r in rows || r == row;
    hide Count;
  }

  ghost function SumCells(order: seq<Cell>, matrix: map<Cell, nat>, q: Query): nat
    requires forall c | c in order :: c in matrix
  {
    if order == [] then 0
    else
      var last := order[|order| - 1];
      SumCells(order[..|order| - 1], matrix, q) + if Matches(q, last) then matrix[last] else 0
  }

  lemma NoCells(matrix: map<Cell, nat>, q: Query)
    ensures SumCells([], matrix, q) == 0
  {
  }

  lemma OneMoreCell(order: seq<Cell>, matrix: map<Cell, nat>, q: Query, i: nat)
    requires i < |order| && forall c | c in order :: c in matrix
    ensures SumCells(order[..i + 1], matrix, q) == SumCells(order[..i], matrix, q) + if Matches(q, order[i]) then matrix[order[i]] else 0
  {
    hide Matches;
    assert order[..i + 1][..i] == order[..i];
  }

  /** `sum(v for (g, p), v in cm.items() if ...)`. */
  method SumWhere(order: seq<Cell>, matrix: map<Cell, nat>, q: Query, ghost rows: seq<Row>) returns (n: nat)
    requires Tallies(order, matrix, rows)
    ensures n == Count(rows, q)
  {
    assert forall c | c in order :: c in matrix;
    SumIsCount(order, matrix, rows, q);
    hide Count, Tallies, Matches, SumCells;
    n := 0;
    assert SumCells(order[..0], matrix, q) == 0 by { NoCells(matrix, q); }
    for i := 0 to |order|
      invariant n == SumCells(order[..i], matrix, q)
    {
      OneMoreCell(order, matrix, q, i);
      if Matches(q, order[i]) {
        n := n + matrix[order[i]];
      }
    }
    assert order[..|order|] == order;
  }

  /** Summing the cells of the matrix counts the rows. */
  lemma SumIsCount(order: seq<Cell>, matrix: map<Cell, nat>, rows: seq<Row>, q: Query)
    requires Tallies(order, matrix, rows)
    ensures SumCells(order, matrix, q) == Count(rows, q)
  {
    hide Matches, CellOf;
    CountByCells(order, rows, q);
    SameSums(order, matrix, rows, q);
    forall i | 0 <= i < |rows| ensures CellOf(rows[i]) in order {
      CountOfPresent(rows, i);
    }
  }

  ghost function CellSum(order: seq<Cell>, rows: seq<Row>, q: Query): nat {
    if order == [] then 0
    else
      var last := order[|order| - 1];
      CellSum(order[..|order| - 1], rows, q) + if Matches(q, last) then Count(rows, At(last)) else 0
  }

  lemma {:induction false} SameSums(order: seq<Cell>, matrix: map<Cell, nat>, rows: seq<Row>, q: Query)
    requires forall c | c in order :: c in matrix && matrix[c] == Count(rows, At(c))
    ensures SumCells(order, matrix, q) == CellSum(order, rows, q)
  {
    hide Matches, Count;
    if order != [] {
      SameSums(order[..|order| - 1], matrix, rows, q);
    }
  }

  lemma {:induction false} CountOfPresent(rows: seq<Row>, i: nat)
    requires i < |rows|
    ensures Count(rows, At(CellOf(rows[i]))) > 0
  {
    hide CellOf;
    if i < |rows| - 1 {
      CountOfPresent(rows[..|rows| - 1], i);
    }
  }

  lemma {:induction false} CountByCells(order: seq<Cell>, rows: seq<Row>, q: Query)
    requires NoRepeats(order)
    ensures (forall i | 0 <= i < |rows| :: CellOf(rows[i]) in order) ==> CellSum(order, rows, q) == Count(rows, q)
    decreases |rows|
  {
    hide CellOf, Matches;
    if rows == [] {
      EmptyCellSum(order, q);
    } else {
      var front, last := rows[..|rows| - 1], rows[|rows| - 1];
      CountByCells(order, front, q);
      OneMoreRow(order, front, last, q);
      assert rows == front + [last];
    }
  }

  lemma {:induction false} EmptyCellSum(order: seq<Cell>, q: Query)
    ensures CellSum(order, [], q) == 0
  {
    if order != [] {
      EmptyCellSum(order[..|order| - 1], q);
    }
  }

  lemma {:induction false} OneMoreRow(order: seq<Cell>, rows: seq<Row>, row: Row, q: Query)
    requires NoRepeats(order)
    ensures CellSum(order, rows + [row], q)
            == CellSum(order, rows, q) + if CellOf(row) in order && Matches(q, CellOf(row)) then 1 else 0
  {
    hide Matches, Count, CellOf;
    if order != [] {
      var front, last := order[..|order| - 1], order[|order| - 1];
      OneMoreRow(front, rows, row, q);
      assert order == front + [last];
      assert last !in front;
      CountCell(rows, row, last);
    }
  }

  lemma CountCell(rows: seq<Row>, row: Row, cell: Cell)
    ensures Count(rows + [row], At(cell)) == Count(rows, At(cell)) + if CellOf(row) == cell then 1 else 0
  {
    hide CellOf;
    assert (rows + [row])[..|rows|] == rows;
  }

  // ------------------------------------------------------------------ sums over the labels

  datatype Kind = Supports | TruePositives | FalsePositives | FalseNegatives

  function QueryFor(kind: Kind, tag: string): Query {
    match kind
    case Supports => Support(tag)
    case TruePositives => TruePositive(tag)
    case FalsePositives => FalsePositive(tag)
    case FalseNegatives => FalseNegative(tag)
  }

  ghost function SumOverLabels(labels: seq<string>, rows: seq<Row>, kind: Kind): nat {
    if labels == [] then 0
    else SumOverLabels(labels[..|labels| - 1], rows, kind) + Count(rows, QueryFor(kind, labels[|labels| - 1]))
  }

  /** The one label a row counts for, if it counts at all. */
  function Place(kind: Kind, cell: Cell): string { if kind == FalsePositives then cell.1 else cell.0 }

  predicate Counts(kind: Kind, cell: Cell) {
    match kind
    case Supports => true
    case TruePositives => cell.0 == cell.1
    case _ => cell.0 != cell.1
  }

  lemma {:induction false} LabelsOfOneRow(labels: seq<string>, rows: seq<Row>, row: Row, kind: Kind)
    requires NoRepeats(labels)
    ensures SumOverLabels(labels, rows + [row], kind)
            == SumOverLabels(labels, rows, kind) + if Place(kind, CellOf(row)) in labels && Counts(kind, CellOf(row)) then 1 else 0
  {
    hide Matches, Count, CellOf, Counts, Place, QueryFor;
    if labels != [] {
      var front, last := labels[..|labels| - 1], labels[|labels| - 1];
      LabelsOfOneRow(front, rows, row, kind);
      assert labels == front + [last];
      assert last !in front;
      OneLabelOfRow(last, rows, row, kind);
    }
  }

  lemma OneLabelOfRow(tag: string, rows: seq<Row>, row: Row, kind: Kind)
    ensures Count(rows + [row], QueryFor(kind, tag))
            == Count(rows, QueryFor(kind, tag)) + if Place(kind, CellOf(row)) == tag && Counts(kind, CellOf(row)) then 1 else 0
  {
    hide CellOf;
    assert (rows + [row])[..|rows|] == rows;
    var q := QueryFor(kind, tag);
    assert Matches(q, CellOf(row)) <==> Place(kind, CellOf(row)) == tag && Counts(kind, CellOf(row));
  }

  lemma {:induction false} NoRowsNoSum(labels: seq<string>, kind: Kind)
    ensures SumOverLabels(labels, [], kind) == 0
  {
    if labels != [] {
      NoRowsNoSum(labels[..|labels| - 1], kind);
    }
  }

  ghost predicate Lists(labels: seq<string>, rows: seq<Row>) {
    NoRepeats(labels) && forall row | row in rows :: CellOf(row).0 in labels && CellOf(row).1 in labels
  }

  /** Double counting: the supports sum to the rows, the true positives to the hits, and the false positives
      as well as the false negatives to the misses. */
  lemma {:induction false} SumsOverLabels(labels: seq<string>, rows: seq<Row>)
    requires Lists(labels, rows)
    ensures SumOverLabels(labels, rows, Supports) == |rows|
    ensures SumOverLabels(labels, rows, TruePositives) == Count(rows, Hit)
    ensures SumOverLabels(labels, rows, FalsePositives) == SumOverLabels(labels, rows, FalseNegatives) == Count(rows, Miss)
    ensures Count(rows, Hit) + Count(rows, Miss) == |rows|
    decreases |rows|
  {
    if rows == [] {
      forall kind { NoRowsNoSum(labels, kind); }
    } else {
      var front, last := rows[..|rows| - 1], rows[|rows| - 1];
      assert rows == front + [last];
      assert last in rows;
      SumsOverLabels(labels, front);
      forall kind ensures SumOverLabels(labels, rows, kind) == SumOverLabels(labels, front, kind) + if Counts(kind, CellOf(last)) then 1 else 0 {
        LabelsOfOneRow(labels, front, last, kind);
      }
      hide SumOverLabels, CellOf;
    }
  }

  /** The sorted labels of the report list every label once. */
  lemma ReportLabels(rows: seq<Row>)
    ensures (StrLeOrder(); Lists(SortedSet(Labels(rows), StrLe), rows))
  {
    StrLeOrder();
    SortedSetSorted(Labels(rows), StrLe);
    hide CellOf;
  }

  /** A label's support is its true positives and false negatives. */
  lemma {:induction false} SupportSplits(rows: seq<Row>, tag: string)
    ensures Count(rows, Support(tag)) == Count(rows, TruePositive(tag)) + Count(rows, FalseNegative(tag))
  {
    if rows != [] {
      SupportSplits(rows[..|rows| - 1], tag);
      hide CellOf;
    }
  }

  // ------------------------------------------------------------------ precision, recall and F1

  function SafeDiv(a: real, b: real): real { if b == 0.0 then 0.0 else a / b }

  function Precision(tp: nat, fp: nat): real { SafeDiv(tp as real, (tp + fp) as real) }

  function Recall(tp: nat, fn: nat): real { SafeDiv(tp as real, (tp + fn) as real) }

  function F1(precision: real, recall: real): real {
    if precision + recall == 0.0 then 0.0 else SafeDiv(2.0 * precision * recall, precision + recall)
  }

  function F1FromCounts(tp: nat, fp: nat, fn: nat): real {
    SafeDiv((2 * tp) as real, (2 * tp + fp + fn) as real)
  }

  lemma RatioIs(a: real, b: real, q: real)
    requires b > 0.0 && q * b == a
    ensures a / b == q
  {
    assert a / b * b == a;
    Cancel(a / b, q, b);
  }

  lemma Product(a: real, b: real)
    requires a > 0.0 && b > 0.0
    ensures a * b > 0.0
  {
  }

  /** F1 computed from precision and recall is `2 tp / (2 tp + fp + fn)`, and 0 without true positives. */
  lemma F1OfCounts(tp: nat, fp: nat, fn: nat)
    ensures F1(Precision(tp, fp), Recall(tp, fn)) == F1FromCounts(tp, fp, fn)
  {
    if tp == 0 {
      assert Precision(tp, fp) == 0.0 && Recall(tp, fn) == 0.0;
    } else {
      F1OfPositive(tp as real, (tp + fp) as real, (tp + fn) as real);
    }
  }

  lemma F1OfPositive(t: real, a: real, b: real)
    requires t > 0.0 && a > 0.0 && b > 0.0
    ensures t / a + t / b > 0.0
    ensures 2.0 * (t / a) * (t / b) / (t / a + t / b) == 2.0 * t / (a + b)
  {
    var p, r := t / a, t / b;
    assert p * a == t && r * b == t;
    Positive(t, a);
    Positive(t, b);
    var f := 2.0 * t / (a + b);
    assert f * (a + b) == 2.0 * t;
    Times(f, p, r, a, b, t);
    RatioIs(2.0 * p * r, p + r, f);
  }

  lemma Positive(t: real, a: real)
    requires t > 0.0 && a > 0.0
    ensures t / a > 0.0
  {
    var q := t / a;
    assert q * a == t;
    if q <= 0.0 {
      NonPositive(q, a);
    }
  }

  lemma NonPositive(q: real, a: real)
    requires q <= 0.0 && a > 0.0
    ensures q * a <= 0.0
  {
  }

  /** With `a = t / p` and `b = t / r`: the harmonic mean of `p` and `r`. */
  lemma Times(f: real, p: real, r: real, a: real, b: real, t: real)
    requires p * a == t && r * b == t && f * (a + b) == 2.0 * t && t > 0.0 && a > 0.0 && b > 0.0
    ensures f * (p + r) == 2.0 * p * r
  {
    calc {
      f * (p + r) * (a * b);
    ==
      f * ((p * a) * b + (r * b) * a);
    ==
      f * (t * b + t * a);
    ==
      t * (f * (a + b));
    ==
      2.0 * t * t;
    ==
      2.0 * (p * a) * (r * b);
    ==
      2.0 * p * r * (a * b);
    }
    Product(a, b);
    Cancel(f * (p + r), 2.0 * p * r, a * b);
  }

  lemma Cancel(x: real, y: real, k: real)
    requires k > 0.0 && x * k == y * k
    ensures x == y
  {
    assert (x - y) * k == 0.0;
  }

  /** F1 lies between precision and recall. */
  lemma F1IsBetween(tp: nat, fp: nat, fn: nat)
    ensures var (p, r) := (Precision(tp, fp), Recall(tp, fn));
            (if p < r then p else r) <= F1(p, r) <= (if p < r then r else p)
  {
    F1OfCounts(tp, fp, fn);
    if tp > 0 {
      var t, a, b := tp as real, (tp + fp) as real, (tp + fn) as real;
      Mediant(t, a, b);
      assert (2 * tp) as real == 2.0 * t && (2 * tp + fp + fn) as real == a + b;
    }
  }

  lemma Mediant(t: real, a: real, b: real)
    requires t > 0.0 && a > 0.0 && b > 0.0
    ensures var (p, r) := (t / a, t / b); (if p < r then p else r) <= 2.0 * t / (a + b) <= (if p < r then r else p)
  {
    if a <= b {
      Antitone(t, a, (a + b) / 2.0);
      Antitone(t, (a + b) / 2.0, b);
    } else {
      Antitone(t, b, (a + b) / 2.0);
      Antitone(t, (a + b) / 2.0, a);
    }
    var f := 2.0 * t / (a + b);
    assert f * (a + b) == 2.0 * t;
    assert f * ((a + b) / 2.0) == t;
    RatioIs(t, (a + b) / 2.0, f);
  }

  lemma Antitone(t: real, a: real, b: real)
    requires t > 0.0 && 0.0 < a <= b
    ensures t / b <= t / a
  {
    var p, r := t / a, t / b;
    assert p * a == t && r * b == t;
    if r > p {
      Positive(t, a);
      Scale(r, a, b);
      StrictScale(a, p, r);
    }
  }

  lemma Scale(k: real, a: real, b: real)
    requires k >= 0.0 && a <= b
    ensures k * a <= k * b
  {
  }

  lemma StrictScale(k: real, a: real, b: real)
    requires k > 0.0 && a < b
    ensures b * k > a * k
  {
  }

  /** Summed over the labels, precision and recall are the same number: the accuracy. */
  lemma MicroAverageIsAccuracy(labels: seq<string>, rows: seq<Row>)
    requires Lists(labels, rows) && rows != []
    ensures var tp := SumOverLabels(labels, rows, TruePositives);
            Precision(tp, SumOverLabels(labels, rows, FalsePositives)) == Recall(tp, SumOverLabels(labels, rows, FalseNegatives))
            == SafeDiv(Count(rows, Hit) as real, |rows| as real)
  {
    hide Count, SumOverLabels, Lists, SafeDiv;
    SumsOverLabels(labels, rows);
  }

  // ------------------------------------------------------------------ the figures of one label

  lemma {:induction false} DiagonalCell(rows: seq<Row>, tag: string)
    ensures Count(rows, At((tag, tag))) == Count(rows, TruePositive(tag))
  {
    hide CellOf;
    if rows != [] {
      DiagonalCell(rows[..|rows| - 1], tag);
    }
  }

  lemma OnDiagonal(order: seq<Cell>, matrix: map<Cell, nat>, tag: string, rows: seq<Row>)
    requires Tallies(order, matrix, rows)
    ensures Count(rows, TruePositive(tag)) == if (tag, tag) in matrix then matrix[(tag, tag)] else 0
  {
    hide Count;
    DiagonalCell(rows, tag);
  }

  /** The body of the per-label loop. */
  method LabelFigures(order: seq<Cell>, matrix: map<Cell, nat>, tag: string, ghost rows: seq<Row>)
    returns (precision: real, recall: real, f1: real, support: nat)
    requires Tallies(order, matrix, rows)
    ensures support == Count(rows, TruePositive(tag)) + Count(rows, FalseNegative(tag))
    ensures precision == Precision(Count(rows, TruePositive(tag)), Count(rows, FalsePositive(tag)))
    ensures recall == Recall(Count(rows, TruePositive(tag)), Count(rows, FalseNegative(tag)))
    ensures f1 == F1FromCounts(Count(rows, TruePositive(tag)), Count(rows, FalsePositive(tag)), Count(rows, FalseNegative(tag)))
  {
    hide Count, Tallies, SafeDiv, F1, Precision, Recall, F1FromCounts, Matches;
    OnDiagonal(order, matrix, tag, rows);
    var tp := if (tag, tag) in matrix then matrix[(tag, tag)] else 0;
    var fp := SumWhere(order, matrix, FalsePositive(tag), rows);
    var fn := SumWhere(order, matrix, FalseNegative(tag), rows);
    support := SumWhere(order, matrix, Support(tag), rows);
    SupportSplits(rows, tag);
    F1OfCounts(tp, fp, fn);
    precision, recall := Precision(tp, fp), Recall(tp, fn);
    f1 := F1(precision, recall);
  }
}
