/**
 The interval-sequence similarity of the song audit.

 `Lev` is the textbook recursive edit distance.  `SequenceSimilarity` is the
 program's rolling-row loop.  Edit scripts give the distance an independent
 meaning: it is the least number of changes that turn one sequence into the
 other, and it is a metric.
 */
module EditDistance {
  import opened Wrappers

  const MAX_PAIRWISE_COMPARISON_CELLS: nat := 4_000_000

  datatype BudgetError = OverBudget(cells: nat)

  function Min(a: nat, b: nat): nat { if a <= b then a else b }

  function Max(a: nat, b: nat): nat { if a <= b then b else a }

  function Init(s: seq<int>): seq<int>
    requires s != []
  {
    s[..|s| - 1]
  }

  function Last(s: seq<int>): int
    requires s != []
  {
    s[|s| - 1]
  }

  function Differs(x: int, y: int): nat { if x == y then 0 else 1 }

  /** The recursive Levenshtein distance. */
  function Lev(a: seq<int>, b: seq<int>): nat
    decreases |a| + |b|
  {
    if a == [] then |b|
    else if b == [] then |a|
    else
      Min(Min(Lev(Init(a), Init(b)) + Differs(Last(a), Last(b)),
              Lev(a, Init(b)) + 1),
          Lev(Init(a), b) + 1)
  }

  // ----- The distance is a metric -----

  lemma {:induction false} LevSymmetric(a: seq<int>, b: seq<int>)
    ensures Lev(a, b) == Lev(b, a)
    decreases |a| + |b|
  {
    if a != [] && b != [] {
      LevSymmetric(Init(a), Init(b));
      LevSymmetric(a, Init(b));
      LevSymmetric(Init(a), b);
    }
  }

  /** The distance lies between the length difference and the longer length. */
  lemma {:induction false} LevBounds(a: seq<int>, b: seq<int>)
    ensures |a| - |b| <= Lev(a, b)
    ensures |b| - |a| <= Lev(a, b)
    ensures Lev(a, b) <= Max(|a|, |b|)
    decreases |a| + |b|
  {
    if a != [] && b != [] {
      LevBounds(Init(a), Init(b));
      LevBounds(a, Init(b));
      LevBounds(Init(a), b);
    }
  }

  /** Removing the last element of either side changes the distance by at most one. */
  lemma {:induction false} LevLipschitz(a: seq<int>, b: seq<int>)
    requires a != []
    ensures Lev(Init(a), b) <= Lev(a, b) + 1
    ensures Lev(a, b) <= Lev(Init(a), b) + 1
    decreases |a| + |b|
  {
    if b != [] {
      LevLipschitz(a, Init(b));
    }
  }

  lemma {:induction false} LevZeroIffEqual(a: seq<int>, b: seq<int>)
    ensures Lev(a, b) == 0 <==> a == b
    decreases |a| + |b|
  {
    if a != [] && b != [] {
      LevZeroIffEqual(Init(a), Init(b));
      assert a == Init(a) + [Last(a)] && b == Init(b) + [Last(b)];
    }
  }

  lemma {:induction false} LevTriangle(a: seq<int>, b: seq<int>, c: seq<int>)
    ensures Lev(a, c) <= Lev(a, b) + Lev(b, c)
    decreases |a| + |b| + |c|
  {
    if a == [] || c == [] {
      LevBounds(a, b);
      LevBounds(b, c);
    } else if b == [] {
      LevBounds(a, c);
    } else if Lev(a, b) == Lev(Init(a), b) + 1 {
      LevTriangle(Init(a), b, c);
    } else if Lev(b, c) == Lev(b, Init(c)) + 1 {
      LevTriangle(a, b, Init(c));
    } else if Lev(a, b) == Lev(a, Init(b)) + 1 {
      LevTriangle(a, Init(b), c);
      LevLipschitz(b, c);
    } else if Lev(b, c) == Lev(Init(b), c) + 1 {
      LevTriangle(Init(a), Init(b), c);
    } else {
      LevTriangle(Init(a), Init(b), Init(c));
    }
  }

  // ----- The distance is the least cost of an edit script -----

  datatype Edit = Keep | Replace(value: int) | Insert(value: int) | Delete

  function EditCost(e: Edit): nat { if e.Keep? then 0 else 1 }

  function Cost(script: seq<Edit>): nat
  {
    if script == [] then 0 else Cost(script[..|script| - 1]) + EditCost(script[|script| - 1])
  }

  /** Run a script over the whole of `a`; it must consume exactly `a`. */
  function Apply(script: seq<Edit>, a: seq<int>): Option<seq<int>>
  {
    if script == [] then if a == [] then Some([]) else None
    else
      var earlier := script[..|script| - 1];
      match script[|script| - 1]
      case Insert(v) =>
        (match Apply(earlier, a) case None => None case Some(b) => Some(b + [v]))
      case Delete =>
        if a == [] then None else Apply(earlier, Init(a))
      case Keep =>
        if a == [] then None
        else (match Apply(earlier, Init(a)) case None => None case Some(b) => Some(b + [Last(a)]))
      case Replace(v) =>
        if a == [] then None
        else (match Apply(earlier, Init(a)) case None => None case Some(b) => Some(b + [v]))
  }

  /** No script that turns `a` into `b` is cheaper than the distance. */
  lemma {:induction false} EveryScriptCostsAtLeastLev(script: seq<Edit>, a: seq<int>, b: seq<int>)
    requires Apply(script, a) == Some(b)
    ensures Lev(a, b) <= Cost(script)
  {
    if script != [] {
      var earlier := script[..|script| - 1];
      match script[|script| - 1]
      case Insert(v) =>
        EveryScriptCostsAtLeastLev(earlier, a, Init(b));
        LevSymmetric(a, b);
        LevSymmetric(a, Init(b));
        LevLipschitz(b, a);
      case Delete =>
        EveryScriptCostsAtLeastLev(earlier, Init(a), b);
        LevLipschitz(a, b);
      case _ =>
        EveryScriptCostsAtLeastLev(earlier, Init(a), Init(b));
    }
  }

  /** Some script that turns `a` into `b` costs exactly the distance. */
  lemma {:induction false} SomeScriptCostsLev(a: seq<int>, b: seq<int>) returns (script: seq<Edit>)
    ensures Apply(script, a) == Some(b)
    ensures Cost(script) == Lev(a, b)
    decreases |a| + |b|
  {
    if a == [] && b == [] {
      script := [];
    } else {
      var earlier: seq<Edit>, last: Edit;
      if b != [] && (a == [] || Lev(a, b) == Lev(a, Init(b)) + 1) {
        earlier := SomeScriptCostsLev(a, Init(b));
        last := Insert(Last(b));
      } else if b == [] || Lev(a, b) == Lev(Init(a), b) + 1 {
        earlier := SomeScriptCostsLev(Init(a), b);
        last := Delete;
      } else {
        earlier := SomeScriptCostsLev(Init(a), Init(b));
        last := if Last(a) == Last(b) then Keep else Replace(Last(b));
      }
      script := earlier + [last];
      assert script[..|script| - 1] == earlier;
      assert b != [] ==> b == Init(b) + [Last(b)];
    }
  }

  // ----- The rolling-row loop -----

  /** One minus the distance over the longer length; two empty sequences score one. */
  function Similarity(left: seq<int>, right: seq<int>): real
  {
    Score(Lev(left, right), Max(Max(|left|, |right|), 1))
  }

  function Score(distance: nat, denominator: nat): real
    requires denominator > 0
  {
    1.0 - distance as real / denominator as real
  }

  /** Fill one row of the table from the row above it. */
  method NextRow(left: seq<int>, right: seq<int>, leftIndex: nat, row: array<nat>)
    returns (next: array<nat>)
    requires leftIndex < |left|
    requires row.Length == |right| + 1
    requires forall j :: 0 <= j <= |right| ==> row[j] == Lev(left[..leftIndex], right[..j])
    ensures next.Length == |right| + 1
    ensures forall j :: 0 <= j <= |right| ==> next[j] == Lev(left[..leftIndex + 1], right[..j])
  {
    next := new nat[|right| + 1](_ => leftIndex + 1);
    for rightIndex := 0 to |right|
      invariant forall j :: 0 <= j <= rightIndex ==> next[j] == Lev(left[..leftIndex + 1], right[..j])
    {
      var a, b := left[..leftIndex + 1], right[..rightIndex + 1];
      assert Init(a) == left[..leftIndex] && Init(b) == right[..rightIndex];
      var substitution := row[rightIndex] + Differs(left[leftIndex], right[rightIndex]);
      next[rightIndex + 1] := Min(Min(substitution, next[rightIndex] + 1), row[rightIndex + 1] + 1);
    }
  }

  /** The program's scoring function: exact within the cell budget, an error above it. */
  method SequenceSimilarity(left: seq<int>, right: seq<int>)
    returns (r: Result<real, BudgetError>)
    ensures r == if |left| * |right| > 4_000_000
                 then Err(OverBudget(|left| * |right|))
                 else Ok(Similarity(left, right))
  {
    if |left| * |right| > MAX_PAIRWISE_COMPARISON_CELLS {
      return Err(OverBudget(|left| * |right|));
    }
    if left == [] && right == [] {
      return Ok(1.0);
    }
    var row := new nat[|right| + 1](j => j);
    assert left[..0] == [];
    for leftIndex := 0 to |left|
      invariant row.Length == |right| + 1
      invariant forall j :: 0 <= j <= |right| ==> row[j] == Lev(left[..leftIndex], right[..j])
    {
      row := NextRow(left, right, leftIndex, row);
    }
    assert left[..|left|] == left && right[..|right|] == right;
    var distance := row[|right|];
    var denominator := Max(Max(|left|, |right|), 1);
    r := Ok(1.0 - distance as real / denominator as real);
    assert r == Ok(Score(distance, denominator));
  }

  lemma RatioBounds(d: nat, n: nat)
    requires 0 < n && d <= n
    ensures 0.0 <= d as real / n as real <= 1.0
    ensures d as real / n as real == 0.0 <==> d == 0
    ensures d as real / n as real == 1.0 <==> d == n
  {
  }

  /** The score is a symmetric number in [0, 1] that is one exactly on equal sequences. */
  lemma SimilarityProperties(left: seq<int>, right: seq<int>)
    ensures 0.0 <= Similarity(left, right) <= 1.0
    ensures Similarity(left, right) == 1.0 <==> left == right
    ensures Similarity(left, right) == Similarity(right, left)
  {
    LevBounds(left, right);
    LevZeroIffEqual(left, right);
    LevSymmetric(left, right);
    RatioBounds(Lev(left, right), Max(Max(|left|, |right|), 1));
  }

  /** The score lost, in units of `n`. */
  function LossIn(n: nat, score: real): real { (1.0 - score) * n as real }

  function Loss(left: seq<int>, right: seq<int>): real
  {
    LossIn(Max(|left|, |right|), Similarity(left, right))
  }

  lemma LossOfScore(d: nat, n: nat)
    requires d <= n
    ensures LossIn(n, Score(d, Max(n, 1))) == d as real
  {
    if n > 0 {
      var x := d as real / n as real;
      assert x * n as real == d as real;
      assert 1.0 - Score(d, n) == x;
    }
  }

  lemma {:induction false} LossIsDistance(left: seq<int>, right: seq<int>)
    ensures Loss(left, right) == Lev(left, right) as real
  {
    LevBounds(left, right);
    LossOfScore(Lev(left, right), Max(|left|, |right|));
  }

  /** The score lost is the least number of edits between the two. */
  lemma LossIsLeastEdits(left: seq<int>, right: seq<int>) returns (best: seq<Edit>)
    ensures Apply(best, left) == Some(right)
    ensures Loss(left, right) == Cost(best) as real
    ensures forall script :: Apply(script, left) == Some(right) ==> Cost(best) <= Cost(script)
  {
    LossIsDistance(left, right);
    best := SomeScriptCostsLev(left, right);
    forall script | Apply(script, left) == Some(right)
      ensures Cost(best) <= Cost(script)
    {
      EveryScriptCostsAtLeastLev(script, left, right);
    }
  }
}
