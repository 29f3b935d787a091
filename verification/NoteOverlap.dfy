/**
 The normalised note-overlap score: a greedy nearest-note matching between two
 sheets and the F1 score of its hits.
 */
module NoteOverlap {
  import opened Wrappers
  import OnsetShape
  import EditDistance
  import opened Sets

  datatype Note = Note(time: nat, button: nat)

  /** A note with its time replaced by its position in the sheet's span. */
  datatype Placed = Placed(position: nat, button: nat)

  const TOLERANCE: nat := 200

  function Gap(a: nat, b: nat): nat { if a <= b then b - a else a - b }

  predicate Eligible(note: Placed, candidate: Placed)
  {
    candidate.button == note.button && Gap(candidate.position, note.position) <= TOLERANCE
  }

  /** Notes may be paired exactly when they have one button and lie at most 200 units apart, either way. */
  lemma EligibleIff(note: Placed, candidate: Placed)
    ensures Eligible(note, candidate)
       <==> note.button == candidate.button && -200 <= candidate.position - note.position <= 200
  {
  }

  predicate Free(note: Placed, candidates: seq<Placed>, matched: set<nat>, j: nat)
  {
    j < |candidates| && j !in matched && Eligible(note, candidates[j])
  }

  // ----- Specification: the choice for one note, and the whole matching -----

  /** The first among the nearest free candidates with index below `n`. */
  function PickBelow(note: Placed, candidates: seq<Placed>, matched: set<nat>, n: nat): (r: Option<nat>)
    requires n <= |candidates|
    ensures r.Some? ==> r.value < n && Free(note, candidates, matched, r.value)
    ensures r.None? ==> forall j :: 0 <= j < n ==> !Free(note, candidates, matched, j)
    ensures r.Some? ==> forall j :: 0 <= j < n && Free(note, candidates, matched, j) ==>
                          var best := Gap(candidates[r.value].position, note.position);
                          var other := Gap(candidates[j].position, note.position);
                          best < other || (best == other && r.value <= j)
  {
    if n == 0 then None
    else
      var best := PickBelow(note, candidates, matched, n - 1);
      if Free(note, candidates, matched, n - 1)
         && (best.None?
             || Gap(candidates[n - 1].position, note.position) < Gap(candidates[best.value].position, note.position))
      then Some(n - 1) else best
  }

  function Pick(note: Placed, candidates: seq<Placed>, matched: set<nat>): Option<nat>
  {
    PickBelow(note, candidates, matched, |candidates|)
  }

  function Taken(picks: seq<Option<nat>>): set<nat>
  {
    set i | 0 <= i < |picks| && picks[i].Some? :: picks[i].value
  }

  /** The choice made for each current note, in order. */
  function Greedy(current: seq<Placed>, candidates: seq<Placed>): (picks: seq<Option<nat>>)
    ensures |picks| == |current|
  {
    if current == [] then []
    else
      var earlier := Greedy(current[..|current| - 1], candidates);
      earlier + [Pick(current[|current| - 1], candidates, Taken(earlier))]
  }

  lemma {:induction false} GreedyPrefix(current: seq<Placed>, candidates: seq<Placed>, i: nat)
    requires i <= |current|
    ensures Greedy(current, candidates)[..i] == Greedy(current[..i], candidates)
  {
    if i == |current| {
      assert current[..i] == current;
    } else {
      var shorter := current[..|current| - 1];
      GreedyPrefix(shorter, candidates, i);
      assert shorter[..i] == current[..i];
    }
  }

  lemma {:induction false} GreedyStep(current: seq<Placed>, candidates: seq<Placed>, i: nat)
    requires i < |current|
    ensures Greedy(current, candidates)[i]
         == Pick(current[i], candidates, Taken(Greedy(current, candidates)[..i]))
  {
    GreedyPrefix(current, candidates, i);
    GreedyPrefix(current, candidates, i + 1);
    assert current[..i + 1][..i] == current[..i];
    assert Greedy(current, candidates)[..i + 1][i] == Greedy(current, candidates)[i];
  }

  function Hits(picks: seq<Option<nat>>): nat
  {
    if picks == [] then 0
    else Hits(picks[..|picks| - 1]) + if picks[|picks| - 1].Some? then 1 else 0
  }

  // ----- Matchings -----

  ghost predicate Injective(m: map<nat, nat>)
  {
    forall i, j :: i in m && j in m && m[i] == m[j] ==> i == j
  }

  /** Pairs of current and candidate indices; a map is already one-valued. */
  ghost predicate Matching(m: map<nat, nat>, current: seq<Placed>, candidates: seq<Placed>)
  {
    && (forall i :: i in m ==> i < |current| && m[i] < |candidates| && Eligible(current[i], candidates[m[i]]))
    && Injective(m)
  }

  function GreedyMatching(current: seq<Placed>, candidates: seq<Placed>): map<nat, nat>
  {
    var picks := Greedy(current, candidates);
    map i | 0 <= i < |picks| && picks[i].Some? :: picks[i].value
  }

  /** The greedy choices pair each side at most once and only eligible notes. */
  lemma GreedyIsMatching(current: seq<Placed>, candidates: seq<Placed>)
    ensures Matching(GreedyMatching(current, candidates), current, candidates)
  {
    var picks := Greedy(current, candidates);
    var m := GreedyMatching(current, candidates);
    forall i | i in m
      ensures m[i] < |candidates| && Eligible(current[i], candidates[m[i]])
      ensures forall j :: 0 <= j < i && j in m ==> m[j] != m[i]
    {
      GreedyStep(current, candidates, i);
      forall j | 0 <= j < i && j in m
        ensures m[j] != m[i]
      {
        assert picks[..i][j] == picks[j];
        assert m[j] in Taken(picks[..i]);
      }
    }
  }

  /** No eligible pair is left with both ends unmatched. */
  lemma GreedyIsMaximal(current: seq<Placed>, candidates: seq<Placed>, i: nat, j: nat)
    requires i < |current| && j < |candidates| && Eligible(current[i], candidates[j])
    ensures i in GreedyMatching(current, candidates) || j in GreedyMatching(current, candidates).Values
  {
    var picks := Greedy(current, candidates);
    var m := GreedyMatching(current, candidates);
    GreedyStep(current, candidates, i);
    if picks[i].None? {
      assert !Free(current[i], candidates, Taken(picks[..i]), j);
      var k :| 0 <= k < i && picks[..i][k] == Some(j);
      assert k in m && m[k] == j;
    }
  }

  lemma {:induction false} HitsCountPairs(picks: seq<Option<nat>>)
    ensures Hits(picks) == |set i | 0 <= i < |picks| && picks[i].Some?|
    ensures Hits(picks) <= |picks|
  {
    var chosen := set i | 0 <= i < |picks| && picks[i].Some?;
    if picks != [] {
      var shorter := picks[..|picks| - 1];
      HitsCountPairs(shorter);
      var before := set i | 0 <= i < |shorter| && shorter[i].Some?;
      if picks[|picks| - 1].Some? {
        assert chosen == before + {|picks| - 1};
      } else {
        assert chosen == before;
      }
    }
  }

  lemma {:induction false} HitsAreMatchingSize(current: seq<Placed>, candidates: seq<Placed>)
    ensures Hits(Greedy(current, candidates)) == |GreedyMatching(current, candidates)|
  {
    var picks := Greedy(current, candidates);
    HitsCountPairs(picks);
    assert GreedyMatching(current, candidates).Keys == set i | 0 <= i < |picks| && picks[i].Some?;
  }

  /** An injective map has as many values as keys. */
  lemma {:induction false} InjectiveSize(m: map<nat, nat>)
    requires Injective(m)
    ensures |m.Values| == |m|
    decreases |m|
  {
    if m == map[] {
      assert m.Values == {};
    } else {
      var i :| i in m;
      var rest := m - {i};
      InjectiveSize(rest);
      assert rest.Keys == m.Keys - {i};
      forall v | v in m.Values
        ensures v in rest.Values + {m[i]}
      {
        var k :| k in m && m[k] == v;
        assert k != i ==> k in rest && rest[k] == v;
      }
      forall v | v in rest.Values
        ensures v in m.Values && v != m[i]
      {
        var k :| k in rest && rest[k] == v;
        assert m[k] == v;
      }
      assert m.Values == rest.Values + {m[i]};
    }
  }

  /** Split the pairs of `m` by whether `g` covers their left end; `g` covers the rest on the right. */
  lemma CoveredSize(m: map<nat, nat>, g: map<nat, nat>)
    requires Injective(m) && Injective(g)
    requires forall i :: i in m && i !in g ==> m[i] in g.Values
    ensures |m| <= 2 * |g|
  {
    var left := m.Keys * g.Keys;
    var right := map i | i in m && i !in g :: m[i];
    assert m.Keys == left + right.Keys;
    assert |m.Keys| == |left| + |right.Keys|;
    SubsetSize(left, g.Keys);
    InjectiveSize(right);
    InjectiveSize(g);
    SubsetSize(right.Values, g.Values);
  }

  /** Any matching has at most twice as many pairs as the greedy one. */
  lemma {:induction false} GreedyIsHalfOptimal(m: map<nat, nat>, current: seq<Placed>, candidates: seq<Placed>)
    requires Matching(m, current, candidates)
    ensures |m| <= 2 * Hits(Greedy(current, candidates))
  {
    var g := GreedyMatching(current, candidates);
    GreedyIsMatching(current, candidates);
    HitsAreMatchingSize(current, candidates);
    forall i | i in m && i !in g
      ensures m[i] in g.Values
    {
      GreedyIsMaximal(current, candidates, i, m[i]);
    }
    CoveredSize(m, g);
  }

  /** Each sheet has a greedy hit for no more than each of its notes. */
  lemma {:induction false} HitsBounded(current: seq<Placed>, candidates: seq<Placed>)
    ensures Hits(Greedy(current, candidates)) <= |current|
    ensures Hits(Greedy(current, candidates)) <= |candidates|
  {
    var g := GreedyMatching(current, candidates);
    HitsCountPairs(Greedy(current, candidates));
    HitsAreMatchingSize(current, candidates);
    GreedyIsMatching(current, candidates);
    InjectiveSize(g);
    forall j | j in g.Values
      ensures j in Indices(|candidates|)
    {
      var i :| i in g && g[i] == j;
    }
    SubsetSize(g.Values, Indices(|candidates|));
  }

  function Indices(n: nat): (s: set<nat>)
    ensures forall j :: j in s <==> 0 <= j < n
    ensures |s| == n
  {
    if n == 0 then {} else Indices(n - 1) + {n - 1}
  }

  ghost function PreImage(m: map<nat, nat>, j: nat): (i: nat)
    requires j in m.Values
    ensures i in m && m[i] == j
  {
    var i :| i in m && m[i] == j;
    i
  }

  ghost function Inverse(m: map<nat, nat>): map<nat, nat>
  {
    map j | j in m.Values :: PreImage(m, j)
  }

  lemma GapSymmetric(note: Placed, candidate: Placed)
    ensures Eligible(note, candidate) ==> Eligible(candidate, note)
  {
  }

  lemma InverseIsMatching(m: map<nat, nat>, current: seq<Placed>, candidates: seq<Placed>)
    requires Matching(m, current, candidates)
    ensures Matching(Inverse(m), candidates, current)
    ensures |Inverse(m)| == |m|
  {
    var inverse := Inverse(m);
    assert inverse.Keys == m.Values;
    InjectiveSize(m);
    forall j | j in inverse
      ensures j < |candidates| && inverse[j] < |current| && Eligible(candidates[j], current[inverse[j]])
    {
      var i := PreImage(m, j);
      GapSymmetric(current[i], candidates[j]);
    }
    forall j, k | j in inverse && k in inverse && inverse[j] == inverse[k]
      ensures j == k
    {
      assert m[PreImage(m, j)] == j && m[PreImage(m, k)] == k;
    }
  }

  /** Swapping the two sheets changes the hit count by at most a factor of two. */
  lemma {:induction false} SwappedHits(current: seq<Placed>, candidates: seq<Placed>)
    ensures Hits(Greedy(current, candidates)) <= 2 * Hits(Greedy(candidates, current))
  {
    var g := GreedyMatching(current, candidates);
    GreedyIsMatching(current, candidates);
    HitsAreMatchingSize(current, candidates);
    InverseIsMatching(g, current, candidates);
    GreedyIsHalfOptimal(Inverse(g), candidates, current);
  }

  /** Against itself a sheet matches note `i` with note `i`, even where positions collapse. */
  lemma {:induction false} SelfMatch(notes: seq<Placed>, n: nat)
    requires n <= |notes|
    ensures forall i :: 0 <= i < n ==> Greedy(notes, notes)[i] == Some(i)
  {
    if n > 0 {
      SelfMatch(notes, n - 1);
      var last := n - 1;
      var picks := Greedy(notes, notes);
      var taken := Taken(picks[..last]);
      GreedyStep(notes, notes, last);
      forall j | j in taken
        ensures j < last
      {
        var i :| 0 <= i < last && picks[..last][i] == Some(j);
        assert picks[i] == Some(i);
      }
      forall j | 0 <= j < last
        ensures j in taken
      {
        assert picks[..last][j] == Some(j);
      }
      assert Free(notes[last], notes, taken, last);
    }
  }

  lemma {:induction false} AllSomeHits(picks: seq<Option<nat>>)
    requires forall i :: 0 <= i < |picks| ==> picks[i].Some?
    ensures Hits(picks) == |picks|
  {
    if picks != [] {
      AllSomeHits(picks[..|picks| - 1]);
    }
  }

  // ----- The score -----

  function F1(hits: nat, currentLen: nat, candidateLen: nat): real
    requires 0 < currentLen && 0 < candidateLen
  {
    var precision := hits as real / candidateLen as real;
    var recall := hits as real / currentLen as real;
    if precision + recall == 0.0 then 0.0 else 2.0 * precision * recall / (precision + recall)
  }

  /** The harmonic mean of precision and recall is twice the hits over the total length. */
  lemma F1ClosedForm(hits: nat, currentLen: nat, candidateLen: nat)
    requires 0 < currentLen && 0 < candidateLen
    ensures F1(hits, currentLen, candidateLen) == (2 * hits) as real / (currentLen + candidateLen) as real
  {
  }

  lemma F1Bounds(hits: nat, currentLen: nat, candidateLen: nat)
    requires 0 < currentLen && 0 < candidateLen
    requires hits <= currentLen && hits <= candidateLen
    ensures 0.0 <= F1(hits, currentLen, candidateLen) <= 1.0
    ensures F1(hits, currentLen, candidateLen) == 1.0 <==> hits == currentLen == candidateLen
  {
    F1ClosedForm(hits, currentLen, candidateLen);
    EditDistance.RatioBounds(2 * hits, currentLen + candidateLen);
  }

  function Place(notes: seq<Note>): (r: seq<Placed>)
    ensures |r| == |notes|
  {
    if notes == [] then []
    else
      var first := notes[0].time;
      var span := OnsetShape.SaturatingSub(notes[|notes| - 1].time, first);
      seq(|notes|, i requires 0 <= i < |notes| =>
        Placed(OnsetShape.RelativePosition(notes[i].time, first, span), notes[i].button))
  }

  /** A note of a time-ordered sheet is placed at its share of the sheet's span and keeps its button. */
  lemma PlaceIsElapsedShare(notes: seq<Note>, i: nat, p: nat)
    requires i < |notes| && notes[0].time <= notes[i].time <= notes[|notes| - 1].time
    ensures Place(notes)[i].button == notes[i].button
    ensures
      var first, last := notes[0].time, notes[|notes| - 1].time;
      if first == last then Place(notes)[i].position == 0
      else Place(notes)[i].position == p <==> OnsetShape.Rounds((notes[i].time - first) * 10_000, last - first, p)
  {
    var first, last := notes[0].time, notes[|notes| - 1].time;
    if first < last { OnsetShape.PositionIsElapsedShare(notes[i].time, first, last - first, p); }
  }

  /** What the program reports when the pair count is within budget. */
  function Overlap(current: seq<Note>, candidate: seq<Note>): Option<real>
  {
    if current == [] || candidate == [] then None
    else Some(F1(Hits(Greedy(Place(current), Place(candidate))), |current|, |candidate|))
  }

  // ----- The program's loops -----

  /** Scan for the nearest unmatched note; the first one wins a tie. */
  method Nearest(note: Placed, candidates: seq<Placed>, matched: set<nat>) returns (best: Option<nat>)
    ensures best == Pick(note, candidates, matched)
  {
    best := None;
    for index := 0 to |candidates|
      invariant best == PickBelow(note, candidates, matched, index)
    {
      if index !in matched && candidates[index].button == note.button
         && Gap(candidates[index].position, note.position) <= TOLERANCE
      {
        if best.None?
           || Gap(candidates[index].position, note.position) < Gap(candidates[best.value].position, note.position)
        {
          best := Some(index);
        }
      }
    }
  }

  method NormalizedNoteOverlap(current: seq<Note>, candidate: seq<Note>)
    returns (r: Result<Option<real>, EditDistance.BudgetError>)
    ensures r == if current != [] && candidate != []
                    && |current| * |candidate| > 4_000_000
                 then Err(EditDistance.OverBudget(|current| * |candidate|))
                 else Ok(Overlap(current, candidate))
  {
    if current == [] || candidate == [] {
      return Ok(None);
    }
    if |current| * |candidate| > EditDistance.MAX_PAIRWISE_COMPARISON_CELLS {
      return Err(EditDistance.OverBudget(|current| * |candidate|));
    }
    var currentPositions, candidatePositions := Place(current), Place(candidate);
    var matched: set<nat> := {};
    var hits := 0;
    for i := 0 to |currentPositions|
      invariant matched == Taken(Greedy(currentPositions[..i], candidatePositions))
      invariant hits == Hits(Greedy(currentPositions[..i], candidatePositions))
    {
      var best := Nearest(currentPositions[i], candidatePositions, matched);
      if best.Some? {
        matched := matched + {best.value};
        hits := hits + 1;
      }
      ExtendTaken(currentPositions, candidatePositions, i, best);
    }
    assert currentPositions[..|currentPositions|] == currentPositions;
    r := Ok(Some(F1(hits, |currentPositions|, |candidatePositions|)));
  }

  lemma TakenOfAppend(picks: seq<Option<nat>>, best: Option<nat>)
    ensures Taken(picks + [best]) == Taken(picks) + if best.Some? then {best.value} else {}
  {
    var all := picks + [best];
    forall j | j in Taken(picks)
      ensures j in Taken(all)
    {
      var k :| 0 <= k < |picks| && picks[k] == Some(j);
      assert all[k] == Some(j);
    }
    assert all[|picks|] == best;
  }

  lemma {:induction false} ExtendTaken(current: seq<Placed>, candidates: seq<Placed>, i: nat, best: Option<nat>)
    requires i < |current|
    requires best == Pick(current[i], candidates, Taken(Greedy(current[..i], candidates)))
    ensures Hits(Greedy(current[..i + 1], candidates))
         == Hits(Greedy(current[..i], candidates)) + if best.Some? then 1 else 0
    ensures Taken(Greedy(current[..i + 1], candidates))
         == Taken(Greedy(current[..i], candidates)) + if best.Some? then {best.value} else {}
  {
    var earlier, picks := Greedy(current[..i], candidates), Greedy(current[..i + 1], candidates);
    assert current[..i + 1][..i] == current[..i];
    assert picks == earlier + [best];
    assert picks[..|picks| - 1] == earlier;
    TakenOfAppend(earlier, best);
  }

  // ----- Main results on the score -----

  lemma OverlapBounds(current: seq<Note>, candidate: seq<Note>)
    requires current != [] && candidate != []
    ensures Overlap(current, candidate).Some?
    ensures 0.0 <= Overlap(current, candidate).value <= 1.0
    ensures Overlap(current, candidate).value == 1.0
       <==> Hits(Greedy(Place(current), Place(candidate))) == |current| == |candidate|
  {
    HitsBounded(Place(current), Place(candidate));
    F1Bounds(Hits(Greedy(Place(current), Place(candidate))), |current|, |candidate|);
  }

  lemma SelfOverlapIsOne(notes: seq<Note>)
    requires notes != []
    ensures Overlap(notes, notes) == Some(1.0)
  {
    SelfMatch(Place(notes), |notes|);
    AllSomeHits(Greedy(Place(notes), Place(notes)));
    OverlapBounds(notes, notes);
  }

  function RetimeNotes(notes: seq<Note>, factor: nat, shift: nat): (r: seq<Note>)
    ensures |r| == |notes|
  {
    seq(|notes|, i requires 0 <= i < |notes| => Note(notes[i].time * factor + shift, notes[i].button))
  }

  lemma PlaceRetimed(notes: seq<Note>, factor: nat, shift: nat)
    requires factor > 0
    ensures Place(RetimeNotes(notes, factor, shift)) == Place(notes)
  {
    if notes != [] {
      var first, last := notes[0].time, notes[|notes| - 1].time;
      OnsetShape.SaturatingSubRetimed(last, first, factor, shift);
      var span := OnsetShape.SaturatingSub(last, first);
      forall i | 0 <= i < |notes|
        ensures Place(RetimeNotes(notes, factor, shift))[i] == Place(notes)[i]
      {
        OnsetShape.RelativePositionRetimed(notes[i].time, first, span, factor, shift);
      }
    }
  }

  /** Playing either sheet later or slower leaves the score unchanged. */
  lemma OverlapRetimed(current: seq<Note>, candidate: seq<Note>, f: nat, s: nat, g: nat, t: nat)
    requires f > 0 && g > 0
    ensures Overlap(RetimeNotes(current, f, s), RetimeNotes(candidate, g, t)) == Overlap(current, candidate)
  {
    PlaceRetimed(current, f, s);
    PlaceRetimed(candidate, g, t);
  }

  /** A sheet compared with a later or slower copy of itself scores one. */
  lemma RetimedCopyScoresOne(notes: seq<Note>, factor: nat, shift: nat)
    requires notes != [] && factor > 0
    ensures Overlap(notes, RetimeNotes(notes, factor, shift)) == Some(1.0)
  {
    PlaceRetimed(notes, factor, shift);
    SelfOverlapIsOne(notes);
    assert Overlap(notes, RetimeNotes(notes, factor, shift)) == Overlap(notes, notes);
  }
}
