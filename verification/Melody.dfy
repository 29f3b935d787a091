/**
 The melody sketch (the highest key at each onset), its interval sketch, and the
 detection of a constant transposition between two melodies.
 */
module Melody {
  import opened Wrappers
  import opened Ordering
  import EditDistance
  import NoteOverlap

  type Note = NoteOverlap.Note

  const C_KEY_SEMITONES: seq<int> := [0, 2, 4, 5, 7, 9, 11, 12, 14, 16, 17, 19, 21, 23, 24]

  function PitchOffset(pitch: string): (r: int)
    ensures 0 <= r <= 11
  {
    if pitch == "Db" then 1
    else if pitch == "D" then 2
    else if pitch == "Eb" then 3
    else if pitch == "E" then 4
    else if pitch == "F" then 5
    else if pitch == "Gb" then 6
    else if pitch == "G" then 7
    else if pitch == "Ab" then 8
    else if pitch == "A" then 9
    else if pitch == "Bb" then 10
    else if pitch == "B" then 11
    else 0
  }

  const CHROMATIC: seq<string> := ["C", "Db", "D", "Eb", "E", "F", "Gb", "G", "Ab", "A", "Bb", "B"]
  const MAJOR_STEPS: seq<int> := [2, 2, 1, 2, 2, 2, 1]

  /** A pitch name counts its semitones in the chromatic scale on C; any other name counts as C. */
  lemma PitchIsChromatic(pitch: string, i: nat)
    requires i < 12
    ensures PitchOffset(CHROMATIC[i]) == i
    ensures pitch !in CHROMATIC ==> PitchOffset(pitch) == 0
  {
  }

  /** The fifteen keys are two octaves of the major scale on C. */
  lemma KeysAreMajorScale(k: nat)
    requires k < 14
    ensures |C_KEY_SEMITONES| == 15 && C_KEY_SEMITONES[0] == 0
    ensures C_KEY_SEMITONES[k + 1] - C_KEY_SEMITONES[k] == MAJOR_STEPS[k % 7]
    ensures C_KEY_SEMITONES[7] == 12 && C_KEY_SEMITONES[14] == 24
  {
  }

  // ----- Grouping by onset -----

  function Times(notes: seq<Note>): set<nat>
  {
    set i | 0 <= i < |notes| :: notes[i].time
  }

  function ButtonsAt(notes: seq<Note>, time: nat): set<nat>
  {
    set i | 0 <= i < |notes| && notes[i].time == time :: notes[i].button
  }

  /** Every onset time with the set of buttons struck at it. */
  function Groups(notes: seq<Note>): map<nat, set<nat>>
  {
    map time | time in Times(notes) :: ButtonsAt(notes, time)
  }

  function WithNote(groups: map<nat, set<nat>>, note: Note): map<nat, set<nat>>
  {
    groups[note.time := (if note.time in groups then groups[note.time] else {}) + {note.button}]
  }

  lemma TimesExtend(before: seq<Note>, note: Note)
    ensures Times(before + [note]) == Times(before) + {note.time}
  {
    var after := before + [note];
    assert after[|before|] == note;
    assert forall i :: 0 <= i < |before| ==> after[i] == before[i];
  }

  lemma ButtonsExtend(before: seq<Note>, note: Note, time: nat)
    ensures ButtonsAt(before + [note], time)
         == ButtonsAt(before, time) + if time == note.time then {note.button} else {}
  {
    var after := before + [note];
    assert after[|before|] == note;
    assert forall i :: 0 <= i < |before| ==> after[i] == before[i];
  }

  /** Adding one note adds its button to the group of its time and touches no other group. */
  lemma GroupsExtend(notes: seq<Note>, n: nat)
    requires n < |notes|
    ensures Groups(notes[..n + 1]) == WithNote(Groups(notes[..n]), notes[n])
  {
    var before, note := notes[..n], notes[n];
    assert notes[..n + 1] == before + [note];
    TimesExtend(before, note);
    var after, expected := Groups(before + [note]), WithNote(Groups(before), note);
    assert after.Keys == expected.Keys;
    forall time | time in expected
      ensures after[time] == expected[time]
    {
      ButtonsExtend(before, note, time);
      assert time !in Times(before) ==> ButtonsAt(before, time) == {};
    }
  }

  method GroupPhysicalOnsets(notes: seq<Note>) returns (groups: map<nat, set<nat>>)
    ensures groups == Groups(notes)
  {
    groups := map[];
    assert Groups(notes[..0]) == map[];
    for n := 0 to |notes|
      invariant groups == Groups(notes[..n])
    {
      var time, button := notes[n].time, notes[n].button;
      var keys := if time in groups then groups[time] else {};
      groups := groups[time := keys + {button}];
      GroupsExtend(notes, n);
    }
    assert notes[..|notes|] == notes;
  }

  // ----- The sketches -----

  predicate PlayableButtons(notes: seq<Note>)
  {
    forall i :: 0 <= i < |notes| ==> notes[i].button < |C_KEY_SEMITONES|
  }

  function Highest(keys: set<nat>): (m: nat)
    requires keys != {}
    ensures m in keys && forall k :: k in keys ==> k <= m
    decreases |keys|
  {
    NatLeIsTotal();
    var q := Sorted(keys, NatLe);
    q[|q| - 1]
  }

  function Onsets(notes: seq<Note>): (q: seq<nat>)
    ensures forall t :: t in q <==> t in Times(notes)
    ensures Ascending(q, NatLe) && |q| == |Times(notes)|
  {
    NatLeIsTotal();
    Sorted(Times(notes), NatLe)
  }

  lemma GroupIsPlayable(notes: seq<Note>, time: nat)
    requires PlayableButtons(notes) && time in Times(notes)
    ensures ButtonsAt(notes, time) != {}
    ensures forall k :: k in ButtonsAt(notes, time) ==> k < |C_KEY_SEMITONES|
  {
    var i :| 0 <= i < |notes| && notes[i].time == time;
    assert notes[i].button in ButtonsAt(notes, time);
  }

  function KeyPitch(key: nat): (r: int)
    requires key < |C_KEY_SEMITONES|
    ensures 0 <= r <= 24
  {
    C_KEY_SEMITONES[key]
  }

  /** The highest key struck at a time, in semitones above C. */
  function TopPitch(notes: seq<Note>, time: nat, sourcePitch: string): (pitch: int)
    requires PlayableButtons(notes) && time in Times(notes)
    ensures 0 <= pitch <= 35
  {
    GroupIsPlayable(notes, time);
    KeyPitch(Highest(ButtonsAt(notes, time))) + PitchOffset(sourcePitch)
  }

  /** The top pitch at each onset, in time order. */
  function MelodySketch(notes: seq<Note>, sourcePitch: string): (melody: seq<int>)
    requires PlayableButtons(notes)
    ensures |melody| == |Times(notes)|
    ensures forall i :: 0 <= i < |melody| ==> 0 <= melody[i] <= 35
  {
    var onsets := Onsets(notes);
    seq(|onsets|, i requires 0 <= i < |onsets| => assert onsets[i] in onsets; TopPitch(notes, onsets[i], sourcePitch))
  }

  function Below(s: set<nat>, t: nat): set<nat> { set x | x in s && x < t }

  /** The sketch runs through the distinct onset times in order and takes the highest key struck at each. */
  lemma SketchIsHighestKey(notes: seq<Note>, sourcePitch: string, i: nat) returns (time: nat, key: nat)
    requires PlayableButtons(notes) && i < |MelodySketch(notes, sourcePitch)|
    ensures time in Times(notes) && i == |Below(Times(notes), time)|
    ensures key in ButtonsAt(notes, time) && forall k :: k in ButtonsAt(notes, time) ==> k <= key
    ensures key < |C_KEY_SEMITONES| && MelodySketch(notes, sourcePitch)[i] == C_KEY_SEMITONES[key] + PitchOffset(sourcePitch)
  {
    time := Onsets(notes)[i];
    assert time in Onsets(notes);
    GroupIsPlayable(notes, time);
    key := Highest(ButtonsAt(notes, time));
    RankInOrder(Onsets(notes), Times(notes), i);
  }

  lemma {:induction false} PrefixSize(q: seq<nat>, i: nat)
    requires Ascending(q, NatLe) && i <= |q|
    ensures |set j | 0 <= j < i :: q[j]| == i
  {
    if i > 0 {
      PrefixSize(q, i - 1);
      var before := set j | 0 <= j < i - 1 :: q[j];
      assert (set j | 0 <= j < i :: q[j]) == before + {q[i - 1]};
      assert q[i - 1] !in before;
    }
  }

  /** In an ascending listing of a set, position `i` is held by the element with `i` smaller ones. */
  lemma RankInOrder(q: seq<nat>, s: set<nat>, i: nat)
    requires Ascending(q, NatLe) && i < |q| && forall t :: t in q <==> t in s
    ensures i == |Below(s, q[i])|
  {
    PrefixSize(q, i);
    var prefix := set j | 0 <= j < i :: q[j];
    forall t | t in Below(s, q[i])
      ensures t in prefix
    {
      assert t in q;
      var j :| 0 <= j < |q| && q[j] == t;
      assert j < i;
    }
    forall t | t in prefix
      ensures t in Below(s, q[i])
    {
      var j :| 0 <= j < i && q[j] == t;
      assert q[j] in q;
    }
    assert prefix == Below(s, q[i]);
  }

  function IntervalSketch(melody: seq<int>): (r: seq<int>)
    ensures |r| == if melody == [] then 0 else |melody| - 1
    ensures forall i :: 0 <= i < |r| ==> r[i] == melody[i + 1] - melody[i]
  {
    if melody == [] then []
    else seq(|melody| - 1, i requires 0 <= i < |melody| - 1 => melody[i + 1] - melody[i])
  }

  /** Every pair of notes at equal index differs by `k`. */
  predicate Transposed(current: seq<int>, candidate: seq<int>, k: int)
  {
    |current| == |candidate| && forall i :: 0 <= i < |current| ==> candidate[i] - current[i] == k
  }

  lemma {:induction false} SameIntervalsKeepOffset(current: seq<int>, candidate: seq<int>, i: nat)
    requires |current| == |candidate| && i < |current|
    requires IntervalSketch(current) == IntervalSketch(candidate)
    ensures candidate[i] - current[i] == candidate[0] - current[0]
  {
    if i > 0 {
      SameIntervalsKeepOffset(current, candidate, i - 1);
      assert IntervalSketch(current)[i - 1] == IntervalSketch(candidate)[i - 1];
    }
  }

  /** Two melodies of equal length have the same intervals exactly when one is a transposition. */
  lemma SameIntervalsIffTransposed(current: seq<int>, candidate: seq<int>)
    requires current != [] && |current| == |candidate|
    ensures IntervalSketch(current) == IntervalSketch(candidate)
       <==> Transposed(current, candidate, candidate[0] - current[0])
  {
    if IntervalSketch(current) == IntervalSketch(candidate) {
      forall i | 0 <= i < |current|
        ensures candidate[i] - current[i] == candidate[0] - current[0]
      {
        SameIntervalsKeepOffset(current, candidate, i);
      }
    } else if Transposed(current, candidate, candidate[0] - current[0]) {
      TransposedKeepsIntervals(current, candidate, candidate[0] - current[0]);
    }
  }

  lemma TransposedKeepsIntervals(current: seq<int>, candidate: seq<int>, k: int)
    requires Transposed(current, candidate, k)
    ensures IntervalSketch(current) == IntervalSketch(candidate)
  {
  }

  function AlignedPitchOffset(current: seq<int>, candidate: seq<int>, similarity: real): Option<int>
  {
    if similarity < 0.9 || |current| < 2 || |current| != |candidate| then None
    else
      var first := candidate[0] - current[0];
      if forall i :: 1 <= i < |current| ==> candidate[i] - current[i] == first then Some(first) else None
  }

  /** The offset that the comparison reports when the sketches fit the cell budget. */
  function ReportedOffset(current: seq<int>, candidate: seq<int>): Option<int>
  {
    AlignedPitchOffset(current, candidate,
                       EditDistance.Similarity(IntervalSketch(current), IntervalSketch(candidate)))
  }

  /** The two comparison steps in sequence: score the interval sketches, then look for an offset. */
  method DetectTransposition(current: seq<int>, candidate: seq<int>)
    returns (r: Result<Option<int>, EditDistance.BudgetError>)
    ensures r.Err? <==> |IntervalSketch(current)| * |IntervalSketch(candidate)|
                        > EditDistance.MAX_PAIRWISE_COMPARISON_CELLS
    ensures r.Ok? ==> r.value == ReportedOffset(current, candidate)
  {
    var similarity := EditDistance.SequenceSimilarity(IntervalSketch(current), IntervalSketch(candidate));
    if similarity.Err? {
      return Err(similarity.error);
    }
    r := Ok(AlignedPitchOffset(current, candidate, similarity.value));
  }

  /**
   For melodies of one length, two notes or more, an offset is reported exactly
   when it is constant: the similarity gate never rejects a transposition.
   */
  lemma OffsetReportedIffTransposed(current: seq<int>, candidate: seq<int>, k: int)
    requires |current| == |candidate| >= 2
    ensures ReportedOffset(current, candidate) == Some(k) <==> Transposed(current, candidate, k)
  {
    var left, right := IntervalSketch(current), IntervalSketch(candidate);
    SameIntervalsIffTransposed(current, candidate);
    EditDistance.SimilarityProperties(left, right);
    if Transposed(current, candidate, k) {
      assert candidate[0] - current[0] == k;
      assert EditDistance.Similarity(left, right) == 1.0;
    }
  }

  /** For a transposition the similarity gate alone decides, at nine tenths. */
  lemma GateDecides(current: seq<int>, candidate: seq<int>, k: int, similarity: real)
    requires |current| == |candidate| >= 2 && Transposed(current, candidate, k)
    ensures AlignedPitchOffset(current, candidate, similarity) == if similarity >= 0.9 then Some(k) else None
  {
    assert candidate[0] - current[0] == k;
  }

  /** Melodies of different lengths, or of fewer than two notes, never have an offset. */
  lemma NoOffsetOtherwise(current: seq<int>, candidate: seq<int>)
    requires |current| != |candidate| || |current| < 2
    ensures ReportedOffset(current, candidate) == None
  {
  }

  /** Changing the source pitch transposes the melody and leaves its intervals alone. */
  lemma PitchOnlyTransposes(notes: seq<Note>, p: string, q: string)
    requires PlayableButtons(notes)
    ensures Transposed(MelodySketch(notes, p), MelodySketch(notes, q), PitchOffset(q) - PitchOffset(p))
    ensures IntervalSketch(MelodySketch(notes, p)) == IntervalSketch(MelodySketch(notes, q))
  {
    var a, b := MelodySketch(notes, p), MelodySketch(notes, q);
    if a != [] {
      SameIntervalsIffTransposed(a, b);
    }
  }

  lemma TranspositionIsReported(a: seq<int>, b: seq<int>, d: int)
    requires Transposed(a, b, d) && |a| >= 2
    ensures forall k :: ReportedOffset(a, b) == Some(k) <==> k == d
  {
    assert b[0] - a[0] == d;
    forall k
      ensures ReportedOffset(a, b) == Some(k) <==> k == d
    {
      OffsetReportedIffTransposed(a, b, k);
    }
  }

  /** One sheet under two source pitches is reported as their difference. */
  lemma RetunedSheetReportsPitchDifference(notes: seq<Note>, p: string, q: string)
    requires PlayableButtons(notes) && |Times(notes)| >= 2
    ensures forall k :: ReportedOffset(MelodySketch(notes, p), MelodySketch(notes, q)) == Some(k)
                   <==> k == PitchOffset(q) - PitchOffset(p)
  {
    PitchOnlyTransposes(notes, p, q);
    TranspositionIsReported(MelodySketch(notes, p), MelodySketch(notes, q), PitchOffset(q) - PitchOffset(p));
  }
}
