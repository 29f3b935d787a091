/**
 Writing a multi-line value to a GitHub Actions output file: choosing a heredoc
 delimiter that no line of the value equals, and reading the block back.
 */
module GithubOutput {
  import opened Wrappers
  import opened Decimal
  import opened CiLanes

  // ----- Lines -----

  /** The text cut at line feeds; always at least one segment. */
  function Segments(text: string): (r: seq<string>)
    ensures r != []
  {
    if text == [] then [[]]
    else
      var rest := Segments(text[1..]);
      if text[0] == '\n' then [[]] + rest else [[text[0]] + rest[0]] + rest[1..]
  }

  function Join(segments: seq<string>): string
    requires segments != []
  {
    if |segments| == 1 then segments[0] else segments[0] + "\n" + Join(segments[1..])
  }

  function WithoutCr(s: string): string { if s != [] && s[|s| - 1] == '\r' then s[..|s| - 1] else s }

  /** The library's line iterator: no line after a final line feed, and CR LF counts as one ending. */
  function LinesOf(segments: seq<string>): seq<string>
    requires segments != []
  {
    if |segments| == 1 then if segments[0] == "" then [] else segments
    else [WithoutCr(segments[0])] + LinesOf(segments[1..])
  }

  function Lines(text: string): seq<string> { LinesOf(Segments(text)) }

  lemma {:induction false} JoinSegments(text: string)
    ensures Join(Segments(text)) == text
  {
    if text != [] {
      JoinSegments(text[1..]);
      var rest := Segments(text[1..]);
      if text[0] != '\n' && |rest| > 1 {
        assert Segments(text)[1..] == rest[1..];
      } else if text[0] == '\n' {
        assert Segments(text)[1..] == rest;
      }
    }
  }

  lemma {:induction false} SegmentsOfLine(line: string)
    requires '\n' !in line
    ensures Segments(line) == [line]
  {
    if line != [] {
      SegmentsOfLine(line[1..]);
      assert line == [line[0]] + line[1..];
    }
  }

  /** A line feed always separates segments. */
  lemma {:induction false} SegmentsConcat(a: string, b: string)
    ensures Segments(a + "\n" + b) == Segments(a) + Segments(b)
  {
    var whole := a + "\n" + b;
    if a == [] {
      assert whole[1..] == b;
    } else {
      assert whole[1..] == a[1..] + "\n" + b;
      SegmentsConcat(a[1..], b);
    }
  }

  /** Lines that each end in the given line ending. */
  function Terminated(lines: seq<string>, ending: string): string
  {
    if lines == [] then [] else lines[0] + ending + Terminated(lines[1..], ending)
  }

  predicate PlainLine(line: string) { '\n' !in line && (line == [] || line[|line| - 1] != '\r') }

  lemma FirstLine(line: string, ending: string, rest: string)
    requires PlainLine(line) && (ending == "\n" || ending == "\r\n")
    ensures Lines(line + ending + rest) == [line] + Lines(rest)
  {
    var shown := if ending == "\n" then line else line + "\r";
    assert line + ending + rest == shown + "\n" + rest;
    SegmentsConcat(shown, rest);
    assert '\n' !in shown;
    SegmentsOfLine(shown);
    assert WithoutCr(shown) == line;
    var segments := Segments(shown + "\n" + rest);
    assert segments[0] == shown && segments[1..] == Segments(rest);
  }

  /** Written with either ending, and with or without an unfinished last line, the lines are read back. */
  lemma {:induction false} LinesReadBack(lines: seq<string>, ending: string, last: string)
    requires (forall i :: 0 <= i < |lines| ==> PlainLine(lines[i])) && '\n' !in last
    requires ending == "\n" || ending == "\r\n"
    ensures Lines(Terminated(lines, ending) + last) == lines + if last == "" then [] else [last]
  {
    if lines == [] {
      assert Terminated(lines, ending) + last == last;
      SegmentsOfLine(last);
    } else {
      var rest := Terminated(lines[1..], ending) + last;
      assert Terminated(lines, ending) + last == lines[0] + ending + rest;
      FirstLine(lines[0], ending, rest);
      LinesReadBack(lines[1..], ending, last);
    }
  }

  // ----- The delimiter -----

  function Prefix(processId: nat, time: nat): string
  {
    "SKY_XTASK_OUTPUT_" + Text(processId) + "_" + Text(time) + "_"
  }

  function Delimiter(prefix: string, sequence: nat): string { prefix + Text(sequence) }

  lemma DelimitersDiffer(prefix: string, m: nat, n: nat)
    requires Delimiter(prefix, m) == Delimiter(prefix, n)
    ensures m == n
  {
    assert Delimiter(prefix, m)[|prefix|..] == Text(m);
    assert Delimiter(prefix, n)[|prefix|..] == Text(n);
    TextIsInjective(m, n);
  }

  lemma {:induction false} CutAtUnderscore(a: string, x: string, b: string, y: string)
    requires '_' !in a && '_' !in b && a + "_" + x == b + "_" + y
    ensures a == b && x == y
  {
    var text := a + "_" + x;
    assert text[|a|] == '_' && text[|b|] == '_' by { assert (b + "_" + y)[|b|] == '_'; }
    if |a| == |b| {
      assert text[..|a|] == a && (b + "_" + y)[..|b|] == b;
      assert text[|a| + 1..] == x && (b + "_" + y)[|b| + 1..] == y;
    }
  }

  lemma {:induction false} DigitsHaveNoUnderscore(t: string)
    requires AllDigits(t)
    ensures '_' !in t
  {
  }

  /** Delimiters carry a fixed prefix, and tell apart process, time and attempt. */
  lemma DelimitersAreDistinct(p: nat, t: nat, s: nat, q: nat, u: nat, v: nat)
    requires Delimiter(Prefix(p, t), s) == Delimiter(Prefix(q, u), v)
    ensures p == q && t == u && s == v
    ensures "SKY_XTASK_OUTPUT_" <= Delimiter(Prefix(p, t), s)
  {
    var prefix := "SKY_XTASK_OUTPUT_";
    DigitsHaveNoUnderscore(Text(p));
    DigitsHaveNoUnderscore(Text(t));
    DigitsHaveNoUnderscore(Text(q));
    DigitsHaveNoUnderscore(Text(u));
    var a, b := Text(t) + "_" + Text(s), Text(u) + "_" + Text(v);
    assert Delimiter(Prefix(p, t), s) == prefix + (Text(p) + "_" + a);
    assert Delimiter(Prefix(q, u), v) == prefix + (Text(q) + "_" + b);
    assert (prefix + (Text(p) + "_" + a))[|prefix|..] == Text(p) + "_" + a;
    assert (prefix + (Text(q) + "_" + b))[|prefix|..] == Text(q) + "_" + b;
    CutAtUnderscore(Text(p), a, Text(q), b);
    CutAtUnderscore(Text(t), Text(s), Text(u), Text(v));
    TextIsInjective(p, q);
    TextIsInjective(t, u);
    TextIsInjective(s, v);
  }

  /** If the first `n` delimiters are all lines, there are at least `n` lines. */
  lemma {:induction false} Pigeonhole(prefix: string, lines: seq<string>, n: nat)
    requires forall k :: 0 <= k < n ==> Delimiter(prefix, k) in lines
    ensures n <= |lines|
    decreases n
  {
    if n > 0 {
      var d := Delimiter(prefix, n - 1);
      var i :| 0 <= i < |lines| && lines[i] == d;
      var others := lines[..i] + lines[i + 1..];
      forall k | 0 <= k < n - 1
        ensures Delimiter(prefix, k) in others
      {
        if Delimiter(prefix, k) == d { DelimitersDiffer(prefix, k, n - 1); }
        var j :| 0 <= j < |lines| && lines[j] == Delimiter(prefix, k);
        assert j != i;
        assert others[if j < i then j else j - 1] == lines[j];
      }
      Pigeonhole(prefix, others, n - 1);
    }
  }

  /** The first delimiter that is not a line of the value, after at most one attempt per line and one more. */
  method GithubDelimiter(value: string, processId: nat, time: nat) returns (delimiter: string, ghost attempt: nat)
    ensures delimiter == Delimiter(Prefix(processId, time), attempt)
    ensures delimiter !in Lines(value)
    ensures forall k :: 0 <= k < attempt ==> Delimiter(Prefix(processId, time), k) in Lines(value)
    ensures attempt <= |Lines(value)|
  {
    var prefix, lines := Prefix(processId, time), Lines(value);
    var sequence: nat := 0;
    delimiter := Delimiter(prefix, sequence);
    while delimiter in lines
      invariant delimiter == Delimiter(prefix, sequence)
      invariant forall k :: 0 <= k < sequence ==> Delimiter(prefix, k) in lines
      decreases |lines| - sequence
    {
      Pigeonhole(prefix, lines, sequence + 1);
      sequence := sequence + 1;
      delimiter := Delimiter(prefix, sequence);
    }
    Pigeonhole(prefix, lines, sequence);
    attempt := sequence;
  }

  // ----- The block and its reader -----

  const NAME := "classification_reason"

  function Block(value: string, delimiter: string): string
  {
    NAME + "<<" + delimiter + "\n" + value + "\n" + delimiter + "\n"
  }

  /** The segments before the first one equal to the delimiter. */
  function UpTo(segments: seq<string>, delimiter: string): Option<seq<string>>
  {
    if segments == [] then None
    else if segments[0] == delimiter then Some([])
    else match UpTo(segments[1..], delimiter)
         case None => None
         case Some(rest) => Some([segments[0]] + rest)
  }

  /** Read the delimiter off the first line and the value up to the first line that equals it. */
  function ReadBlock(segments: seq<string>): Option<string>
  {
    var opening := NAME + "<<";
    if segments == [] || !(opening <= segments[0]) then None
    else
      match UpTo(segments[1..], segments[0][|opening|..])
      case None => None
      case Some(value) => if value == [] then None else Some(Join(value))
  }

  lemma {:induction false} UpToFirst(segments: seq<string>, delimiter: string, after: seq<string>)
    requires delimiter !in segments
    ensures UpTo(segments + [delimiter] + after, delimiter) == Some(segments)
  {
    var all := segments + [delimiter] + after;
    if segments != [] {
      assert all[1..] == segments[1..] + [delimiter] + after;
      UpToFirst(segments[1..], delimiter, after);
      assert segments == [segments[0]] + segments[1..];
    }
  }

  /** A delimiter that is no line of the text, in the library's sense, is no segment of it either. */
  lemma {:induction false} NoLineNoSegment(segments: seq<string>, d: string)
    requires segments != [] && d !in LinesOf(segments)
    requires d != [] && d[|d| - 1] != '\r'
    ensures d !in segments
  {
    if |segments| > 1 {
      var lines := LinesOf(segments);
      assert lines[0] == WithoutCr(segments[0]);
      assert forall l :: l in LinesOf(segments[1..]) ==> l in lines;
      NoLineNoSegment(segments[1..], d);
      assert segments == [segments[0]] + segments[1..];
    }
  }

  lemma DelimiterShape(processId: nat, time: nat, sequence: nat)
    ensures
      var d := Delimiter(Prefix(processId, time), sequence);
      d != [] && d[|d| - 1] != '\r' && '\n' !in d
  {
  }

  lemma {:induction false} SegmentsOfBlock(value: string, d: string)
    requires '\n' !in d
    ensures Segments(Block(value, d)) == [NAME + "<<" + d] + (Segments(value) + [d] + [""])
  {
    var header := NAME + "<<" + d;
    assert '\n' !in NAME;
    assert Block(value, d) == header + "\n" + (value + "\n" + (d + "\n" + ""));
    SegmentsConcat(header, value + "\n" + (d + "\n" + ""));
    SegmentsConcat(value, d + "\n" + "");
    SegmentsConcat(d, "");
    SegmentsOfLine(header);
    SegmentsOfLine(d);
  }

  /** Any value, of any number of lines, is read back exactly. */
  lemma BlockRoundTrip(value: string, d: string)
    requires d !in Lines(value) && d != [] && d[|d| - 1] != '\r' && '\n' !in d
    ensures ReadBlock(Segments(Block(value, d))) == Some(value)
  {
    SegmentsOfBlock(value, d);
    NoLineNoSegment(Segments(value), d);
    var opening, segments := NAME + "<<", Segments(Block(value, d));
    assert segments[0][|opening|..] == d;
    assert segments[1..] == Segments(value) + [d] + [""];
    UpToFirst(Segments(value), d, [""]);
    JoinSegments(value);
  }

  // ----- The whole output: nine lane lines, then the reason -----

  function LaneLine(lane: Lane, required: bool): string
  {
    LaneName(lane) + if required then "=true" else "=false"
  }

  function LaneLines(order: seq<Lane>, lanes: set<Lane>): string
  {
    if order == [] then [] else LaneLine(order[0], order[0] in lanes) + "\n" + LaneLines(order[1..], lanes)
  }

  function Listed(order: seq<Lane>, lanes: set<Lane>): set<Lane> { set lane | lane in order && lane in lanes }

  /** The names a reader of the output looks for, and what they stand for. */
  const LANE_TABLE: seq<(string, Lane)> :=
    [("rust_required", Rust), ("desktop_required", Desktop), ("desktop_native_required", DesktopNative),
     ("desktop_e2e_required", DesktopE2e), ("package_required", Package), ("updater_required", Updater),
     ("release_required", Release), ("supply_chain_required", SupplyChain), ("site_required", Site)]

  /** The lanes that the leading lines report as required, and the lines after them. */
  function ReadLanes(segments: seq<string>, table: seq<(string, Lane)>): Option<(set<Lane>, seq<string>)>
    decreases table
  {
    if table == [] then Some(({}, segments))
    else if segments == [] then None
    else if segments[0] == table[0].0 + "=true" then
      (match ReadLanes(segments[1..], table[1..])
       case None => None
       case Some(r) => Some((r.0 + {table[0].1}, r.1)))
    else if segments[0] == table[0].0 + "=false" then ReadLanes(segments[1..], table[1..])
    else None
  }

  /** The table lists the lanes in this order under the names that are written. */
  predicate Names(table: seq<(string, Lane)>, order: seq<Lane>)
  {
    |table| == |order| && forall i :: 0 <= i < |order| ==> table[i] == (LaneName(order[i]), order[i])
  }

  lemma TableNamesLanes()
    ensures Names(LANE_TABLE, LANE_ORDER)
  {
  }

  function ReadOutput(text: string): Option<(set<Lane>, string)>
  {
    match ReadLanes(Segments(text), LANE_TABLE)
    case None => None
    case Some((lanes, rest)) =>
      match ReadBlock(rest)
      case None => None
      case Some(reason) => Some((lanes, reason))
  }

  lemma NameIsOneLine(lane: Lane)
    ensures '\n' !in LaneName(lane)
  {
  }

  lemma LaneLineIsOneLine(lane: Lane, required: bool)
    ensures Segments(LaneLine(lane, required)) == [LaneLine(lane, required)]
  {
    NameIsOneLine(lane);
    assert '\n' !in "=true" && '\n' !in "=false";
    SegmentsOfLine(LaneLine(lane, required));
  }

  lemma LaneLinesDiffer(lane: Lane)
    ensures LaneLine(lane, true) != LaneLine(lane, false)
  {
    assert |LaneLine(lane, true)| != |LaneLine(lane, false)|;
  }

  lemma {:induction false} FirstLineOfLanes(order: seq<Lane>, lanes: set<Lane>, rest: string)
    requires order != []
    ensures Segments(LaneLines(order, lanes) + rest)
         == [LaneLine(order[0], order[0] in lanes)] + Segments(LaneLines(order[1..], lanes) + rest)
  {
    var line, more := LaneLine(order[0], order[0] in lanes), LaneLines(order[1..], lanes);
    assert LaneLines(order, lanes) + rest == line + "\n" + (more + rest);
    SegmentsConcat(line, more + rest);
    LaneLineIsOneLine(order[0], order[0] in lanes);
  }

  lemma {:induction false} ReadOneLane(table: seq<(string, Lane)>, order: seq<Lane>, lanes: set<Lane>, segments: seq<string>, rest: seq<string>)
    requires order != [] && Names(table, order)
    requires ReadLanes(segments, table[1..]) == Some((Listed(order[1..], lanes), rest))
    ensures ReadLanes([LaneLine(order[0], order[0] in lanes)] + segments, table) == Some((Listed(order, lanes), rest))
  {
    var line := LaneLine(order[0], order[0] in lanes);
    assert ([line] + segments)[1..] == segments;
    LaneLinesDiffer(order[0]);
    FirstLane(order, lanes);
  }

  /** Reading skips the lane lines one by one and collects exactly the lanes that were required. */
  lemma {:induction false} LanesRoundTrip(table: seq<(string, Lane)>, order: seq<Lane>, lanes: set<Lane>, rest: string)
    requires Names(table, order)
    ensures ReadLanes(Segments(LaneLines(order, lanes) + rest), table) == Some((Listed(order, lanes), Segments(rest)))
    decreases order
  {
    if order == [] {
      assert LaneLines(order, lanes) + rest == rest && Listed(order, lanes) == {};
    } else {
      LanesRoundTrip(table[1..], order[1..], lanes, rest);
      FirstLineOfLanes(order, lanes, rest);
      ReadOneLane(table, order, lanes, Segments(LaneLines(order[1..], lanes) + rest), Segments(rest));
    }
  }

  lemma FirstLane(order: seq<Lane>, lanes: set<Lane>)
    requires order != []
    ensures Listed(order, lanes)
         == if order[0] in lanes then Listed(order[1..], lanes) + {order[0]} else Listed(order[1..], lanes)
  {
    assert order == [order[0]] + order[1..];
  }

  lemma {:induction false} LinesAppend(order: seq<Lane>, lanes: set<Lane>, lane: Lane)
    ensures LaneLines(order + [lane], lanes) == LaneLines(order, lanes) + LaneLine(lane, lane in lanes) + "\n"
    decreases order
  {
    if order == [] {
      assert (order + [lane])[1..] == [];
    } else {
      assert (order + [lane])[1..] == order[1..] + [lane];
      LinesAppend(order[1..], lanes, lane);
    }
  }

  lemma AllLanesListed(lanes: set<Lane>)
    ensures Listed(LANE_ORDER, lanes) == lanes
  {
    forall lane | lane in lanes
      ensures lane in LANE_ORDER
    {
      match lane
      case Rust => assert LANE_ORDER[0] == lane;
      case Desktop => assert LANE_ORDER[1] == lane;
      case DesktopNative => assert LANE_ORDER[2] == lane;
      case DesktopE2e => assert LANE_ORDER[3] == lane;
      case Package => assert LANE_ORDER[4] == lane;
      case Updater => assert LANE_ORDER[5] == lane;
      case Release => assert LANE_ORDER[6] == lane;
      case SupplyChain => assert LANE_ORDER[7] == lane;
      case Site => assert LANE_ORDER[8] == lane;
    }
  }

  lemma {:induction false} OutputRoundTrip(lanes: set<Lane>, reason: string, d: string)
    requires d !in Lines(reason) && d != [] && d[|d| - 1] != '\r' && '\n' !in d
    ensures ReadOutput(LaneLines(LANE_ORDER, lanes) + Block(reason, d)) == Some((lanes, reason))
  {
    TableNamesLanes();
    LanesRoundTrip(LANE_TABLE, LANE_ORDER, lanes, Block(reason, d));
    AllLanesListed(lanes);
    BlockRoundTrip(reason, d);
  }

  /** The writer and the reader together: whatever the classification, its lanes and its reason are recovered. */
  method AppendOutput(lanes: set<Lane>, reason: string, processId: nat, time: nat) returns (text: string)
    ensures ReadOutput(text) == Some((lanes, reason))
  {
    text := [];
    for i := 0 to |LANE_ORDER|
      invariant text == LaneLines(LANE_ORDER[..i], lanes)
    {
      text := text + LaneLine(LANE_ORDER[i], LANE_ORDER[i] in lanes) + "\n";
      LinesAppend(LANE_ORDER[..i], lanes, LANE_ORDER[i]);
      assert LANE_ORDER[..i] + [LANE_ORDER[i]] == LANE_ORDER[..i + 1];
    }
    assert LANE_ORDER[..|LANE_ORDER|] == LANE_ORDER;
    var delimiter, attempt := GithubDelimiter(reason, processId, time);
    DelimiterShape(processId, time, attempt);
    OutputRoundTrip(lanes, reason, delimiter);
    text := text + Block(reason, delimiter);
  }
}
