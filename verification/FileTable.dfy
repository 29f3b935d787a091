/**
 Tables of file names and digests: the validator's comparison of the files a
 document lists with the files a directory holds.
 */
module FileTable {
  import opened Wrappers
  import opened Sets

  datatype Row = Malformed | Row(name: string, digest: string)

  /** One of the first `n` rows has this name. */
  predicate NamedBelow(rows: seq<Row>, n: nat, name: string)
    requires n <= |rows|
  {
    exists i :: 0 <= i < n && rows[i].Row? && rows[i].name == name
  }

  /** The row is well formed and its name is new. */
  predicate Fresh(rows: seq<Row>, i: nat)
    requires i < |rows|
  {
    rows[i].Row? && !NamedBelow(rows, i, rows[i].name)
  }

  predicate NoRepeats(rows: seq<Row>) { forall i {:trigger Fresh(rows, i)} :: 0 <= i < |rows| ==> Fresh(rows, i) }

  /** What the validator demands: no row malformed or repeated, as many rows as wanted, and each wanted row present. */
  predicate Matches(rows: seq<Row>, wanted: seq<Row>)
  {
    NoRepeats(rows) && |rows| == |wanted| && forall k :: 0 <= k < |wanted| ==> wanted[k] in rows
  }

  // ----- The validator's map -----

  /** The first `n` rows as a map. */
  function Observed(rows: seq<Row>, n: nat): map<string, string>
    requires n <= |rows|
  {
    if n == 0 then map[]
    else if rows[n - 1].Row? then Observed(rows, n - 1)[rows[n - 1].name := rows[n - 1].digest]
    else Observed(rows, n - 1)
  }

  lemma {:induction false} ObservedNames(rows: seq<Row>, n: nat, name: string)
    requires n <= |rows|
    ensures name in Observed(rows, n) <==> NamedBelow(rows, n, name)
  {
    if n > 0 {
      ObservedNames(rows, n - 1, name);
      if NamedBelow(rows, n - 1, name) {
        var i :| 0 <= i < n - 1 && rows[i].Row? && rows[i].name == name;
      }
    }
  }

  /** While no name repeats, the map holds exactly the rows read. */
  lemma {:induction false} ObservedRows(rows: seq<Row>, n: nat, name: string, digest: string)
    requires n <= |rows| && forall i :: 0 <= i < n ==> Fresh(rows, i)
    ensures (name in Observed(rows, n) && Observed(rows, n)[name] == digest) <==> Row(name, digest) in rows[..n]
    ensures |Observed(rows, n)| == n
  {
    if n > 0 {
      ObservedRows(rows, n - 1, name, digest);
      assert Fresh(rows, n - 1);
      ObservedNames(rows, n - 1, rows[n - 1].name);
      assert rows[..n] == rows[..n - 1] + [rows[n - 1]];
      var before := Observed(rows, n - 1);
      assert Observed(rows, n).Keys == before.Keys + {rows[n - 1].name};
    }
  }

  /** Read the rows into a map; stop at a malformed or repeated one. */
  method Observe(rows: seq<Row>) returns (r: Option<map<string, string>>)
    ensures r.Some? <==> NoRepeats(rows)
    ensures r.Some? ==> r.value == Observed(rows, |rows|)
  {
    var observed: map<string, string> := map[];
    for n := 0 to |rows|
      invariant forall i {:trigger Fresh(rows, i)} :: 0 <= i < n ==> Fresh(rows, i)
      invariant observed == Observed(rows, n)
    {
      if rows[n].Malformed? {
        assert !Fresh(rows, n);
        return None;
      }
      ObservedNames(rows, n, rows[n].name);
      if rows[n].name in observed {
        assert !Fresh(rows, n);
        return None;
      }
      assert Fresh(rows, n);
      observed := observed[rows[n].name := rows[n].digest];
    }
    r := Some(observed);
  }

  /** The comparison: size first, then one lookup per wanted row. */
  method Check(rows: seq<Row>, wanted: seq<Row>) returns (ok: bool)
    requires forall k :: 0 <= k < |wanted| ==> wanted[k].Row?
    ensures ok <==> Matches(rows, wanted)
  {
    var observed := Observe(rows);
    if observed.None? {
      return false;
    }
    assert rows[..|rows|] == rows;
    assert |observed.value| == |rows| by {
      ObservedRows(rows, |rows|, "", "");
    }
    if |observed.value| != |wanted| {
      return false;
    }
    for k := 0 to |wanted|
      invariant forall j :: 0 <= j < k ==> wanted[j] in rows
    {
      var w := wanted[k];
      ObservedRows(rows, |rows|, w.name, w.digest);
      if !(w.name in observed.value && observed.value[w.name] == w.digest) {
        return false;
      }
    }
    ok := true;
  }

  // ----- What a match means -----

  lemma MatchesItself(rows: seq<Row>)
    requires NoRepeats(rows)
    ensures Matches(rows, rows)
  {
  }

  function RowSet(rows: seq<Row>): set<Row> { set i | 0 <= i < |rows| :: rows[i] }

  lemma {:induction false} RowSetSize(rows: seq<Row>)
    ensures |RowSet(rows)| <= |rows|
    ensures NoRepeats(rows) ==> |RowSet(rows)| == |rows|
  {
    if rows != [] {
      var n := |rows| - 1;
      var front := rows[..n];
      RowSetSize(front);
      assert RowSet(rows) == RowSet(front) + {rows[n]} by {
        assert forall i :: 0 <= i < n ==> front[i] == rows[i];
        assert rows[n] in RowSet(rows);
        forall x | x in RowSet(front)
          ensures x in RowSet(rows)
        {
          var i :| 0 <= i < n && front[i] == x;
          assert rows[i] == x;
        }
      }
      if NoRepeats(rows) {
        FrontHasNoRepeats(rows);
        assert Fresh(rows, n);
      }
    }
  }

  lemma FrontHasNoRepeats(rows: seq<Row>)
    requires rows != [] && NoRepeats(rows)
    ensures NoRepeats(rows[..|rows| - 1])
  {
    var front := rows[..|rows| - 1];
    forall i | 0 <= i < |front|
      ensures Fresh(front, i)
    {
      assert Fresh(rows, i);
      assert forall j :: 0 <= j < i ==> front[j] == rows[j];
    }
  }

  /** Matching tables without repeated names hold exactly the same rows. */
  lemma MatchingTablesAgree(rows: seq<Row>, wanted: seq<Row>, row: Row)
    requires Matches(rows, wanted) && NoRepeats(wanted)
    ensures row in rows <==> row in wanted
  {
    RowSetSize(rows);
    RowSetSize(wanted);
    forall w | w in RowSet(wanted)
      ensures w in RowSet(rows)
    {
      var k :| 0 <= k < |wanted| && wanted[k] == w;
      assert wanted[k] in rows;
    }
    SubsetSize(RowSet(wanted), RowSet(rows));
    assert row in RowSet(rows) <==> row in rows;
    assert row in RowSet(wanted) <==> row in wanted;
  }
}
