/**
 Runs in which posts share an id, as all return loads do: what the table holds of them and how
 many come back from a reload.
 */
module SharedIds {
  import opened Text
  import opened LoadPosts
  import opened Distances
  import opened Negotiation

  function RowIds(rows: seq<Row>): set<string> { set i | 0 <= i < |rows| :: rows[i].id }

  function LoadIds(loads: seq<Load>): set<string> { set i | 0 <= i < |loads| :: loads[i].id }

  ghost predicate DistinctRows(rows: seq<Row>) {
    forall i, j :: 0 <= i < j < |rows| ==> rows[i].id != rows[j].id
  }

  /** The rows hold each id in memory exactly once, and no other. */
  ghost predicate RowsCover(s: State) {
    DistinctRows(s.rows) && RowIds(s.rows) == LoadIds(s.loads)
  }

  lemma {:induction false} DistinctRowsCount(rows: seq<Row>)
    requires DistinctRows(rows)
    ensures |RowIds(rows)| == |rows|
  {
    if rows != [] {
      var front, r := rows[..|rows| - 1], rows[|rows| - 1];
      DistinctRowsCount(front);
      assert RowIds(rows) == RowIds(front) + {r.id};
      assert r.id !in RowIds(front);
    }
  }

  lemma DistinctSnoc(loads: seq<Load>, l: Load)
    ensures DistinctIds(loads + [l]) <==> DistinctIds(loads) && l.id !in LoadIds(loads)
  {
    var all := loads + [l];
    assert forall i :: 0 <= i < |loads| ==> all[i] == loads[i];
    if l.id in LoadIds(loads) {
      var i :| 0 <= i < |loads| && loads[i].id == l.id;
      assert all[i].id == all[|loads|].id;
    } else {
      forall i | 0 <= i < |loads| ensures loads[i].id != l.id { assert loads[i].id in LoadIds(loads); }
    }
    if DistinctIds(all) {
      forall i, j | 0 <= i < j < |loads| ensures loads[i].id != loads[j].id { assert all[i].id != all[j].id; }
    }
  }

  lemma {:induction false} DistinctLoadsCount(loads: seq<Load>)
    ensures |LoadIds(loads)| <= |loads|
    ensures |LoadIds(loads)| == |loads| <==> DistinctIds(loads)
  {
    if loads != [] {
      var front, l := loads[..|loads| - 1], loads[|loads| - 1];
      hide LoadIds, DistinctIds;
      assert loads == front + [l];
      DistinctLoadsCount(front);
      LoadIdsSnoc(front, l);
      DistinctSnoc(front, l);
      if l.id in LoadIds(front) { assert LoadIds(front) + {l.id} == LoadIds(front); }
    }
  }

  lemma RowIdsSnoc(rows: seq<Row>, r: Row)
    ensures RowIds(rows + [r]) == RowIds(rows) + {r.id}
  {
    var all := rows + [r];
    assert all[|rows|] == r && forall i :: 0 <= i < |rows| ==> all[i] == rows[i];
  }

  lemma LoadIdsSnoc(loads: seq<Load>, l: Load)
    ensures LoadIds(loads + [l]) == LoadIds(loads) + {l.id}
  {
    var all := loads + [l];
    assert all[|loads|] == l && forall i :: 0 <= i < |loads| ==> all[i] == loads[i];
  }

  lemma SameIdSets(loads: seq<Load>, rows: seq<Row>)
    requires |loads| == |rows| && forall i :: 0 <= i < |rows| ==> loads[i].id == rows[i].id
    ensures LoadIds(loads) == RowIds(rows)
  {
    forall x | x in RowIds(rows) ensures x in LoadIds(loads) {
      var i :| 0 <= i < |rows| && rows[i].id == x;
      assert loads[i].id == x;
    }
  }

  lemma InsertCovers(rows: seq<Row>, row: Row)
    requires DistinctRows(rows)
    ensures DistinctRows(InsertRow(rows, row)) && RowIds(InsertRow(rows, row)) == RowIds(rows) + {row.id}
  {
    DeleteCovers(rows, row.id);
    hide DistinctRows;
    var kept := DeleteRow(rows, row.id);
    assert InsertRow(rows, row) == kept + [row];
    RowIdsSnoc(kept, row);
    LastIsDistinct(kept, row);
  }

  lemma LastIsDistinct(rows: seq<Row>, row: Row)
    requires DistinctRows(rows) && row.id !in RowIds(rows)
    ensures DistinctRows(rows + [row])
  {
    forall i | 0 <= i < |rows| ensures rows[i].id != row.id { assert rows[i].id in RowIds(rows); }
  }

  lemma {:induction false} DeleteCovers(rows: seq<Row>, id: string)
    requires DistinctRows(rows)
    ensures DistinctRows(DeleteRow(rows, id)) && RowIds(DeleteRow(rows, id)) == RowIds(rows) - {id}
  {
    if rows != [] {
      var front, r := rows[..|rows| - 1], rows[|rows| - 1];
      assert rows == front + [r];
      assert RowIds(rows) == RowIds(front) + {r.id};
      assert r.id !in RowIds(front);
      DeleteCovers(front, id);
      DeleteRowSnoc(front, r, id);
      hide DeleteRow;
      if r.id != id {
        var kept := DeleteRow(front, id);
        LastIsDistinct(kept, r);
        RowIdsSnoc(kept, r);
      }
    }
  }

  lemma {:induction false} DropCovers(loads: seq<Load>, id: string)
    ensures LoadIds(DropLoad(loads, id)) == LoadIds(loads) - {id}
  {
    if loads != [] {
      var front, l := loads[..|loads| - 1], loads[|loads| - 1];
      assert loads == front + [l];
      DropCovers(front, id);
      DropSnoc(front, l, id);
      hide DropLoad;
      LoadIdsSnoc(front, l);
      LoadIdsSnoc(DropLoad(front, id), l);
    }
  }

  // The same ids in the same places.
  ghost predicate SameIds(s: State, t: State) {
    && |t.loads| == |s.loads| && (forall i :: 0 <= i < |s.loads| ==> t.loads[i].id == s.loads[i].id)
    && |t.rows| == |s.rows| && (forall i :: 0 <= i < |s.rows| ==> t.rows[i].id == s.rows[i].id)
  }

  lemma SameIdsCover(s: State, t: State)
    requires RowsCover(s) && SameIds(s, t)
    ensures RowsCover(t)
  {
    assert RowIds(t.rows) == RowIds(s.rows);
    assert LoadIds(t.loads) == LoadIds(s.loads);
  }

  lemma MeasureAtSameIds(world: World, s: State, i: nat, now: int)
    requires i < |s.loads|
    ensures SameIds(s, MeasureAt(world, s, i, now))
  {
    hide Measure, EncodeBids, Join;
    MeasureKeepsDeal(world, s.cache, s.loads[i]);
  }

  lemma {:induction false} MeasureFromSameIds(world: World, s: State, i: nat, now: int)
    ensures SameIds(s, MeasureFrom(world, s, i, now))
    decreases |s.loads| - i
  {
    hide MeasureAt;
    if i < |s.loads| {
      MeasureAtSameIds(world, s, i, now);
      MeasureFromSameIds(world, MeasureAt(world, s, i, now), i + 1, now);
    }
  }

  lemma FetchCovers(world: World, s: State, now: int)
    requires RowsCover(s)
    ensures RowsCover(Step(world, s, FetchLoads(now))) && |Step(world, s, FetchLoads(now)).loads| == |s.rows|
  {
    hide MeasureFrom, DecodeBids, Split;
    var r := s.(loads := FetchedLoads(s.rows));
    SameIdSets(r.loads, s.rows);
    MeasureFromSameIds(world, r, 0, now);
    SameIdsCover(r, Step(world, s, FetchLoads(now)));
  }

  lemma TargetSameIds(world: World, s: State, a: Action)
    requires Target(a).Some? && !a.DeleteLoad?
    ensures SameIds(s, Step(world, s, a))
  {
    hide Step, Moved;
    var i := IndexOf(s.loads, Target(a).value);
    if i < |s.loads| { MovedKeepsId(world, s.cache, s.loads[i], a); }
    StepMovesTarget(world, s, a);
    TargetRowIds(world, s, a);
  }

  lemma TargetRowIds(world: World, s: State, a: Action)
    requires Target(a).Some? && !a.DeleteLoad?
    ensures var t := Step(world, s, a);
            |t.rows| == |s.rows| && forall i :: 0 <= i < |s.rows| ==> t.rows[i].id == s.rows[i].id
  {
    hide Measure, PairDistance, IndexOf, BidIndex, EncodeBids, EncodeBidsShort, Join, PutBid, AcceptedAmount;
  }

  lemma StepCovers(world: World, s: State, a: Action)
    requires RowsCover(s)
    ensures RowsCover(Step(world, s, a))
  {
    hide Step, InsertRow, DeleteRow, DropLoad, DistinctRows, SameIds, RowsCover;
    if a.FetchLoads? {
      FetchCovers(world, s, a.now);
    } else if Target(a).Some? && !a.DeleteLoad? {
      TargetSameIds(world, s, a);
      SameIdsCover(s, Step(world, s, a));
    } else {
      OtherCovers(world, s, a);
    }
  }

  lemma OtherCovers(world: World, s: State, a: Action)
    requires RowsCover(s) && (a.AddLoad? || a.DeleteLoad? || a.AskDistance?)
    ensures RowsCover(Step(world, s, a))
  {
    StepOtherwise(world, s, a);
    hide InsertRow, DeleteRow, DropLoad, DistinctRows, PairDistance, EncodeBids, Join;
    if a.AddLoad? {
      InsertCovers(s.rows, ToRow(a.load));
      LoadIdsSnoc(s.loads, a.load);
    } else if a.DeleteLoad? {
      DeleteCovers(s.rows, a.id);
      DropCovers(s.loads, a.id);
    }
  }

  lemma {:induction false} RunCovers(world: World, s: State, actions: seq<Action>)
    requires RowsCover(s)
    ensures RowsCover(Run(world, s, actions))
    decreases |actions|
  {
    hide Step, RowsCover;
    if actions != [] {
      StepCovers(world, s, actions[0]);
      RunCovers(world, Step(world, s, actions[0]), actions[1..]);
    }
  }

  /**
   Posts may share an id: every return load is posted under ''. After every run the rows hold each
   id in memory exactly once, so a reload keeps the number of loads exactly when their ids differ.
   */
  lemma ReloadKeepsCountExact(world: World, actions: seq<Action>, now: int)
    ensures var s := Run(world, EMPTY, actions);
            var t := Step(world, s, FetchLoads(now));
            RowsCover(s) && (|t.loads| == |s.loads| <==> DistinctIds(s.loads)) && DistinctIds(t.loads)
  {
    hide Step, Run, DistinctRows;
    assert RowsCover(EMPTY) by { NothingCovers(); }
    RunCovers(world, EMPTY, actions);
    var s := Run(world, EMPTY, actions);
    FetchCovers(world, s, now);
    DistinctRowsCount(s.rows);
    DistinctLoadsCount(s.loads);
    DistinctRowsCount(Step(world, s, FetchLoads(now)).rows);
    DistinctLoadsCount(Step(world, s, FetchLoads(now)).loads);
    FetchKeepsRowCount(world, s, now);
  }

  lemma NothingCovers()
    ensures RowsCover(EMPTY)
  {
  }

  lemma FetchKeepsRowCount(world: World, s: State, now: int)
    ensures |Step(world, s, FetchLoads(now)).rows| == |s.rows|
  {
    hide MeasureFrom;
    MeasureFromSameIds(world, s.(loads := FetchedLoads(s.rows)), 0, now);
  }
}
