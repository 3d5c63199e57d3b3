/** Reconciling a restaurant's tables with a target layout (scripts/seed_demo_tables.py). */
module FloorSeed {
  import opened Wrappers

  datatype Place = Place(seats: int, posX: real, posY: real, status: string)

  datatype Target = Target(name: string, place: Place)

  /** A row of `tables`; `archived` is its soft delete, which the script never looks at. */
  datatype Row = Row(id: int, name: string, place: Place, archived: bool)

  /** The script in mid-loop: `spare` holds indices of rows. */
  datatype Floor = Floor(rows: seq<Row>, spare: seq<nat>, created: nat, moved: nat, reused: nat)

  ghost predicate DistinctTargets(layout: seq<Target>) {
    forall i, j | 0 <= i < j < |layout| :: layout[i].name != layout[j].name
  }

  ghost predicate DistinctLabels(rows: seq<Row>) {
    forall i, j | 0 <= i < j < |rows| :: rows[i].name != rows[j].name
  }

  /** by_label: of several rows with a label the last one is found. */
  function LastWith(rows: seq<Row>, name: string): (found: Option<nat>)
    ensures found.Some? ==> found.value < |rows| && rows[found.value].name == name
  {
    if rows == [] then None
    else if rows[|rows| - 1].name == name then Some(|rows| - 1)
    else LastWith(rows[..|rows| - 1], name)
  }

  predicate Targeted(layout: seq<Target>, name: string) {
    exists m | 0 <= m < |layout| :: layout[m].name == name
  }

  predicate Below(indices: seq<nat>, n: nat) {
    forall k | 0 <= k < |indices| :: indices[k] < n
  }

  /** The rows whose label the layout does not use, in table order. */
  function Spare(rows: seq<Row>, layout: seq<Target>): (spare: seq<nat>)
    ensures Below(spare, |rows|)
  {
    if rows == [] then []
    else
      var n := |rows| - 1;
      Spare(rows[..n], layout) + if Targeted(layout, rows[n].name) then [] else [n]
  }

  /** One turn of the loop; `initial` are the rows as they were read. */
  function Place1(initial: seq<Row>, f: Floor, t: Target, nextId: int): (next: Floor)
    requires |initial| <= |f.rows| && Below(f.spare, |f.rows|)
    ensures |f.rows| <= |next.rows| && Below(next.spare, |next.rows|)
  {
    var known := LastWith(initial, t.name);
    if known.Some? then
      f.(rows := f.rows[known.value := f.rows[known.value].(place := t.place)], moved := f.moved + 1)
    else if f.spare != [] then
      f.(rows := f.rows[f.spare[0] := f.rows[f.spare[0]].(name := t.name, place := t.place)],
         spare := f.spare[1..], moved := f.moved + 1, reused := f.reused + 1)
    else
      f.(rows := f.rows + [Row(nextId + f.created, t.name, t.place, false)], created := f.created + 1)
  }

  function PlaceAll(initial: seq<Row>, layout: seq<Target>, n: nat, nextId: int): (f: Floor)
    requires n <= |layout|
    ensures |initial| <= |f.rows| && Below(f.spare, |f.rows|)
  {
    if n == 0 then Floor(initial, Spare(initial, layout), 0, 0, 0)
    else Place1(initial, PlaceAll(initial, layout, n - 1, nextId), layout[n - 1], nextId)
  }

  function Seed(rows: seq<Row>, layout: seq<Target>, nextId: int): Floor {
    PlaceAll(rows, layout, |layout|, nextId)
  }

  lemma UpdateTwice(rows: seq<Row>, i: nat, once: Row, twice: Row)
    requires i < |rows|
    ensures rows[i := once][i := twice] == rows[i := twice]
  {
  }

  /** The restaurant's tables, ordered by id. */
  class Tables {
    var rows: seq<Row>
    var nextId: int

    method Relabel(i: nat, name: string)
      requires i < |rows|
      modifies this`rows
      ensures rows == old(rows)[i := old(rows)[i].(name := name)]
    {
      rows := rows[i := rows[i].(name := name)];
    }

    method PutAt(i: nat, place: Place)
      requires i < |rows|
      modifies this`rows
      ensures rows == old(rows)[i := old(rows)[i].(place := place)]
    {
      rows := rows[i := rows[i].(place := place)];
    }

    /** The loop of the script, which changes rows through the dictionary and the spare
        list and never takes one away. */
    method Reconcile(layout: seq<Target>) returns (created: nat, moved: nat, reused: nat)
      modifies this
      ensures var f := Seed(old(rows), layout, old(nextId));
              rows == f.rows && created == f.created && moved == f.moved && reused == f.reused
      ensures nextId == old(nextId) + created
    {
      var existing := rows;
      var spare := Spare(existing, layout);
      created, moved, reused := 0, 0, 0;
      for n := 0 to |layout|
        invariant Floor(rows, spare, created, moved, reused) == PlaceAll(existing, layout, n, old(nextId))
        invariant nextId == old(nextId) + created
      {
        var t := layout[n];
        var row := LastWith(existing, t.name);
        if row.None? && spare != [] {
          row, spare := Some(spare[0]), spare[1..];
          var found := rows[row.value];
          UpdateTwice(rows, row.value, found.(name := t.name), found.(name := t.name, place := t.place));
          Relabel(row.value, t.name);
          reused := reused + 1;
        }
        if row.None? {
          rows := rows + [Row(nextId, t.name, t.place, false)];
          nextId, created := nextId + 1, created + 1;
          continue;
        }
        PutAt(row.value, t.place);
        moved := moved + 1;
      }
    }
  }

  // ---- where each target goes ----------------------------------------------------------

  ghost predicate Serves(rows: seq<Row>, layout: seq<Target>, i: nat) {
    exists m: nat | m < |layout| :: Home(rows, layout, m) == i
  }

  /** How many of the first `m` labels no row carries. */
  function Missing(rows: seq<Row>, layout: seq<Target>, m: nat): nat
    requires m <= |layout|
  {
    if m == 0 then 0 else Missing(rows, layout, m - 1) + if LastWith(rows, layout[m - 1].name).None? then 1 else 0
  }

  /** The row a target ends up in: the last one with its label, else the next unused
      spare, else a new one. */
  function Home(rows: seq<Row>, layout: seq<Target>, m: nat): nat
    requires m < |layout|
  {
    var known, rank := LastWith(rows, layout[m].name), Missing(rows, layout, m);
    if known.Some? then known.value
    else if rank < |Spare(rows, layout)| then Spare(rows, layout)[rank]
    else |rows| + rank - |Spare(rows, layout)|
  }

  lemma {:induction false} LastWithIsLast(rows: seq<Row>, name: string, i: nat)
    requires i < |rows| && rows[i].name == name
    ensures LastWith(rows, name).Some? && i <= LastWith(rows, name).value
  {
    var n := |rows| - 1;
    if rows[n].name != name {
      LastWithIsLast(rows[..n], name, i);
    }
  }

  lemma {:induction false} SpareAt(rows: seq<Row>, layout: seq<Target>, k: nat)
    requires k < |Spare(rows, layout)|
    ensures var i := Spare(rows, layout)[k];
            i < |rows| && !Targeted(layout, rows[i].name)
    decreases |rows|
  {
    var n := |rows| - 1;
    if k < |Spare(rows[..n], layout)| {
      SpareAt(rows[..n], layout, k);
    }
  }

  lemma {:induction false} SpareIncreases(rows: seq<Row>, layout: seq<Target>, j: nat, k: nat)
    requires j < k < |Spare(rows, layout)|
    ensures Spare(rows, layout)[j] < Spare(rows, layout)[k]
    decreases |rows|
  {
    var n := |rows| - 1;
    if k < |Spare(rows[..n], layout)| {
      SpareIncreases(rows[..n], layout, j, k);
    } else {
      SpareAt(rows[..n], layout, j);
    }
  }

  lemma {:induction false} MissingGrows(rows: seq<Row>, layout: seq<Target>, i: nat, j: nat)
    requires i < j <= |layout|
    ensures Missing(rows, layout, i) <= Missing(rows, layout, j)
    ensures LastWith(rows, layout[i].name).None? ==> Missing(rows, layout, i) < Missing(rows, layout, j)
    decreases j
  {
    if i < j - 1 {
      MissingGrows(rows, layout, i, j - 1);
    }
  }

  /** No row serves two targets. */
  lemma HomesDiffer(rows: seq<Row>, layout: seq<Target>, i: nat, j: nat)
    requires DistinctTargets(layout) && i < j < |layout|
    ensures Home(rows, layout, i) != Home(rows, layout, j)
  {
    var ki, kj := LastWith(rows, layout[i].name), LastWith(rows, layout[j].name);
    var ri, rj := Missing(rows, layout, i), Missing(rows, layout, j);
    var spare := Spare(rows, layout);
    MissingGrows(rows, layout, i, j);
    if ri < |spare| { SpareAt(rows, layout, ri); }
    if rj < |spare| { SpareAt(rows, layout, rj); }
    if ki.None? && kj.None? && rj < |spare| { SpareIncreases(rows, layout, ri, rj); }
    assert layout[i].name != layout[j].name;
    assert Targeted(layout, layout[i].name) && Targeted(layout, layout[j].name);
  }

  // ---- what the loop has done after n targets ----------------------------------------------

  lemma {:induction false} Counts(rows: seq<Row>, layout: seq<Target>, n: nat, nextId: int)
    requires n <= |layout|
    ensures var f, missing, spare := PlaceAll(rows, layout, n, nextId), Missing(rows, layout, n), Spare(rows, layout);
            && f.reused == (if missing < |spare| then missing else |spare|)
            && f.spare == spare[f.reused..]
            && f.created == missing - f.reused && f.moved == n - f.created
            && |f.rows| == |rows| + f.created
  {
    if n > 0 {
      Counts(rows, layout, n - 1, nextId);
    }
  }

  /** Turn `n` changes the home of target `n` and no other row. */
  lemma StepTouchesHome(rows: seq<Row>, layout: seq<Target>, n: nat, nextId: int)
    requires n < |layout|
    ensures var f, next, h := PlaceAll(rows, layout, n, nextId), PlaceAll(rows, layout, n + 1, nextId), Home(rows, layout, n);
            && h <= |f.rows| && h < |next.rows| == (if h < |f.rows| then |f.rows| else |f.rows| + 1)
            && (h < |f.rows| ==> next.rows == f.rows[h := next.rows[h]]
                                 && next.rows[h].id == f.rows[h].id && next.rows[h].archived == f.rows[h].archived)
            && (h == |f.rows| ==> next.rows == f.rows + [Row(nextId + h - |rows|, layout[n].name, layout[n].place, false)])
            && next.rows[h].place == layout[n].place
            && next.rows[h].name == if LastWith(rows, layout[n].name).Some? && h < |f.rows| then f.rows[h].name else layout[n].name
  {
    Counts(rows, layout, n, nextId);
    assert n + 1 - 1 == n;
  }

  lemma StepSparesOthers(rows: seq<Row>, layout: seq<Target>, n: nat, nextId: int, i: nat)
    requires n < |layout| && i < |PlaceAll(rows, layout, n, nextId).rows| && i != Home(rows, layout, n)
    ensures i < |PlaceAll(rows, layout, n + 1, nextId).rows|
    ensures PlaceAll(rows, layout, n + 1, nextId).rows[i] == PlaceAll(rows, layout, n, nextId).rows[i]
  {
    StepTouchesHome(rows, layout, n, nextId);
  }

  lemma {:induction false} Untouched(rows: seq<Row>, layout: seq<Target>, n: nat, nextId: int, i: nat)
    requires n <= |layout| && i < |rows|
    requires forall m: nat | m < n :: Home(rows, layout, m) != i
    ensures PlaceAll(rows, layout, n, nextId).rows[i] == rows[i]
  {
    if n > 0 {
      Untouched(rows, layout, n - 1, nextId, i);
      StepSparesOthers(rows, layout, n - 1, nextId, i);
    }
  }

  /** The row a target is meant to become. */
  ghost predicate Filled(rows: seq<Row>, f: Floor, layout: seq<Target>, m: nat, nextId: int)
    requires m < |layout|
  {
    var h := Home(rows, layout, m);
    && h < |f.rows|
    && f.rows[h] == Row(if h < |rows| then rows[h].id else nextId + h - |rows|, layout[m].name, layout[m].place,
                        h < |rows| && rows[h].archived)
  }

  lemma FilledByStep(rows: seq<Row>, layout: seq<Target>, m: nat, nextId: int)
    requires DistinctTargets(layout) && m < |layout|
    ensures Filled(rows, PlaceAll(rows, layout, m + 1, nextId), layout, m, nextId)
  {
    var h := Home(rows, layout, m);
    StepTouchesHome(rows, layout, m, nextId);
    if h < |rows| {
      forall k: nat | k < m ensures Home(rows, layout, k) != h {
        HomesDiffer(rows, layout, k, m);
      }
      Untouched(rows, layout, m, nextId, h);
    } else {
      Counts(rows, layout, m, nextId);
    }
  }

  lemma {:induction false} TargetsAreFilled(rows: seq<Row>, layout: seq<Target>, n: nat, m: nat, nextId: int)
    requires DistinctTargets(layout) && m < n <= |layout|
    ensures Filled(rows, PlaceAll(rows, layout, n, nextId), layout, m, nextId)
    decreases n
  {
    if m == n - 1 {
      FilledByStep(rows, layout, m, nextId);
    } else {
      var h := Home(rows, layout, m);
      TargetsAreFilled(rows, layout, n - 1, m, nextId);
      HomesDiffer(rows, layout, m, n - 1);
      StepSparesOthers(rows, layout, n - 1, nextId, h);
    }
  }

  lemma StepKeepsId(rows: seq<Row>, layout: seq<Target>, n: nat, nextId: int, i: nat)
    requires n < |layout| && i < |PlaceAll(rows, layout, n, nextId).rows|
    ensures i < |PlaceAll(rows, layout, n + 1, nextId).rows|
    ensures PlaceAll(rows, layout, n + 1, nextId).rows[i].id == PlaceAll(rows, layout, n, nextId).rows[i].id
    ensures PlaceAll(rows, layout, n + 1, nextId).rows[i].archived == PlaceAll(rows, layout, n, nextId).rows[i].archived
  {
    StepTouchesHome(rows, layout, n, nextId);
  }

  lemma {:induction false} RowsStay(rows: seq<Row>, layout: seq<Target>, n: nat, nextId: int, i: nat)
    requires n <= |layout| && i < |rows|
    ensures var row := PlaceAll(rows, layout, n, nextId).rows[i];
            row.id == rows[i].id && row.archived == rows[i].archived
  {
    if n > 0 {
      RowsStay(rows, layout, n - 1, nextId, i);
      StepKeepsId(rows, layout, n - 1, nextId, i);
    }
  }

  // ---- how many rows there are to reuse, and how many labels to place -----------------------------

  /** The spare rows are all rows whose label no target has. */
  lemma {:induction false} SpareIff(rows: seq<Row>, layout: seq<Target>, i: nat)
    ensures i in Spare(rows, layout) <==> i < |rows| && forall m | 0 <= m < |layout| :: layout[m].name != rows[i].name
    decreases |rows|
  {
    if rows != [] {
      SpareIff(rows[..|rows| - 1], layout, i);
    }
  }

  ghost predicate Unused(rows: seq<Row>, layout: seq<Target>, i: nat) {
    i < |rows| && forall m | 0 <= m < |layout| :: layout[m].name != rows[i].name
  }

  ghost function UnusedRows(rows: seq<Row>, layout: seq<Target>): set<nat> {
    set i: nat | i < |rows| && Unused(rows, layout, i)
  }

  ghost predicate Unborne(rows: seq<Row>, name: string) {
    forall i | 0 <= i < |rows| :: rows[i].name != name
  }

  /** The labels among the first `n` targets that no row bears. */
  ghost function UnborneLabels(rows: seq<Row>, layout: seq<Target>, n: nat): set<string>
    requires n <= |layout|
  {
    set m | 0 <= m < n && Unborne(rows, layout[m].name) :: layout[m].name
  }

  lemma UnusedStep(rows: seq<Row>, layout: seq<Target>)
    requires rows != []
    ensures var n := |rows| - 1;
            var before := UnusedRows(rows[..n], layout);
            UnusedRows(rows, layout) == if Targeted(layout, rows[n].name) then before else before + {n}
  {
    var n := |rows| - 1;
    assert Unused(rows, layout, n) <==> !Targeted(layout, rows[n].name);
    assert forall i: nat | i < n :: Unused(rows, layout, i) <==> Unused(rows[..n], layout, i);
  }

  lemma {:induction false} SpareCount(rows: seq<Row>, layout: seq<Target>)
    ensures |Spare(rows, layout)| == |UnusedRows(rows, layout)|
    decreases |rows|
  {
    if rows != [] {
      SpareCount(rows[..|rows| - 1], layout);
      UnusedStep(rows, layout);
    }
  }

  lemma UnborneIff(rows: seq<Row>, name: string)
    ensures Unborne(rows, name) <==> LastWith(rows, name).None?
  {
    if !Unborne(rows, name) {
      var i :| 0 <= i < |rows| && rows[i].name == name;
      LastWithIsLast(rows, name, i);
    }
  }

  lemma {:induction false} MissingCount(rows: seq<Row>, layout: seq<Target>, n: nat)
    requires DistinctTargets(layout) && n <= |layout|
    ensures Missing(rows, layout, n) == |UnborneLabels(rows, layout, n)|
  {
    if n > 0 {
      MissingCount(rows, layout, n - 1);
      UnborneIff(rows, layout[n - 1].name);
      var before, name := UnborneLabels(rows, layout, n - 1), layout[n - 1].name;
      assert name !in before;
      assert UnborneLabels(rows, layout, n) == if Unborne(rows, name) then before + {name} else before;
    }
  }

  /** Every target ends up on a row of its own, as the layout says, and exactly the labels
      that outnumber the spare rows are created; no row is deleted or changes its id, and one
      that serves no target stays as it was. */
  lemma SeedReachesLayout(rows: seq<Row>, layout: seq<Target>, nextId: int)
    requires DistinctTargets(layout)
    ensures var f := Seed(rows, layout, nextId);
            var missing, unused := |UnborneLabels(rows, layout, |layout|)|, |UnusedRows(rows, layout)|;
            && f.created == (if missing > unused then missing - unused else 0)
            && f.reused == missing - f.created && f.moved == |layout| - f.created
            && |f.rows| == |rows| + f.created
            && (forall m: nat | m < |layout| :: Filled(rows, f, layout, m, nextId))
            && (forall i: nat | i < |rows| :: f.rows[i].id == rows[i].id && f.rows[i].archived == rows[i].archived)
            && (forall i: nat | i < |rows| && !Serves(rows, layout, i) :: f.rows[i] == rows[i])
    ensures forall i: nat, j: nat | i < j < |layout| :: Home(rows, layout, i) != Home(rows, layout, j)
  {
    Counts(rows, layout, |layout|, nextId);
    SpareCount(rows, layout);
    MissingCount(rows, layout, |layout|);
    forall i: nat | i < |rows| && !Serves(rows, layout, i) ensures Seed(rows, layout, nextId).rows[i] == rows[i] {
      Untouched(rows, layout, |layout|, nextId, i);
    }
    forall m: nat | m < |layout| ensures Filled(rows, Seed(rows, layout, nextId), layout, m, nextId) {
      TargetsAreFilled(rows, layout, |layout|, m, nextId);
    }
    forall i: nat | i < |rows|
      ensures Seed(rows, layout, nextId).rows[i].id == rows[i].id
      ensures Seed(rows, layout, nextId).rows[i].archived == rows[i].archived
    {
      RowsStay(rows, layout, |layout|, nextId, i);
    }
    forall i: nat, j: nat | i < j < |layout| ensures Home(rows, layout, i) != Home(rows, layout, j) {
      HomesDiffer(rows, layout, i, j);
    }
  }

  // ---- labels, and a second run -----------------------------------------------------------

  lemma {:induction false} NewRowIsHome(rows: seq<Row>, layout: seq<Target>, n: nat, nextId: int, i: nat) returns (m: nat)
    requires n <= |layout| && |rows| <= i < |PlaceAll(rows, layout, n, nextId).rows|
    ensures m < n && Home(rows, layout, m) == i
  {
    StepTouchesHome(rows, layout, n - 1, nextId);
    if i < |PlaceAll(rows, layout, n - 1, nextId).rows| {
      m := NewRowIsHome(rows, layout, n - 1, nextId, i);
    } else {
      m := n - 1;
    }
  }

  /** A row after the run is the home of a target, or a row the run has not touched. */
  lemma RowAfterSeed(rows: seq<Row>, layout: seq<Target>, nextId: int, i: nat) returns (home: Option<nat>)
    requires DistinctTargets(layout) && i < |Seed(rows, layout, nextId).rows|
    ensures var f := Seed(rows, layout, nextId);
            && (home.Some? ==> home.value < |layout| && Home(rows, layout, home.value) == i && f.rows[i].name == layout[home.value].name)
            && (home.None? ==> i < |rows| && f.rows[i] == rows[i] && forall m: nat | m < |layout| :: Home(rows, layout, m) != i)
  {
    if m: nat :| m < |layout| && Home(rows, layout, m) == i {
      TargetsAreFilled(rows, layout, |layout|, m, nextId);
      home := Some(m);
    } else {
      if i >= |rows| {
        var m := NewRowIsHome(rows, layout, |layout|, nextId, i);
        assert false;
      }
      Untouched(rows, layout, |layout|, nextId, i);
      home := None;
    }
  }

  /** Two rows carry the same label afterwards only if they did before. */
  lemma SameLabelAfter(rows: seq<Row>, layout: seq<Target>, nextId: int, i: nat, j: nat)
    requires DistinctTargets(layout) && i < j < |Seed(rows, layout, nextId).rows|
    requires Seed(rows, layout, nextId).rows[i].name == Seed(rows, layout, nextId).rows[j].name
    ensures j < |rows| && rows[i].name == rows[j].name
  {
    var hi := RowAfterSeed(rows, layout, nextId, i);
    var hj := RowAfterSeed(rows, layout, nextId, j);
    if hi.Some? && hj.Some? {
      assert false;
    } else if hj.Some? {
      LastWithIsLast(rows, rows[i].name, i);
      assert Home(rows, layout, hj.value) == LastWith(rows, rows[i].name).value;
    } else if hi.Some? {
      LastWithIsLast(rows, rows[j].name, j);
      assert Home(rows, layout, hi.value) == LastWith(rows, rows[j].name).value;
    }
  }

  lemma LabelsStayDistinct(rows: seq<Row>, layout: seq<Target>, nextId: int)
    requires DistinctTargets(layout) && DistinctLabels(rows)
    ensures DistinctLabels(Seed(rows, layout, nextId).rows)
  {
    var after := Seed(rows, layout, nextId).rows;
    forall i: nat, j: nat | i < j < |after|
      ensures after[i].name != after[j].name
    {
      if after[i].name == after[j].name {
        SameLabelAfter(rows, layout, nextId, i, j);
        assert false;
      }
    }
  }

  /** The next run finds each target where this one has put it. */
  lemma FoundAtHome(rows: seq<Row>, layout: seq<Target>, nextId: int, m: nat)
    requires DistinctTargets(layout) && m < |layout|
    ensures LastWith(Seed(rows, layout, nextId).rows, layout[m].name) == Some(Home(rows, layout, m))
  {
    var after, h := Seed(rows, layout, nextId).rows, Home(rows, layout, m);
    TargetsAreFilled(rows, layout, |layout|, m, nextId);
    LastWithIsLast(after, layout[m].name, h);
    var v := LastWith(after, layout[m].name).value;
    if h < v {
      SameLabelAfter(rows, layout, nextId, h, v);
      var home := RowAfterSeed(rows, layout, nextId, v);
      if home.None? {
        LastWithIsLast(rows, layout[m].name, v);
      }
    }
  }

  /** A second run relabels nothing, creates nothing and changes no row. */
  lemma SecondRunChangesNothing(rows: seq<Row>, layout: seq<Target>, nextId: int, nextId': int)
    requires DistinctTargets(layout)
    ensures var after := Seed(rows, layout, nextId).rows;
            var again := Seed(after, layout, nextId');
            again.rows == after && again.created == 0 && again.reused == 0
  {
    var after := Seed(rows, layout, nextId).rows;
    NothingMissing(rows, layout, nextId, |layout|);
    Counts(after, layout, |layout|, nextId');
    forall i: nat | i < |after|
      ensures Seed(after, layout, nextId').rows[i] == after[i]
    {
      if m: nat :| m < |layout| && Home(after, layout, m) == i {
        FoundAtHome(rows, layout, nextId, m);
        TargetsAreFilled(rows, layout, |layout|, m, nextId);
        TargetsAreFilled(after, layout, |layout|, m, nextId');
      } else {
        Untouched(after, layout, |layout|, nextId', i);
      }
    }
  }

  lemma {:induction false} NothingMissing(rows: seq<Row>, layout: seq<Target>, nextId: int, n: nat)
    requires DistinctTargets(layout) && n <= |layout|
    ensures Missing(Seed(rows, layout, nextId).rows, layout, n) == 0
  {
    if n > 0 {
      NothingMissing(rows, layout, nextId, n - 1);
      FoundAtHome(rows, layout, nextId, n - 1);
    }
  }

  // ---- archived rows --------------------------------------------------------------------

  predicate Live(row: Row, t: Target) {
    !row.archived && row.name == t.name && row.place == t.place
  }

  /** A row that stands where a target should is the target's home, or stays as it is. */
  lemma LiveBefore(rows: seq<Row>, layout: seq<Target>, nextId: int, m: nat, k: nat)
    requires DistinctTargets(layout) && m < |layout| && k < |rows| && Live(rows[k], layout[m])
    ensures k == Home(rows, layout, m) || rows[k] in Seed(rows, layout, nextId).rows
  {
    var after := Seed(rows, layout, nextId).rows;
    SeedReachesLayout(rows, layout, nextId);
    var home := RowAfterSeed(rows, layout, nextId, k);
    if home.None? {
      assert after[k] in after;
    } else {
      var other := home.value;
      var rank := Missing(rows, layout, other);
      LastWithIsLast(rows, layout[m].name, k);
      if rank < |Spare(rows, layout)| { SpareAt(rows, layout, rank); }
      assert Targeted(layout, layout[m].name);
      assert LastWith(rows, layout[other].name) == Some(k);
      assert other == m;
    }
  }

  /** A target is on the live floor exactly when its home was not an archived row, or when
      another row stood there already: the script reuses archived rows and leaves them
      archived. */
  lemma TargetIsLiveIff(rows: seq<Row>, layout: seq<Target>, nextId: int, m: nat)
    requires DistinctTargets(layout) && m < |layout|
    ensures (exists row | row in Seed(rows, layout, nextId).rows :: Live(row, layout[m]))
            <==> || !(Home(rows, layout, m) < |rows| && rows[Home(rows, layout, m)].archived)
                 || exists row | row in rows :: Live(row, layout[m])
  {
    var after, h := Seed(rows, layout, nextId).rows, Home(rows, layout, m);
    TargetsAreFilled(rows, layout, |layout|, m, nextId);
    assert after[h] in after;
    if row :| row in after && Live(row, layout[m]) {
      var i :| 0 <= i < |after| && after[i] == row;
      var home := RowAfterSeed(rows, layout, nextId, i);
      assert home.None? ==> row in rows;
    } else if row :| row in rows && Live(row, layout[m]) {
      var k :| 0 <= k < |rows| && rows[k] == row;
      LiveBefore(rows, layout, nextId, m, k);
    }
  }

  /** One archived spare table is enough to leave the floor without a target. */
  lemma ArchivedSpareStaysHidden(row: Row, t: Target, nextId: int)
    requires row.archived && row.name != t.name
    ensures Seed([row], [t], nextId).rows == [row.(name := t.name, place := t.place)]
  {
    assert [row][..0] == [];
    assert LastWith([row], t.name).None? && !Targeted([t], row.name);
    assert Spare([row], [t]) == [0];
    assert PlaceAll([row], [t], 0, nextId) == Floor([row], [0], 0, 0, 0);
  }
}
