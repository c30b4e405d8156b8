/**
 * What the two ranging-log preparation scripts share: the shape of a log row, the
 * grouping of consecutive rows by position, the per-BSSID dictionary, the 19/rest split
 * between the one-floor and the two-floor experiment, and the tab-separated output line.
 */
module RangingRecords {
  import opened Results

  /** One line of the ranging log, stripped and split at its tab characters. */
  type Row = seq<string>

  /** The Python exception that stops a script. */
  datatype ScriptError = IndexError | ValueError | KeyError

  /** The first 19 position groups belong to the one-floor experiment, the rest to the two-floor one. */
  const OneFloorGroups: nat := 19

  function Last<T>(s: seq<T>): T
    requires s != []
  {
    s[|s| - 1]
  }

  function DropLast<T>(s: seq<T>): seq<T>
    requires s != []
  {
    s[..|s| - 1]
  }

  /** Field 2 of a row: the BSSID of the access point that was measured. */
  function Bssid(row: Row): string
    requires |row| > 2
  {
    row[2]
  }

  /** Field 3 of a row: the label of the position the measurement was taken at. */
  function Position(row: Row): string
    requires |row| > 3
  {
    row[3]
  }

  predicate AllHaveBssid(rows: seq<Row>)
  {
    forall i :: 0 <= i < |rows| ==> |rows[i]| > 2
  }

  predicate AllHavePosition(rows: seq<Row>)
  {
    forall i :: 0 <= i < |rows| ==> |rows[i]| > 3
  }

  /**
   * The values of a sequence of steps that each may raise, run in order: the error of the
   * first step that fails, as the exception that stops a script, or all the values.
   */
  function AllSucceed<T>(results: seq<Result<T, ScriptError>>): (r: Result<seq<T>, ScriptError>)
    ensures r.Success? <==> forall k :: 0 <= k < |results| ==> results[k].Success?
    ensures r.Success? ==> |r.value| == |results| && forall k :: 0 <= k < |results| ==> results[k] == Success(r.value[k])
  {
    if results == [] then Success([])
    else match AllSucceed(DropLast(results))
      case Failure(e) => Failure(e)
      case Success(values) =>
        match Last(results)
          case Failure(e) => Failure(e)
          case Success(v) => Success(values + [v])
  }

  /** Once a prefix of the steps fails, the later steps do not change the outcome. */
  lemma {:induction false} AllSucceedPrefix<T>(results: seq<Result<T, ScriptError>>, k: nat)
    requires k <= |results| && AllSucceed(results[..k]).Failure?
    ensures AllSucceed(results) == AllSucceed(results[..k])
    decreases |results|
  {
    if k < |results| {
      assert DropLast(results)[..k] == results[..k];
      AllSucceedPrefix(DropLast(results), k);
    } else {
      assert results[..k] == results;
    }
  }

  /** Running the steps up to `k`: stop at an earlier failure, else add the outcome of step `k`. */
  lemma AllSucceedStep<T>(results: seq<Result<T, ScriptError>>, k: nat)
    requires k < |results|
    ensures AllSucceed(results[..k + 1]) ==
      match AllSucceed(results[..k])
        case Failure(e) => Failure(e)
        case Success(values) =>
          match results[k]
            case Failure(e) => Failure(e)
            case Success(v) => Success(values + [v])
  {
    assert DropLast(results[..k + 1]) == results[..k];
  }

  // ---------------------------------------------------------------------------
  // Grouping by consecutive position
  // ---------------------------------------------------------------------------

  /**
   * The rows cut into runs of consecutive rows: a row opens a new group when it is the
   * first row or when its position differs from that of the row before it.
   */
  function Runs(rows: seq<Row>): (groups: seq<seq<Row>>)
    requires AllHavePosition(rows)
    ensures rows == [] <==> groups == []
    ensures rows != [] ==> Last(groups) != [] && Last(Last(groups)) == Last(rows)
  {
    if rows == [] then []
    else
      var groups := Runs(DropLast(rows));
      var row := Last(rows);
      if |rows| > 1 && Position(rows[|rows| - 2]) == Position(row) then
        DropLast(groups) + [Last(groups) + [row]]
      else
        groups + [[row]]
  }

  /**
   * The rows can be grouped without an index error: every row has a position field, and
   * the first position is not empty. The scripts compare each position with the previous
   * one, starting from the empty text, so a first row with an empty position would be
   * appended to a group that does not exist yet.
   */
  predicate CanGroup(rows: seq<Row>)
  {
    AllHavePosition(rows) && (rows != [] ==> Position(rows[0]) != "")
  }

  /** The groups put back together, in order. */
  function Flatten(groups: seq<seq<Row>>): (rows: seq<Row>)
  {
    if groups == [] then [] else Flatten(DropLast(groups)) + Last(groups)
  }

  /** A nonempty group all of whose rows carry the same position. */
  predicate SamePosition(group: seq<Row>)
  {
    && group != []
    && AllHavePosition(group)
    && forall k :: 0 <= k < |group| ==> Position(group[k]) == Position(group[0])
  }

  /**
   * `groups` cuts `rows` into maximal runs of equal position: the groups concatenate to
   * the rows, each group is nonempty with one position, and neighbouring groups differ.
   */
  predicate IsRunPartition(groups: seq<seq<Row>>, rows: seq<Row>)
  {
    && Flatten(groups) == rows
    && (forall g :: 0 <= g < |groups| ==> SamePosition(groups[g]))
    && (forall g :: 0 < g < |groups| ==> Position(groups[g - 1][0]) != Position(groups[g][0]))
  }

  /** Putting back one more group appends its rows. */
  lemma FlattenSnoc(groups: seq<seq<Row>>, group: seq<Row>)
    ensures Flatten(groups + [group]) == Flatten(groups) + group
  {
    assert DropLast(groups + [group]) == groups;
  }

  /** A row of the group's position can join the group. */
  lemma SamePositionSnoc(group: seq<Row>, row: Row)
    requires SamePosition(group) && |row| > 3 && Position(row) == Position(group[0])
    ensures SamePosition(group + [row])
  {
  }

  /** Appending a group of a new position to a partition gives a partition of the longer rows. */
  lemma PartitionSnoc(groups: seq<seq<Row>>, rows: seq<Row>, group: seq<Row>)
    requires IsRunPartition(groups, rows) && SamePosition(group)
    requires groups != [] ==> Position(Last(groups)[0]) != Position(group[0])
    ensures IsRunPartition(groups + [group], rows + group)
  {
    FlattenSnoc(groups, group);
  }

  /** The groups of a partition but the last are a partition of the rows they hold. */
  lemma PartitionDropLast(groups: seq<seq<Row>>, rows: seq<Row>)
    requires IsRunPartition(groups, rows) && groups != []
    ensures IsRunPartition(DropLast(groups), Flatten(DropLast(groups)))
    ensures rows == Flatten(DropLast(groups)) + Last(groups)
  {
  }

  /** Every row of a partition has a position field. */
  lemma {:induction false} PartitionHasPositions(groups: seq<seq<Row>>, rows: seq<Row>)
    requires IsRunPartition(groups, rows)
    ensures AllHavePosition(rows)
    decreases |groups|
  {
    if groups != [] {
      PartitionDropLast(groups, rows);
      PartitionHasPositions(DropLast(groups), Flatten(DropLast(groups)));
      assert SamePosition(Last(groups));
    }
  }

  /** The last row of a partition belongs to its last group. */
  lemma PartitionLast(groups: seq<seq<Row>>, rows: seq<Row>)
    requires IsRunPartition(groups, rows) && groups != []
    ensures rows != [] && Last(rows) == Last(Last(groups))
    ensures AllHavePosition(rows) && Position(Last(rows)) == Position(Last(groups)[0])
  {
    PartitionDropLast(groups, rows);
    PartitionHasPositions(groups, rows);
    assert SamePosition(Last(groups));
  }

  /** A row with a position field keeps every row with one. */
  lemma AllHavePositionSnoc(rows: seq<Row>)
    requires rows != [] && AllHavePosition(DropLast(rows)) && |Last(rows)| > 3
    ensures AllHavePosition(rows)
  {
    assert forall i :: 0 <= i < |rows| - 1 ==> rows[i] == DropLast(rows)[i];
  }

  /** `Runs` on one more row: the row joins the last run or opens a new one. */
  lemma RunsSnoc(prefix: seq<Row>, row: Row)
    requires AllHavePosition(prefix) && |row| > 3
    ensures AllHavePosition(prefix + [row])
    ensures Runs(prefix + [row]) ==
      if prefix != [] && Position(Last(prefix)) == Position(row) then DropLast(Runs(prefix)) + [Last(Runs(prefix)) + [row]]
      else Runs(prefix) + [[row]]
  {
    var rows := prefix + [row];
    assert DropLast(rows) == prefix && Last(rows) == row;
    if prefix != [] {
      assert rows[|rows| - 2] == Last(prefix);
    }
  }

  /** A row of the last group's position extends the last group of a partition. */
  lemma PartitionExtendLast(groups: seq<seq<Row>>, prefix: seq<Row>, row: Row)
    requires IsRunPartition(groups, prefix) && groups != [] && |row| > 3
    requires AllHavePosition(prefix) && prefix != [] && Position(Last(prefix)) == Position(row)
    ensures IsRunPartition(DropLast(groups) + [Last(groups) + [row]], prefix + [row])
  {
    PartitionDropLast(groups, prefix);
    PartitionLast(groups, prefix);
    var init, last := DropLast(groups), Last(groups);
    assert groups == init + [last];
    SamePositionSnoc(last, row);
    if init != [] {
      assert Position(groups[|groups| - 2][0]) != Position(groups[|groups| - 1][0]);
    }
    PartitionSnoc(init, Flatten(init), last + [row]);
    assert Flatten(init) + (last + [row]) == prefix + [row];
  }

  /** A row of a new position opens a new group at the end of a partition. */
  lemma PartitionNewGroup(groups: seq<seq<Row>>, prefix: seq<Row>, row: Row)
    requires IsRunPartition(groups, prefix) && |row| > 3
    requires AllHavePosition(prefix) && (prefix != [] ==> Position(Last(prefix)) != Position(row))
    ensures IsRunPartition(groups + [[row]], prefix + [row])
  {
    if groups != [] {
      PartitionLast(groups, prefix);
    }
    PartitionSnoc(groups, prefix, [row]);
  }

  /** The grouping of the scripts is the cut into maximal runs of equal position. */
  lemma {:induction false} RunsArePartition(rows: seq<Row>)
    requires AllHavePosition(rows)
    ensures IsRunPartition(Runs(rows), rows)
  {
    if rows != [] {
      var prefix, row := DropLast(rows), Last(rows);
      assert prefix + [row] == rows;
      RunsArePartition(prefix);
      RunsSnoc(prefix, row);
      if prefix != [] && Position(Last(prefix)) == Position(row) {
        PartitionExtendLast(Runs(prefix), prefix, row);
      } else {
        PartitionNewGroup(Runs(prefix), prefix, row);
      }
    }
  }

  /** A partition whose last group is a single row: the other groups partition the other rows. */
  lemma PartitionSingletonLast(groups: seq<seq<Row>>, rows: seq<Row>)
    requires IsRunPartition(groups, rows) && groups != [] && |Last(groups)| == 1
    ensures rows != [] && Last(groups) == [Last(rows)] && |Last(rows)| > 3
    ensures IsRunPartition(DropLast(groups), DropLast(rows))
    ensures AllHavePosition(DropLast(rows))
    ensures DropLast(rows) != [] ==> Position(Last(DropLast(rows))) != Position(Last(rows))
  {
    PartitionDropLast(groups, rows);
    PartitionLast(groups, rows);
    var init, last := DropLast(groups), Last(groups);
    var prefix := DropLast(rows);
    assert groups == init + [last];
    assert rows == Flatten(init) + last;
    assert prefix == Flatten(init);
    PartitionHasPositions(init, prefix);
    if init != [] {
      PartitionLast(init, prefix);
      assert Position(groups[|groups| - 2][0]) != Position(groups[|groups| - 1][0]);
    }
  }

  /** A partition whose last group has several rows: without the last row it is still one. */
  lemma PartitionLongerLast(groups: seq<seq<Row>>, rows: seq<Row>)
    requires IsRunPartition(groups, rows) && groups != [] && |Last(groups)| > 1
    ensures rows != [] && |Last(rows)| > 3 && DropLast(rows) != []
    ensures Last(groups) == DropLast(Last(groups)) + [Last(rows)]
    ensures IsRunPartition(DropLast(groups) + [DropLast(Last(groups))], DropLast(rows))
    ensures AllHavePosition(DropLast(rows)) && Position(Last(DropLast(rows))) == Position(Last(rows))
  {
    PartitionDropLast(groups, rows);
    PartitionLast(groups, rows);
    var init, last := DropLast(groups), Last(groups);
    var prefix, row := DropLast(rows), Last(rows);
    var shorter := DropLast(last);
    assert groups == init + [last];
    assert last == shorter + [row];
    assert prefix == Flatten(init) + shorter;
    assert SamePosition(last);
    assert SamePosition(shorter);
    if init != [] {
      assert Position(groups[|groups| - 2][0]) != Position(groups[|groups| - 1][0]);
    }
    PartitionSnoc(init, Flatten(init), shorter);
    PartitionLast(init + [shorter], prefix);
  }

  /** Only one cut into maximal runs exists, so the partition property pins the grouping down. */
  lemma {:induction false} RunPartitionIsUnique(groups: seq<seq<Row>>, rows: seq<Row>)
    requires IsRunPartition(groups, rows)
    ensures AllHavePosition(rows) && groups == Runs(rows)
    decreases |rows|
  {
    if groups == [] {
      assert rows == [];
    } else if |Last(groups)| == 1 {
      PartitionSingletonLast(groups, rows);
      RunPartitionIsUnique(DropLast(groups), DropLast(rows));
      UniqueWithSingletonLast(groups, rows);
    } else {
      PartitionLongerLast(groups, rows);
      RunPartitionIsUnique(DropLast(groups) + [DropLast(Last(groups))], DropLast(rows));
      UniqueWithLongerLast(groups, rows);
    }
  }

  /** The inductive step of `RunPartitionIsUnique` when the last group is one row. */
  lemma UniqueWithSingletonLast(groups: seq<seq<Row>>, rows: seq<Row>)
    requires rows != [] && groups != [] && Last(groups) == [Last(rows)] && |Last(rows)| > 3
    requires AllHavePosition(DropLast(rows)) && DropLast(groups) == Runs(DropLast(rows))
    requires DropLast(rows) != [] ==> Position(Last(DropLast(rows))) != Position(Last(rows))
    ensures AllHavePosition(rows) && groups == Runs(rows)
  {
    AllHavePositionSnoc(rows);
    if |rows| > 1 {
      assert rows[|rows| - 2] == Last(DropLast(rows));
    }
    assert groups == DropLast(groups) + [[Last(rows)]];
  }

  /** The inductive step of `RunPartitionIsUnique` when the last group has several rows. */
  lemma UniqueWithLongerLast(groups: seq<seq<Row>>, rows: seq<Row>)
    requires rows != [] && groups != [] && |Last(groups)| > 1 && |Last(rows)| > 3
    requires Last(groups) == DropLast(Last(groups)) + [Last(rows)]
    requires AllHavePosition(DropLast(rows)) && DropLast(rows) != []
    requires Position(Last(DropLast(rows))) == Position(Last(rows))
    requires DropLast(groups) + [DropLast(Last(groups))] == Runs(DropLast(rows))
    ensures AllHavePosition(rows) && groups == Runs(rows)
  {
    var init, shorter := DropLast(groups), DropLast(Last(groups));
    AllHavePositionSnoc(rows);
    assert rows[|rows| - 2] == Last(DropLast(rows));
    var before := Runs(DropLast(rows));
    assert DropLast(before) == init && Last(before) == shorter;
    assert groups == init + [shorter + [Last(rows)]];
  }

  /** The bookkeeping of the reading loop for one row: it joins the open group or opens one. */
  lemma ReadStep(kept: seq<Row>, measurements: seq<seq<Row>>, currentPosition: string, data: Row)
    requires CanGroup(kept) && measurements == Runs(kept)
    requires currentPosition == if kept == [] then "" else Position(Last(kept))
    requires |data| > 3 && (kept == [] ==> Position(data) != "")
    ensures var grown := if Position(data) != currentPosition then measurements + [[]] else measurements;
      && grown != []
      && Runs(kept + [data]) == DropLast(grown) + [Last(grown) + [data]]
      && CanGroup(kept + [data]) && Last(kept + [data]) == data
  {
    RunsSnoc(kept, data);
    assert (kept + [data])[0] == if kept == [] then data else kept[0];
    if Position(data) != currentPosition {
      var grown := measurements + [[]];
      assert DropLast(grown) == measurements && Last(grown) + [data] == [data];
    }
  }

  // ---------------------------------------------------------------------------
  // The per-BSSID dictionary of one group
  // ---------------------------------------------------------------------------

  /** The distinct BSSIDs of the rows, in the order of their first appearance. */
  function Bssids(rows: seq<Row>): (keys: seq<string>)
    requires AllHaveBssid(rows)
    ensures forall k, l :: 0 <= k < l < |keys| ==> keys[k] != keys[l]
  {
    if rows == [] then []
    else
      var keys := Bssids(DropLast(rows));
      if Bssid(Last(rows)) in keys then keys else keys + [Bssid(Last(rows))]
  }

  /** The indices of the rows measured from access point `b`, in increasing order. */
  function IndicesWith(rows: seq<Row>, b: string): (indices: seq<nat>)
    requires AllHaveBssid(rows)
    ensures forall t :: 0 <= t < |indices| ==> indices[t] < |rows| && Bssid(rows[indices[t]]) == b
    ensures forall t, u :: 0 <= t < u < |indices| ==> indices[t] < indices[u]
    ensures forall i :: 0 <= i < |rows| && Bssid(rows[i]) == b ==> i in indices
  {
    if rows == [] then []
    else
      var indices := IndicesWith(DropLast(rows), b);
      if Bssid(Last(rows)) == b then indices + [|rows| - 1] else indices
  }

  /** The list the dictionary holds under `b`: the rows from access point `b`, in order. */
  function RowsWith(rows: seq<Row>, b: string): (selected: seq<Row>)
    requires AllHaveBssid(rows)
    ensures |selected| == |IndicesWith(rows, b)|
    ensures forall t :: 0 <= t < |selected| ==> selected[t] == rows[IndicesWith(rows, b)[t]]
  {
    if rows == [] then []
    else
      var prefix := DropLast(rows);
      var selected := RowsWith(prefix, b);
      assert IndicesWith(rows, b) == IndicesWith(prefix, b) + if Bssid(Last(rows)) == b then [|rows| - 1] else [];
      assert forall i :: 0 <= i < |prefix| ==> rows[i] == prefix[i];
      if Bssid(Last(rows)) == b then selected + [Last(rows)] else selected
  }

  /** The indices under `b` after one more row: its index is appended when it comes from `b`. */
  lemma IndicesWithSnoc(rows: seq<Row>, b: string)
    requires AllHaveBssid(rows) && rows != []
    ensures AllHaveBssid(DropLast(rows))
    ensures IndicesWith(rows, b) == IndicesWith(DropLast(rows), b) + if Bssid(Last(rows)) == b then [|rows| - 1] else []
  {
  }

  /** Every row's BSSID is a key, and the keys are the BSSIDs with at least one row. */
  lemma {:induction false} BssidsArePresent(rows: seq<Row>)
    requires AllHaveBssid(rows)
    ensures forall i :: 0 <= i < |rows| ==> Bssid(rows[i]) in Bssids(rows)
    ensures forall b :: b in Bssids(rows) <==> IndicesWith(rows, b) != []
  {
    if rows != [] {
      var prefix := DropLast(rows);
      BssidsArePresent(prefix);
      assert forall i :: 0 <= i < |prefix| ==> rows[i] == prefix[i];
      forall b
        ensures b in Bssids(rows) <==> IndicesWith(rows, b) != []
      {
        IndicesWithSnoc(rows, b);
      }
    }
  }

  /** The first row from access point `a` comes before the first row from `b`. */
  predicate FirstRowBefore(rows: seq<Row>, a: string, b: string)
    requires AllHaveBssid(rows)
  {
    IndicesWith(rows, a) != [] && IndicesWith(rows, b) != [] && IndicesWith(rows, a)[0] < IndicesWith(rows, b)[0]
  }

  /** The dictionary keys are ordered by the index of their first row. */
  lemma BssidsInFirstOrder(rows: seq<Row>)
    requires AllHaveBssid(rows)
    ensures forall k, l :: 0 <= k < l < |Bssids(rows)| ==> FirstRowBefore(rows, Bssids(rows)[k], Bssids(rows)[l])
  {
    forall k, l | 0 <= k < l < |Bssids(rows)|
      ensures FirstRowBefore(rows, Bssids(rows)[k], Bssids(rows)[l])
    {
      PairInFirstOrder(rows, k, l);
    }
  }

  /** Key `k` of the dictionary has its first row before that of a later key `l`. */
  lemma {:induction false} PairInFirstOrder(rows: seq<Row>, k: nat, l: nat)
    requires AllHaveBssid(rows) && k < l < |Bssids(rows)|
    ensures FirstRowBefore(rows, Bssids(rows)[k], Bssids(rows)[l])
  {
    assert rows != [];
    var prefix := DropLast(rows);
    var keys, grown := Bssids(prefix), Bssids(rows);
    assert k < |keys| && grown[k] == keys[k];
    if l < |keys| {
      assert grown[l] == keys[l];
      PairInFirstOrder(prefix, k, l);
      FirstIndexKept(rows, keys[k]);
      FirstIndexKept(rows, keys[l]);
    } else {
      NewBssidFirstIndex(rows);
      BssidsArePresent(prefix);
      FirstIndexKept(rows, keys[k]);
    }
  }

  /** A row does not move the first index of a BSSID seen before it. */
  lemma FirstIndexKept(rows: seq<Row>, b: string)
    requires AllHaveBssid(rows) && rows != [] && IndicesWith(DropLast(rows), b) != []
    ensures IndicesWith(rows, b) != [] && IndicesWith(rows, b)[0] == IndicesWith(DropLast(rows), b)[0] < |rows| - 1
  {
    IndicesWithSnoc(rows, b);
  }

  /** A row whose BSSID is new is the first row of that BSSID, and its key is the last. */
  lemma NewBssidFirstIndex(rows: seq<Row>)
    requires AllHaveBssid(rows) && rows != [] && |Bssids(rows)| > |Bssids(DropLast(rows))|
    ensures Bssids(rows) == Bssids(DropLast(rows)) + [Bssid(Last(rows))]
    ensures IndicesWith(rows, Bssid(Last(rows))) == [|rows| - 1]
  {
    var prefix := DropLast(rows);
    BssidsArePresent(prefix);
    IndicesWithSnoc(rows, Bssid(Last(rows)));
  }

  /**
   * The keys of the dictionary are exactly the BSSIDs of the rows, each once, ordered
   * by the index of the first row that carries them.
   */
  lemma BssidsFirstAppearance(rows: seq<Row>)
    requires AllHaveBssid(rows)
    ensures forall i :: 0 <= i < |rows| ==> Bssid(rows[i]) in Bssids(rows)
    ensures forall b :: b in Bssids(rows) <==> IndicesWith(rows, b) != []
    ensures forall k, l :: 0 <= k < l < |Bssids(rows)| ==> FirstRowBefore(rows, Bssids(rows)[k], Bssids(rows)[l])
  {
    BssidsArePresent(rows);
    BssidsInFirstOrder(rows);
  }

  /** `d.values()`: the lists of the dictionary, in the order of their keys, none of them empty. */
  function DictValues(group: seq<Row>): (lists: seq<seq<Row>>)
    requires AllHaveBssid(group)
    ensures |lists| == |Bssids(group)|
    ensures forall k :: 0 <= k < |lists| ==> lists[k] == RowsWith(group, Bssids(group)[k]) && lists[k] != []
  {
    BssidsFirstAppearance(group);
    seq(|Bssids(group)|, k requires 0 <= k < |Bssids(group)| => RowsWith(group, Bssids(group)[k]))
  }

  /** The list under `b` after one more row: the row is appended when it comes from `b`. */
  lemma RowsWithSnoc(rows: seq<Row>, b: string)
    requires AllHaveBssid(rows) && rows != []
    ensures AllHaveBssid(DropLast(rows))
    ensures RowsWith(rows, b) == RowsWith(DropLast(rows), b) + if Bssid(Last(rows)) == b then [Last(rows)] else []
  {
  }

  /**
   * Builds the dictionary of the scripts: for every row of the group, in order, the row
   * is appended to the list under its BSSID, opening that list when the BSSID is new.
   * `keys` is the insertion order of the dictionary, which its iteration follows.
   */
  method GroupByBssid(group: seq<Row>) returns (keys: seq<string>, rowsOf: map<string, seq<Row>>)
    requires AllHaveBssid(group)
    ensures keys == Bssids(group)
    ensures forall b :: b in rowsOf <==> b in keys
    ensures forall b :: b in rowsOf ==> rowsOf[b] == RowsWith(group, b)
  {
    keys, rowsOf := [], map[];
    for i := 0 to |group|
      invariant keys == Bssids(group[..i])
      invariant forall b :: b in rowsOf <==> b in keys
      invariant forall b :: b in rowsOf ==> rowsOf[b] == RowsWith(group[..i], b)
    {
      var m := group[i];
      ghost var prefix, grown := group[..i], group[..i + 1];
      assert DropLast(grown) == prefix && Last(grown) == m;
      if Bssid(m) !in rowsOf {
        BssidsArePresent(prefix);
        assert RowsWith(prefix, Bssid(m)) == [];
        keys := keys + [Bssid(m)];
        rowsOf := rowsOf[Bssid(m) := []];
      }
      rowsOf := rowsOf[Bssid(m) := rowsOf[Bssid(m)] + [m]];
      forall b | b in rowsOf
        ensures rowsOf[b] == RowsWith(grown, b)
      {
        RowsWithSnoc(grown, b);
      }
    }
    assert group[..|group|] == group;
  }

  // ---------------------------------------------------------------------------
  // The one-floor / two-floor split
  // ---------------------------------------------------------------------------

  /** `best[:19]` and `best[19:]`: the groups of the one-floor and of the two-floor experiment. */
  function SplitFloors<T>(best: seq<T>): (split: (seq<T>, seq<T>))
    ensures split.0 + split.1 == best
    ensures |split.0| == if |best| < OneFloorGroups then |best| else OneFloorGroups
  {
    var cut := if |best| < OneFloorGroups then |best| else OneFloorGroups;
    (best[..cut], best[cut..])
  }

  // ---------------------------------------------------------------------------
  // Output lines
  // ---------------------------------------------------------------------------

  /** `sep.join(parts)`. */
  function Join(parts: seq<string>, sep: char): string
  {
    if |parts| == 0 then ""
    else if |parts| == 1 then parts[0]
    else Join(DropLast(parts), sep) + [sep] + Last(parts)
  }

  /** `s.split(sep)`: the pieces between the separators, always at least one. */
  function Split(s: string, sep: char): (parts: seq<string>)
    ensures parts != []
  {
    if s == [] then [""]
    else
      var parts := Split(DropLast(s), sep);
      if Last(s) == sep then parts + [""] else DropLast(parts) + [Last(parts) + [Last(s)]]
  }

  predicate Excludes(s: string, c: char)
  {
    forall i :: 0 <= i < |s| ==> s[i] != c
  }

  /** The pieces of `a + b`, given the pieces `pa` of `a` and `pb` of `b`. */
  function JoinPieces(pa: seq<string>, pb: seq<string>): seq<string>
    requires pa != [] && pb != []
  {
    DropLast(pa) + [Last(pa) + pb[0]] + pb[1..]
  }

  lemma JoinPiecesSeparator(pa: seq<string>, pf: seq<string>)
    requires pa != [] && pf != []
    ensures JoinPieces(pa, pf) + [""] == JoinPieces(pa, pf + [""])
  {
    assert (pf + [""])[1..] == pf[1..] + [""];
  }

  lemma JoinPiecesChar(pa: seq<string>, pf: seq<string>, c: char)
    requires pa != [] && pf != []
    ensures var x := JoinPieces(pa, pf);
      DropLast(x) + [Last(x) + [c]] == JoinPieces(pa, DropLast(pf) + [Last(pf) + [c]])
  {
    var x := JoinPieces(pa, pf);
    var pb := DropLast(pf) + [Last(pf) + [c]];
    if |pf| == 1 {
      assert DropLast(x) == DropLast(pa) && Last(x) == Last(pa) + pf[0];
      assert pb == [pf[0] + [c]];
      assert Last(pa) + pf[0] + [c] == Last(pa) + pb[0];
    } else {
      assert DropLast(x) == DropLast(pa) + [Last(pa) + pf[0]] + pf[1..|pf| - 1];
      assert Last(x) == Last(pf);
      assert pb[0] == pf[0] && pb[1..] == pf[1..|pf| - 1] + [Last(pf) + [c]];
    }
  }

  /**
   * Splitting a concatenation: the last piece of the front and the first piece of the
   * back meet in one piece, all other pieces stay as they are.
   */
  lemma {:induction false} SplitAppend(a: string, b: string, sep: char)
    ensures Split(a + b, sep) == JoinPieces(Split(a, sep), Split(b, sep))
    decreases |b|
  {
    var pa := Split(a, sep);
    if b == [] {
      assert a + b == a && Split(b, sep) == [""];
      assert Last(pa) + "" == Last(pa) && [""][1..] == [];
      assert DropLast(pa) + [Last(pa)] == pa;
    } else {
      var front, c := DropLast(b), Last(b);
      SplitAppend(a, front, sep);
      assert DropLast(a + b) == a + front && Last(a + b) == c;
      if c == sep {
        JoinPiecesSeparator(pa, Split(front, sep));
      } else {
        JoinPiecesChar(pa, Split(front, sep), c);
      }
    }
  }

  /** A text without the separator is a single piece. */
  lemma {:induction false} SplitWithout(s: string, sep: char)
    requires Excludes(s, sep)
    ensures Split(s, sep) == [s]
  {
    if s != [] {
      SplitWithout(DropLast(s), sep);
      assert DropLast(s) + [Last(s)] == s;
    }
  }

  lemma SplitAfterSeparator(s: string, sep: char)
    ensures Split(s + [sep], sep) == Split(s, sep) + [""]
  {
    assert DropLast(s + [sep]) == s;
  }

  /** Splitting a joined text at the separator gives the parts back when no part holds it. */
  lemma {:induction false} SplitJoin(parts: seq<string>, sep: char)
    requires parts != []
    requires forall k :: 0 <= k < |parts| ==> Excludes(parts[k], sep)
    ensures Split(Join(parts, sep), sep) == parts
  {
    if |parts| == 1 {
      SplitWithout(parts[0], sep);
    } else {
      var init, part := DropLast(parts), Last(parts);
      assert Excludes(part, sep);
      SplitJoin(init, sep);
      SplitAfterSeparator(Join(init, sep), sep);
      SplitWithout(part, sep);
      SplitAppend(Join(init, sep) + [sep], part, sep);
      assert DropLast(init + [""]) == init && "" + part == part;
      assert init + [part] == parts;
    }
  }

  /** Joining texts that lack a character other than the separator gives a text that lacks it too. */
  lemma {:induction false} ExcludesJoin(parts: seq<string>, sep: char, c: char)
    requires sep != c
    requires forall k :: 0 <= k < |parts| ==> Excludes(parts[k], c)
    ensures Excludes(Join(parts, sep), c)
  {
    if |parts| > 1 {
      ExcludesJoin(DropLast(parts), sep, c);
      assert Excludes(Last(parts), c);
    }
  }

  /** No field of the row holds a tab or a line break. */
  predicate CleanRow(row: Row)
  {
    forall f :: 0 <= f < |row| ==> Excludes(row[f], '\t') && Excludes(row[f], '\n')
  }

  /** No field of the chosen rows holds a tab or a line break. */
  predicate NoSeparators(best: seq<seq<Row>>)
  {
    forall g, k :: 0 <= g < |best| && 0 <= k < |best[g]| ==> CleanRow(best[g][k])
  }

  /** Fields 3 to 8 of a row, `m[3:9]`, cut short when the row is shorter. */
  function PositionFields(row: Row): (fields: seq<string>)
    requires |row| > 3
    ensures |fields| == (if |row| < 9 then |row| else 9) - 3 && fields[0] == Position(row)
    ensures forall k :: 0 <= k < |fields| ==> fields[k] == row[3 + k]
  {
    row[3..if |row| < 9 then |row| else 9]
  }

  /** An output line before its line break: fields 3 to 8 and then `last`, separated by tabs. */
  function OutputLine(row: Row, last: string): string
    requires |row| > 3
  {
    Join(PositionFields(row), '\t') + "\t" + last
  }

  /**
   * A reader that splits an output line at its tabs gets fields 3 to 8 and then the last
   * value, as long as the log fields and the value hold no tab.
   */
  lemma OutputLineFields(row: Row, last: string)
    requires |row| > 3 && CleanRow(row)
    requires Excludes(last, '\t') && Excludes(last, '\n')
    ensures Excludes(OutputLine(row, last), '\n')
    ensures Split(OutputLine(row, last), '\t') == PositionFields(row) + [last]
  {
    var fields := PositionFields(row) + [last];
    assert DropLast(fields) == PositionFields(row) && Last(fields) == last;
    SplitJoin(fields, '\t');
    ExcludesJoin(fields, '\t', '\n');
  }

  // ---------------------------------------------------------------------------
  // Output files
  // ---------------------------------------------------------------------------

  /** The lines one after the other, each ended by a line break. */
  function LinesText(lines: seq<string>): string
  {
    if lines == [] then "" else LinesText(DropLast(lines)) + Last(lines) + "\n"
  }

  /** The lines of each group, each group closed by an empty line. */
  function BlocksText(blocks: seq<seq<string>>): string
  {
    if blocks == [] then "" else BlocksText(DropLast(blocks)) + LinesText(Last(blocks)) + "\n"
  }

  /** The text of an output file: the groups, and one more empty line at the end. */
  function FileLayout(blocks: seq<seq<string>>): string
  {
    BlocksText(blocks) + "\n"
  }

  /** Writing one more line appends it and its newline. */
  lemma LinesTextSnoc(lines: seq<string>, line: string)
    ensures LinesText(lines + [line]) == LinesText(lines) + line + "\n"
  {
    assert DropLast(lines + [line]) == lines;
  }

  /** `LinesTextSnoc` on the prefixes of a list of lines. */
  lemma LinesTextStep(lines: seq<string>, k: nat)
    requires k < |lines|
    ensures LinesText(lines[..k + 1]) == LinesText(lines[..k]) + lines[k] + "\n"
  {
    assert DropLast(lines[..k + 1]) == lines[..k];
  }

  /** Writing one more group appends its lines and the empty line that closes it. */
  lemma BlocksTextStep(blocks: seq<seq<string>>, g: nat)
    requires g < |blocks|
    ensures BlocksText(blocks[..g + 1]) == BlocksText(blocks[..g]) + LinesText(blocks[g]) + "\n"
  {
    assert DropLast(blocks[..g + 1]) == blocks[..g];
  }

  /** What a line-by-line reader sees: the lines of each group, then an empty line. */
  function ReadView(blocks: seq<seq<string>>): seq<string>
  {
    if blocks == [] then [] else ReadView(DropLast(blocks)) + Last(blocks) + [""]
  }

  predicate SingleLines(blocks: seq<seq<string>>)
  {
    forall g, k :: 0 <= g < |blocks| && 0 <= k < |blocks[g]| ==> Excludes(blocks[g][k], '\n')
  }

  lemma JoinLinePieces(init: seq<string>, line: string)
    ensures JoinPieces(init + [""], [line]) == init + [line]
  {
    assert DropLast(init + [""]) == init && "" + line == line;
  }

  /** A text whose last piece is empty, followed by one more line and its line break. */
  lemma SplitAfterLine(front: string, line: string, init: seq<string>)
    requires Split(front, '\n') == init + [""]
    requires Excludes(line, '\n')
    ensures Split(front + line + "\n", '\n') == init + [line] + [""]
  {
    SplitWithout(line, '\n');
    SplitAppend(front, line, '\n');
    JoinLinePieces(init, line);
    SplitAfterSeparator(front + line, '\n');
  }

  /** Text that is empty or ends with a line break splits into its lines and an empty rest. */
  lemma {:induction false} SplitLinesText(lines: seq<string>)
    requires forall k :: 0 <= k < |lines| ==> Excludes(lines[k], '\n')
    ensures Split(LinesText(lines), '\n') == lines + [""]
  {
    if lines != [] {
      var init, line := DropLast(lines), Last(lines);
      assert Excludes(line, '\n');
      SplitLinesText(init);
      SplitAfterLine(LinesText(init), line, init);
      assert init + [line] == lines;
    }
  }

  /** Pieces that follow an empty last piece are simply appended. */
  lemma JoinPiecesAfterEmpty(pa: seq<string>, pb: seq<string>)
    requires pb != []
    ensures JoinPieces(pa + [""], pb) == pa + pb
  {
    assert DropLast(pa + [""]) == pa && Last(pa + [""]) + pb[0] == pb[0];
    assert [pb[0]] + pb[1..] == pb;
  }

  lemma SplitBlock(block: seq<string>)
    requires forall k :: 0 <= k < |block| ==> Excludes(block[k], '\n')
    ensures Split(LinesText(block) + "\n", '\n') == block + ["", ""]
  {
    SplitLinesText(block);
    SplitAfterSeparator(LinesText(block), '\n');
  }

  lemma JoinBlockPieces(view: seq<string>, block: seq<string>)
    ensures JoinPieces(view + [""], block + ["", ""]) == view + block + [""] + [""]
  {
    JoinPiecesAfterEmpty(view, block + ["", ""]);
    assert view + (block + ["", ""]) == view + block + [""] + [""];
  }

  /** A text whose last piece is empty, followed by one more block of lines. */
  lemma SplitAfterBlocks(front: string, back: string, view: seq<string>, block: seq<string>)
    requires Split(front, '\n') == view + [""]
    requires Split(back, '\n') == block + ["", ""]
    ensures Split(front + back, '\n') == view + block + [""] + [""]
  {
    SplitAppend(front, back, '\n');
    JoinBlockPieces(view, block);
  }

  lemma {:induction false} SplitBlocksText(blocks: seq<seq<string>>)
    requires SingleLines(blocks)
    ensures Split(BlocksText(blocks), '\n') == ReadView(blocks) + [""]
  {
    if blocks != [] {
      var init, block := DropLast(blocks), Last(blocks);
      assert SingleLines(init);
      SplitBlocksText(init);
      SplitBlock(block);
      SplitAfterBlocks(BlocksText(init), LinesText(block) + "\n", ReadView(init), block);
      assert BlocksText(blocks) == BlocksText(init) + (LinesText(block) + "\n");
      assert ReadView(blocks) == ReadView(init) + block + [""];
    }
  }

  /**
   * Reading an output file back line by line gives, for each group, its lines and then
   * an empty line, followed by the extra empty line and the empty rest after the last
   * line break.
   */
  lemma ReadFileLayout(blocks: seq<seq<string>>)
    requires SingleLines(blocks)
    ensures Split(FileLayout(blocks), '\n') == ReadView(blocks) + ["", ""]
  {
    SplitBlocksText(blocks);
    SplitAfterSeparator(BlocksText(blocks), '\n');
  }

  // ---------------------------------------------------------------------------
  // int() on a field
  // ---------------------------------------------------------------------------

  predicate IsDigit(c: char)
  {
    '0' <= c <= '9'
  }

  predicate AllDigits(s: string)
  {
    forall i :: 0 <= i < |s| ==> IsDigit(s[i])
  }

  /** The value of a run of decimal digits. */
  function DigitsValue(s: string): nat
    requires AllDigits(s)
  {
    if s == [] then 0 else 10 * DigitsValue(DropLast(s)) + (Last(s) - '0') as nat
  }

  /** `int(s)` on a field: an optional sign followed by at least one decimal digit. */
  function ParseInt(s: string): Option<int>
  {
    if |s| > 1 && (s[0] == '-' || s[0] == '+') && AllDigits(s[1..]) then
      var magnitude: int := DigitsValue(s[1..]);
      Some(if s[0] == '-' then -magnitude else magnitude)
    else if |s| > 0 && AllDigits(s) then Some(DigitsValue(s))
    else None
  }

  /** The decimal digits of `n`, as `str` writes a natural number. */
  function NatText(n: nat): (s: string)
    ensures s != [] && AllDigits(s)
  {
    var digit := ['0' + (n % 10) as char];
    if n < 10 then digit else NatText(n / 10) + digit
  }

  /** `str(n)` for an integer. */
  function IntText(n: int): string
  {
    if n < 0 then "-" + NatText(-n) else NatText(n)
  }

  /** The digits `NatText` writes have the value they were written from. */
  lemma {:induction false} DigitsValueOfNatText(n: nat)
    ensures DigitsValue(NatText(n)) == n
  {
    if n >= 10 {
      DigitsValueOfNatText(n / 10);
      var s := NatText(n);
      assert DropLast(s) == NatText(n / 10);
    }
  }

  /** `int` reads back every integer that `str` writes. */
  lemma ParseIntText(n: int)
    ensures ParseInt(IntText(n)) == Some(n)
  {
    if n < 0 {
      DigitsValueOfNatText(-n);
      assert IntText(n)[1..] == NatText(-n);
    } else {
      DigitsValueOfNatText(n);
    }
  }
}
