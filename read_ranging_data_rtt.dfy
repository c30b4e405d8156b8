/**
 * ReadRangingDataRTT.py: keeps the rows of the ranging log whose success flag reads TRUE,
 * groups them by consecutive position, keeps for each access point of a group the row
 * with the smallest integer in field 12, and writes the groups of the
 * one-floor and of the two-floor experiment as two tab-separated texts.
 */
module ReadRangingDataRtt {
  import opened Results
  import opened RangingRecords

  // ---------------------------------------------------------------------------
  // Filtering and grouping
  // ---------------------------------------------------------------------------

  /** Every row has the three fields the `data[-3]` lookup needs. */
  predicate AllHaveFlag(rows: seq<Row>)
  {
    forall i :: 0 <= i < |rows| ==> |rows[i]| >= 3
  }

  /** The field three from the end, the ranging success flag, reads exactly TRUE. */
  predicate Succeeded(row: Row)
    requires |row| >= 3
  {
    row[|row| - 3] == "TRUE"
  }

  /** The rows the script keeps: those whose flag reads TRUE, in their order. */
  function KeptRows(rows: seq<Row>): (kept: seq<Row>)
    requires AllHaveFlag(rows)
    ensures |kept| <= |rows|
  {
    if rows == [] then []
    else
      var kept := KeptRows(DropLast(rows));
      if Succeeded(Last(rows)) then kept + [Last(rows)] else kept
  }

  /** The kept rows are exactly the rows flagged TRUE. */
  lemma {:induction false} KeptRowsAreSucceeded(rows: seq<Row>)
    requires AllHaveFlag(rows)
    ensures forall row :: row in KeptRows(rows) <==> row in rows && Succeeded(row)
  {
    if rows != [] {
      KeptRowsAreSucceeded(DropLast(rows));
      assert rows == DropLast(rows) + [Last(rows)];
    }
  }

  /** Filtering two stretches of the log one after the other is filtering the whole. */
  lemma {:induction false} KeptRowsAppend(front: seq<Row>, back: seq<Row>)
    requires AllHaveFlag(front) && AllHaveFlag(back)
    ensures AllHaveFlag(front + back)
    ensures KeptRows(front + back) == KeptRows(front) + KeptRows(back)
    decreases |back|
  {
    if back != [] {
      KeptRowsAppend(front, DropLast(back));
      assert DropLast(front + back) == front + DropLast(back);
      assert Last(front + back) == Last(back);
    } else {
      assert front + back == front;
    }
  }

  /**
   * What the reading loop produces: an index error when a row has fewer than three fields,
   * when a kept row has no position, or when the first kept row has an empty position;
   * otherwise the kept rows cut into runs of equal position.
   */
  function Grouping(rows: seq<Row>): Result<seq<seq<Row>>, ScriptError>
  {
    if AllHaveFlag(rows) && CanGroup(KeptRows(rows)) then Success(Runs(KeptRows(rows)))
    else Failure(IndexError)
  }

  /** The groups of a successful read are the maximal runs of equal position of the kept rows. */
  lemma GroupingIsRunPartition(rows: seq<Row>, groups: seq<seq<Row>>)
    requires Grouping(rows) == Success(groups)
    ensures AllHaveFlag(rows) && IsRunPartition(groups, KeptRows(rows))
  {
    RunsArePartition(KeptRows(rows));
  }

  /** Reading row `i`: it is kept exactly when its flag reads TRUE. */
  lemma KeptRowsStep(rows: seq<Row>, i: nat)
    requires i < |rows| && AllHaveFlag(rows[..i]) && |rows[i]| >= 3
    ensures AllHaveFlag(rows[..i + 1])
    ensures KeptRows(rows[..i + 1]) == KeptRows(rows[..i]) + if Succeeded(rows[i]) then [rows[i]] else []
  {
    assert DropLast(rows[..i + 1]) == rows[..i];
  }

  /** A kept row that cannot be grouped at index `i` makes the whole read fail. */
  lemma KeptRowFails(rows: seq<Row>, i: nat)
    requires i < |rows| && AllHaveFlag(rows[..i + 1])
    requires !CanGroup(KeptRows(rows[..i + 1]))
    ensures Grouping(rows) == Failure(IndexError)
  {
    if AllHaveFlag(rows) {
      KeptRowsAppend(rows[..i + 1], rows[i + 1..]);
      assert rows[..i + 1] + rows[i + 1..] == rows;
      var front := KeptRows(rows[..i + 1]);
      assert KeptRows(rows)[..|front|] == front;
    }
  }

  /** A kept row without a position field at index `i` makes the whole read fail. */
  lemma MissingPositionFails(rows: seq<Row>, i: nat)
    requires i < |rows| && AllHaveFlag(rows[..i]) && |rows[i]| == 3 && Succeeded(rows[i])
    ensures Grouping(rows) == Failure(IndexError)
  {
    KeptRowsStep(rows, i);
    assert KeptRows(rows[..i + 1])[|KeptRows(rows[..i])|] == rows[i];
    KeptRowFails(rows, i);
  }

  /** A first kept row at index `i` with an empty position makes the whole read fail. */
  lemma EmptyFirstPositionFails(rows: seq<Row>, i: nat)
    requires i < |rows| && AllHaveFlag(rows[..i]) && KeptRows(rows[..i]) == []
    requires |rows[i]| > 3 && Succeeded(rows[i]) && Position(rows[i]) == ""
    ensures Grouping(rows) == Failure(IndexError)
  {
    KeptRowsStep(rows, i);
    assert KeptRows(rows[..i + 1]) == [rows[i]];
    KeptRowFails(rows, i);
  }

  /** The reading loop: skips rows not flagged TRUE and opens a group whenever the position changes. */
  method ReadMeasurements(rows: seq<Row>) returns (r: Result<seq<seq<Row>>, ScriptError>)
    ensures r == Grouping(rows)
  {
    var measurements: seq<seq<Row>> := [];
    var currentPosition := "";
    ghost var kept: seq<Row> := [];
    for i := 0 to |rows|
      invariant AllHaveFlag(rows[..i]) && kept == KeptRows(rows[..i]) && CanGroup(kept)
      invariant measurements == Runs(kept)
      invariant currentPosition == if kept == [] then "" else Position(Last(kept))
    {
      var data := rows[i];
      if |data| < 3 {
        assert !AllHaveFlag(rows);
        return Failure(IndexError);
      }
      if !Succeeded(data) {
        KeptRowsStep(rows, i);
        continue;
      }
      if |data| < 4 {
        MissingPositionFails(rows, i);
        return Failure(IndexError);
      }
      KeptRowsStep(rows, i);
      ghost var before, previousPosition := measurements, currentPosition;
      if data[3] != currentPosition {
        currentPosition := data[3];
        measurements := measurements + [[]];
      }
      if measurements == [] {
        EmptyFirstPositionFails(rows, i);
        return Failure(IndexError);
      }
      ReadStep(kept, before, previousPosition, data);
      measurements := DropLast(measurements) + [Last(measurements) + [data]];
      kept := kept + [data];
    }
    assert rows[..|rows|] == rows;
    return Success(measurements);
  }

  // ---------------------------------------------------------------------------
  // Choosing one row per access point
  // ---------------------------------------------------------------------------

  /** `int(s[12])`: the integer in field 12 of a row, the key the script minimises. */
  function RangeKey(row: Row): Result<int, ScriptError>
  {
    if |row| <= 12 then Failure(IndexError)
    else match ParseInt(row[12])
      case None => Failure(ValueError)
      case Some(n) => Success(n)
  }

  /** The keys of the rows in order, or the error of the first row whose key cannot be read. */
  function RangeKeys(rows: seq<Row>): Result<seq<int>, ScriptError>
  {
    AllSucceed(seq(|rows|, t requires 0 <= t < |rows| => RangeKey(rows[t])))
  }

  /** The key of each row is in the keys of the rows. */
  lemma RangeKeysAt(rows: seq<Row>, keys: seq<int>, u: nat)
    requires RangeKeys(rows) == Success(keys) && u < |rows|
    ensures u < |keys| && RangeKey(rows[u]) == Success(keys[u])
  {
    var steps := seq(|rows|, t requires 0 <= t < |rows| => RangeKey(rows[t]));
    assert steps[u] == RangeKey(rows[u]);
  }

  /** The index of the first smallest key. */
  function FirstMinimum(keys: seq<int>): (k: nat)
    requires keys != []
    ensures k < |keys|
    ensures forall t :: 0 <= t < |keys| ==> keys[k] <= keys[t]
    ensures forall t :: 0 <= t < k ==> keys[k] < keys[t]
  {
    if |keys| == 1 then 0
    else
      var k := FirstMinimum(DropLast(keys));
      if Last(keys) < keys[k] then |keys| - 1 else k
  }

  /** `min(rows, key = lambda s: int(s[12]))`: the first row of smallest key. */
  function MinByRange(rows: seq<Row>): Result<Row, ScriptError>
    requires rows != []
  {
    match RangeKeys(rows)
      case Failure(e) => Failure(e)
      case Success(keys) => Success(rows[FirstMinimum(keys)])
  }

  /** The steps of one group: the minimum of each dictionary list, in the order of the keys. */
  function MinimumSteps(group: seq<Row>): (steps: seq<Result<Row, ScriptError>>)
    requires AllHaveBssid(group)
    ensures |steps| == |DictValues(group)|
    ensures forall k :: 0 <= k < |steps| ==> steps[k] == MinByRange(DictValues(group)[k])
  {
    var lists := DictValues(group);
    seq(|lists|, k requires 0 <= k < |lists| => MinByRange(lists[k]))
  }

  /** The rows chosen for a group, one per access point, or the first error. */
  function Choose(group: seq<Row>): Result<seq<Row>, ScriptError>
    requires AllHaveBssid(group)
  {
    AllSucceed(MinimumSteps(group))
  }

  /** The steps of the selection: the choice of each group in turn. */
  function ChoiceSteps(groups: seq<seq<Row>>): (steps: seq<Result<seq<Row>, ScriptError>>)
    requires forall g :: 0 <= g < |groups| ==> AllHaveBssid(groups[g])
    ensures |steps| == |groups|
  {
    seq(|groups|, g requires 0 <= g < |groups| => Choose(groups[g]))
  }

  /** The rows chosen for every group, or the first error. */
  function ChooseAll(groups: seq<seq<Row>>): Result<seq<seq<Row>>, ScriptError>
    requires forall g :: 0 <= g < |groups| ==> AllHaveBssid(groups[g])
  {
    AllSucceed(ChoiceSteps(groups))
  }

  /** The selection of one group: build the dictionary, then keep the minimum of each list. */
  method ChooseInGroup(group: seq<Row>) returns (r: Result<seq<Row>, ScriptError>)
    requires AllHaveBssid(group)
    ensures r == Choose(group)
  {
    var bssids, rowsOf := GroupByBssid(group);
    ghost var lists, minima := DictValues(group), MinimumSteps(group);
    var chosen: seq<Row> := [];
    for k := 0 to |bssids|
      invariant AllSucceed(minima[..k]) == Success(chosen)
    {
      var list := rowsOf[bssids[k]];
      assert list == lists[k];
      var m := MinByRange(list);
      assert m == minima[k];
      AllSucceedStep(minima, k);
      if m.Failure? {
        AllSucceedPrefix(minima, k + 1);
        return Failure(m.error);
      }
      chosen := chosen + [m.value];
    }
    assert minima[..|minima|] == minima;
    return Success(chosen);
  }

  /** The selection loop over all groups. */
  method ChooseBest(measurements: seq<seq<Row>>) returns (r: Result<seq<seq<Row>>, ScriptError>)
    requires forall g :: 0 <= g < |measurements| ==> AllHaveBssid(measurements[g])
    ensures r == ChooseAll(measurements)
  {
    var best: seq<seq<Row>> := [];
    ghost var choices := ChoiceSteps(measurements);
    for g := 0 to |measurements|
      invariant AllSucceed(choices[..g]) == Success(best)
    {
      var chosen := ChooseInGroup(measurements[g]);
      assert chosen == choices[g];
      AllSucceedStep(choices, g);
      if chosen.Failure? {
        AllSucceedPrefix(choices, g + 1);
        return Failure(chosen.error);
      }
      best := best + [chosen.value];
    }
    assert choices[..|choices|] == choices;
    return Success(best);
  }

  /**
   * Row `p` of the group has the smallest readable key among the rows from the same access
   * point, and every earlier row from that access point has a strictly larger key.
   */
  ghost predicate EarliestMinimum(group: seq<Row>, p: nat)
    requires AllHaveBssid(group) && p < |group|
  {
    && RangeKey(group[p]).Success?
    && forall i :: 0 <= i < |group| && Bssid(group[i]) == Bssid(group[p]) ==>
         && RangeKey(group[i]).Success?
         && RangeKey(group[p]).value <= RangeKey(group[i]).value
         && (i < p ==> RangeKey(group[p]).value < RangeKey(group[i]).value)
  }

  /** `row` is row `p` of the group for some `p` that comes from `b` and is an earliest minimum. */
  ghost predicate IsEarliestMinimumOf(group: seq<Row>, b: string, row: Row)
    requires AllHaveBssid(group)
  {
    exists p :: 0 <= p < |group| && row == group[p] && Bssid(group[p]) == b && EarliestMinimum(group, p)
  }

  /** The row `min` picks from the list under `b` is an earliest minimum of the rows from `b`. */
  lemma MinByRangeIsEarliestMinimum(group: seq<Row>, b: string)
    requires AllHaveBssid(group) && RowsWith(group, b) != []
    requires MinByRange(RowsWith(group, b)).Success?
    ensures IsEarliestMinimumOf(group, b, MinByRange(RowsWith(group, b)).value)
  {
    var rows, indices := RowsWith(group, b), IndicesWith(group, b);
    var keys := RangeKeys(rows).value;
    var t := FirstMinimum(keys);
    var p := indices[t];
    forall i | 0 <= i < |group| && Bssid(group[i]) == b
      ensures RangeKey(group[i]).Success? && keys[t] <= RangeKey(group[i]).value
      ensures i < p ==> keys[t] < RangeKey(group[i]).value
    {
      MinimumBoundsRow(group, b, keys, i);
    }
    assert EarliestMinimum(group, p);
  }

  /** The first smallest key of the list under `b` bounds the key of each row from `b`. */
  lemma MinimumBoundsRow(group: seq<Row>, b: string, keys: seq<int>, i: nat)
    requires AllHaveBssid(group) && i < |group| && Bssid(group[i]) == b
    requires RangeKeys(RowsWith(group, b)) == Success(keys) && keys != []
    ensures RangeKey(group[i]).Success? && keys[FirstMinimum(keys)] <= RangeKey(group[i]).value
    ensures i < IndicesWith(group, b)[FirstMinimum(keys)] ==> keys[FirstMinimum(keys)] < RangeKey(group[i]).value
  {
    var rows, indices := RowsWith(group, b), IndicesWith(group, b);
    var t := FirstMinimum(keys);
    assert i in indices;
    var u :| 0 <= u < |indices| && indices[u] == i;
    assert rows[u] == group[i];
    RangeKeysAt(rows, keys, u);
    if i < indices[t] {
      assert u < t;
    }
  }

  /**
   * Each group's chosen rows come one per distinct access point, in order of first
   * appearance, and each is the earliest row of smallest key for its access point.
   */
  lemma ChosenAreEarliestMinima(group: seq<Row>, chosen: seq<Row>)
    requires AllHaveBssid(group) && Choose(group) == Success(chosen)
    ensures |chosen| == |Bssids(group)|
    ensures forall k :: 0 <= k < |chosen| ==> IsEarliestMinimumOf(group, Bssids(group)[k], chosen[k])
  {
    BssidsFirstAppearance(group);
    forall k | 0 <= k < |chosen|
      ensures IsEarliestMinimumOf(group, Bssids(group)[k], chosen[k])
    {
      assert MinByRange(DictValues(group)[k]) == Success(chosen[k]);
      MinByRangeIsEarliestMinimum(group, Bssids(group)[k]);
    }
  }

  /** The minimum of a list exists exactly when every key in the list can be read. */
  lemma MinByRangeSucceeds(rows: seq<Row>)
    requires rows != []
    ensures MinByRange(rows).Success? <==> forall t :: 0 <= t < |rows| ==> RangeKey(rows[t]).Success?
  {
    var steps := seq(|rows|, t requires 0 <= t < |rows| => RangeKey(rows[t]));
    assert forall t :: 0 <= t < |rows| ==> steps[t] == RangeKey(rows[t]);
  }

  /** A failed choice comes from a row of the group whose key cannot be read. */
  lemma ChoiceFailureHasUnreadableKey(group: seq<Row>)
    requires AllHaveBssid(group) && Choose(group).Failure?
    ensures exists i :: 0 <= i < |group| && RangeKey(group[i]).Failure?
  {
    var bssids, lists, minima := Bssids(group), DictValues(group), MinimumSteps(group);
    var k :| 0 <= k < |minima| && minima[k].Failure?;
    var list := lists[k];
    assert list == RowsWith(group, bssids[k]);
    MinByRangeSucceeds(list);
    var t :| 0 <= t < |list| && RangeKey(list[t]).Failure?;
    var i := IndicesWith(group, bssids[k])[t];
    assert list[t] == group[i];
    assert RangeKey(group[i]).Failure?;
  }

  /** A row whose key cannot be read makes the minimum of its list, and so the choice, fail. */
  lemma UnreadableKeyFailsChoice(group: seq<Row>, i: nat)
    requires AllHaveBssid(group) && i < |group| && RangeKey(group[i]).Failure?
    ensures Choose(group).Failure?
  {
    BssidsArePresent(group);
    var bssids := Bssids(group);
    assert Bssid(group[i]) in bssids;
    var k :| 0 <= k < |bssids| && bssids[k] == Bssid(group[i]);
    var list, indices := RowsWith(group, bssids[k]), IndicesWith(group, bssids[k]);
    assert i in indices;
    var u :| 0 <= u < |indices| && indices[u] == i;
    assert list[u] == group[i];
    MinByRangeSucceeds(list);
    assert MinimumSteps(group)[k] == MinByRange(list);
  }

  /** Choosing fails exactly when some row of the group has no readable key. */
  lemma ChooseFailsOnUnreadableKey(group: seq<Row>)
    requires AllHaveBssid(group)
    ensures Choose(group).Failure? <==> exists i :: 0 <= i < |group| && RangeKey(group[i]).Failure?
  {
    if Choose(group).Failure? {
      ChoiceFailureHasUnreadableKey(group);
    } else if i :| 0 <= i < |group| && RangeKey(group[i]).Failure? {
      UnreadableKeyFailsChoice(group, i);
    }
  }

  // ---------------------------------------------------------------------------
  // Output
  // ---------------------------------------------------------------------------

  /** One output line: fields 3 to 8, then field 10, the measured distance. */
  function Line(m: Row): string
    requires |m| > 10
  {
    OutputLine(m, m[10])
  }

  /** Every row has field 10, the measured distance. */
  predicate AllWritable(group: seq<Row>)
  {
    forall k :: 0 <= k < |group| ==> |group[k]| > 10
  }

  /** The output lines of one group's chosen rows. */
  function GroupLines(group: seq<Row>): (lines: seq<string>)
    requires AllWritable(group)
    ensures |lines| == |group|
    ensures forall k :: 0 <= k < |group| ==> lines[k] == Line(group[k])
  {
    seq(|group|, k requires 0 <= k < |group| && |group[k]| > 10 => Line(group[k]))
  }

  /** The output lines of the chosen rows, group by group. */
  function LineBlocks(best: seq<seq<Row>>): (blocks: seq<seq<string>>)
    requires forall g :: 0 <= g < |best| ==> AllWritable(best[g])
    ensures |blocks| == |best|
    ensures forall g :: 0 <= g < |best| ==> blocks[g] == GroupLines(best[g])
  {
    seq(|best|, g requires 0 <= g < |best| && AllWritable(best[g]) => GroupLines(best[g]))
  }

  /** The text of one output file. */
  function FileText(best: seq<seq<Row>>): string
    requires forall g :: 0 <= g < |best| ==> AllWritable(best[g])
  {
    FileLayout(LineBlocks(best))
  }

  /** The writing loop of one group. */
  method WriteGroup(group: seq<Row>) returns (text: string)
    requires AllWritable(group)
    ensures text == LinesText(GroupLines(group))
  {
    ghost var lines := GroupLines(group);
    text := "";
    for k := 0 to |group|
      invariant text == LinesText(lines[..k])
    {
      LinesTextStep(lines, k);
      text := text + Line(group[k]) + "\n";
    }
    assert lines[..|group|] == lines;
  }

  /** The writing loop of one output file. */
  method WriteFile(best: seq<seq<Row>>) returns (text: string)
    requires forall g :: 0 <= g < |best| ==> AllWritable(best[g])
    ensures text == FileText(best)
  {
    ghost var blocks := LineBlocks(best);
    text := "";
    for g := 0 to |best|
      invariant text == BlocksText(blocks[..g])
    {
      var written := WriteGroup(best[g]);
      BlocksTextStep(blocks, g);
      text := text + written + "\n";
    }
    assert blocks[..|best|] == blocks;
    text := text + "\n";
  }

  /**
   * Reading an output file back: split at its line breaks, it gives each group's lines
   * followed by an empty line, and each line split at its tabs gives fields 3 to 8 and
   * field 10 of its row, provided no field holds a tab or a line break.
   */
  lemma FileReadsBack(best: seq<seq<Row>>)
    requires forall g :: 0 <= g < |best| ==> AllWritable(best[g])
    requires NoSeparators(best)
    ensures Split(FileText(best), '\n') == ReadView(LineBlocks(best)) + ["", ""]
    ensures forall g, k :: 0 <= g < |best| && 0 <= k < |best[g]| ==>
      Split(LineBlocks(best)[g][k], '\t') == PositionFields(best[g][k]) + [best[g][k][10]]
  {
    var blocks := LineBlocks(best);
    forall g, k | 0 <= g < |best| && 0 <= k < |best[g]|
      ensures Excludes(blocks[g][k], '\n')
      ensures Split(blocks[g][k], '\t') == PositionFields(best[g][k]) + [best[g][k][10]]
    {
      var m := best[g][k];
      assert CleanRow(m);
      OutputLineFields(m, m[10]);
    }
    ReadFileLayout(blocks);
  }

  /** Every chosen row has a readable key, so it has the fields an output line needs. */
  lemma ChosenAreWritable(groups: seq<seq<Row>>, best: seq<seq<Row>>)
    requires forall g :: 0 <= g < |groups| ==> AllHaveBssid(groups[g])
    requires ChooseAll(groups) == Success(best)
    ensures forall g :: 0 <= g < |best| ==> AllWritable(best[g])
  {
    forall g, k | 0 <= g < |best| && 0 <= k < |best[g]|
      ensures |best[g][k]| > 10
    {
      ChosenAreEarliestMinima(groups[g], best[g]);
      var p :| 0 <= p < |groups[g]| && best[g][k] == groups[g][p] && EarliestMinimum(groups[g], p);
    }
  }

  /** The groups of a successful read all carry BSSID fields. */
  lemma GroupsHaveBssid(rows: seq<Row>, groups: seq<seq<Row>>)
    requires Grouping(rows) == Success(groups)
    ensures forall g :: 0 <= g < |groups| ==> AllHaveBssid(groups[g])
  {
    GroupingIsRunPartition(rows, groups);
    forall g | 0 <= g < |groups|
      ensures AllHaveBssid(groups[g])
    {
      assert SamePosition(groups[g]);
    }
  }

  /** The chosen rows of every group, split between the two experiments, can be written. */
  lemma FloorsAreWritable(groups: seq<seq<Row>>, best: seq<seq<Row>>)
    requires forall g :: 0 <= g < |groups| ==> AllHaveBssid(groups[g])
    requires ChooseAll(groups) == Success(best)
    ensures var (one, two) := SplitFloors(best);
      && (forall g :: 0 <= g < |one| ==> AllWritable(one[g]))
      && (forall g :: 0 <= g < |two| ==> AllWritable(two[g]))
  {
    ChosenAreWritable(groups, best);
    var (one, two) := SplitFloors(best);
    forall g | 0 <= g < |one|
      ensures AllWritable(one[g])
    {
      assert one[g] == best[g];
    }
    forall g | 0 <= g < |two|
      ensures AllWritable(two[g])
    {
      assert two[g] == best[|one| + g];
    }
  }

  /** The whole script: the texts of the one-floor file and of the two-floor file, or the error that stops it. */
  function Prepare(rows: seq<Row>): Result<(string, string), ScriptError>
  {
    match Grouping(rows)
      case Failure(e) => Failure(e)
      case Success(groups) =>
        GroupsHaveBssid(rows, groups);
        match ChooseAll(groups)
          case Failure(e) => Failure(e)
          case Success(best) =>
            FloorsAreWritable(groups, best);
            var (one, two) := SplitFloors(best);
            Success((FileText(one), FileText(two)))
  }

  /** Every row of every group has a readable key in field 12. */
  ghost predicate KeysReadable(groups: seq<seq<Row>>)
  {
    forall g, i :: 0 <= g < |groups| && 0 <= i < |groups[g]| ==> RangeKey(groups[g][i]).Success?
  }

  /** The selection over all groups fails exactly when some row of some group has no readable key. */
  lemma ChooseAllSucceeds(groups: seq<seq<Row>>)
    requires forall g :: 0 <= g < |groups| ==> AllHaveBssid(groups[g])
    ensures ChooseAll(groups).Success? <==> KeysReadable(groups)
  {
    var steps := ChoiceSteps(groups);
    forall g | 0 <= g < |groups|
      ensures steps[g].Success? <==> forall i :: 0 <= i < |groups[g]| ==> RangeKey(groups[g][i]).Success?
    {
      assert steps[g] == Choose(groups[g]);
      ChooseFailsOnUnreadableKey(groups[g]);
    }
  }

  /**
   * The script completes exactly when the log can be grouped and every kept row has a
   * readable key in field 12; it stops with the first error otherwise.
   */
  lemma PrepareSucceeds(rows: seq<Row>)
    ensures Prepare(rows).Success? <==> Grouping(rows).Success? && KeysReadable(Grouping(rows).value)
  {
    if Grouping(rows).Success? {
      var groups := Grouping(rows).value;
      GroupsHaveBssid(rows, groups);
      ChooseAllSucceeds(groups);
    }
  }

  /** The script run on the lines of the ranging log. */
  method Run(rows: seq<Row>) returns (r: Result<(string, string), ScriptError>)
    ensures r == Prepare(rows)
  {
    var measurements := ReadMeasurements(rows);
    if measurements.Failure? {
      return Failure(measurements.error);
    }
    var groups := measurements.value;
    GroupsHaveBssid(rows, groups);
    var best := ChooseBest(groups);
    if best.Failure? {
      return Failure(best.error);
    }
    FloorsAreWritable(groups, best.value);
    var (one, two) := SplitFloors(best.value);
    var oneFloor := WriteFile(one);
    var twoFloors := WriteFile(two);
    return Success((oneFloor, twoFloors));
  }
}
