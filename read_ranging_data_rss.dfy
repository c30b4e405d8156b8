/**
 * ReadRangingDataRSS.py: groups every row of the ranging log by consecutive position, keeps
 * for each access point of a group the first row seen, and writes, for the one-floor and
 * for the two-floor experiment, each kept row's position fields followed by the distance in
 * millimetres that the log-distance path-loss model gives for its received signal strength.
 */
module ReadRangingDataRss {
  import opened Results
  import opened RangingRecords

  // ---------------------------------------------------------------------------
  // The access point table and the path-loss model
  // ---------------------------------------------------------------------------

  /**
   * The calibration of one access point: the received signal strength at one metre, in dBm,
   * and the path-loss exponent estimated with one floor and with two floors in between.
   */
  datatype AccessPoint = AccessPoint(rssAtOneMetre: int, exponentOneFloor: real, exponentTwoFloors: real)

  /** The six access points of the experiment, by BSSID. */
  const AccessPoints: map<string, AccessPoint> := map[
    "08:b4:b1:85:11:61" := AccessPoint(-42, 2.285191613, 2.407779215),
    "08:b4:b1:85:12:95" := AccessPoint(-40, 2.79342456, 3.431905356),
    "08:b4:b1:85:12:ab" := AccessPoint(-41, 2.791738071, 3.566292808),
    "08:b4:b1:85:14:21" := AccessPoint(-40, 2.861091896, 3.18002304),
    "08:b4:b1:85:2e:57" := AccessPoint(-41, 2.499801535, 3.308775049),
    "08:b4:b1:85:4a:f5" := AccessPoint(-41, 2.416460212, 2.552698166)
  ]

  /**
   * A calibration the path-loss model can use: a negative strength at one metre, a positive
   * exponent, and a larger exponent when a second floor absorbs more of the signal.
   */
  predicate Calibrated(ap: AccessPoint)
  {
    ap.rssAtOneMetre < 0 && 0.0 < ap.exponentOneFloor < ap.exponentTwoFloors
  }

  /** `accessPoints[m[2]]`: the calibration of a known BSSID, or the KeyError of an unknown one. */
  function Lookup(bssid: string): (r: Result<AccessPoint, ScriptError>)
    ensures r.Success? <==> bssid in AccessPoints
    ensures r.Success? ==> r.value == AccessPoints[bssid] && Calibrated(r.value)
    ensures r.Failure? ==> r.error == KeyError
  {
    if bssid in AccessPoints then Success(AccessPoints[bssid]) else Failure(KeyError)
  }

  /** Which of the two experiments a file is written for. */
  datatype Floors = OneFloor | TwoFloors

  /** `ap[1]` for the one-floor experiment, `ap[2]` for the two-floor experiment. */
  function PathLossExponent(ap: AccessPoint, floors: Floors): real
  {
    match floors
      case OneFloor => ap.exponentOneFloor
      case TwoFloors => ap.exponentTwoFloors
  }

  /**
   * `(ap[0] - rss) / (10 * n)`: the base-ten logarithm of the distance in metres. It is
   * positive exactly when the signal is weaker than at one metre, and zero exactly when
   * it is as strong.
   */
  function DistanceExponent(ap: AccessPoint, rss: int, floors: Floors): (e: real)
    requires Calibrated(ap)
    ensures e * (10.0 * PathLossExponent(ap, floors)) == (ap.rssAtOneMetre - rss) as real
    ensures e > 0.0 <==> rss < ap.rssAtOneMetre
    ensures e == 0.0 <==> rss == ap.rssAtOneMetre
  {
    (ap.rssAtOneMetre - rss) as real / (10.0 * PathLossExponent(ap, floors))
  }

  /** What the model asks of `pow(10, x)`: it is one at zero, positive and strictly increasing. */
  ghost predicate IsPowerOfTen(pow10: real -> real)
  {
    && pow10(0.0) == 1.0
    && (forall x :: pow10(x) > 0.0)
    && (forall x, y :: x < y ==> pow10(x) < pow10(y))
  }

  /** `1000 * pow(10, e)`: the estimated distance in millimetres. */
  function Distance(ap: AccessPoint, rss: int, floors: Floors, pow10: real -> real): real
    requires Calibrated(ap)
  {
    1000.0 * pow10(DistanceExponent(ap, rss, floors))
  }

  /** At the calibration strength the estimate is one metre. */
  lemma DistanceAtOneMetre(ap: AccessPoint, floors: Floors, pow10: real -> real)
    requires Calibrated(ap) && IsPowerOfTen(pow10)
    ensures Distance(ap, ap.rssAtOneMetre, floors, pow10) == 1000.0
  {
    assert DistanceExponent(ap, ap.rssAtOneMetre, floors) == 0.0;
  }

  /** A weaker signal gives a larger distance. */
  lemma WeakerSignalIsFarther(ap: AccessPoint, weaker: int, stronger: int, floors: Floors, pow10: real -> real)
    requires Calibrated(ap) && IsPowerOfTen(pow10) && weaker < stronger
    ensures Distance(ap, weaker, floors, pow10) > Distance(ap, stronger, floors, pow10)
  {
    var n := 10.0 * PathLossExponent(ap, floors);
    QuotientIncreases((ap.rssAtOneMetre - stronger) as real, (ap.rssAtOneMetre - weaker) as real, n);
  }

  lemma QuotientDecreases(d: real, a: real, b: real)
    requires d > 0.0 && 0.0 < a < b
    ensures d / b < d / a
  {
    var x, y := d / a, d / b;
    assert x * a == d && y * b == d;
    assert y > 0.0;
    assert y * a < y * b by {
      assert y * b - y * a == y * (b - a);
    }
  }

  lemma QuotientIncreases(a: real, b: real, n: real)
    requires n > 0.0 && a < b
    ensures a / n < b / n
  {
    assert b / n - a / n == (b - a) / n;
  }

  /**
   * For a signal weaker than at one metre, the two-floor estimate is the shorter one: the
   * same loss through more absorbing floors means the device is nearer.
   */
  lemma TwoFloorsEstimateIsNearer(ap: AccessPoint, rss: int, pow10: real -> real)
    requires Calibrated(ap) && IsPowerOfTen(pow10) && rss < ap.rssAtOneMetre
    ensures Distance(ap, rss, TwoFloors, pow10) < Distance(ap, rss, OneFloor, pow10)
  {
    QuotientDecreases((ap.rssAtOneMetre - rss) as real, 10.0 * ap.exponentOneFloor, 10.0 * ap.exponentTwoFloors);
  }

  // ---------------------------------------------------------------------------
  // Grouping by consecutive position
  // ---------------------------------------------------------------------------

  /**
   * What the reading loop produces: an index error when a row has no position field or the
   * first row has an empty position; otherwise the rows cut into runs of equal position.
   */
  function Grouping(rows: seq<Row>): Result<seq<seq<Row>>, ScriptError>
  {
    if CanGroup(rows) then Success(Runs(rows)) else Failure(IndexError)
  }

  /** The groups of a successful read are the maximal runs of equal position of the rows. */
  lemma GroupingIsRunPartition(rows: seq<Row>, groups: seq<seq<Row>>)
    requires Grouping(rows) == Success(groups)
    ensures IsRunPartition(groups, rows)
  {
    RunsArePartition(rows);
  }

  /** The rows of a successful read's groups have BSSID and position fields. */
  lemma GroupsHaveFields(rows: seq<Row>, groups: seq<seq<Row>>)
    requires Grouping(rows) == Success(groups)
    ensures forall g :: 0 <= g < |groups| ==> AllHavePosition(groups[g]) && AllHaveBssid(groups[g])
  {
    GroupingIsRunPartition(rows, groups);
    forall g | 0 <= g < |groups|
      ensures AllHavePosition(groups[g]) && AllHaveBssid(groups[g])
    {
      assert SamePosition(groups[g]);
    }
  }

  /** The reading loop: opens a group whenever the position changes. */
  method ReadMeasurements(rows: seq<Row>) returns (r: Result<seq<seq<Row>>, ScriptError>)
    ensures r == Grouping(rows)
  {
    var measurements: seq<seq<Row>> := [];
    var currentPosition := "";
    for i := 0 to |rows|
      invariant CanGroup(rows[..i]) && measurements == Runs(rows[..i])
      invariant currentPosition == if i == 0 then "" else Position(rows[i - 1])
    {
      var data := rows[i];
      if |data| < 4 {
        ShortRowFails(rows, i);
        return Failure(IndexError);
      }
      ghost var before, previousPosition := measurements, currentPosition;
      if data[3] != currentPosition {
        currentPosition := data[3];
        measurements := measurements + [[]];
      }
      if measurements == [] {
        EmptyFirstPositionFails(rows);
        return Failure(IndexError);
      }
      ReadRow(rows, i, before, previousPosition);
      measurements := DropLast(measurements) + [Last(measurements) + [data]];
    }
    assert rows[..|rows|] == rows;
    return Success(measurements);
  }

  /** The bookkeeping of the reading loop for row `i`, on the prefix of the rows read so far. */
  lemma ReadRow(rows: seq<Row>, i: nat, measurements: seq<seq<Row>>, currentPosition: string)
    requires i < |rows| && CanGroup(rows[..i]) && measurements == Runs(rows[..i])
    requires currentPosition == if i == 0 then "" else Position(rows[i - 1])
    requires |rows[i]| > 3 && (i == 0 ==> Position(rows[i]) != "")
    ensures var grown := if Position(rows[i]) != currentPosition then measurements + [[]] else measurements;
      && grown != []
      && CanGroup(rows[..i + 1])
      && Runs(rows[..i + 1]) == DropLast(grown) + [Last(grown) + [rows[i]]]
  {
    var kept, row, next := rows[..i], rows[i], rows[..i + 1];
    assert kept + [row] == next;
    assert i > 0 ==> Last(kept) == rows[i - 1];
    ReadStep(kept, measurements, currentPosition, row);
  }

  /** A row without a position field stops the reading loop with an index error. */
  lemma ShortRowFails(rows: seq<Row>, i: nat)
    requires i < |rows| && |rows[i]| < 4
    ensures Grouping(rows) == Failure(IndexError)
  {
  }

  /** A first row with an empty position stops the reading loop with an index error. */
  lemma EmptyFirstPositionFails(rows: seq<Row>)
    requires rows != [] && |rows[0]| > 3 && Position(rows[0]) == ""
    ensures Grouping(rows) == Failure(IndexError)
  {
  }

  // ---------------------------------------------------------------------------
  // Keeping the first row of each access point
  // ---------------------------------------------------------------------------

  /** Row `p` is the first row of the group with its BSSID. */
  ghost predicate FirstSeen(group: seq<Row>, p: nat)
    requires AllHaveBssid(group)
  {
    p < |group| && forall q :: 0 <= q < p ==> Bssid(group[q]) != Bssid(group[p])
  }

  /** `row` is a row of the group that no earlier row shares its BSSID with. */
  ghost predicate IsFirstSeen(group: seq<Row>, row: Row)
    requires AllHaveBssid(group)
  {
    exists p: nat :: FirstSeen(group, p) && row == group[p]
  }

  /** The head of the `k`-th dictionary list is row `p` of the group, the first row with the `k`-th BSSID. */
  lemma ListHeadIsFirstSeen(group: seq<Row>, k: nat) returns (p: nat)
    requires AllHaveBssid(group) && k < |Bssids(group)|
    ensures DictValues(group)[k] != [] && FirstSeen(group, p) && DictValues(group)[k][0] == group[p]
    ensures Bssid(group[p]) == Bssids(group)[k]
  {
    var keys := Bssids(group);
    BssidsFirstAppearance(group);
    var indices := IndicesWith(group, keys[k]);
    assert DictValues(group)[k] == RowsWith(group, keys[k]);
    p := indices[0];
  }

  /** The head of every dictionary list carries that list's key and is the first row seen with it. */
  lemma ListHeadsAreFirstSeen(group: seq<Row>)
    requires AllHaveBssid(group)
    ensures forall k :: 0 <= k < |DictValues(group)| ==>
      && DictValues(group)[k] != [] && |DictValues(group)[k][0]| > 2
      && Bssid(DictValues(group)[k][0]) == Bssids(group)[k]
      && IsFirstSeen(group, DictValues(group)[k][0])
  {
    forall k | 0 <= k < |DictValues(group)|
      ensures DictValues(group)[k] != [] && |DictValues(group)[k][0]| > 2
      ensures Bssid(DictValues(group)[k][0]) == Bssids(group)[k]
      ensures IsFirstSeen(group, DictValues(group)[k][0])
    {
      var p := ListHeadIsFirstSeen(group, k);
    }
  }

  /**
   * `m[0]` of each dictionary list: the `k`-th kept row carries the `k`-th BSSID in order of
   * first appearance, and no earlier row of the group carries it.
   */
  function FirstRows(group: seq<Row>): (firsts: seq<Row>)
    requires AllHaveBssid(group)
    ensures |firsts| == |Bssids(group)|
    ensures forall k :: 0 <= k < |firsts| ==> firsts[k] == DictValues(group)[k][0]
    ensures AllHaveBssid(firsts)
    ensures forall k :: 0 <= k < |firsts| ==>
      Bssid(firsts[k]) == Bssids(group)[k] && IsFirstSeen(group, firsts[k])
  {
    var lists := DictValues(group);
    ListHeadsAreFirstSeen(group);
    seq(|lists|, k requires 0 <= k < |lists| => lists[k][0])
  }

  /** The kept rows are rows of the group, so they have a position field. */
  lemma FirstRowsHavePosition(group: seq<Row>)
    requires AllHavePosition(group)
    ensures AllHavePosition(FirstRows(group))
  {
    var keys, firsts := Bssids(group), FirstRows(group);
    forall k | 0 <= k < |firsts|
      ensures |firsts[k]| > 3
    {
      assert DictValues(group)[k] == RowsWith(group, keys[k]);
    }
  }

  /** Every list of the dictionary holds at least one row. */
  lemma DictListsNonEmpty(group: seq<Row>, keys: seq<string>, rowsOf: map<string, seq<Row>>)
    requires AllHaveBssid(group) && keys == Bssids(group)
    requires forall b :: b in rowsOf <==> b in keys
    requires forall b :: b in rowsOf ==> rowsOf[b] == RowsWith(group, b)
    ensures forall k :: 0 <= k < |keys| ==> keys[k] in rowsOf && rowsOf[keys[k]] != []
  {
    forall k | 0 <= k < |keys|
      ensures rowsOf[keys[k]] != []
    {
      assert rowsOf[keys[k]] == DictValues(group)[k];
    }
  }

  /** The first rows of the dictionary's lists, in the order of its keys, are the kept rows. */
  lemma DictListsStartWithFirstRows(group: seq<Row>, keys: seq<string>, rowsOf: map<string, seq<Row>>, firsts: seq<Row>)
    requires AllHaveBssid(group) && keys == Bssids(group)
    requires forall b :: b in rowsOf <==> b in keys
    requires forall b :: b in rowsOf ==> rowsOf[b] == RowsWith(group, b)
    requires |firsts| == |keys|
    requires forall k :: 0 <= k < |keys| ==> rowsOf[keys[k]] != [] && firsts[k] == rowsOf[keys[k]][0]
    ensures firsts == FirstRows(group)
  {
    forall k | 0 <= k < |keys|
      ensures firsts[k] == FirstRows(group)[k]
    {
      assert rowsOf[keys[k]] == DictValues(group)[k];
    }
  }

  /** `for m in d.values(): best[-1].append(m[0])`: the first row of each list, in key order. */
  method FirstOfLists(keys: seq<string>, rowsOf: map<string, seq<Row>>) returns (firsts: seq<Row>)
    requires forall k :: 0 <= k < |keys| ==> keys[k] in rowsOf && rowsOf[keys[k]] != []
    ensures |firsts| == |keys|
    ensures forall k :: 0 <= k < |keys| ==> firsts[k] == rowsOf[keys[k]][0]
  {
    firsts := [];
    for k := 0 to |keys|
      invariant |firsts| == k
      invariant forall t :: 0 <= t < k ==> firsts[t] == rowsOf[keys[t]][0]
    {
      firsts := firsts + [rowsOf[keys[k]][0]];
    }
  }

  /** The selection of one group: build the dictionary, then keep the first row of each list. */
  method FirstOfEach(group: seq<Row>) returns (firsts: seq<Row>)
    requires AllHaveBssid(group)
    ensures firsts == FirstRows(group)
  {
    var bssids, rowsOf := GroupByBssid(group);
    DictListsNonEmpty(group, bssids, rowsOf);
    firsts := FirstOfLists(bssids, rowsOf);
    DictListsStartWithFirstRows(group, bssids, rowsOf, firsts);
  }

  /** The rows kept for every group: in each, the first row seen of every access point, in order of first appearance. */
  function ChooseAll(groups: seq<seq<Row>>): (best: seq<seq<Row>>)
    requires forall g :: 0 <= g < |groups| ==> AllHaveBssid(groups[g])
    ensures |best| == |groups|
    ensures forall g :: 0 <= g < |groups| ==> best[g] == FirstRows(groups[g])
    ensures forall g :: 0 <= g < |groups| ==> |best[g]| == |Bssids(groups[g])|
    ensures forall g, k :: 0 <= g < |groups| && 0 <= k < |best[g]| ==>
      |best[g][k]| > 2 && Bssid(best[g][k]) == Bssids(groups[g])[k] && IsFirstSeen(groups[g], best[g][k])
  {
    seq(|groups|, g requires 0 <= g < |groups| && AllHaveBssid(groups[g]) => FirstRows(groups[g]))
  }

  /** The selection loop over all groups. */
  method ChooseBest(measurements: seq<seq<Row>>) returns (best: seq<seq<Row>>)
    requires forall g :: 0 <= g < |measurements| ==> AllHaveBssid(measurements[g])
    ensures best == ChooseAll(measurements)
  {
    best := [];
    for g := 0 to |measurements|
      invariant |best| == g && forall t :: 0 <= t < g ==> best[t] == FirstRows(measurements[t])
    {
      var firsts := FirstOfEach(measurements[g]);
      best := best + [firsts];
    }
  }

  // ---------------------------------------------------------------------------
  // Output
  // ---------------------------------------------------------------------------

  /** The row's access point is in the table and its field two from the end is an integer. */
  predicate Readable(m: Row)
    requires |m| > 3
  {
    Bssid(m) in AccessPoints && ParseInt(m[|m| - 2]).Some?
  }

  /** The distance of a readable row: its access point's model at `int(m[-2])`. */
  function DistanceOf(m: Row, floors: Floors, pow10: real -> real): real
    requires |m| > 3 && Readable(m)
  {
    Distance(Lookup(Bssid(m)).value, ParseInt(m[|m| - 2]).value, floors, pow10)
  }

  /**
   * One output line: fields 3 to 8 and `str(distance)`. The table lookup comes first, so an
   * unknown BSSID is a KeyError even when the strength cannot be read either; an unreadable
   * strength of a known access point is a ValueError.
   */
  function RssLine(m: Row, floors: Floors, pow10: real -> real, show: real -> string): (r: Result<string, ScriptError>)
    requires |m| > 3
    ensures r.Success? <==> Readable(m)
    ensures r.Success? ==> r.value == OutputLine(m, show(DistanceOf(m, floors, pow10)))
    ensures Bssid(m) !in AccessPoints ==> r == Failure(KeyError)
    ensures Bssid(m) in AccessPoints && !Readable(m) ==> r == Failure(ValueError)
  {
    match Lookup(Bssid(m))
      case Failure(e) => Failure(e)
      case Success(ap) =>
        match ParseInt(m[|m| - 2])
          case None => Failure(ValueError)
          case Some(rss) => Success(OutputLine(m, show(Distance(ap, rss, floors, pow10))))
  }

  /** The line of each row of a group, in order. */
  function LineSteps(group: seq<Row>, floors: Floors, pow10: real -> real, show: real -> string): (steps: seq<Result<string, ScriptError>>)
    requires AllHavePosition(group)
    ensures |steps| == |group|
    ensures forall k :: 0 <= k < |group| ==> steps[k] == RssLine(group[k], floors, pow10, show)
  {
    seq(|group|, k requires 0 <= k < |group| && |group[k]| > 3 => RssLine(group[k], floors, pow10, show))
  }

  /** The lines of each group, or the first error met within the group. */
  function BlockSteps(best: seq<seq<Row>>, floors: Floors, pow10: real -> real, show: real -> string): (steps: seq<Result<seq<string>, ScriptError>>)
    requires forall g :: 0 <= g < |best| ==> AllHavePosition(best[g])
    ensures |steps| == |best|
    ensures forall g :: 0 <= g < |best| ==> steps[g] == AllSucceed(LineSteps(best[g], floors, pow10, show))
  {
    seq(|best|, g requires 0 <= g < |best| && AllHavePosition(best[g]) => AllSucceed(LineSteps(best[g], floors, pow10, show)))
  }

  /** The text of one output file, or the error of the first row that cannot be written. */
  function FileText(best: seq<seq<Row>>, floors: Floors, pow10: real -> real, show: real -> string): Result<string, ScriptError>
    requires forall g :: 0 <= g < |best| ==> AllHavePosition(best[g])
  {
    match AllSucceed(BlockSteps(best, floors, pow10, show))
      case Failure(e) => Failure(e)
      case Success(blocks) => Success(FileLayout(blocks))
  }

  /** The text of one group's lines, or the first error met within the group. */
  function GroupText(group: seq<Row>, floors: Floors, pow10: real -> real, show: real -> string): Result<string, ScriptError>
    requires AllHavePosition(group)
  {
    match AllSucceed(LineSteps(group, floors, pow10, show))
      case Failure(e) => Failure(e)
      case Success(lines) => Success(LinesText(lines))
  }

  /** The writing loop of one group. */
  method WriteGroup(group: seq<Row>, floors: Floors, pow10: real -> real, show: real -> string)
    returns (r: Result<string, ScriptError>)
    requires AllHavePosition(group)
    ensures r == GroupText(group, floors, pow10, show)
  {
    ghost var steps := LineSteps(group, floors, pow10, show);
    ghost var lines: seq<string> := [];
    var text := "";
    for k := 0 to |group|
      invariant AllSucceed(steps[..k]) == Success(lines) && text == LinesText(lines)
    {
      var line := RssLine(group[k], floors, pow10, show);
      WriteLineStep(group, floors, pow10, show, k, lines);
      if line.Failure? {
        return Failure(line.error);
      }
      text := text + line.value + "\n";
      lines := lines + [line.value];
    }
    GroupWritten(group, floors, pow10, show, lines);
    return Success(text);
  }

  /** When every row of the group gave a line, the group's text is those lines. */
  lemma GroupWritten(group: seq<Row>, floors: Floors, pow10: real -> real, show: real -> string,
                     lines: seq<string>)
    requires AllHavePosition(group)
    requires AllSucceed(LineSteps(group, floors, pow10, show)[..|group|]) == Success(lines)
    ensures GroupText(group, floors, pow10, show) == Success(LinesText(lines))
  {
    var steps := LineSteps(group, floors, pow10, show);
    assert steps[..|group|] == steps;
  }

  /** One pass of the writing loop of a group: a failing row stops the group, a line extends its text. */
  lemma WriteLineStep(group: seq<Row>, floors: Floors, pow10: real -> real, show: real -> string,
                      k: nat, lines: seq<string>)
    requires AllHavePosition(group) && k < |group|
    requires AllSucceed(LineSteps(group, floors, pow10, show)[..k]) == Success(lines)
    ensures var line := RssLine(group[k], floors, pow10, show);
      && (line.Failure? ==> GroupText(group, floors, pow10, show) == Failure(line.error))
      && (line.Success? ==>
            && AllSucceed(LineSteps(group, floors, pow10, show)[..k + 1]) == Success(lines + [line.value])
            && LinesText(lines + [line.value]) == LinesText(lines) + line.value + "\n")
  {
    var steps := LineSteps(group, floors, pow10, show);
    var line := RssLine(group[k], floors, pow10, show);
    assert line == steps[k];
    AllSucceedStep(steps, k);
    if line.Failure? {
      AllSucceedPrefix(steps, k + 1);
    } else {
      LinesTextSnoc(lines, line.value);
    }
  }

  /** The writing loop of one output file. */
  method WriteFile(best: seq<seq<Row>>, floors: Floors, pow10: real -> real, show: real -> string)
    returns (r: Result<string, ScriptError>)
    requires forall g :: 0 <= g < |best| ==> AllHavePosition(best[g])
    ensures r == FileText(best, floors, pow10, show)
  {
    ghost var steps := BlockSteps(best, floors, pow10, show);
    ghost var blocks: seq<seq<string>> := [];
    var text := "";
    for g := 0 to |best|
      invariant AllSucceed(steps[..g]) == Success(blocks) && text == BlocksText(blocks)
    {
      var written := WriteGroup(best[g], floors, pow10, show);
      AllSucceedStep(steps, g);
      if written.Failure? {
        AllSucceedPrefix(steps, g + 1);
        return Failure(written.error);
      }
      ghost var lines := steps[g].value;
      assert written.value == LinesText(lines);
      assert DropLast(blocks + [lines]) == blocks;
      text := text + written.value + "\n";
      blocks := blocks + [lines];
    }
    assert steps[..|best|] == steps;
    return Success(text + "\n");
  }

  /** Every row of the group is readable. */
  predicate GroupReadable(group: seq<Row>)
  {
    forall k :: 0 <= k < |group| ==> |group[k]| > 3 && Readable(group[k])
  }

  /** Every row of every group is readable. */
  predicate AllReadable(best: seq<seq<Row>>)
  {
    forall g :: 0 <= g < |best| ==> GroupReadable(best[g])
  }

  /** The lines of a group whose rows are all readable. */
  function ExpectedGroup(group: seq<Row>, floors: Floors, pow10: real -> real, show: real -> string): (lines: seq<string>)
    requires GroupReadable(group)
    ensures |lines| == |group|
    ensures forall k :: 0 <= k < |group| ==> lines[k] == OutputLine(group[k], show(DistanceOf(group[k], floors, pow10)))
  {
    seq(|group|, k requires 0 <= k < |group| && |group[k]| > 3 && Readable(group[k]) =>
      OutputLine(group[k], show(DistanceOf(group[k], floors, pow10))))
  }

  /** The lines a file holds when every row is readable. */
  function ExpectedLines(best: seq<seq<Row>>, floors: Floors, pow10: real -> real, show: real -> string): (blocks: seq<seq<string>>)
    requires AllReadable(best)
    ensures |blocks| == |best|
    ensures forall g :: 0 <= g < |best| ==> blocks[g] == ExpectedGroup(best[g], floors, pow10, show)
  {
    seq(|best|, g requires 0 <= g < |best| && GroupReadable(best[g]) => ExpectedGroup(best[g], floors, pow10, show))
  }

  /** When every row is readable, the file holds the expected lines. */
  lemma ReadableFileText(best: seq<seq<Row>>, floors: Floors, pow10: real -> real, show: real -> string)
    requires forall g :: 0 <= g < |best| ==> AllHavePosition(best[g])
    requires AllReadable(best)
    ensures FileText(best, floors, pow10, show) == Success(FileLayout(ExpectedLines(best, floors, pow10, show)))
  {
    var steps := BlockSteps(best, floors, pow10, show);
    var expected := ExpectedLines(best, floors, pow10, show);
    forall g | 0 <= g < |best|
      ensures steps[g] == Success(expected[g])
    {
      var lineSteps := LineSteps(best[g], floors, pow10, show);
      forall k | 0 <= k < |best[g]|
        ensures lineSteps[k] == Success(expected[g][k])
      {
      }
      var lines := AllSucceed(lineSteps);
      assert lines.value == expected[g];
    }
    assert AllSucceed(steps).value == expected;
  }

  /** An unreadable row at `k` of group `g` stops the writing of the file. */
  lemma UnreadableFileText(best: seq<seq<Row>>, floors: Floors, pow10: real -> real, show: real -> string, g: nat, k: nat)
    requires forall g :: 0 <= g < |best| ==> AllHavePosition(best[g])
    requires g < |best| && k < |best[g]| && |best[g][k]| > 3 && !Readable(best[g][k])
    ensures FileText(best, floors, pow10, show).Failure?
  {
    var steps := BlockSteps(best, floors, pow10, show);
    assert LineSteps(best[g], floors, pow10, show)[k].Failure?;
    assert steps[g].Failure?;
  }

  /**
   * A file is written exactly when every row is readable, and then it holds the expected
   * lines; otherwise the script stops at the first row that is not.
   */
  lemma FileTextSucceeds(best: seq<seq<Row>>, floors: Floors, pow10: real -> real, show: real -> string)
    requires forall g :: 0 <= g < |best| ==> AllHavePosition(best[g])
    ensures FileText(best, floors, pow10, show).Success? <==> AllReadable(best)
    ensures AllReadable(best) ==>
      FileText(best, floors, pow10, show) == Success(FileLayout(ExpectedLines(best, floors, pow10, show)))
  {
    if AllReadable(best) {
      ReadableFileText(best, floors, pow10, show);
    } else {
      var g: nat, k: nat :| g < |best| && k < |best[g]| && |best[g][k]| > 3 && !Readable(best[g][k]);
      UnreadableFileText(best, floors, pow10, show, g, k);
    }
  }

  /**
   * Reading a written file back: split at its line breaks, it gives each group's lines
   * followed by an empty line, and each line split at its tabs gives fields 3 to 8 of its
   * row and the written distance, provided no field and no written number holds a tab or
   * a line break.
   */
  lemma FileReadsBack(best: seq<seq<Row>>, floors: Floors, pow10: real -> real, show: real -> string, text: string)
    requires forall g :: 0 <= g < |best| ==> AllHavePosition(best[g])
    requires FileText(best, floors, pow10, show) == Success(text)
    requires NoSeparators(best)
    requires forall x :: Excludes(show(x), '\t') && Excludes(show(x), '\n')
    ensures AllReadable(best)
    ensures Split(text, '\n') == ReadView(ExpectedLines(best, floors, pow10, show)) + ["", ""]
    ensures forall g, k :: 0 <= g < |best| && 0 <= k < |best[g]| ==>
      Split(ExpectedLines(best, floors, pow10, show)[g][k], '\t') ==
        PositionFields(best[g][k]) + [show(DistanceOf(best[g][k], floors, pow10))]
  {
    FileTextSucceeds(best, floors, pow10, show);
    var blocks := ExpectedLines(best, floors, pow10, show);
    forall g, k | 0 <= g < |best| && 0 <= k < |best[g]|
      ensures Excludes(blocks[g][k], '\n')
      ensures Split(blocks[g][k], '\t') == PositionFields(best[g][k]) + [show(DistanceOf(best[g][k], floors, pow10))]
    {
      var m := best[g][k];
      OutputLineFields(m, show(DistanceOf(m, floors, pow10)));
    }
    ReadFileLayout(blocks);
  }

  // ---------------------------------------------------------------------------
  // The whole script
  // ---------------------------------------------------------------------------

  /** The kept rows of every group, split between the two experiments, have a position field. */
  lemma FloorsHavePosition(groups: seq<seq<Row>>)
    requires forall g :: 0 <= g < |groups| ==> AllHavePosition(groups[g]) && AllHaveBssid(groups[g])
    ensures var (one, two) := SplitFloors(ChooseAll(groups));
      && (forall g :: 0 <= g < |one| ==> AllHavePosition(one[g]))
      && (forall g :: 0 <= g < |two| ==> AllHavePosition(two[g]))
  {
    var best := ChooseAll(groups);
    var (one, two) := SplitFloors(best);
    forall g | 0 <= g < |one|
      ensures AllHavePosition(one[g])
    {
      assert one[g] == best[g];
      FirstRowsHavePosition(groups[g]);
    }
    forall g | 0 <= g < |two|
      ensures AllHavePosition(two[g])
    {
      assert two[g] == best[|one| + g];
      FirstRowsHavePosition(groups[|one| + g]);
    }
  }

  /**
   * The texts of the one-floor file (the first 19 groups, exponent `ap[1]`) and of the
   * two-floor file (the other groups, exponent `ap[2]`), or the error that stops the script.
   */
  function Prepare(rows: seq<Row>, pow10: real -> real, show: real -> string): Result<(string, string), ScriptError>
  {
    match Grouping(rows)
      case Failure(e) => Failure(e)
      case Success(groups) =>
        GroupsHaveFields(rows, groups);
        FloorsHavePosition(groups);
        var (one, two) := SplitFloors(ChooseAll(groups));
        match FileText(one, OneFloor, pow10, show)
          case Failure(e) => Failure(e)
          case Success(oneFloor) =>
            match FileText(two, TwoFloors, pow10, show)
              case Failure(e) => Failure(e)
              case Success(twoFloors) => Success((oneFloor, twoFloors))
  }

  /** Every row kept from the groups has a known access point and a readable strength. */
  ghost predicate FirstRowsReadable(groups: seq<seq<Row>>)
  {
    && (forall g :: 0 <= g < |groups| ==> AllHaveBssid(groups[g]))
    && AllReadable(ChooseAll(groups))
  }

  /** A sequence of groups is readable exactly when both of its experiments' halves are. */
  lemma SplitFloorsReadable(best: seq<seq<Row>>)
    ensures AllReadable(best) <==> AllReadable(SplitFloors(best).0) && AllReadable(SplitFloors(best).1)
  {
    var (one, two) := SplitFloors(best);
    assert forall g :: 0 <= g < |one| ==> one[g] == best[g];
    assert forall g :: 0 <= g < |two| ==> two[g] == best[|one| + g];
    if AllReadable(one) && AllReadable(two) {
      forall g | 0 <= g < |best|
        ensures GroupReadable(best[g])
      {
        if g >= |one| {
          assert best[g] == two[g - |one|];
        }
      }
    }
  }

  /**
   * The script completes exactly when the log can be grouped and every kept row has a
   * known access point and a readable strength; it stops with the first error otherwise.
   */
  lemma PrepareSucceeds(rows: seq<Row>, pow10: real -> real, show: real -> string)
    ensures Prepare(rows, pow10, show).Success? <==>
      Grouping(rows).Success? && FirstRowsReadable(Grouping(rows).value)
  {
    if Grouping(rows).Success? {
      var groups := Grouping(rows).value;
      GroupsHaveFields(rows, groups);
      FloorsHavePosition(groups);
      var best := ChooseAll(groups);
      var (one, two) := SplitFloors(best);
      FileTextSucceeds(one, OneFloor, pow10, show);
      FileTextSucceeds(two, TwoFloors, pow10, show);
      SplitFloorsReadable(best);
    }
  }

  /** The script run on the lines of the ranging log. */
  method Run(rows: seq<Row>, pow10: real -> real, show: real -> string) returns (r: Result<(string, string), ScriptError>)
    ensures r == Prepare(rows, pow10, show)
  {
    var measurements := ReadMeasurements(rows);
    if measurements.Failure? {
      return Failure(measurements.error);
    }
    var groups := measurements.value;
    GroupsHaveFields(rows, groups);
    FloorsHavePosition(groups);
    var best := ChooseBest(groups);
    var (one, two) := SplitFloors(best);
    var oneFloor := WriteFile(one, OneFloor, pow10, show);
    if oneFloor.Failure? {
      return Failure(oneFloor.error);
    }
    var twoFloors := WriteFile(two, TwoFloors, pow10, show);
    if twoFloors.Failure? {
      return Failure(twoFloors.error);
    }
    return Success((oneFloor.value, twoFloors.value));
  }
}
