/**
 * The computation `NikromeMap.openModal` performs once runner data is
 * loaded: locate the columns, put the clicked checkpoint's column in the
 * place of the generic time column, project every row onto the five
 * displayed columns, split the projected rows into men and women by the
 * original row's `Class/Sx` cell, count the runners that have a time at
 * the checkpoint and build the modal title.
 */
module CheckpointFilter {
  import opened Wrappers
  import opened JsText

  /** The loaded dataset: column names and rows of cells. */
  datatype RunnerData = RunnerData(headers: seq<string>, data: seq<seq<string>>)

  /** A cell of a projected row: `undefined` where the column index missed the row. */
  type Cell = Option<string>

  /** What the modal shows: title, column names and the two groups of rows. */
  datatype ModalView = ModalView(
    title: string,
    headers: seq<string>,
    menData: seq<seq<Cell>>,
    womenData: seq<seq<Cell>>)

  /** The displayed columns, in display order. */
  const RelevantHeaders: seq<string> := ["Nom", "Temps", "Class/Sx", "Class/Cat", "Vit."]
  /** The position in `RelevantHeaders` whose column becomes the checkpoint's. */
  const TimeSlot: nat := 1
  const ClassSx: string := "Class/Sx"
  const MaleMarker: string := "(M)"
  const FemaleMarker: string := "(F)"
  /** The placeholder for "no time recorded". */
  const NoTime: string := "--"

  // ---------------------------------------------------------------------
  // `filter((row, index) => keep[index])`

  /** The positions at which `mask` is true, in increasing order. */
  function Indices(mask: seq<bool>): (ix: seq<nat>)
    ensures |ix| <= |mask|
    ensures forall k :: 0 <= k < |ix| ==> ix[k] < |mask| && mask[ix[k]]
    ensures forall k, l :: 0 <= k < l < |ix| ==> ix[k] < ix[l]
    ensures forall i :: 0 <= i < |mask| && mask[i] ==> i in ix
    decreases |mask|
  {
    if mask == [] then []
    else
      var n := |mask| - 1;
      Indices(mask[..n]) + if mask[n] then [n] else []
  }

  /**
   * The elements of `xs` whose position is marked in `mask`, in their
   * original order: exactly the elements at `Indices(mask)`.
   */
  function Select<T>(xs: seq<T>, mask: seq<bool>): (r: seq<T>)
    requires |xs| == |mask|
    ensures |r| == |Indices(mask)|
    ensures forall k :: 0 <= k < |r| ==> r[k] == xs[Indices(mask)[k]]
    decreases |xs|
  {
    if xs == [] then []
    else
      var n := |xs| - 1;
      Select(xs[..n], mask[..n]) + if mask[n] then [xs[n]] else []
  }

  function Negate(mask: seq<bool>): (m: seq<bool>)
    ensures |m| == |mask| && forall i :: 0 <= i < |m| ==> m[i] == !mask[i]
  {
    seq(|mask|, i requires 0 <= i < |mask| => !mask[i])
  }

  /** A mask with no true position keeps nothing. */
  lemma {:induction false} IndicesNone(mask: seq<bool>)
    requires forall i :: 0 <= i < |mask| ==> !mask[i]
    ensures Indices(mask) == []
    decreases |mask|
  {
    if mask != [] {
      IndicesNone(mask[..|mask| - 1]);
    }
  }

  /** Every position is kept by exactly one of a mask and its negation. */
  lemma {:induction false} IndicesComplement(mask: seq<bool>)
    ensures |Indices(mask)| + |Indices(Negate(mask))| == |mask|
    decreases |mask|
  {
    if mask != [] {
      var n := |mask| - 1;
      var nm := Negate(mask);
      assert nm[..n] == Negate(mask[..n]);
      assert |Indices(mask)| == |Indices(mask[..n])| + if mask[n] then 1 else 0;
      assert |Indices(nm)| == |Indices(nm[..n])| + if nm[n] then 1 else 0;
      IndicesComplement(mask[..n]);
    }
  }

  // ---------------------------------------------------------------------
  // The per-row tests

  /** `classSx && classSx.includes(marker)`. */
  predicate IsMarked(c: Cell, marker: string)
  {
    c.Some? && c.value != "" && Includes(c.value, marker)
  }

  /** `checkpointData && checkpointData.trim() !== '--'`. */
  predicate HasTime(c: Cell)
  {
    c.Some? && c.value != "" && Trim(c.value) != NoTime
  }

  function MarkerMask(rows: seq<seq<string>>, sxIndex: int, marker: string): (m: seq<bool>)
    ensures |m| == |rows|
  {
    seq(|rows|, i requires 0 <= i < |rows| => IsMarked(CellAt(rows[i], sxIndex), marker))
  }

  function TimeMask(rows: seq<seq<string>>, column: int): (m: seq<bool>)
    ensures |m| == |rows|
  {
    seq(|rows|, i requires 0 <= i < |rows| => HasTime(CellAt(rows[i], column)))
  }

  // ---------------------------------------------------------------------
  // The steps of openModal

  /** `relevantHeaders.map(h => headers.indexOf(h))`, then `headerIndices[1] = columnIndex`. */
  function HeaderIndices(headers: seq<string>, checkpoint: string): (ix: seq<int>)
    ensures |ix| == |RelevantHeaders|
  {
    seq(|RelevantHeaders|, k requires 0 <= k < |RelevantHeaders| => IndexOf(headers, RelevantHeaders[k]))
      [TimeSlot := IndexOf(headers, checkpoint)]
  }

  /**
   * The column indices, written out: `Nom`, the checkpoint in place of
   * `Temps`, `Class/Sx`, `Class/Cat`, `Vit.`.
   */
  lemma HeaderIndicesListed(headers: seq<string>, checkpoint: string)
    ensures HeaderIndices(headers, checkpoint)
         == [IndexOf(headers, "Nom"), IndexOf(headers, checkpoint), IndexOf(headers, "Class/Sx"),
             IndexOf(headers, "Class/Cat"), IndexOf(headers, "Vit.")]
  {
  }

  /** `headerIndices.map(idx => row[idx])`. */
  function Project(row: seq<string>, ix: seq<int>): (p: seq<Cell>)
    ensures |p| == |ix|
  {
    seq(|ix|, k requires 0 <= k < |ix| => CellAt(row, ix[k]))
  }

  /** `data.map(row => ...)`: every row projected. */
  function ProjectAll(rows: seq<seq<string>>, ix: seq<int>): (all: seq<seq<Cell>>)
    ensures |all| == |rows|
  {
    seq(|rows|, i requires 0 <= i < |rows| => Project(rows[i], ix))
  }

  /** The projected rows whose original `Class/Sx` cell carries `marker`. */
  function Group(d: RunnerData, checkpoint: string, marker: string): seq<seq<Cell>>
  {
    Select(ProjectAll(d.data, HeaderIndices(d.headers, checkpoint)),
           MarkerMask(d.data, IndexOf(d.headers, ClassSx), marker))
  }

  /** `data.filter(row => <has a time>).length`. */
  function RunnersWithTime(d: RunnerData, checkpoint: string): nat
  {
    |Select(d.data, TimeMask(d.data, IndexOf(d.headers, checkpoint)))|
  }

  /** `${checkpoint} - ${runnersWithTime}/${totalRunners}`. */
  function Title(checkpoint: string, withTime: nat, total: nat): string
  {
    checkpoint + " - " + NatToString(withTime) + "/" + NatToString(total)
  }

  /** Everything openModal stores for a click on `checkpoint`. */
  function CheckpointView(d: RunnerData, checkpoint: string): ModalView
  {
    ModalView(
      Title(checkpoint, RunnersWithTime(d, checkpoint), |d.data|),
      RelevantHeaders,
      Group(d, checkpoint, MaleMarker),
      Group(d, checkpoint, FemaleMarker))
  }

  // ---------------------------------------------------------------------
  // Properties

  /** Every row of `d` has as many cells as there are column names. */
  predicate Aligned(d: RunnerData)
  {
    forall i :: 0 <= i < |d.data| ==> |d.data[i]| == |d.headers|
  }

  /**
   * Every projected row has five cells; the cell in the time slot is the
   * row's cell under the clicked checkpoint's column, every other cell is
   * the row's cell under the column named in that slot.
   */
  lemma ProjectedRowShape(d: RunnerData, checkpoint: string, i: nat)
    requires i < |d.data|
    ensures var p := ProjectAll(d.data, HeaderIndices(d.headers, checkpoint))[i];
      && |p| == |RelevantHeaders|
      && p[TimeSlot] == CellAt(d.data[i], IndexOf(d.headers, checkpoint))
      && forall k :: 0 <= k < |p| && k != TimeSlot ==>
           p[k] == CellAt(d.data[i], IndexOf(d.headers, RelevantHeaders[k]))
  {
  }

  /**
   * On aligned data whose header names every column used, each cell of a
   * projected row is present and holds the row's value under the first
   * column of that name.
   */
  lemma ProjectedRowValues(d: RunnerData, checkpoint: string, i: nat)
    requires Aligned(d) && i < |d.data|
    requires checkpoint in d.headers
    requires forall k :: 0 <= k < |RelevantHeaders| && k != TimeSlot ==> RelevantHeaders[k] in d.headers
    ensures var p := ProjectAll(d.data, HeaderIndices(d.headers, checkpoint))[i];
      forall k :: 0 <= k < |p| ==>
        var name := if k == TimeSlot then checkpoint else RelevantHeaders[k];
        exists j :: 0 <= j < |d.headers| && d.headers[j] == name && name !in d.headers[..j]
                    && p[k] == Some(d.data[i][j])
  {
    var p := ProjectAll(d.data, HeaderIndices(d.headers, checkpoint))[i];
    forall k | 0 <= k < |p|
      ensures var name := if k == TimeSlot then checkpoint else RelevantHeaders[k];
        exists j :: 0 <= j < |d.headers| && d.headers[j] == name && name !in d.headers[..j]
                    && p[k] == Some(d.data[i][j])
    {
      var name := if k == TimeSlot then checkpoint else RelevantHeaders[k];
      var j := IndexOf(d.headers, name);
      assert p[k] == Some(d.data[i][j]);
    }
  }

  /**
   * A group is the projections of exactly the rows whose `Class/Sx` cell is
   * present, non-empty and contains the marker, in the original row order;
   * it has at most as many rows as the data.
   */
  lemma GroupIsMarkedRows(d: RunnerData, checkpoint: string, marker: string)
    ensures var g := Group(d, checkpoint, marker);
      var sx := IndexOf(d.headers, ClassSx);
      var ix := Indices(MarkerMask(d.data, sx, marker));
      && |g| == |ix| <= |d.data|
      && (forall k :: 0 <= k < |g| ==>
            g[k] == Project(d.data[ix[k]], HeaderIndices(d.headers, checkpoint)))
      && (forall k, l :: 0 <= k < l < |ix| ==> ix[k] < ix[l])
      && (forall i :: 0 <= i < |d.data| ==> (i in ix <==> IsMarked(CellAt(d.data[i], sx), marker)))
  {
    var sx := IndexOf(d.headers, ClassSx);
    var mask := MarkerMask(d.data, sx, marker);
    var ix := Indices(mask);
    forall i | 0 <= i < |d.data| && i in ix
      ensures IsMarked(CellAt(d.data[i], sx), marker)
    {
      var k :| 0 <= k < |ix| && ix[k] == i;
    }
  }

  /** Neither group is longer than the data. */
  lemma GroupsBounded(d: RunnerData, checkpoint: string)
    ensures |CheckpointView(d, checkpoint).menData| <= |d.data|
    ensures |CheckpointView(d, checkpoint).womenData| <= |d.data|
  {
  }

  /**
   * The count of runners with a time never exceeds the number of rows, and
   * it and the count of rows without one add up to the number of rows.
   */
  lemma RunnersWithTimeSplit(d: RunnerData, checkpoint: string)
    ensures RunnersWithTime(d, checkpoint) <= |d.data|
    ensures var m := TimeMask(d.data, IndexOf(d.headers, checkpoint));
      RunnersWithTime(d, checkpoint) + |Select(d.data, Negate(m))| == |d.data|
  {
    var m := TimeMask(d.data, IndexOf(d.headers, checkpoint));
    IndicesComplement(m);
  }

  /** A runner is counted exactly when the checkpoint cell of their row has a time. */
  lemma RunnersWithTimeCountsTimedRows(d: RunnerData, checkpoint: string)
    ensures var col := IndexOf(d.headers, checkpoint);
      var ix := Indices(TimeMask(d.data, col));
      && RunnersWithTime(d, checkpoint) == |ix|
      && forall i :: 0 <= i < |d.data| ==> (i in ix <==> HasTime(CellAt(d.data[i], col)))
  {
    var col := IndexOf(d.headers, checkpoint);
    var ix := Indices(TimeMask(d.data, col));
    forall i | 0 <= i < |d.data| && i in ix
      ensures HasTime(CellAt(d.data[i], col))
    {
      var k :| 0 <= k < |ix| && ix[k] == i;
    }
  }

  /**
   * A checkpoint missing from the header is not a no-op: the modal still
   * opens, every projected time cell is `undefined` and nobody is counted.
   */
  lemma AbsentCheckpointCountsNobody(d: RunnerData, checkpoint: string)
    requires checkpoint !in d.headers
    ensures RunnersWithTime(d, checkpoint) == 0
    ensures var all := ProjectAll(d.data, HeaderIndices(d.headers, checkpoint));
      forall i :: 0 <= i < |all| ==> all[i][TimeSlot] == None
  {
    IndicesNone(TimeMask(d.data, -1));
  }

  /** The modal headers are the fixed list, whatever the data. */
  lemma ViewHeaders(d: RunnerData, checkpoint: string)
    ensures CheckpointView(d, checkpoint).headers == ["Nom", "Temps", "Class/Sx", "Class/Cat", "Vit."]
  {
  }

  /** In digits followed by a slash, the first slash sits right after the digits. */
  lemma FirstSlashAfterDigits(x: string, y: string)
    requires AllDigits(x)
    ensures IndexOf(x + "/" + y, '/') == |x|
  {
    var w := x + "/" + y;
    assert w[|x|] == '/';
    assert w[..|x|] == x;
    var i := IndexOf(w, '/');
    assert 0 <= i;
    assert forall k :: 0 <= k < |x| ==> w[k] == x[k] != '/';
    assert forall j :: |x| < j <= |w| ==> w[|x|] in w[..j];
  }

  /** Two digit strings joined by a slash can be split back apart. */
  lemma DigitsSlashSplit(x: string, y: string, x2: string, y2: string)
    requires AllDigits(x) && AllDigits(x2)
    requires x + "/" + y == x2 + "/" + y2
    ensures x == x2 && y == y2
  {
    var w := x + "/" + y;
    FirstSlashAfterDigits(x, y);
    FirstSlashAfterDigits(x2, y2);
    assert x == w[..|x|] == x2;
    assert y == w[|x| + 1..] == y2;
  }

  /**
   * The title names the checkpoint and determines both counts: two titles
   * for the same checkpoint are equal only when their counts are.
   */
  lemma {:induction false} TitleDeterminesCounts(c: string, a: nat, b: nat, a2: nat, b2: nat)
    requires Title(c, a, b) == Title(c, a2, b2)
    ensures a == a2 && b == b2
  {
    var sa, sb, sa2, sb2 := NatToString(a), NatToString(b), NatToString(a2), NatToString(b2);
    var p := c + " - ";
    var t := Title(c, a, b);
    assert t == p + (sa + "/" + sb);
    assert t == p + (sa2 + "/" + sb2);
    var u := t[|p|..];
    assert u == sa + "/" + sb;
    assert u == sa2 + "/" + sb2;
    DigitsSlashSplit(sa, sb, sa2, sb2);
    NatToStringInjective(a, a2);
    NatToStringInjective(b, b2);
  }

  /**
   * A row whose `Class/Sx` cell carries neither marker is kept by neither
   * filter, so the groups need not cover the data.
   */
  lemma UnmarkedRowInNoGroup(d: RunnerData, i: nat)
    requires i < |d.data|
    requires var c := CellAt(d.data[i], IndexOf(d.headers, ClassSx));
      !IsMarked(c, MaleMarker) && !IsMarked(c, FemaleMarker)
    ensures var sx := IndexOf(d.headers, ClassSx);
      && i !in Indices(MarkerMask(d.data, sx, MaleMarker))
      && i !in Indices(MarkerMask(d.data, sx, FemaleMarker))
  {
  }

  /**
   * A row whose `Class/Sx` cell carries both markers is kept by both
   * filters, and its projection is shown in both groups, so the two groups
   * can together be longer than the data.
   */
  lemma DoublyMarkedRowInBothGroups(d: RunnerData, checkpoint: string, i: nat)
    requires i < |d.data|
    requires var c := CellAt(d.data[i], IndexOf(d.headers, ClassSx));
      IsMarked(c, MaleMarker) && IsMarked(c, FemaleMarker)
    ensures var sx := IndexOf(d.headers, ClassSx);
      && i in Indices(MarkerMask(d.data, sx, MaleMarker))
      && i in Indices(MarkerMask(d.data, sx, FemaleMarker))
    ensures var p := Project(d.data[i], HeaderIndices(d.headers, checkpoint));
      && p in Group(d, checkpoint, MaleMarker)
      && p in Group(d, checkpoint, FemaleMarker)
  {
    MarkedRowShown(d, checkpoint, MaleMarker, i);
    MarkedRowShown(d, checkpoint, FemaleMarker, i);
  }

  /** The projection of a row marked with `marker` is shown in that group. */
  lemma MarkedRowShown(d: RunnerData, checkpoint: string, marker: string, i: nat)
    requires i < |d.data|
    requires IsMarked(CellAt(d.data[i], IndexOf(d.headers, ClassSx)), marker)
    ensures Project(d.data[i], HeaderIndices(d.headers, checkpoint)) in Group(d, checkpoint, marker)
  {
    GroupIsMarkedRows(d, checkpoint, marker);
    var ix := Indices(MarkerMask(d.data, IndexOf(d.headers, ClassSx), marker));
    var k :| 0 <= k < |ix| && ix[k] == i;
    assert Group(d, checkpoint, marker)[k] == Project(d.data[i], HeaderIndices(d.headers, checkpoint));
  }

  /** On a one-row table whose `Class/Sx` cell is `7`, both groups are empty. */
  lemma UnmarkedRowExample()
    ensures var d := RunnerData(["Nom", "Class/Sx", "P1"], [["X", "7", "01:00"]]);
      && Group(d, "P1", MaleMarker) == []
      && Group(d, "P1", FemaleMarker) == []
      && |d.data| == 1
  {
    var d := RunnerData(["Nom", "Class/Sx", "P1"], [["X", "7", "01:00"]]);
    assert IndexOf(d.headers, ClassSx) == 1;
    assert !Includes("7", MaleMarker) && !Includes("7", FemaleMarker);
    assert MarkerMask(d.data, 1, MaleMarker) == [false];
    assert MarkerMask(d.data, 1, FemaleMarker) == [false];
  }

  /**
   * On a one-row table whose `Class/Sx` cell is `(M)(F)`, the two groups
   * hold two rows between them.
   */
  lemma DoublyMarkedRowExample()
    ensures var d := RunnerData(["Nom", "Class/Sx", "P1"], [["X", "(M)(F)", "01:00"]]);
      |Group(d, "P1", MaleMarker)| + |Group(d, "P1", FemaleMarker)| == 2 > |d.data|
  {
    var d := RunnerData(["Nom", "Class/Sx", "P1"], [["X", "(M)(F)", "01:00"]]);
    var cell := "(M)(F)";
    assert IndexOf(d.headers, ClassSx) == 1;
    assert OccursAt(cell, MaleMarker, 0);
    assert OccursAt(cell, FemaleMarker, 3);
    IncludesIffOccurs(cell, MaleMarker);
    IncludesIffOccurs(cell, FemaleMarker);
    assert MarkerMask(d.data, 1, MaleMarker) == [true];
    assert MarkerMask(d.data, 1, FemaleMarker) == [true];
  }

  // A checkpoint click on a two-runner dataset: one man with a time at
  // the checkpoint, one woman without.
  const ExampleHeaders: seq<string> := ["Nom", "Temps", "Class/Sx", "Class/Cat", "Vit.", "StEsteve"]
  const ExampleRowA: seq<string> := ["A", "01:00", "12(M)", "3(Cat)", "10", "01:00"]
  const ExampleRowB: seq<string> := ["B", "--", "5(F)", "1(Cat)", "--", "--"]

  lemma ExampleCheckpointColumn()
    ensures IndexOf(ExampleHeaders, "StEsteve") == 5
  {
    var h := ExampleHeaders;
    assert h[2][0] != "StEsteve"[0];
    assert forall k :: 0 <= k < 5 ==> h[k] != "StEsteve";
    IndexOfFirst(h, "StEsteve", 5);
  }

  lemma ExampleNameColumn()
    ensures IndexOf(ExampleHeaders, "Nom") == 0
  {
    IndexOfFirst(ExampleHeaders, "Nom", 0);
  }

  lemma ExampleClassSxColumn()
    ensures IndexOf(ExampleHeaders, "Class/Sx") == 2
  {
    var h := ExampleHeaders;
    assert h[0] != "Class/Sx" && h[1] != "Class/Sx";
    IndexOfFirst(h, "Class/Sx", 2);
  }

  lemma ExampleClassCatColumn()
    ensures IndexOf(ExampleHeaders, "Class/Cat") == 3
  {
    var h := ExampleHeaders;
    assert |h[2]| != |"Class/Cat"|;
    IndexOfFirst(h, "Class/Cat", 3);
  }

  lemma ExampleSpeedColumn()
    ensures IndexOf(ExampleHeaders, "Vit.") == 4
  {
    IndexOfFirst(ExampleHeaders, "Vit.", 4);
  }

  lemma ExampleColumns()
    ensures IndexOf(ExampleHeaders, "StEsteve") == 5
    ensures IndexOf(ExampleHeaders, ClassSx) == 2
    ensures HeaderIndices(ExampleHeaders, "StEsteve") == [0, 5, 2, 3, 4]
  {
    HeaderIndicesListed(ExampleHeaders, "StEsteve");
    ExampleCheckpointColumn();
    ExampleNameColumn();
    ExampleClassSxColumn();
    ExampleClassCatColumn();
    ExampleSpeedColumn();
  }

  lemma ExampleMarkers()
    ensures MarkerMask([ExampleRowA, ExampleRowB], 2, MaleMarker) == [true, false]
    ensures MarkerMask([ExampleRowA, ExampleRowB], 2, FemaleMarker) == [false, true]
  {
    assert OccursAt("12(M)", MaleMarker, 2);
    IncludesIffOccurs("12(M)", MaleMarker);
    assert OccursAt("5(F)", FemaleMarker, 1);
    IncludesIffOccurs("5(F)", FemaleMarker);
    IncludedCharsOccur("12(M)", FemaleMarker, 1);
    IncludedCharsOccur("5(F)", MaleMarker, 1);
  }

  lemma ExampleTimes()
    ensures TimeMask([ExampleRowA, ExampleRowB], 5) == [true, false]
  {
    assert TrimStart("01:00") == "01:00" && TrimEnd("01:00") == "01:00";
    assert TrimStart(NoTime) == NoTime && TrimEnd(NoTime) == NoTime;
  }

  const ExampleProjectedA: seq<Cell> := [Some("A"), Some("01:00"), Some("12(M)"), Some("3(Cat)"), Some("10")]
  const ExampleProjectedB: seq<Cell> := [Some("B"), Some("--"), Some("5(F)"), Some("1(Cat)"), Some("--")]

  lemma ExampleProjection()
    ensures ProjectAll([ExampleRowA, ExampleRowB], [0, 5, 2, 3, 4]) == [ExampleProjectedA, ExampleProjectedB]
  {
    assert Project(ExampleRowA, [0, 5, 2, 3, 4]) == ExampleProjectedA;
    assert Project(ExampleRowB, [0, 5, 2, 3, 4]) == ExampleProjectedB;
  }

  lemma ExampleGroups()
    ensures Group(RunnerData(ExampleHeaders, [ExampleRowA, ExampleRowB]), "StEsteve", MaleMarker) == [ExampleProjectedA]
    ensures Group(RunnerData(ExampleHeaders, [ExampleRowA, ExampleRowB]), "StEsteve", FemaleMarker) == [ExampleProjectedB]
  {
    ExampleColumns();
    ExampleMarkers();
    ExampleProjection();
    var all := [ExampleProjectedA, ExampleProjectedB];
    assert Select(all, [true, false]) == [ExampleProjectedA];
    assert Select(all, [false, true]) == [ExampleProjectedB];
  }

  lemma ExampleCount()
    ensures RunnersWithTime(RunnerData(ExampleHeaders, [ExampleRowA, ExampleRowB]), "StEsteve") == 1
  {
    ExampleColumns();
    ExampleTimes();
    var rows := [ExampleRowA, ExampleRowB];
    assert |Select(rows, [true, false])| == 1;
  }

  lemma ExampleTitleCounts()
    ensures CheckpointView(RunnerData(ExampleHeaders, [ExampleRowA, ExampleRowB]), "StEsteve").title
         == Title("StEsteve", 1, 2)
  {
    ExampleCount();
  }

  lemma ExampleTitleText()
    ensures Title("StEsteve", 1, 2) == "StEsteve - 1/2"
  {
    assert NatToString(1) == "1" && NatToString(2) == "2";
  }

  lemma ExampleTitle()
    ensures CheckpointView(RunnerData(ExampleHeaders, [ExampleRowA, ExampleRowB]), "StEsteve").title
         == "StEsteve - 1/2"
  {
    ExampleTitleCounts();
    ExampleTitleText();
  }

  /**
   * Clicking "StEsteve" on that dataset: the man's row, with his
   * checkpoint time in the time slot; the woman's row; one runner of two
   * with a time.
   */
  lemma StEsteveExample()
    ensures var v := CheckpointView(RunnerData(ExampleHeaders, [ExampleRowA, ExampleRowB]), "StEsteve");
      && v.menData == [ExampleProjectedA]
      && v.womenData == [ExampleProjectedB]
      && v.title == "StEsteve - 1/2"
  {
    ExampleGroups();
    ExampleTitle();
  }
}
