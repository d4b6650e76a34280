/** The report as the DataFrame `generate_result` returns: an `Agent ID`
    column, then four columns per date named after the date
    (cc_performance.py:47, 66-69). */
module Columns {
  import Dates
  import Distinct
  import opened Report

  /** A value in the output frame. */
  datatype Value = Text(text: string) | Count(n: nat)

  const AgentColumn := "Agent ID"

  /** The metric at position k (0 to 3) of a date's group of four columns. */
  function MetricName(k: nat): (name: string)
    requires k < 4
    ensures |name| > 0 && name[0] == ':'
  {
    match k
    case 0 => ": # Calls Attempted"
    case 1 => ": Avg Call Duration(s)"
    case 2 => ": # CR"
    case 3 => ": Avg CR Duration(s)"
  }

  function MetricValue(m: Metrics, k: nat): nat
    requires k < 4
  {
    match k
    case 0 => m.calls
    case 1 => m.avgDur
    case 2 => m.cr
    case 3 => m.avgCrDur
  }

  predicate AllCalendarDates(dates: seq<Dates.Date>) {
    forall j :: 0 <= j < |dates| ==> Dates.IsCalendarDate(dates[j])
  }

  /** The four column names a date contributes, in column order. */
  function Block(name: string): (names: seq<string>) {
    [name + MetricName(0), name + MetricName(1), name + MetricName(2), name + MetricName(3)]
  }

  /** The four values a date contributes to a line. */
  function Values(m: Metrics): seq<Value> {
    [Count(m.calls), Count(m.avgDur), Count(m.cr), Count(m.avgCrDur)]
  }

  /** The dates as the report names them, `%d/%m/%Y`. */
  function DateNames(dates: seq<Dates.Date>): (names: seq<string>)
    requires AllCalendarDates(dates)
    ensures |names| == |dates|
  {
    seq(|dates|, j requires 0 <= j < |dates| => Dates.Render(dates[j]))
  }

  /** Distinct dates have distinct ten-character names. */
  lemma DateNamesDistinct(dates: seq<Dates.Date>)
    requires AllCalendarDates(dates)
    requires Distinct.NoDuplicates(dates)
    ensures forall j :: 0 <= j < |dates| ==> |DateNames(dates)[j]| == 10
    ensures Distinct.NoDuplicates(DateNames(dates))
  {
    var names := DateNames(dates);
    forall a, b | 0 <= a < b < |names|
      ensures names[a] != names[b]
    {
      if names[a] == names[b] {
        Dates.RenderInjective(dates[a], dates[b]);
      }
    }
  }

  /** The metric columns, date name after date name. */
  function DateColumns(names: seq<string>): (columns: seq<string>)
    ensures |columns| == 4 * |names|
    decreases |names|
  {
    if |names| == 0 then [] else Block(names[0]) + DateColumns(names[1..])
  }

  function DateValues(cells: map<Dates.Date, Metrics>, dates: seq<Dates.Date>): (values: seq<Value>)
    requires forall j :: 0 <= j < |dates| ==> dates[j] in cells
    ensures |values| == 4 * |dates|
    decreases |dates|
  {
    if |dates| == 0 then [] else Values(cells[dates[0]]) + DateValues(cells, dates[1..])
  }

  /** The column names, in column order, for the report's date names:
      `Agent ID`, then for each date its name followed by the four metric
      names. */
  function Header(names: seq<string>): (columns: seq<string>)
    ensures |columns| == 1 + 4 * |names| && columns[0] == AgentColumn
    ensures forall j, k :: 0 <= j < |names| && 0 <= k < 4 ==> columns[1 + 4 * j + k] == names[j] + MetricName(k)
  {
    DateColumnsAt(names);
    [AgentColumn] + DateColumns(names)
  }

  /** One output line: the agent, then for each date its four metrics in
      the order the header names them. */
  function Line(row: Row, dates: seq<Dates.Date>): (values: seq<Value>)
    requires forall j :: 0 <= j < |dates| ==> dates[j] in row.cells
    ensures |values| == 1 + 4 * |dates| && values[0] == Text(row.agent)
    ensures forall j, k :: 0 <= j < |dates| && 0 <= k < 4 ==>
      values[1 + 4 * j + k] == Count(MetricValue(row.cells[dates[j]], k))
  {
    DateValuesAt(row.cells, dates);
    [Text(row.agent)] + DateValues(row.cells, dates)
  }

  lemma DateColumnsAt(names: seq<string>)
    ensures forall j, k :: 0 <= j < |names| && 0 <= k < 4 ==>
      DateColumns(names)[4 * j + k] == names[j] + MetricName(k)
  {
    forall j, k | 0 <= j < |names| && 0 <= k < 4
      ensures DateColumns(names)[4 * j + k] == names[j] + MetricName(k)
    {
      DateColumnAt(names, j, k);
    }
  }

  lemma DateValuesAt(cells: map<Dates.Date, Metrics>, dates: seq<Dates.Date>)
    requires forall i :: 0 <= i < |dates| ==> dates[i] in cells
    ensures forall j, k :: 0 <= j < |dates| && 0 <= k < 4 ==>
      DateValues(cells, dates)[4 * j + k] == Count(MetricValue(cells[dates[j]], k))
  {
    forall j, k | 0 <= j < |dates| && 0 <= k < 4
      ensures DateValues(cells, dates)[4 * j + k] == Count(MetricValue(cells[dates[j]], k))
    {
      DateValueAt(cells, dates, j, k);
    }
  }

  /** Column 4j + k of the metric columns names metric k of date j. */
  lemma {:induction false} DateColumnAt(names: seq<string>, j: nat, k: nat)
    requires j < |names| && k < 4
    ensures DateColumns(names)[4 * j + k] == names[j] + MetricName(k)
    decreases j
  {
    assert DateColumns(names) == Block(names[0]) + DateColumns(names[1..]);
    if j > 0 {
      DateColumnAt(names[1..], j - 1, k);
      assert names[1..][j - 1] == names[j];
    }
  }

  /** The same position of a line's values holds that metric. */
  lemma {:induction false} DateValueAt(cells: map<Dates.Date, Metrics>, dates: seq<Dates.Date>, j: nat, k: nat)
    requires forall i :: 0 <= i < |dates| ==> dates[i] in cells
    requires j < |dates| && k < 4
    ensures DateValues(cells, dates)[4 * j + k] == Count(MetricValue(cells[dates[j]], k))
    decreases j
  {
    if j > 0 {
      DateValueAt(cells, dates[1..], j - 1, k);
    }
  }

  /** Every metric column is column 4j + k for one date j and metric k. */
  lemma {:induction false} ColumnOf(names: seq<string>, i: nat) returns (j: nat, k: nat)
    requires i < 4 * |names|
    ensures j < |names| && k < 4 && i == 4 * j + k
    ensures DateColumns(names)[i] == names[j] + MetricName(k)
    decreases |names|
  {
    if i < 4 {
      j, k := 0, i;
    } else {
      var j', k' := ColumnOf(names[1..], i - 4);
      j, k := j' + 1, k';
    }
  }

  /** Different metrics have different names. */
  lemma MetricNamesDistinct(k1: nat, k2: nat)
    requires k1 < 4 && k2 < 4 && k1 != k2
    ensures MetricName(k1) != MetricName(k2)
  {
    assert |MetricName(k1)| != |MetricName(k2)|;
  }

  /** Distinct ten-character date names give distinct column names, so no
      per-date column assignment overwrites another and each date keeps its
      four columns. */
  lemma HeaderDistinct(names: seq<string>)
    requires forall j :: 0 <= j < |names| ==> |names[j]| == 10
    requires Distinct.NoDuplicates(names)
    ensures Distinct.NoDuplicates(Header(names))
  {
    var cols := DateColumns(names);
    forall a, b | 0 <= a < b < |cols|
      ensures cols[a] != cols[b]
    {
      MetricColumnsDiffer(names, a, b);
    }
    forall i | 0 <= i < |cols|
      ensures cols[i] != AgentColumn
    {
      NotAgentColumn(names, i);
    }
    Distinct.NoDuplicatesCons(AgentColumn, cols);
  }

  /** No metric column is named like the agent column. */
  lemma NotAgentColumn(names: seq<string>, i: nat)
    requires forall j :: 0 <= j < |names| ==> |names[j]| == 10
    requires i < 4 * |names|
    ensures DateColumns(names)[i] != AgentColumn
  {
    var j, k := ColumnOf(names, i);
    assert |names[j]| == 10;
  }

  /** Two metric columns at different positions have different names. */
  lemma MetricColumnsDiffer(names: seq<string>, a: nat, b: nat)
    requires forall j :: 0 <= j < |names| ==> |names[j]| == 10
    requires Distinct.NoDuplicates(names)
    requires a < b < 4 * |names|
    ensures DateColumns(names)[a] != DateColumns(names)[b]
  {
    var ja, ka := ColumnOf(names, a);
    var jb, kb := ColumnOf(names, b);
    if ja == jb {
      assert ka != kb;
    } else {
      assert names[ja] != names[jb];
    }
    ColumnNamesDiffer(names[ja], names[jb], ka, kb);
  }

  /** Date name plus metric name is a different column name as soon as the
      ten-character date names or the metrics differ. */
  lemma ColumnNamesDiffer(n1: string, n2: string, k1: nat, k2: nat)
    requires |n1| == 10 && |n2| == 10 && k1 < 4 && k2 < 4
    requires n1 != n2 || k1 != k2
    ensures n1 + MetricName(k1) != n2 + MetricName(k2)
  {
    var c1, c2 := n1 + MetricName(k1), n2 + MetricName(k2);
    if c1 == c2 {
      assert c1[..10] == n1 && c2[..10] == n2;
      assert c1[10..] == MetricName(k1) && c2[10..] == MetricName(k2);
      MetricNamesDistinct(k1, k2);
    }
  }

  /** Date j's four values sit at columns 1 + 4j to 4 + 4j of a line. */
  lemma LineBlock(row: Row, dates: seq<Dates.Date>, j: nat)
    requires forall i :: 0 <= i < |dates| ==> dates[i] in row.cells
    requires j < |dates|
    ensures Line(row, dates)[1 + 4 * j .. 5 + 4 * j] == Values(row.cells[dates[j]])
  {
    DateValueAt(row.cells, dates, j, 0);
    DateValueAt(row.cells, dates, j, 1);
    DateValueAt(row.cells, dates, j, 2);
    DateValueAt(row.cells, dates, j, 3);
  }
}
