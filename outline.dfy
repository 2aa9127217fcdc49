/**
 * `ScenarioOutline#rows_to_scenarios`: the first examples row gives the
 * headers, and every further row yields one scenario whose steps are the
 * template steps with their placeholders substituted.
 *
 * Step names and table cells are substituted against the current row.  A
 * doc-string argument is substituted against the list of ALL data rows
 * instead, so header i takes data row i as a whole, rendered by Ruby's
 * `Array#to_s`; that rendering is the parameter `render`.
 */
module Outline {
  import opened Wrappers
  import opened Steps
  import opened Substitution

  /** `rows.map(&:to_s)`, the value data row i takes under header i. */
  function Rendered(rows: seq<seq<string>>, render: seq<string> -> string): seq<string> {
    seq(|rows|, i requires 0 <= i < |rows| => render(rows[i]))
  }

  /** `swap(arg, headers, rows)` on a doc-string: the values are the data rows. */
  function DocSwap(s: string, headers: seq<string>, dataRows: seq<seq<string>>,
                   render: seq<string> -> string): string
  {
    Gsub(s, Zip(headers, Rendered(dataRows, render)))
  }

  /** A new table with every cell substituted against the current row. */
  function SwapTable(t: Table, headers: seq<string>, row: seq<string>): (r: Table)
    ensures |r| == |t|
    ensures forall i :: 0 <= i < |r| ==> |r[i]| == |t[i]|
    ensures forall i, j :: 0 <= i < |r| && 0 <= j < |r[i]| ==> r[i][j] == Swap(t[i][j], headers, row)
  {
    seq(|t|, i requires 0 <= i < |t| =>
      seq(|t[i]|, j requires 0 <= j < |t[i]| => Swap(t[i][j], headers, row)))
  }

  function ExpandArg(arg: Arg, headers: seq<string>, row: seq<string>,
                     dataRows: seq<seq<string>>, render: seq<string> -> string): (r: Arg)
    ensures r.Text? == arg.Text?
  {
    match arg
    case Text(v) => Text(DocSwap(v, headers, dataRows, render))
    case Grid(t) => Grid(SwapTable(t, headers, row))
  }

  /** One template step rebuilt for one data row. */
  function ExpandStep(step: Step, headers: seq<string>, row: seq<string>,
                      dataRows: seq<seq<string>>, render: seq<string> -> string): (r: Step)
    ensures r.keyword == step.keyword && r.line == step.line
    ensures r.name == Swap(step.name, headers, row)
    ensures |r.args| == |step.args|
    ensures forall k :: 0 <= k < |r.args| ==> r.args[k].Text? == step.args[k].Text?
    ensures forall k :: 0 <= k < |r.args| && step.args[k].Text? ==>
              r.args[k].value == DocSwap(step.args[k].value, headers, dataRows, render)
    ensures forall k :: 0 <= k < |r.args| && step.args[k].Grid? ==>
              r.args[k].table == SwapTable(step.args[k].table, headers, row)
  {
    var args := seq(|step.args|, k requires 0 <= k < |step.args| =>
                      ExpandArg(step.args[k], headers, row, dataRows, render));
    Step(step.keyword, Swap(step.name, headers, row), step.line, args)
  }

  /** The step lists of the scenarios an outline expands to, in data-row
      order: with k examples rows, k - 1 scenarios (none when there is no
      row at all), each with one step per template step. */
  function Expand(steps: seq<Step>, examples: seq<seq<string>>,
                  render: seq<string> -> string): (r: seq<seq<Step>>)
    ensures |r| == if examples == [] then 0 else |examples| - 1
    ensures forall i :: 0 <= i < |r| ==> |r[i]| == |steps|
    ensures forall i, j :: 0 <= i < |r| && 0 <= j < |steps| ==>
              r[i][j] == ExpandStep(steps[j], examples[0], examples[i + 1], examples[1..], render)
  {
    if examples == [] then []
    else
      var headers, data := examples[0], examples[1..];
      seq(|data|, i requires 0 <= i < |data| =>
        seq(|steps|, j requires 0 <= j < |steps| => ExpandStep(steps[j], headers, data[i], data, render)))
  }

  /** No placeholder anywhere in the step: name, doc-strings or cells. */
  ghost predicate PlaceholderFree(step: Step) {
    && NoMatch(step.name)
    && forall k :: 0 <= k < |step.args| ==> ArgPlaceholderFree(step.args[k])
  }

  ghost predicate ArgPlaceholderFree(arg: Arg) {
    match arg
    case Text(v) => NoMatch(v)
    case Grid(t) => forall i, j :: 0 <= i < |t| && 0 <= j < |t[i]| ==> NoMatch(t[i][j])
  }

  lemma ExpandArgPlaceholderFree(arg: Arg, headers: seq<string>, row: seq<string>,
                                 dataRows: seq<seq<string>>, render: seq<string> -> string)
    requires ArgPlaceholderFree(arg)
    ensures ExpandArg(arg, headers, row, dataRows, render) == arg
  {
    match arg
    case Text(v) =>
      GsubNoMatch(v, Zip(headers, Rendered(dataRows, render)));
    case Grid(t) =>
      var r := SwapTable(t, headers, row);
      forall i | 0 <= i < |t| ensures r[i] == t[i] {
        forall j | 0 <= j < |t[i]| ensures r[i][j] == t[i][j] {
          GsubNoMatch(t[i][j], Zip(headers, row));
        }
      }
  }

  /** A step without placeholders expands to itself, whatever the row. */
  lemma ExpandPlaceholderFreeStep(step: Step, headers: seq<string>, row: seq<string>,
                                  dataRows: seq<seq<string>>, render: seq<string> -> string)
    requires PlaceholderFree(step)
    ensures ExpandStep(step, headers, row, dataRows, render) == step
  {
    var r := ExpandStep(step, headers, row, dataRows, render);
    GsubNoMatch(step.name, Zip(headers, row));
    forall k | 0 <= k < |step.args| ensures r.args[k] == step.args[k] {
      ExpandArgPlaceholderFree(step.args[k], headers, row, dataRows, render);
    }
  }

  /** For the i-th (and last such) header, a placeholder in a step name or a
      table cell takes the current row's cell i, while the same placeholder
      in a doc-string takes the rendering of data row i, whatever the
      current row is. */
  lemma DocStringTakesDataRow(headers: seq<string>, i: int, row: seq<string>,
                              dataRows: seq<seq<string>>, render: seq<string> -> string)
    requires 0 <= i < |headers| && '>' !in headers[i]
    requires forall j :: i < j < |headers| ==> headers[j] != headers[i]
    ensures Swap("<" + headers[i] + ">", headers, row) == if i < |row| then row[i] else ""
    ensures DocSwap("<" + headers[i] + ">", headers, dataRows, render)
            == if i < |dataRows| then render(dataRows[i]) else ""
  {
    SwapToken(headers, row, i);
    var env := Zip(headers, Rendered(dataRows, render));
    assert "<" + headers[i] + ">" == "<" + headers[i] + ">" + "";
    GsubHole(headers[i], "", env);
    HeaderLookup(headers, Rendered(dataRows, render), i);
  }

  /** The template step `I have <n> widgets` for a row whose `n` is `v`. */
  lemma WidgetsStep(v: string, line: int, dataRows: seq<seq<string>>, render: seq<string> -> string)
    ensures ExpandStep(Step("Given ", "I have <n> widgets", line, []), ["n"], [v], dataRows, render)
            == Step("Given ", "I have " + v + " widgets", line, [])
  {
    assert "I have <n> widgets" == "I have " + "<" + "n" + ">" + " widgets";
    SwapOnePlaceholder("I have ", " widgets", ["n"], [v], 0);
  }

  /** The scenario of a one-step outline for data row i. */
  lemma ExpandOneStep(step: Step, examples: seq<seq<string>>, render: seq<string> -> string, i: int)
    requires 0 <= i < |examples| - 1
    ensures Expand([step], examples, render)[i] == [ExpandStep(step, examples[0], examples[i + 1], examples[1..], render)]
  {
  }

  /** Template step `I have <n> widgets` with examples rows `n`, `a`, `b`
      expands to two scenarios, `I have a widgets` then `I have b widgets`,
      each keeping the step's keyword and line (with `a`, `b` = `3`, `5`
      this is the documented example). */
  lemma WidgetsExample(a: string, b: string, line: int, render: seq<string> -> string)
    ensures var r := Expand([Step("Given ", "I have <n> widgets", line, [])], [["n"], [a], [b]], render);
            && |r| == 2
            && r[0] == [Step("Given ", "I have " + a + " widgets", line, [])]
            && r[1] == [Step("Given ", "I have " + b + " widgets", line, [])]
  {
    var examples := [["n"], [a], [b]];
    var step := Step("Given ", "I have <n> widgets", line, []);
    ExpandOneStep(step, examples, render, 0);
    ExpandOneStep(step, examples, render, 1);
    WidgetsStep(a, line, examples[1..], render);
    WidgetsStep(b, line, examples[1..], render);
  }
}
