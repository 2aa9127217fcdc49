/** The built step record and its arguments. */
module Steps {
  /** A tabular step argument: an ordered list of rows of cells. */
  type Table = seq<seq<string>>

  /** A step argument is either a doc-string's text or a table. */
  datatype Arg = Text(value: string) | Grid(table: Table)

  /** An immutable step, as `Step < Struct.new(:keyword, :name, :line, :step_args)`. */
  datatype Step = Step(keyword: string, name: string, line: int, args: seq<Arg>) {
    /** The step as text: the keyword immediately followed by the name. */
    function ToString(): (r: string)
      ensures |r| == |keyword| + |name|
      ensures r[..|keyword|] == keyword && r[|keyword|..] == name
    {
      keyword + name
    }
  }
}
