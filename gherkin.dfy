/**
 * The representation objects the Gherkin parser hands to the builder's
 * callbacks, reduced to the attributes the builder reads.  The parser
 * itself is a foreign library and is not modelled.
 */
module Gherkin {
  import opened Wrappers

  /** A row of a data table or an examples table: its cells. */
  type Row = seq<string>

  /** A feature, scenario, background or scenario-outline header. Each tag
      name still carries its leading `@`. */
  datatype Repr = Repr(name: string, line: int, tags: seq<string>)

  /** A step line with its optional doc-string value and optional table rows. */
  datatype StepRepr = StepRepr(
    keyword: string,
    name: string,
    line: int,
    docString: Option<string>,
    rows: Option<seq<Row>>)

  /** An examples block; its first row holds the headers. */
  datatype ExamplesRepr = ExamplesRepr(rows: seq<Row>)
}
