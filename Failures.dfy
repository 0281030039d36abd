/**
 * The exceptions that reach the serving layer. Each carries a text that stands for what
 * `str(e)` gives: the HTTPException and missing-argument TypeError texts follow Python's
 * format, while the database and PDF texts stand for driver messages that are not modelled.
 */
module Failures {
  import Text

  datatype Error =
    | DataUnavailable(source: string)  // the database raised while running a query
    | TemplateFailure(detail: string)  // Jinja could not load or render the template
    | PdfFailure(path: string)         // WeasyPrint could not write the document
    | MissingArgument(name: string)    // a dataclass was built without a required field
    | HttpStatus(status: int, detail: string)  // an HTTPException raised by a handler
  {
    /** The text standing for `str(e)`; an HTTPException prints as "<status>: <detail>". */
    function Message(): string {
      match this
      case DataUnavailable(s) => "database error on " + s
      case TemplateFailure(d) => d
      case PdfFailure(p) => "cannot write " + p
      case MissingArgument(n) => "ReportDTO.__init__() missing 1 required positional argument: '" + n + "'"
      case HttpStatus(s, d) => Text.IntToString(s) + ": " + d
    }
  }

  /**
   * The text of an HTTPException determines it: two print alike exactly when they have the
   * same status and the same detail, so a 404 re-raised with `detail=str(e)` keeps both.
   */
  lemma HttpStatusMessageInjective(s1: int, d1: string, s2: int, d2: string)
    ensures HttpStatus(s1, d1).Message() == HttpStatus(s2, d2).Message() <==> s1 == s2 && d1 == d2
  {
    if HttpStatus(s1, d1).Message() == HttpStatus(s2, d2).Message() {
      Text.NumeralHasNo(s1, ':');
      Text.NumeralHasNo(s2, ':');
      assert Text.IntToString(s1) + [':'] + (" " + d1) == HttpStatus(s1, d1).Message();
      assert Text.IntToString(s2) + [':'] + (" " + d2) == HttpStatus(s2, d2).Message();
      Text.SplitAtSeparator(Text.IntToString(s1), " " + d1, Text.IntToString(s2), " " + d2, ':');
      Text.IntToStringInjective(s1, s2);
      assert d1 == (" " + d1)[1..] && d2 == (" " + d2)[1..];
    }
  }
}
