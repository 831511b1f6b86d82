/** What the exporters and the path helpers produce: CSV cells and paths. */
module Output {
  import opened Calendar

  /** One value handed to Python's csv writer.  The writer prints text as it
      is, `None` as the empty field and numbers with `str`; the text of a
      float (`str(x)`) and of an instant (`isoformat()`) is left abstract, so
      those cells carry the value itself. */
  datatype Cell = Text(s: string) | Int(n: int) | Real(x: real) | Instant(t: Timestamp) | Empty

  /** `pathlib.Path`: a path made from text, or a parent joined with one more name. */
  datatype Path = FromText(text: string) | Child(parent: Path, name: string)

  /** The cells of a row of text. */
  function TextRow(texts: seq<string>): (r: seq<Cell>)
    ensures |r| == |texts| && forall i :: 0 <= i < |texts| ==> r[i] == Text(texts[i])
  {
    seq(|texts|, i requires 0 <= i < |texts| => Text(texts[i]))
  }
}
