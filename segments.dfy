/** Segment trees and the segment parser the readers call for the content
    of `source`, `target`, `seg` and `term` elements and of spreadsheet
    cells. The parser itself is not part of this model: readers receive it
    as a parameter and rely only on how many events it may consume. */
module Segments {
  import Events

  /** Mixed text/markup content of one segment. */
  datatype SegNode =
    | Text(text: string)
    | Container(tag: string, attrs: map<string, string>, children: seq<SegNode>)
    | Marker(tag: string, attrs: map<string, string>)

  /** A segment parser over the events that follow an opening content tag:
      it returns the nodes it built and the number of events it consumed,
      never more than there are. */
  type SegmentParser = seq<Events.Event> -> (seq<SegNode>, nat)

  /** Calls the segment parser on the events `rest` that follow an opening
      tag. The parser reads from the same tokenizer as its caller, so it
      cannot consume more events than remain; the count is capped there. */
  function Segment(parse: SegmentParser, rest: seq<Events.Event>): (r: (seq<SegNode>, nat))
    ensures r.0 == parse(rest).0
    ensures r.1 <= |rest|
    ensures parse(rest).1 <= |rest| ==> r.1 == parse(rest).1
  {
    var (nodes, k) := parse(rest);
    (nodes, if k <= |rest| then k else |rest|)
  }

  /** The inline parser used on spreadsheet cells: a cell's text, read as a
      miniature document, becomes a segment. */
  type InlineParser = string -> seq<SegNode>
}
