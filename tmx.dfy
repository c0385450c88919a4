/** The TMX reader: a single pass over tokenizer events that builds `tu`
    records holding `tuv` variants with their `seg` segments. A variant is
    kept on `</tuv>` only when its segment is non-empty, and a unit is kept
    on `</tu>` only when it holds at least one variant. */
module Tmx {
  import opened Events
  import opened Segments

  datatype TUV = TUV(language: string, seg: seq<SegNode>)

  datatype TU = TU(tuid: string, tuvs: seq<TUV>)

  const DefaultTuv := TUV("", [])
  const DefaultTu := TU("", [])

  /** The loop's variables between two events: the units kept so far, the
      current unit and the current variant. */
  datatype State = State(kept: seq<TU>, tu: TU, tuv: TUV)

  const Initial := State([], DefaultTu, DefaultTuv)

  /** The completeness invariant of a kept unit. */
  predicate KeptTu(tu: TU) {
    |tu.tuvs| != 0 && forall v :: v in tu.tuvs ==> |v.seg| != 0
  }

  /** What a start tag does to the loop's variables; `rest` are the events after it. */
  function OnStart(name: string, attrs: map<string, string>, rest: seq<Event>, st: State, parse: SegmentParser): (r: Result<(State, nat)>)
    ensures r.Ok? ==> r.value.1 <= |rest|
  {
    if name == "tu" then
      Ok((st.(tu := st.tu.(tuid := AttrOr(attrs, "tuid", ""))), 0))
    else if name == "tuv" then
      if "xml:lang" !in attrs then Err(MissingAttribute(name, "xml:lang"))
      else Ok((st.(tuv := st.tuv.(language := attrs["xml:lang"])), 0))
    else if name == "seg" then
      var (nodes, k) := Segment(parse, rest);
      Ok((if |nodes| != 0 then st.(tuv := st.tuv.(seg := nodes)) else st, k))
    else Ok((st, 0))
  }

  /** What an end tag does to the loop's variables. */
  function OnEnd(name: string, st: State): State {
    if name == "tuv" then
      var tuvs := if |st.tuv.seg| != 0 then st.tu.tuvs + [st.tuv] else st.tu.tuvs;
      st.(tu := st.tu.(tuvs := tuvs), tuv := DefaultTuv)
    else if name == "tu" then
      var kept := if |st.tu.tuvs| != 0 then st.kept + [st.tu] else st.kept;
      st.(kept := kept, tu := DefaultTu)
    else st
  }

  /** One turn of the event loop, at position `i`. */
  function Step(events: seq<Event>, i: nat, st: State, parse: SegmentParser): (r: Next<State>)
    requires i < |events|
    ensures r.Continue? ==> i < r.next <= |events|
  {
    match events[i]
    case Malformed => Fail(TokenizerError(i))
    case Eof => Stop
    case Start(name, attrs) =>
      (match OnStart(name, attrs, events[i + 1..], st, parse)
       case Err(e) => Fail(e)
       case Ok((st', k)) => Continue(st', i + 1 + k))
    case End(name) => Continue(OnEnd(name, st), i + 1)
    case _ => Continue(st, i + 1)
  }

  /** A tuv start without `xml:lang` and a tokenizer error are the only
      events that abort the loop, and `Eof` the only one that ends it. */
  lemma StepOutcome(events: seq<Event>, i: nat, st: State, parse: SegmentParser)
    requires i < |events|
    ensures Step(events, i, st, parse).Stop? <==> events[i].Eof?
    ensures Step(events, i, st, parse).Fail? <==>
      events[i].Malformed? || (events[i].Start? && events[i].name == "tuv" && "xml:lang" !in events[i].attrs)
  {
  }

  /** A turn that continues leaves the rest of the run unchanged. */
  lemma RunContinues(events: seq<Event>, i: nat, st: State, parse: SegmentParser, st': State, next: nat)
    requires i < |events| && Step(events, i, st, parse) == Continue(st', next)
    ensures next <= |events| && Run(events, i, st, parse) == Run(events, next, st', parse)
  {
  }

  /** The units the loop keeps when it runs from position `i` in state `st`
      to the end of input, or the error that aborts it. */
  function Run(events: seq<Event>, i: nat, st: State, parse: SegmentParser): Result<seq<TU>>
    requires i <= |events|
    decreases |events| - i
  {
    if i == |events| then Ok(st.kept)
    else
      match Step(events, i, st, parse)
      case Stop => Ok(st.kept)
      case Fail(e) => Err(e)
      case Continue(st', next) => Run(events, next, st', parse)
  }

  /** Everything `TmxFile::parse` keeps from a whole document. */
  function Assemble(events: seq<Event>, parse: SegmentParser): Result<seq<TU>> {
    Run(events, 0, Initial, parse)
  }

  // ---------------------------------------------------------------------
  // Completeness.

  ghost predicate Complete(st: State) {
    (forall tu :: tu in st.kept ==> KeptTu(tu)) &&
    (forall v :: v in st.tu.tuvs ==> |v.seg| != 0)
  }

  lemma StepKeepsComplete(events: seq<Event>, i: nat, st: State, parse: SegmentParser)
    requires i < |events| && Complete(st)
    ensures Step(events, i, st, parse).Continue? ==> Complete(Step(events, i, st, parse).state)
  {
  }

  lemma {:induction false} RunKeepsComplete(events: seq<Event>, i: nat, st: State, parse: SegmentParser)
    requires i <= |events| && Complete(st)
    ensures Run(events, i, st, parse).Ok? ==> forall tu :: tu in Run(events, i, st, parse).value ==> KeptTu(tu)
    decreases |events| - i
  {
    if i < |events| {
      StepKeepsComplete(events, i, st, parse);
      match Step(events, i, st, parse)
      case Stop =>
      case Fail(_) =>
      case Continue(st', next) => RunKeepsComplete(events, next, st', parse);
    }
  }

  /** Every kept unit has a variant, and every kept variant has a non-empty segment. */
  lemma AssembleKeepsComplete(events: seq<Event>, parse: SegmentParser)
    ensures Assemble(events, parse).Ok? ==>
      forall tu :: tu in Assemble(events, parse).value ==>
        |tu.tuvs| != 0 && forall v :: v in tu.tuvs ==> |v.seg| != 0
  {
    RunKeepsComplete(events, 0, Initial, parse);
  }

  // ---------------------------------------------------------------------
  // Provenance.

  /** `e` is a `<tu>` start tag whose `tuid`, or "" in its absence, is `tuid`. */
  predicate TuStartWith(e: Event, tuid: string) {
    e.Start? && e.name == "tu" && AttrOr(e.attrs, "tuid", "") == tuid
  }

  /** `e` is a `<tuv>` start tag whose `xml:lang` is exactly `language`. */
  predicate TuvStartWith(e: Event, language: string) {
    e.Start? && e.name == "tuv" && "xml:lang" in e.attrs && e.attrs["xml:lang"] == language
  }

  /** A `<seg>` start at position j for which the segment parser returned `nodes`. */
  predicate SegAt(events: seq<Event>, parse: SegmentParser, j: int, nodes: seq<SegNode>) {
    0 <= j < |events| && events[j].Start? && events[j].name == "seg" && Segment(parse, events[j + 1..]).0 == nodes
  }

  ghost predicate TuvFrom(events: seq<Event>, parse: SegmentParser, v: TUV) {
    (v.language == "" || exists j :: 0 <= j < |events| && TuvStartWith(events[j], v.language)) &&
    (v.seg == [] || exists j :: SegAt(events, parse, j, v.seg))
  }

  ghost predicate TuFrom(events: seq<Event>, parse: SegmentParser, tu: TU) {
    (tu.tuid == "" || exists j :: 0 <= j < |events| && TuStartWith(events[j], tu.tuid)) &&
    forall v :: v in tu.tuvs ==> TuvFrom(events, parse, v)
  }

  ghost predicate StateFrom(events: seq<Event>, parse: SegmentParser, st: State) {
    (forall tu :: tu in st.kept ==> TuFrom(events, parse, tu)) &&
    TuFrom(events, parse, st.tu) && TuvFrom(events, parse, st.tuv)
  }

  lemma StepKeepsProvenance(events: seq<Event>, i: nat, st: State, parse: SegmentParser)
    requires i < |events| && StateFrom(events, parse, st)
    ensures Step(events, i, st, parse).Continue? ==> StateFrom(events, parse, Step(events, i, st, parse).state)
  {
    match events[i]
    case Start(name, attrs) =>
      if name == "tu" {
        assert TuStartWith(events[i], AttrOr(attrs, "tuid", ""));
      } else if name == "tuv" && "xml:lang" in attrs {
        assert TuvStartWith(events[i], attrs["xml:lang"]);
      } else if name == "seg" {
        assert SegAt(events, parse, i, Segment(parse, events[i + 1..]).0);
      }
    case _ =>
  }

  lemma {:induction false} RunKeepsProvenance(events: seq<Event>, i: nat, st: State, parse: SegmentParser)
    requires i <= |events| && StateFrom(events, parse, st)
    ensures Run(events, i, st, parse).Ok? ==>
      forall tu :: tu in Run(events, i, st, parse).value ==> TuFrom(events, parse, tu)
    decreases |events| - i
  {
    if i < |events| {
      StepKeepsProvenance(events, i, st, parse);
      match Step(events, i, st, parse)
      case Stop =>
      case Fail(_) =>
      case Continue(st', next) => RunKeepsProvenance(events, next, st', parse);
    }
  }

  /** A kept `tuid` is the attribute of some `<tu>` (or "" when absent), a
      kept language is some `<tuv>`'s `xml:lang` as written, with no case
      change, and a kept segment is what the segment parser returned for
      some `<seg>` element; a value no such start tag supplied keeps the
      empty default ("" or no nodes). */
  lemma AssembleProvenance(events: seq<Event>, parse: SegmentParser)
    ensures Assemble(events, parse).Ok? ==>
      forall tu :: tu in Assemble(events, parse).value ==> TuFrom(events, parse, tu)
  {
    RunKeepsProvenance(events, 0, Initial, parse);
  }

  // ---------------------------------------------------------------------
  // Order: units are appended, never reordered or dropped once kept.

  lemma StepExtendsKept(events: seq<Event>, i: nat, st: State, parse: SegmentParser)
    requires i < |events|
    ensures Step(events, i, st, parse).Continue? ==> st.kept <= Step(events, i, st, parse).state.kept
  {
  }

  lemma {:induction false} RunExtendsKept(events: seq<Event>, i: nat, st: State, parse: SegmentParser)
    requires i <= |events|
    ensures Run(events, i, st, parse).Ok? ==> st.kept <= Run(events, i, st, parse).value
    decreases |events| - i
  {
    if i < |events| {
      StepExtendsKept(events, i, st, parse);
      match Step(events, i, st, parse)
      case Stop =>
      case Fail(_) =>
      case Continue(st', next) => RunExtendsKept(events, next, st', parse);
    }
  }

  // ---------------------------------------------------------------------
  // One event at a time.

  /** `<tu>` stores `tuid`, defaulting to "". */
  lemma TuStart(events: seq<Event>, i: nat, st: State, parse: SegmentParser)
    requires i < |events| && events[i].Start? && events[i].name == "tu"
    ensures var a := events[i].attrs;
      Step(events, i, st, parse) ==
        Continue(State(st.kept, TU(if "tuid" in a then a["tuid"] else "", st.tu.tuvs), st.tuv), i + 1)
  {
  }

  /** `<tuv>` stores `xml:lang` as written; a missing one is fatal. */
  lemma TuvStart(events: seq<Event>, i: nat, st: State, parse: SegmentParser)
    requires i < |events| && events[i].Start? && events[i].name == "tuv"
    ensures var a := events[i].attrs;
      Step(events, i, st, parse) ==
        if "xml:lang" !in a then Fail(MissingAttribute("tuv", "xml:lang"))
        else Continue(State(st.kept, st.tu, TUV(a["xml:lang"], st.tuv.seg)), i + 1)
  {
  }

  /** An empty parsed segment leaves the variant as it was. */
  lemma SegStart(events: seq<Event>, i: nat, st: State, parse: SegmentParser)
    requires i < |events| && events[i].Start? && events[i].name == "seg"
    ensures var (nodes, k) := Segment(parse, events[i + 1..]);
      Step(events, i, st, parse) ==
        Continue(if nodes == [] then st else st.(tuv := TUV(st.tuv.language, nodes)), i + 1 + k)
  {
  }

  /** `</tuv>` appends the variant exactly when its segment is non-empty,
      and resets the variant in any case. */
  lemma TuvEnd(events: seq<Event>, i: nat, st: State, parse: SegmentParser)
    requires i < |events| && events[i] == End("tuv")
    ensures Step(events, i, st, parse) ==
      Continue(State(st.kept, TU(st.tu.tuid, if |st.tuv.seg| != 0 then st.tu.tuvs + [st.tuv] else st.tu.tuvs), TUV("", [])), i + 1)
  {
  }

  /** `</tu>` appends the unit exactly when it holds a variant, and resets
      the unit in any case. */
  lemma TuEnd(events: seq<Event>, i: nat, st: State, parse: SegmentParser)
    requires i < |events| && events[i] == End("tu")
    ensures Step(events, i, st, parse) ==
      Continue(State(if |st.tu.tuvs| != 0 then st.kept + [st.tu] else st.kept, TU("", []), st.tuv), i + 1)
  {
  }

  // ---------------------------------------------------------------------
  // A variant with an empty segment leaves no trace: `<tuv><seg>...</seg></tuv>`
  // where the segment parses to nothing only resets the current variant, so
  // the unit is kept or dropped on the strength of its other variants.

  lemma EmptyVariantDropped(events: seq<Event>, i: nat, st: State, parse: SegmentParser)
    requires i + 1 < |events| && st.tuv.seg == []
    requires events[i].Start? && events[i].name == "tuv" && "xml:lang" in events[i].attrs
    requires events[i + 1].Start? && events[i + 1].name == "seg" && Segment(parse, events[i + 2..]).0 == []
    requires var k := Segment(parse, events[i + 2..]).1; i + 2 + k < |events| && events[i + 2 + k] == End("tuv")
    ensures var k := Segment(parse, events[i + 2..]).1;
      Run(events, i, st, parse) == Run(events, i + 3 + k, st.(tuv := DefaultTuv), parse)
  {
    var k := Segment(parse, events[i + 2..]).1;
    var st1 := st.(tuv := st.tuv.(language := events[i].attrs["xml:lang"]));
    TuvStart(events, i, st, parse);
    RunContinues(events, i, st, parse, st1, i + 1);
    SegStart(events, i + 1, st1, parse);
    RunContinues(events, i + 1, st1, parse, st1, i + 2 + k);
    TuvEnd(events, i + 2 + k, st1, parse);
    RunContinues(events, i + 2 + k, st1, parse, st.(tuv := DefaultTuv), i + 3 + k);
  }

  // ---------------------------------------------------------------------
  // The reader object.

  /** One turn of the loop of `TmxFile::parse`: handles the event at
      position `i` and reports the new unit, variant, the units it hands
      over for keeping and where to go on, or that the loop ends or aborts. */
  method Turn(events: seq<Event>, i: nat, curTu: TU, curTuv: TUV, parse: SegmentParser, ghost kept: seq<TU>)
    returns (r: Next<(TU, TUV, seq<TU>)>)
    requires i < |events|
    ensures match r
      case Continue((tu, tuv, closed), next) =>
        Step(events, i, State(kept, curTu, curTuv), parse) == Continue(State(kept + closed, tu, tuv), next)
      case Stop => Step(events, i, State(kept, curTu, curTuv), parse) == Stop
      case Fail(e) => Step(events, i, State(kept, curTu, curTuv), parse) == Fail(e)
  {
    var tu, tuv, closed, next := curTu, curTuv, [], i + 1;
    match events[i] {
      case Malformed =>
        return Fail(TokenizerError(i));
      case Eof =>
        return Stop;
      case Start(name, attrs) =>
        if name == "tu" {
          tu := tu.(tuid := if "tuid" in attrs then attrs["tuid"] else "");
        } else if name == "tuv" {
          if "xml:lang" !in attrs {
            return Fail(MissingAttribute(name, "xml:lang"));
          }
          tuv := tuv.(language := attrs["xml:lang"]);
        } else if name == "seg" {
          var (curSeg, k) := Segment(parse, events[i + 1..]);
          if |curSeg| != 0 {
            tuv := tuv.(seg := curSeg);
          }
          next := i + 1 + k;
        }
      case End(name) =>
        if name == "tuv" {
          if |tuv.seg| != 0 {
            tu := tu.(tuvs := tu.tuvs + [tuv]);
          }
          tuv := DefaultTuv;
        } else if name == "tu" {
          if |tu.tuvs| != 0 {
            closed := [tu];
          }
          tu := DefaultTu;
        }
      case _ =>
    }
    assert kept + [] == kept;
    r := Continue((tu, tuv, closed), next);
  }

  class TmxFile {
    const path: string
    const rawContent: seq<Event>
    var tus: seq<TU>

    /** `TmxFile::new` once the document has been read and tokenized:
        the document is parsed straight away. */
    constructor (path: string, rawContent: seq<Event>, parse: SegmentParser)
      ensures this.path == path && this.rawContent == rawContent
      ensures Assemble(rawContent, parse).Ok? ==> tus == Assemble(rawContent, parse).value
    {
      this.path := path;
      this.rawContent := rawContent;
      tus := [];
      new;
      var _ := Parse(parse);
    }

    /** Runs the event loop over the whole document, pushing kept units onto `tus`. */
    method Parse(parse: SegmentParser) returns (outcome: Outcome)
      modifies this
      ensures match Assemble(rawContent, parse)
        case Ok(units) => outcome == Done && tus == old(tus) + units
        case Err(e) => outcome == Fatal(e)
    {
      var curTu := DefaultTu;
      var curTuv := DefaultTuv;
      ghost var pushed: seq<TU> := [];
      ghost var result := Assemble(rawContent, parse);
      var i := 0;
      while i < |rawContent|
        invariant i <= |rawContent|
        invariant tus == old(tus) + pushed
        invariant Run(rawContent, i, State(pushed, curTu, curTuv), parse) == result
        decreases |rawContent| - i
      {
        ghost var st0 := State(pushed, curTu, curTuv);
        var r := Turn(rawContent, i, curTu, curTuv, parse, pushed);
        match r
        case Fail(e) =>
          return Fatal(e);
        case Stop =>
          break;
        case Continue((tu, tuv, closed), next) =>
          RunContinues(rawContent, i, st0, parse, State(pushed + closed, tu, tuv), next);
          tus := tus + closed;
          pushed := pushed + closed;
          curTu, curTuv := tu, tuv;
          i := next;
      }
      return Done;
    }
  }
}
