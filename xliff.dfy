/** The XLIFF 1.2 reader: a single pass over tokenizer events that builds
    `file` records holding `trans-unit` records with their source and
    target segments. A unit is kept on `</trans-unit>` only when both its
    source and target are non-empty; a file is kept on `</file>` only when
    it holds at least one unit. */
module Xliff {
  import opened Events
  import opened Segments

  datatype TransUnit = TransUnit(id: string, translate: string, source: seq<SegNode>, target: seq<SegNode>)

  datatype XFile = XFile(srcLanguage: string, tgtLanguage: string, transUnits: seq<TransUnit>)

  const DefaultUnit := TransUnit("", "", [], [])
  const DefaultFile := XFile("", "", [])

  /** The loop's variables between two events: the files kept so far, the
      current file and the current unit. */
  datatype State = State(kept: seq<XFile>, file: XFile, unit: TransUnit)

  const Initial := State([], DefaultFile, DefaultUnit)

  predicate CompleteUnit(u: TransUnit) {
    |u.source| != 0 && |u.target| != 0
  }

  /** The completeness invariant of a kept file. */
  predicate KeptFile(f: XFile) {
    |f.transUnits| != 0 && forall u :: u in f.transUnits ==> CompleteUnit(u)
  }

  /** A start tag whose mandatory attributes are missing. */
  predicate MissesRequired(e: Event) {
    e.Start? &&
    ((e.name == "file" && ("source-language" !in e.attrs || "target-language" !in e.attrs)) ||
     (e.name == "trans-unit" && "id" !in e.attrs))
  }

  /** What a start tag does to the current file and unit (start tags never
      touch the kept files); `rest` are the events after it, and the number
      returned is how many of them the segment parser consumed. */
  function OnStart(name: string, attrs: map<string, string>, rest: seq<Event>, file: XFile, unit: TransUnit,
                   parse: SegmentParser): (r: Result<(XFile, TransUnit, nat)>)
    ensures r.Ok? ==> r.value.2 <= |rest|
  {
    if name == "file" then
      if "source-language" !in attrs then Err(MissingAttribute(name, "source-language"))
      else if "target-language" !in attrs then Err(MissingAttribute(name, "target-language"))
      else Ok((file.(srcLanguage := attrs["source-language"], tgtLanguage := attrs["target-language"]), unit, 0))
    else if name == "trans-unit" then
      if "id" !in attrs then Err(MissingAttribute(name, "id"))
      else Ok((file, unit.(id := attrs["id"], translate := AttrOr(attrs, "translate", "yes")), 0))
    else if name == "source" then
      var (nodes, k) := Segment(parse, rest);
      Ok((file, if |nodes| != 0 then unit.(source := nodes) else unit, k))
    else if name == "target" then
      var (nodes, k) := Segment(parse, rest);
      Ok((file, if |nodes| != 0 then unit.(target := nodes) else unit, k))
    else Ok((file, unit, 0))
  }

  /** What an end tag does to the current file and unit, and the file it
      hands over for keeping, if any. */
  function OnEnd(name: string, file: XFile, unit: TransUnit): (XFile, TransUnit, seq<XFile>) {
    if name == "file" then
      (DefaultFile, unit, if |file.transUnits| != 0 then [file] else [])
    else if name == "trans-unit" then
      (if CompleteUnit(unit) then file.(transUnits := file.transUnits + [unit]) else file, DefaultUnit, [])
    else (file, unit, [])
  }

  /** One turn of the event loop, at position `i`. */
  function Step(events: seq<Event>, i: nat, st: State, parse: SegmentParser): (r: Next<State>)
    requires i < |events|
    ensures r.Continue? ==> i < r.next <= |events|
  {
    match events[i]
    case Malformed => Fail(TokenizerError(i))
    case Eof => Stop
    case Start(name, attrs) =>
      (match OnStart(name, attrs, events[i + 1..], st.file, st.unit, parse)
       case Err(e) => Fail(e)
       case Ok((file, unit, k)) => Continue(State(st.kept, file, unit), i + 1 + k))
    case End(name) =>
      var (file, unit, closed) := OnEnd(name, st.file, st.unit);
      Continue(State(st.kept + closed, file, unit), i + 1)
    case _ => Continue(st, i + 1)
  }

  /** Missing mandatory attributes and tokenizer errors are the only events
      that abort the loop, and `Eof` the only one that ends it. */
  lemma StepOutcome(events: seq<Event>, i: nat, st: State, parse: SegmentParser)
    requires i < |events|
    ensures Step(events, i, st, parse).Stop? <==> events[i].Eof?
    ensures Step(events, i, st, parse).Fail? <==> events[i].Malformed? || MissesRequired(events[i])
  {
  }

  /** The files the loop keeps when it runs from position `i` in state `st`
      to the end of input, or the error that aborts it. */
  function Run(events: seq<Event>, i: nat, st: State, parse: SegmentParser): Result<seq<XFile>>
    requires i <= |events|
    decreases |events| - i
  {
    if i == |events| then Ok(st.kept)
    else
      match Step(events, i, st, parse)
      case Stop => Ok(st.kept)
      case Fail(e) => Err(e)
      case Continue(st', next) => Run(events, next, st', parse)
  }

  /** Everything `XliffFile::parse` keeps from a whole document. */
  function Assemble(events: seq<Event>, parse: SegmentParser): Result<seq<XFile>> {
    Run(events, 0, Initial, parse)
  }

  /** A turn that continues leaves the rest of the run unchanged. */
  lemma RunContinues(events: seq<Event>, i: nat, st: State, parse: SegmentParser, st': State, next: nat)
    requires i < |events| && Step(events, i, st, parse) == Continue(st', next)
    ensures next <= |events| && Run(events, i, st, parse) == Run(events, next, st', parse)
  {
  }

  // ---------------------------------------------------------------------
  // Completeness: no kept unit lacks a source or target, no kept file is empty.

  ghost predicate Complete(st: State) {
    (forall f :: f in st.kept ==> KeptFile(f)) &&
    (forall u :: u in st.file.transUnits ==> CompleteUnit(u))
  }

  lemma StepKeepsComplete(events: seq<Event>, i: nat, st: State, parse: SegmentParser)
    requires i < |events| && Complete(st)
    ensures Step(events, i, st, parse).Continue? ==> Complete(Step(events, i, st, parse).state)
  {
  }

  lemma {:induction false} RunKeepsComplete(events: seq<Event>, i: nat, st: State, parse: SegmentParser)
    requires i <= |events| && Complete(st)
    ensures Run(events, i, st, parse).Ok? ==> forall f :: f in Run(events, i, st, parse).value ==> KeptFile(f)
    decreases |events| - i
  {
    if i < |events| {
      StepKeepsComplete(events, i, st, parse);
      match Step(events, i, st, parse)
      case Stop =>
      case Fail(_) =>
      case Continue(st', next) => RunKeepsComplete(events, next, st', parse);
    }
  }

  /** Every kept file has a unit, and every kept unit has a non-empty
      source and a non-empty target. */
  lemma AssembleKeepsComplete(events: seq<Event>, parse: SegmentParser)
    ensures Assemble(events, parse).Ok? ==>
      forall f :: f in Assemble(events, parse).value ==>
        |f.transUnits| != 0 &&
        forall u :: u in f.transUnits ==> |u.source| != 0 && |u.target| != 0
  {
    RunKeepsComplete(events, 0, Initial, parse);
  }

  // ---------------------------------------------------------------------
  // Provenance: every stored attribute value and segment comes verbatim from
  // an event of the input, or is the untouched default.

  /** `e` is a `<file>` start tag whose languages are exactly `src` and `tgt`. */
  predicate FileStartWith(e: Event, src: string, tgt: string) {
    e.Start? && e.name == "file" &&
    "source-language" in e.attrs && e.attrs["source-language"] == src &&
    "target-language" in e.attrs && e.attrs["target-language"] == tgt
  }

  /** `e` is a `<trans-unit>` start tag with id `id` whose `translate`
      attribute, or "yes" in its absence, is `translate`. */
  predicate UnitStartWith(e: Event, id: string, translate: string) {
    e.Start? && e.name == "trans-unit" &&
    "id" in e.attrs && e.attrs["id"] == id &&
    translate == AttrOr(e.attrs, "translate", "yes")
  }

  /** A `<tag>` start at position j for which the segment parser returned `nodes`. */
  predicate ContentAt(events: seq<Event>, parse: SegmentParser, tag: string, j: int, nodes: seq<SegNode>) {
    0 <= j < |events| && events[j].Start? && events[j].name == tag && Segment(parse, events[j + 1..]).0 == nodes
  }

  ghost predicate LanguagesFrom(events: seq<Event>, src: string, tgt: string) {
    (src == "" && tgt == "") || exists j :: 0 <= j < |events| && FileStartWith(events[j], src, tgt)
  }

  ghost predicate HeaderFrom(events: seq<Event>, id: string, translate: string) {
    (id == "" && translate == "") || exists j :: 0 <= j < |events| && UnitStartWith(events[j], id, translate)
  }

  ghost predicate ContentFrom(events: seq<Event>, parse: SegmentParser, tag: string, nodes: seq<SegNode>) {
    nodes == [] || exists j :: ContentAt(events, parse, tag, j, nodes)
  }

  ghost predicate UnitFrom(events: seq<Event>, parse: SegmentParser, u: TransUnit) {
    HeaderFrom(events, u.id, u.translate) &&
    ContentFrom(events, parse, "source", u.source) &&
    ContentFrom(events, parse, "target", u.target)
  }

  ghost predicate FileFrom(events: seq<Event>, parse: SegmentParser, f: XFile) {
    LanguagesFrom(events, f.srcLanguage, f.tgtLanguage) &&
    forall u :: u in f.transUnits ==> UnitFrom(events, parse, u)
  }

  ghost predicate StateFrom(events: seq<Event>, parse: SegmentParser, st: State) {
    (forall f :: f in st.kept ==> FileFrom(events, parse, f)) &&
    FileFrom(events, parse, st.file) &&
    UnitFrom(events, parse, st.unit)
  }

  lemma StepKeepsProvenance(events: seq<Event>, i: nat, st: State, parse: SegmentParser)
    requires i < |events| && StateFrom(events, parse, st)
    ensures Step(events, i, st, parse).Continue? ==> StateFrom(events, parse, Step(events, i, st, parse).state)
  {
    match events[i]
    case Start(name, attrs) =>
      if name == "file" && "source-language" in attrs && "target-language" in attrs {
        assert FileStartWith(events[i], attrs["source-language"], attrs["target-language"]);
      } else if name == "trans-unit" && "id" in attrs {
        assert UnitStartWith(events[i], attrs["id"], AttrOr(attrs, "translate", "yes"));
      } else if name == "source" || name == "target" {
        assert ContentAt(events, parse, name, i, Segment(parse, events[i + 1..]).0);
      }
    case _ =>
  }

  lemma {:induction false} RunKeepsProvenance(events: seq<Event>, i: nat, st: State, parse: SegmentParser)
    requires i <= |events| && StateFrom(events, parse, st)
    ensures Run(events, i, st, parse).Ok? ==>
      forall f :: f in Run(events, i, st, parse).value ==> FileFrom(events, parse, f)
    decreases |events| - i
  {
    if i < |events| {
      StepKeepsProvenance(events, i, st, parse);
      match Step(events, i, st, parse)
      case Stop =>
      case Fail(_) =>
      case Continue(st', next) => RunKeepsProvenance(events, next, st', parse);
    }
  }

  /** Languages, ids and `translate` flags of kept records are stored
      verbatim from a start tag (with "yes" for an absent `translate`), and
      sources and targets are what the segment parser returned for some
      `<source>` or `<target>` element. A record no such start tag filled
      in keeps the empty default: "" for languages, id and `translate`, no
      nodes for a source or target. */
  lemma AssembleProvenance(events: seq<Event>, parse: SegmentParser)
    ensures Assemble(events, parse).Ok? ==>
      forall f :: f in Assemble(events, parse).value ==> FileFrom(events, parse, f)
  {
    RunKeepsProvenance(events, 0, Initial, parse);
  }

  // ---------------------------------------------------------------------
  // Order: files are appended, never reordered or dropped once kept.

  lemma StepExtendsKept(events: seq<Event>, i: nat, st: State, parse: SegmentParser)
    requires i < |events|
    ensures Step(events, i, st, parse).Continue? ==> st.kept <= Step(events, i, st, parse).state.kept
  {
  }

  lemma {:induction false} RunExtendsKept(events: seq<Event>, i: nat, st: State, parse: SegmentParser)
    requires i <= |events|
    ensures Run(events, i, st, parse).Ok? ==> st.kept <= Run(events, i, st, parse).value
    decreases |events| - i
  {
    if i < |events| {
      StepExtendsKept(events, i, st, parse);
      match Step(events, i, st, parse)
      case Stop =>
      case Fail(_) =>
      case Continue(st', next) =>
        RunExtendsKept(events, next, st', parse);
    }
  }

  // ---------------------------------------------------------------------
  // One event at a time.

  /** `<file>` stores both languages verbatim; a missing one is fatal. */
  lemma FileStart(events: seq<Event>, i: nat, st: State, parse: SegmentParser)
    requires i < |events| && events[i].Start? && events[i].name == "file"
    ensures var a := events[i].attrs;
      Step(events, i, st, parse) ==
        if "source-language" !in a then Fail(MissingAttribute("file", "source-language"))
        else if "target-language" !in a then Fail(MissingAttribute("file", "target-language"))
        else Continue(State(st.kept, XFile(a["source-language"], a["target-language"], st.file.transUnits), st.unit), i + 1)
  {
  }

  /** `<trans-unit>` stores the id verbatim and `translate` with default
      "yes"; a missing id is fatal. */
  lemma TransUnitStart(events: seq<Event>, i: nat, st: State, parse: SegmentParser)
    requires i < |events| && events[i].Start? && events[i].name == "trans-unit"
    ensures var a := events[i].attrs;
      Step(events, i, st, parse) ==
        if "id" !in a then Fail(MissingAttribute("trans-unit", "id"))
        else Continue(State(st.kept, st.file,
               TransUnit(a["id"], if "translate" in a then a["translate"] else "yes", st.unit.source, st.unit.target)), i + 1)
  {
  }

  /** An empty parsed source or target leaves the unit as it was; a
      non-empty one replaces that side only. */
  lemma ContentStart(events: seq<Event>, i: nat, st: State, parse: SegmentParser)
    requires i < |events| && events[i].Start? && (events[i].name == "source" || events[i].name == "target")
    ensures var (nodes, k) := Segment(parse, events[i + 1..]);
      var u := st.unit;
      Step(events, i, st, parse) ==
        Continue(if nodes == [] then st
                 else if events[i].name == "source" then st.(unit := TransUnit(u.id, u.translate, nodes, u.target))
                 else st.(unit := TransUnit(u.id, u.translate, u.source, nodes)),
                 i + 1 + k)
  {
  }

  /** `</trans-unit>` appends the unit to the current file exactly when it
      is complete, and resets the unit in any case. */
  lemma TransUnitEnd(events: seq<Event>, i: nat, st: State, parse: SegmentParser)
    requires i < |events| && events[i] == End("trans-unit")
    ensures Step(events, i, st, parse) ==
      Continue(State(st.kept,
                     XFile(st.file.srcLanguage, st.file.tgtLanguage,
                           st.file.transUnits + (if |st.unit.source| != 0 && |st.unit.target| != 0 then [st.unit] else [])),
                     DefaultUnit), i + 1)
  {
    assert st.kept + [] == st.kept;
    assert st.file.transUnits + [] == st.file.transUnits;
  }

  /** `</file>` appends the file exactly when it holds a unit, and resets
      the file in any case. */
  lemma FileEnd(events: seq<Event>, i: nat, st: State, parse: SegmentParser)
    requires i < |events| && events[i] == End("file")
    ensures Step(events, i, st, parse) ==
      Continue(State(if |st.file.transUnits| != 0 then st.kept + [st.file] else st.kept, DefaultFile, st.unit), i + 1)
  {
    assert st.kept + [] == st.kept;
  }

  // ---------------------------------------------------------------------
  // The reader object.

  /** The start-tag arm of `XliffFile::parse`: reads the mandatory and
      optional attributes of `<file>` and `<trans-unit>`, and hands the
      content of `<source>` and `<target>` to the segment parser. */
  method StartTag(name: string, attrs: map<string, string>, rest: seq<Event>, curXFile: XFile, curTransUnit: TransUnit,
                  parse: SegmentParser)
    returns (status: Outcome, file: XFile, unit: TransUnit, consumed: nat)
    ensures status.Done? ==> OnStart(name, attrs, rest, curXFile, curTransUnit, parse) == Ok((file, unit, consumed))
    ensures status.Fatal? ==> OnStart(name, attrs, rest, curXFile, curTransUnit, parse) == Err(status.error)
  {
    file, unit, consumed := curXFile, curTransUnit, 0;
    if name == "file" {
      if "source-language" !in attrs {
        return Fatal(MissingAttribute(name, "source-language")), file, unit, consumed;
      }
      file := file.(srcLanguage := attrs["source-language"]);
      if "target-language" !in attrs {
        return Fatal(MissingAttribute(name, "target-language")), file, unit, consumed;
      }
      file := file.(tgtLanguage := attrs["target-language"]);
    } else if name == "trans-unit" {
      if "id" !in attrs {
        return Fatal(MissingAttribute(name, "id")), file, unit, consumed;
      }
      unit := unit.(id := attrs["id"]);
      unit := unit.(translate := if "translate" in attrs then attrs["translate"] else "yes");
    } else if name == "source" {
      var (curSource, k) := Segment(parse, rest);
      consumed := k;
      if |curSource| != 0 {
        unit := unit.(source := curSource);
      }
    } else if name == "target" {
      var (curTarget, k) := Segment(parse, rest);
      consumed := k;
      if |curTarget| != 0 {
        unit := unit.(target := curTarget);
      }
    }
    status := Done;
  }

  /** The end-tag arm of `XliffFile::parse`: `</trans-unit>` moves a
      complete unit into the current file, `</file>` hands over a file that
      holds a unit, and both reset what they close. */
  method EndTag(name: string, curXFile: XFile, curTransUnit: TransUnit)
    returns (file: XFile, unit: TransUnit, closed: seq<XFile>)
    ensures (file, unit, closed) == OnEnd(name, curXFile, curTransUnit)
  {
    file, unit, closed := curXFile, curTransUnit, [];
    if name == "file" {
      if |file.transUnits| != 0 {
        closed := [file];
      }
      file := DefaultFile;
    } else if name == "trans-unit" {
      if |unit.source| != 0 && |unit.target| != 0 {
        file := file.(transUnits := file.transUnits + [unit]);
      }
      unit := DefaultUnit;
    }
  }

  /** One turn of the loop of `XliffFile::parse`: handles the event at
      position `i` and reports the new file, unit, the files it hands over
      for keeping and where to go on, or that the loop ends or aborts. */
  method Turn(events: seq<Event>, i: nat, curXFile: XFile, curTransUnit: TransUnit, parse: SegmentParser,
              ghost kept: seq<XFile>)
    returns (r: Next<(XFile, TransUnit, seq<XFile>)>)
    requires i < |events|
    ensures match r
      case Continue((file, unit, closed), next) =>
        Step(events, i, State(kept, curXFile, curTransUnit), parse) == Continue(State(kept + closed, file, unit), next)
      case Stop => Step(events, i, State(kept, curXFile, curTransUnit), parse) == Stop
      case Fail(e) => Step(events, i, State(kept, curXFile, curTransUnit), parse) == Fail(e)
  {
    match events[i]
    case Malformed =>
      r := Fail(TokenizerError(i));
    case Eof =>
      r := Stop;
    case Start(name, attrs) =>
      var status, file, unit, k := StartTag(name, attrs, events[i + 1..], curXFile, curTransUnit, parse);
      if status.Fatal? {
        r := Fail(status.error);
      } else {
        assert kept + [] == kept;
        r := Continue((file, unit, []), i + 1 + k);
      }
    case End(name) =>
      var file, unit, closed := EndTag(name, curXFile, curTransUnit);
      r := Continue((file, unit, closed), i + 1);
    case _ =>
      assert kept + [] == kept;
      r := Continue((curXFile, curTransUnit, []), i + 1);
  }

  class XliffFile {
    const path: string
    const rawContent: seq<Event>
    var xfiles: seq<XFile>

    /** `XliffFile::new` once the document has been read and tokenized. */
    constructor (path: string, rawContent: seq<Event>)
      ensures this.path == path && this.rawContent == rawContent && xfiles == []
    {
      this.path := path;
      this.rawContent := rawContent;
      xfiles := [];
    }

    /** Runs the event loop over the whole document, pushing kept files
        onto `xfiles`. */
    method Parse(parse: SegmentParser) returns (outcome: Outcome)
      modifies this
      ensures match Assemble(rawContent, parse)
        case Ok(files) => outcome == Done && xfiles == old(xfiles) + files
        case Err(e) => outcome == Fatal(e)
    {
      var curXFile := DefaultFile;
      var curTransUnit := DefaultUnit;
      ghost var pushed: seq<XFile> := [];
      ghost var result := Assemble(rawContent, parse);
      var i := 0;
      while i < |rawContent|
        invariant i <= |rawContent|
        invariant xfiles == old(xfiles) + pushed
        invariant Run(rawContent, i, State(pushed, curXFile, curTransUnit), parse) == result
        decreases |rawContent| - i
      {
        ghost var st0 := State(pushed, curXFile, curTransUnit);
        var r := Turn(rawContent, i, curXFile, curTransUnit, parse, pushed);
        match r
        case Fail(e) =>
          return Fatal(e);
        case Stop =>
          break;
        case Continue((file, unit, closed), next) =>
          RunContinues(rawContent, i, st0, parse, State(pushed + closed, file, unit), next);
          xfiles := xfiles + closed;
          pushed := pushed + closed;
          curXFile, curTransUnit := file, unit;
          i := next;
      }
      return Done;
    }
  }
}
