/** The TBX reader: a single pass over tokenizer events that builds
    `termEntry` records holding `langSet` records, each with the `tig` of
    its last term. A lang set is kept on `</langSet>` only when the current
    term group is non-empty at that moment, and an entry is kept on
    `</termEntry>` only when it holds at least one lang set. */
module Tbx {
  import opened Events
  import opened Segments

  datatype Tig = Tig(term: seq<SegNode>)

  datatype LangSet = LangSet(language: string, tig: Tig)

  datatype TermEntry = TermEntry(langSets: seq<LangSet>)

  const DefaultTig := Tig([])
  const DefaultLangSet := LangSet("", DefaultTig)
  const DefaultEntry := TermEntry([])

  /** The loop's variables between two events: the entries kept so far and
      the current entry, lang set and term group. */
  datatype State = State(kept: seq<TermEntry>, entry: TermEntry, langSet: LangSet, tig: Tig)

  const Initial := State([], DefaultEntry, DefaultLangSet, DefaultTig)

  /** The completeness invariant of a kept entry. */
  predicate KeptEntry(e: TermEntry) {
    |e.langSets| != 0 && forall l :: l in e.langSets ==> |l.tig.term| != 0
  }

  /** What a start tag does to the loop's variables; `rest` are the events after it. */
  function OnStart(name: string, attrs: map<string, string>, rest: seq<Event>, st: State, parse: SegmentParser): (r: Result<(State, nat)>)
    ensures r.Ok? ==> r.value.1 <= |rest|
  {
    if name == "langSet" then
      if "xml:lang" !in attrs then Err(MissingAttribute(name, "xml:lang"))
      else Ok((st.(langSet := st.langSet.(language := Lower(attrs["xml:lang"]))), 0))
    else if name == "term" then
      var (nodes, k) := Segment(parse, rest);
      Ok((st.(tig := Tig(nodes)), k))
    else Ok((st, 0))
  }

  /** What an end tag does to the loop's variables. */
  function OnEnd(name: string, st: State): State {
    if name == "termEntry" then
      var kept := if |st.entry.langSets| != 0 then st.kept + [st.entry] else st.kept;
      st.(kept := kept, entry := DefaultEntry)
    else if name == "term" then
      var langSet := if |st.tig.term| != 0 then st.langSet.(tig := st.tig) else st.langSet;
      st.(langSet := langSet, tig := DefaultTig)
    else if name == "langSet" then
      var langSets := if |st.tig.term| != 0 then st.entry.langSets + [st.langSet.(tig := st.tig)] else st.entry.langSets;
      st.(entry := st.entry.(langSets := langSets), langSet := DefaultLangSet, tig := DefaultTig)
    else st
  }

  /** One turn of the event loop, at position `i`. */
  function Step(events: seq<Event>, i: nat, st: State, parse: SegmentParser): (r: Next<State>)
    requires i < |events|
    ensures r.Continue? ==> i < r.next <= |events|
  {
    match events[i]
    case Malformed => Fail(TokenizerError(i))
    case Eof => Stop
    case Start(name, attrs) =>
      (match OnStart(name, attrs, events[i + 1..], st, parse)
       case Err(e) => Fail(e)
       case Ok((st', k)) => Continue(st', i + 1 + k))
    case End(name) => Continue(OnEnd(name, st), i + 1)
    case _ => Continue(st, i + 1)
  }

  /** A lang set start without `xml:lang` and a tokenizer error are the
      only events that abort the loop, and `Eof` the only one that ends it. */
  lemma StepOutcome(events: seq<Event>, i: nat, st: State, parse: SegmentParser)
    requires i < |events|
    ensures Step(events, i, st, parse).Stop? <==> events[i].Eof?
    ensures Step(events, i, st, parse).Fail? <==>
      events[i].Malformed? || (events[i].Start? && events[i].name == "langSet" && "xml:lang" !in events[i].attrs)
  {
  }

  /** A turn that continues leaves the rest of the run unchanged. */
  lemma RunContinues(events: seq<Event>, i: nat, st: State, parse: SegmentParser, st': State, next: nat)
    requires i < |events| && Step(events, i, st, parse) == Continue(st', next)
    ensures next <= |events| && Run(events, i, st, parse) == Run(events, next, st', parse)
  {
  }

  /** The entries the loop keeps when it runs from position `i` in state
      `st` to the end of input, or the error that aborts it. */
  function Run(events: seq<Event>, i: nat, st: State, parse: SegmentParser): Result<seq<TermEntry>>
    requires i <= |events|
    decreases |events| - i
  {
    if i == |events| then Ok(st.kept)
    else
      match Step(events, i, st, parse)
      case Stop => Ok(st.kept)
      case Fail(e) => Err(e)
      case Continue(st', next) => Run(events, next, st', parse)
  }

  /** Everything `TbxFile::parse` keeps from a whole document. */
  function Assemble(events: seq<Event>, parse: SegmentParser): Result<seq<TermEntry>> {
    Run(events, 0, Initial, parse)
  }

  // ---------------------------------------------------------------------
  // Completeness: no kept entry is empty, no kept lang set lacks a term.

  ghost predicate Complete(st: State) {
    (forall e :: e in st.kept ==> KeptEntry(e)) &&
    (forall l :: l in st.entry.langSets ==> |l.tig.term| != 0)
  }

  lemma StepKeepsComplete(events: seq<Event>, i: nat, st: State, parse: SegmentParser)
    requires i < |events| && Complete(st)
    ensures Step(events, i, st, parse).Continue? ==> Complete(Step(events, i, st, parse).state)
  {
  }

  lemma {:induction false} RunKeepsComplete(events: seq<Event>, i: nat, st: State, parse: SegmentParser)
    requires i <= |events| && Complete(st)
    ensures Run(events, i, st, parse).Ok? ==> forall e :: e in Run(events, i, st, parse).value ==> KeptEntry(e)
    decreases |events| - i
  {
    if i < |events| {
      StepKeepsComplete(events, i, st, parse);
      match Step(events, i, st, parse)
      case Stop =>
      case Fail(_) =>
      case Continue(st', next) => RunKeepsComplete(events, next, st', parse);
    }
  }

  /** Every kept entry has a lang set, and every kept lang set has a
      non-empty term. */
  lemma AssembleKeepsComplete(events: seq<Event>, parse: SegmentParser)
    ensures Assemble(events, parse).Ok? ==>
      forall e :: e in Assemble(events, parse).value ==>
        |e.langSets| != 0 && forall l :: l in e.langSets ==> |l.tig.term| != 0
  {
    RunKeepsComplete(events, 0, Initial, parse);
  }

  // ---------------------------------------------------------------------
  // Provenance.

  /** `e` is a `<langSet>` start tag whose `xml:lang`, lower-cased, is `language`. */
  predicate LangSetStartWith(e: Event, language: string) {
    e.Start? && e.name == "langSet" && "xml:lang" in e.attrs && Lower(e.attrs["xml:lang"]) == language
  }

  /** A `<term>` start at position j for which the segment parser returned `nodes`. */
  predicate TermAt(events: seq<Event>, parse: SegmentParser, j: int, nodes: seq<SegNode>) {
    0 <= j < |events| && events[j].Start? && events[j].name == "term" && Segment(parse, events[j + 1..]).0 == nodes
  }

  ghost predicate LanguageFrom(events: seq<Event>, language: string) {
    language == "" || exists j :: 0 <= j < |events| && LangSetStartWith(events[j], language)
  }

  ghost predicate TigFrom(events: seq<Event>, parse: SegmentParser, tig: Tig) {
    tig.term == [] || exists j :: TermAt(events, parse, j, tig.term)
  }

  ghost predicate LangSetFrom(events: seq<Event>, parse: SegmentParser, l: LangSet) {
    LanguageFrom(events, l.language) && TigFrom(events, parse, l.tig)
  }

  ghost predicate EntryFrom(events: seq<Event>, parse: SegmentParser, e: TermEntry) {
    forall l :: l in e.langSets ==> LangSetFrom(events, parse, l)
  }

  ghost predicate StateFrom(events: seq<Event>, parse: SegmentParser, st: State) {
    (forall e :: e in st.kept ==> EntryFrom(events, parse, e)) &&
    EntryFrom(events, parse, st.entry) &&
    LangSetFrom(events, parse, st.langSet) &&
    TigFrom(events, parse, st.tig)
  }

  lemma StepKeepsProvenance(events: seq<Event>, i: nat, st: State, parse: SegmentParser)
    requires i < |events| && StateFrom(events, parse, st)
    ensures Step(events, i, st, parse).Continue? ==> StateFrom(events, parse, Step(events, i, st, parse).state)
  {
    match events[i]
    case Start(name, attrs) =>
      if name == "langSet" && "xml:lang" in attrs {
        assert LangSetStartWith(events[i], Lower(attrs["xml:lang"]));
      } else if name == "term" {
        assert TermAt(events, parse, i, Segment(parse, events[i + 1..]).0);
      }
    case _ =>
  }

  lemma {:induction false} RunKeepsProvenance(events: seq<Event>, i: nat, st: State, parse: SegmentParser)
    requires i <= |events| && StateFrom(events, parse, st)
    ensures Run(events, i, st, parse).Ok? ==>
      forall e :: e in Run(events, i, st, parse).value ==> EntryFrom(events, parse, e)
    decreases |events| - i
  {
    if i < |events| {
      StepKeepsProvenance(events, i, st, parse);
      match Step(events, i, st, parse)
      case Stop =>
      case Fail(_) =>
      case Continue(st', next) => RunKeepsProvenance(events, next, st', parse);
    }
  }

  /** A kept language is the lower-cased `xml:lang` of some `<langSet>`,
      or "" when no `<langSet>` start tag set it (a term group can reach
      `</langSet>` without one), and a kept term is what the segment parser
      returned for some `<term>` element. */
  lemma AssembleProvenance(events: seq<Event>, parse: SegmentParser)
    ensures Assemble(events, parse).Ok? ==>
      forall e :: e in Assemble(events, parse).value ==> EntryFrom(events, parse, e)
  {
    RunKeepsProvenance(events, 0, Initial, parse);
  }

  /** In particular no kept language holds an upper-case ASCII letter. */
  lemma AssembleLanguagesLowerCase(events: seq<Event>, parse: SegmentParser)
    ensures Assemble(events, parse).Ok? ==>
      forall e, l, k :: e in Assemble(events, parse).value && l in e.langSets && 0 <= k < |l.language| ==>
        !IsUpper(l.language[k])
  {
    AssembleProvenance(events, parse);
  }

  // ---------------------------------------------------------------------
  // Order: entries are appended, never reordered or dropped once kept.

  lemma StepExtendsKept(events: seq<Event>, i: nat, st: State, parse: SegmentParser)
    requires i < |events|
    ensures Step(events, i, st, parse).Continue? ==> st.kept <= Step(events, i, st, parse).state.kept
  {
  }

  lemma {:induction false} RunExtendsKept(events: seq<Event>, i: nat, st: State, parse: SegmentParser)
    requires i <= |events|
    ensures Run(events, i, st, parse).Ok? ==> st.kept <= Run(events, i, st, parse).value
    decreases |events| - i
  {
    if i < |events| {
      StepExtendsKept(events, i, st, parse);
      match Step(events, i, st, parse)
      case Stop =>
      case Fail(_) =>
      case Continue(st', next) => RunExtendsKept(events, next, st', parse);
    }
  }

  // ---------------------------------------------------------------------
  // One event at a time.

  /** `<langSet>` stores `xml:lang` lower-cased; a missing one is fatal. */
  lemma LangSetStart(events: seq<Event>, i: nat, st: State, parse: SegmentParser)
    requires i < |events| && events[i].Start? && events[i].name == "langSet"
    ensures var a := events[i].attrs;
      Step(events, i, st, parse) ==
        if "xml:lang" !in a then Fail(MissingAttribute("langSet", "xml:lang"))
        else Continue(State(st.kept, st.entry, LangSet(Lower(a["xml:lang"]), st.langSet.tig), st.tig), i + 1)
  {
  }

  /** `<term>` replaces the current term group with whatever the segment
      parser returns, even an empty one. */
  lemma TermStart(events: seq<Event>, i: nat, st: State, parse: SegmentParser)
    requires i < |events| && events[i].Start? && events[i].name == "term"
    ensures var (nodes, k) := Segment(parse, events[i + 1..]);
      Step(events, i, st, parse) == Continue(State(st.kept, st.entry, st.langSet, Tig(nodes)), i + 1 + k)
  {
  }

  /** A `</term>` the loop sees copies a non-empty term group into the lang
      set, and clears the current term group in any case. */
  lemma TermEnd(events: seq<Event>, i: nat, st: State, parse: SegmentParser)
    requires i < |events| && events[i] == End("term")
    ensures Step(events, i, st, parse) ==
      Continue(State(st.kept, st.entry, if st.tig.term != [] then LangSet(st.langSet.language, st.tig) else st.langSet,
                     DefaultTig), i + 1)
  {
  }

  /** `</langSet>` appends the lang set, carrying the current term group,
      exactly when that group is non-empty, and resets both. */
  lemma LangSetEnd(events: seq<Event>, i: nat, st: State, parse: SegmentParser)
    requires i < |events| && events[i] == End("langSet")
    ensures Step(events, i, st, parse) ==
      Continue(State(st.kept,
                     if st.tig.term != [] then TermEntry(st.entry.langSets + [LangSet(st.langSet.language, st.tig)]) else st.entry,
                     LangSet("", Tig([])), Tig([])), i + 1)
  {
  }

  /** `</termEntry>` appends the entry exactly when it holds a lang set, and
      resets it in any case. */
  lemma TermEntryEnd(events: seq<Event>, i: nat, st: State, parse: SegmentParser)
    requires i < |events| && events[i] == End("termEntry")
    ensures Step(events, i, st, parse) ==
      Continue(State(if st.entry.langSets != [] then st.kept + [st.entry] else st.kept, TermEntry([]), st.langSet, st.tig), i + 1)
  {
  }

  // ---------------------------------------------------------------------
  // Whether the segment parser consumes the closing `</term>` decides
  // whether a lang set survives: `<term>...</term></langSet>`.

  /** The parser consumed `</term>`: the lang set is kept with the term. */
  lemma SwallowedTermKeepsLangSet(events: seq<Event>, i: nat, st: State, parse: SegmentParser)
    requires i < |events| && events[i].Start? && events[i].name == "term"
    requires var (nodes, k) := Segment(parse, events[i + 1..]);
      nodes != [] && i + 1 + k < |events| && events[i + 1 + k] == End("langSet")
    ensures var (nodes, k) := Segment(parse, events[i + 1..]);
      Run(events, i, st, parse) ==
        Run(events, i + 2 + k,
            st.(entry := TermEntry(st.entry.langSets + [LangSet(st.langSet.language, Tig(nodes))]),
                langSet := DefaultLangSet, tig := DefaultTig), parse)
  {
    var (nodes, k) := Segment(parse, events[i + 1..]);
    var st1 := st.(tig := Tig(nodes));
    TermStart(events, i, st, parse);
    RunContinues(events, i, st, parse, st1, i + 1 + k);
    LangSetEnd(events, i + 1 + k, st1, parse);
    RunContinues(events, i + 1 + k, st1, parse,
                 st.(entry := TermEntry(st.entry.langSets + [LangSet(st.langSet.language, Tig(nodes))]),
                     langSet := DefaultLangSet, tig := DefaultTig), i + 2 + k);
  }

  /** The loop saw `</term>`: it clears the current term group, so the
      following `</langSet>` drops the lang set and the entry is unchanged. */
  lemma SeenTermEndDropsLangSet(events: seq<Event>, i: nat, st: State, parse: SegmentParser)
    requires i < |events| && events[i].Start? && events[i].name == "term"
    requires var k := Segment(parse, events[i + 1..]).1;
      i + 2 + k < |events| && events[i + 1 + k] == End("term") && events[i + 2 + k] == End("langSet")
    ensures var k := Segment(parse, events[i + 1..]).1;
      Run(events, i, st, parse) == Run(events, i + 3 + k, st.(langSet := DefaultLangSet, tig := DefaultTig), parse)
  {
    var (nodes, k) := Segment(parse, events[i + 1..]);
    var st1 := st.(tig := Tig(nodes));
    var st2 := st.(langSet := if nodes != [] then LangSet(st.langSet.language, Tig(nodes)) else st.langSet, tig := DefaultTig);
    TermStart(events, i, st, parse);
    RunContinues(events, i, st, parse, st1, i + 1 + k);
    TermEnd(events, i + 1 + k, st1, parse);
    RunContinues(events, i + 1 + k, st1, parse, st2, i + 2 + k);
    LangSetEnd(events, i + 2 + k, st2, parse);
    RunContinues(events, i + 2 + k, st2, parse, st.(langSet := DefaultLangSet, tig := DefaultTig), i + 3 + k);
  }

  // ---------------------------------------------------------------------
  // The reader object.

  /** One turn of the loop of `TbxFile::parse`: handles the event at
      position `i` and reports the new entry, lang set and term group, the
      entries it hands over for keeping and where to go on, or that the
      loop ends or aborts. */
  method Turn(events: seq<Event>, i: nat, curTermEntry: TermEntry, curLangSet: LangSet, curTig: Tig,
              parse: SegmentParser, ghost kept: seq<TermEntry>)
    returns (r: Next<(TermEntry, LangSet, Tig, seq<TermEntry>)>)
    requires i < |events|
    ensures match r
      case Continue((entry, langSet, tig, closed), next) =>
        Step(events, i, State(kept, curTermEntry, curLangSet, curTig), parse) ==
          Continue(State(kept + closed, entry, langSet, tig), next)
      case Stop => Step(events, i, State(kept, curTermEntry, curLangSet, curTig), parse) == Stop
      case Fail(e) => Step(events, i, State(kept, curTermEntry, curLangSet, curTig), parse) == Fail(e)
  {
    var entry, langSet, tig, closed, next := curTermEntry, curLangSet, curTig, [], i + 1;
    match events[i] {
      case Malformed =>
        return Fail(TokenizerError(i));
      case Eof =>
        return Stop;
      case Start(name, attrs) =>
        if name == "langSet" {
          if "xml:lang" !in attrs {
            return Fail(MissingAttribute(name, "xml:lang"));
          }
          langSet := langSet.(language := Lower(attrs["xml:lang"]));
        } else if name == "term" {
          var (term, k) := Segment(parse, events[i + 1..]);
          tig := Tig(term);
          next := i + 1 + k;
        }
      case End(name) =>
        if name == "termEntry" {
          if |entry.langSets| != 0 {
            closed := [entry];
          }
          entry := DefaultEntry;
        } else if name == "term" {
          if |tig.term| != 0 {
            langSet := langSet.(tig := tig);
          }
          tig := DefaultTig;
        } else if name == "langSet" {
          if |tig.term| != 0 {
            langSet := langSet.(tig := tig);
            entry := entry.(langSets := entry.langSets + [langSet]);
          }
          tig := DefaultTig;
          langSet := DefaultLangSet;
        }
      case _ =>
    }
    assert kept + [] == kept;
    r := Continue((entry, langSet, tig, closed), next);
  }

  class TbxFile {
    const path: string
    const rawContent: seq<Event>
    var termEntries: seq<TermEntry>

    /** `TbxFile::new` once the document has been read and tokenized:
        the document is parsed straight away. */
    constructor (path: string, rawContent: seq<Event>, parse: SegmentParser)
      ensures this.path == path && this.rawContent == rawContent
      ensures Assemble(rawContent, parse).Ok? ==> termEntries == Assemble(rawContent, parse).value
    {
      this.path := path;
      this.rawContent := rawContent;
      termEntries := [];
      new;
      var _ := Parse(parse);
    }

    /** Runs the event loop over the whole document, pushing kept entries
        onto `termEntries`. */
    method Parse(parse: SegmentParser) returns (outcome: Outcome)
      modifies this
      ensures match Assemble(rawContent, parse)
        case Ok(entries) => outcome == Done && termEntries == old(termEntries) + entries
        case Err(e) => outcome == Fatal(e)
    {
      var curTermEntry := DefaultEntry;
      var curLangSet := DefaultLangSet;
      var curTig := DefaultTig;
      ghost var pushed: seq<TermEntry> := [];
      ghost var result := Assemble(rawContent, parse);
      var i := 0;
      while i < |rawContent|
        invariant i <= |rawContent|
        invariant termEntries == old(termEntries) + pushed
        invariant Run(rawContent, i, State(pushed, curTermEntry, curLangSet, curTig), parse) == result
        decreases |rawContent| - i
      {
        ghost var st0 := State(pushed, curTermEntry, curLangSet, curTig);
        var r := Turn(rawContent, i, curTermEntry, curLangSet, curTig, parse, pushed);
        match r
        case Fail(e) =>
          return Fatal(e);
        case Stop =>
          break;
        case Continue((entry, langSet, tig, closed), next) =>
          RunContinues(rawContent, i, st0, parse, State(pushed + closed, entry, langSet, tig), next);
          termEntries := termEntries + closed;
          pushed := pushed + closed;
          curTermEntry, curLangSet, curTig := entry, langSet, tig;
          i := next;
      }
      return Done;
    }
  }
}
