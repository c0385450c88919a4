/** The pull-style XML tokenizer as the record readers see it, and the
    vocabulary the readers share: fatal errors, loop outcomes, attribute
    defaults and lower-casing of language tags. */
module Events {

  /** One tokenizer event. Attribute maps arrive already decoded.
      `Misc` stands for comments, CDATA, declarations and processing
      instructions; `Malformed` for the tokenizer's error result. */
  datatype Event =
    | Start(name: string, attrs: map<string, string>)
    | End(name: string)
    | Empty(name: string, attrs: map<string, string>)
    | Text(text: string)
    | Misc
    | Eof
    | Malformed

  /** The conditions under which a reader aborts the whole parse. */
  datatype ParseError =
    | TokenizerError(position: nat)
    | MissingAttribute(element: string, attribute: string)
    | HeaderTooShort(cells: nat)

  datatype Result<+T> = Ok(value: T) | Err(error: ParseError)

  /** What a reader's `parse` ends with: it ran to the end of input, or it aborted. */
  datatype Outcome = Done | Fatal(error: ParseError)

  /** What one turn of a reader's event loop does: go on from position
      `next` in state `state`, leave the loop, or abort. */
  datatype Next<+S> = Continue(state: S, next: nat) | Stop | Fail(error: ParseError)

  /** An attribute's value, or `default` when the attribute is absent. */
  function AttrOr(attrs: map<string, string>, key: string, default: string): string
  {
    if key in attrs then attrs[key] else default
  }

  predicate IsUpper(c: char) {
    'A' <= c <= 'Z'
  }

  function LowerChar(c: char): char {
    if IsUpper(c) then (c as int + 32) as char else c
  }

  /** Lower-casing of a language tag (ASCII letters only). */
  function Lower(s: string): (r: string)
    ensures |r| == |s|
    ensures forall k :: 0 <= k < |r| ==> !IsUpper(r[k])
    ensures forall k :: 0 <= k < |s| && !IsUpper(s[k]) ==> r[k] == s[k]
    ensures forall k :: 0 <= k < |s| && IsUpper(s[k]) ==> r[k] as int == s[k] as int + 32
  {
    if s == [] then [] else [LowerChar(s[0])] + Lower(s[1..])
  }

  /** A string without upper-case letters is its own lower-case form. */
  lemma LowerFixesLowerCase(s: string)
    requires forall k :: 0 <= k < |s| ==> !IsUpper(s[k])
    ensures Lower(s) == s
  {
    var r := Lower(s);
    assert forall k :: 0 <= k < |s| ==> r[k] == s[k];
  }
}
