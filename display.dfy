/**
 * What the session sends back to its client. Colours and the "[ACE] " prefix
 * are presentation and are not modelled; the kind of a reply records whether
 * it is a status line (green), an error line (red), a listed entry, or a
 * source line with its error span set apart.
 */
module Display {
  import opened Wrappers
  import opened JavaText
  import opened Jici

  datatype Reply =
    | Info(text: string)
    | Problem(text: string)
    | Listing(text: string)
    | Highlight(before: string, span: string, after: string)

  /** The messages one call sent, and whether an exception escaped the call afterwards. */
  datatype Sent = Sent(replies: seq<Reply>, escaped: bool)

  /** An entry of a listing: an imported class (by canonical name) or a variable. */
  datatype Entry = ClassEntry(canonicalName: string) | VariableEntry(variable: Variable)

  /** The part of a variable's line that is always shown: its name and its type's name. */
  function VariableLabel(v: Variable): string {
    "Name: " + v.name + " Type: " + v.declaredType.name
  }

  /** `entryToText`: a class shows its canonical name; a variable shows its name and type,
      followed by its value only when it is initialised. */
  function EntryToText(jici: Interpreter, entry: Entry): (r: Reply)
    ensures r.Listing?
    ensures entry.ClassEntry? ==> r.text == entry.canonicalName
    ensures entry.VariableEntry? ==> (
      var head := VariableLabel(entry.variable);
      && StartsWith(r.text, head)
      && (entry.variable.value.None? <==> |r.text| == |head|)
      && (entry.variable.value.Some? ==> r.text[|head|..] == " Value: " + jici.asString(entry.variable.value.value)))
  {
    match entry
    case ClassEntry(name) => Listing(name)
    case VariableEntry(v) =>
      var valueText := if v.value.Some? then " Value: " + jici.asString(v.value.value) else "";
      Listing(VariableLabel(v) + valueText)
  }

  /** The lines of a listing, one per entry, in order. */
  function EntryTexts(jici: Interpreter, entries: seq<Entry>): (r: seq<Reply>)
    ensures |r| == |entries|
    ensures forall i :: 0 <= i < |r| ==> r[i] == EntryToText(jici, entries[i])
  {
    seq(|entries|, i requires 0 <= i < |entries| => EntryToText(jici, entries[i]))
  }

  /** Rendering one more entry adds its line at the end. */
  lemma EntryTextsAppend(jici: Interpreter, entries: seq<Entry>, entry: Entry)
    ensures EntryTexts(jici, entries + [entry]) == EntryTexts(jici, entries) + [EntryToText(jici, entry)]
  {
    var r := EntryTexts(jici, entries + [entry]);
    assert forall i :: 0 <= i < |entries| ==> (entries + [entry])[i] == entries[i];
    assert r == EntryTexts(jici, entries) + [EntryToText(jici, entry)];
  }

  /** A span that would be invisible: exactly one whitespace character. */
  predicate IsBlank(span: string) {
    |span| == 1 && IsWhitespace(span[0])
  }

  /** The second line `displayError` sends: the line with a space appended, cut before
      `startIndex` and after `endIndex`. None where `substring` would throw. */
  function HighlightLine(line: string, startIndex: int, endIndex: int): (r: Option<Reply>)
    ensures r.Some? <==> 0 <= startIndex <= endIndex + 1 <= |line| + 1
    ensures r.Some? ==> (
      var padded := line + " ";
      var h := r.value;
      && h.Highlight?
      && h.before == padded[..startIndex]
      && h.after == padded[endIndex + 1..]
      && |h.before| + |h.span| + |h.after| == |padded|
      && (IsBlank(padded[startIndex..endIndex + 1]) ==> h.span == "_")
      && (!IsBlank(padded[startIndex..endIndex + 1]) ==> h.before + h.span + h.after == padded))
  {
    var padded := line + " ";
    var start := startIndex;
    var end := endIndex + 1;
    if !(0 <= start <= end <= |padded|) then None
    else
      var problem := padded[start..end];
      var shown := if IsBlank(problem) then "_" else problem;
      assert padded == padded[..start] + problem + padded[end..];
      Some(Highlight(padded[..start], shown, padded[end..]))
  }

  /** `displayError`: the message, then the highlighted line; when the span lies outside
      the line only the message goes out and the index exception escapes. */
  function ErrorReplies(info: ErrorInformation): (r: Sent)
    ensures |r.replies| >= 1 && r.replies[0] == Problem(info.message)
    ensures r.escaped <==> !(0 <= info.startIndex <= info.endIndex + 1 <= |info.line| + 1)
    ensures r.escaped ==> |r.replies| == 1
    ensures !r.escaped ==> |r.replies| == 2 && Some(r.replies[1]) == HighlightLine(info.line, info.startIndex, info.endIndex)
  {
    match HighlightLine(info.line, info.startIndex, info.endIndex)
    case None => Sent([Problem(info.message)], true)
    case Some(h) => Sent([Problem(info.message), h], false)
  }

  /** A one-space span is shown as the placeholder, so it is never invisible. */
  lemma BlankSpanShownAsPlaceholder(line: string, i: nat)
    requires i < |line| && IsWhitespace(line[i])
    ensures HighlightLine(line, i, i) == Some(Highlight(line[..i], "_", line[i + 1..] + " "))
  {
    var padded := line + " ";
    assert padded[i..i + 1] == [line[i]];
    assert padded[..i] == line[..i];
    assert padded[i + 1..] == line[i + 1..] + " ";
  }

  /** An error at the very end of a line points at the appended space, shown as the placeholder. */
  lemma EndOfLineShownAsPlaceholder(line: string)
    ensures HighlightLine(line, |line|, |line|) == Some(Highlight(line, "_", ""))
  {
    var padded := line + " ";
    assert padded[|line|..|line| + 1] == " ";
    assert padded[..|line|] == line;
  }
}
