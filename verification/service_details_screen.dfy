/**
 * The service details screen: how each technical-details entry is
 * labelled and rendered, when the technical card shows, and what a status
 * change does to the screen's state.
 */
module ServiceDetailsScreen {
  import opened Wrappers
  import opened Text
  import opened Records
  import opened JsValue

  // ------------------------------------------------------------------
  // Rendering a technical-details value

  /** `${k}: ${v}` for one object entry. */
  function EntryText(e: (string, Json)): string {
    e.0 + ": " + TemplateString(e.1)
  }

  /** The `${k}: ${v}` texts of an object's entries, in order. */
  function EntryTexts(entries: Entries<Json>): (r: seq<string>)
    ensures |r| == |entries|
    ensures forall i :: 0 <= i < |entries| ==> r[i] == EntryText(entries[i])
  {
    seq(|entries|, i requires 0 <= i < |entries| => EntryText(entries[i]))
  }

  /** `Object.entries(array)`: the elements under their indices. */
  function IndexedEntries(items: seq<Json>): (r: Entries<Json>)
    ensures |r| == |items|
    ensures forall i :: 0 <= i < |items| ==> r[i] == (NatToString(i), items[i])
  {
    seq(|items|, i requires 0 <= i < |items| => (NatToString(i), items[i]))
  }

  /**
   * One array element as the value formatter maps it: an object (an array
   * included) becomes its `k: v` pairs joined by ", "; anything else is
   * left as it is and printed by `join`, which prints `undefined` as
   * nothing. A `null` element makes `Object.entries` throw (None).
   */
  function RenderItem(item: Json): (r: Option<string>)
    ensures r.None? <==> item.JNull?
    ensures item.JObj? ==> r == Some(Join(EntryTexts(item.entries), ", "))
    ensures item.JArr? ==> r == Some(Join(EntryTexts(IndexedEntries(item.items)), ", "))
    ensures item.JUndefined? ==> r == Some("")
    ensures item.JBool? || item.JNum? || item.JStr? ==> r == Some(TemplateString(item))
  {
    match item
    case JNull => None
    case JUndefined => Some("")
    case JObj(entries) => Some(Join(EntryTexts(entries), ", "))
    case JArr(items) => Some(Join(EntryTexts(IndexedEntries(items)), ", "))
    case _ => Some(TemplateString(item))
  }

  /** No element of the array is `null`. */
  predicate NoNullItem(items: seq<Json>) {
    forall i :: 0 <= i < |items| ==> !items[i].JNull?
  }

  /** The rendered elements of an array with no `null` element. */
  function RenderedItems(items: seq<Json>): (r: seq<string>)
    requires NoNullItem(items)
    ensures |r| == |items|
    ensures forall i :: 0 <= i < |items| ==> Some(r[i]) == RenderItem(items[i])
  {
    seq(|items|, i requires 0 <= i < |items| => RenderItem(items[i]).value)
  }

  /**
   * The `displayValue` of one technical-details entry. None stands for the
   * TypeError an array holding `null` raises.
   */
  function FormatDetailValue(value: Json): (r: Option<string>)
    ensures r.None? <==> value.JArr? && !NoNullItem(value.items)
    ensures IsNullish(value) ==> r == Some("--")
    ensures value.JArr? && |value.items| == 0 ==> r == Some("--")
    ensures value.JArr? && |value.items| > 0 && NoNullItem(value.items) ==>
      r == Some(Join(RenderedItems(value.items), "\n"))
    ensures value.JObj? ==> r == Some(Join(EntryTexts(value.entries), "\n"))
    ensures value.JBool? || value.JNum? || value.JStr? ==> r == Some(TemplateString(value))
  {
    match value
    case JNull => Some("--")
    case JUndefined => Some("--")
    case JArr(items) =>
      if |items| == 0 then Some("--")
      else if NoNullItem(items) then Some(Join(RenderedItems(items), "\n"))
      else None
    case JObj(entries) => Some(Join(EntryTexts(entries), "\n"))
    case _ => Some(TemplateString(value))
  }

  /**
   * A non-empty array renders one line per element: splitting the text on
   * newlines gives back the rendered elements when none of them holds a
   * newline itself.
   */
  lemma ArrayRendersOneLinePerItem(items: seq<Json>)
    requires |items| > 0 && NoNullItem(items)
    requires forall i :: 0 <= i < |items| ==> '\n' !in RenderedItems(items)[i]
    ensures FormatDetailValue(JArr(items)).Some?
    ensures Split(FormatDetailValue(JArr(items)).value, '\n') == RenderedItems(items)
  {
    SplitJoin(RenderedItems(items), '\n');
  }

  /** A non-empty object renders one `k: v` line per entry, in entry order. */
  lemma ObjectRendersOneLinePerEntry(entries: Entries<Json>)
    requires |entries| > 0
    requires forall i :: 0 <= i < |entries| ==> '\n' !in EntryText(entries[i])
    ensures Split(FormatDetailValue(JObj(entries)).value, '\n') == EntryTexts(entries)
  {
    SplitJoin(EntryTexts(entries), '\n');
  }

  /** An object item inside an array renders as its pairs joined by ", "; a lone string item as itself. */
  lemma SingleItemArrays(entries: Entries<Json>, s: string)
    ensures FormatDetailValue(JArr([JObj(entries)])) == Some(Join(EntryTexts(entries), ", "))
    ensures FormatDetailValue(JArr([JStr(s)])) == Some(s)
  {
    assert RenderedItems([JObj(entries)]) == [Join(EntryTexts(entries), ", ")];
    assert RenderedItems([JStr(s)]) == [s];
  }

  /** Unlike an empty array, an empty object renders as the empty text, not "--". */
  lemma EmptyObjectRendersNothing()
    ensures FormatDetailValue(JObj([])) == Some("")
    ensures FormatDetailValue(JArr([])) == Some("--")
  {
    assert EntryTexts([]) == [];
  }

  // ------------------------------------------------------------------
  // The key label

  /** A character `\w` matches: ASCII letter, digit or underscore. */
  predicate IsWordChar(c: char) {
    'a' <= c <= 'z' || 'A' <= c <= 'Z' || '0' <= c <= '9' || c == '_'
  }

  /** `toUpperCase` on a character `\w` matched. */
  function UpperWordChar(c: char): (r: char)
    ensures IsWordChar(c) ==> IsWordChar(r)
  {
    if 'a' <= c <= 'z' then (c as int - 32) as char else c
  }

  /** `replace(/_/g, " ")`. */
  function Underscores(s: string): (r: string)
    ensures |r| == |s|
    ensures forall i :: 0 <= i < |s| ==> r[i] == if s[i] == '_' then ' ' else s[i]
  {
    seq(|s|, i requires 0 <= i < |s| => if s[i] == '_' then ' ' else s[i])
  }

  /** Position `i` of `s` is where `\b\w` matches: a word character not preceded by one. */
  predicate WordStart(s: string, i: int)
    requires 0 <= i < |s|
  {
    IsWordChar(s[i]) && (i == 0 || !IsWordChar(s[i - 1]))
  }

  /** `replace(/\b\w/g, (l) => l.toUpperCase())`. */
  function CapitalizeWords(s: string): (r: string)
    ensures |r| == |s|
    ensures forall i :: 0 <= i < |s| ==> r[i] == if WordStart(s, i) then UpperWordChar(s[i]) else s[i]
  {
    seq(|s|, i requires 0 <= i < |s| => if WordStart(s, i) then UpperWordChar(s[i]) else s[i])
  }

  /** The label shown for a technical-details key. */
  function KeyLabel(key: string): (r: string)
    ensures |r| == |key|
    ensures '_' !in r
    ensures forall i :: 0 <= i < |key| && key[i] == '_' ==> r[i] == ' '
    ensures forall i :: 0 <= i < |key| ==>
      r[i] == if WordStart(Underscores(key), i) then UpperWordChar(Underscores(key)[i]) else Underscores(key)[i]
  {
    CapitalizeWords(Underscores(key))
  }

  /** Upper-casing keeps the word boundaries where they were. */
  lemma CapitalizeKeepsWordStarts(s: string, i: int)
    requires 0 <= i < |s|
    ensures WordStart(CapitalizeWords(s), i) <==> WordStart(s, i)
  {
  }

  /** Labelling a label changes nothing. */
  lemma KeyLabelIdempotent(key: string)
    ensures KeyLabel(KeyLabel(key)) == KeyLabel(key)
  {
    var l := KeyLabel(key);
    assert Underscores(l) == l;
    forall i | 0 <= i < |l|
      ensures CapitalizeWords(l)[i] == l[i]
    {
      var t := Underscores(key);
      CapitalizeKeepsWordStarts(t, i);
    }
  }

  /** A snake_case key becomes words separated by spaces, each starting upper-case. */
  lemma SnakeCaseLabel()
    ensures KeyLabel("suction_pressure") == "Suction Pressure"
  {
    SnakeSpaced();
    SnakeCapitalized();
  }

  lemma SnakeSpaced()
    ensures Underscores("suction_pressure") == "suction pressure"
  {
  }

  lemma SnakeCapitalized()
    ensures CapitalizeWords("suction pressure") == "Suction Pressure"
  {
  }

  /**
   * `\w` and `\b` only know ASCII, so a letter that follows an accented one
   * starts a new word: "pressão" is labelled "PressãO".
   */
  lemma AccentSplitsWord()
    ensures KeyLabel("pressão") == "PressãO"
  {
    assert Underscores("pressão") == "pressão";
  }

  // ------------------------------------------------------------------
  // When the technical card is shown

  /**
   * `service?.technical_details && Object.keys(...).length > 0`, on the
   * value (None when there is no service): a truthy value with at least
   * one own key. Strings and arrays have their indices as keys.
   */
  function ShowTechnicalCard(details: Option<Json>): (r: bool)
    ensures r <==> details.Some? && |SpreadEntries(details.value)| > 0
    ensures details.Some? && details.value.JObj? ==> (r <==> |details.value.entries| > 0)
  {
    details.Some? && |SpreadEntries(details.value)| > 0
  }

  /** Missing, null and scalar details never show the card. */
  lemma NoCardForScalars(v: Json)
    requires IsNullish(v) || v.JBool? || v.JNum?
    ensures !ShowTechnicalCard(Some(v)) && !ShowTechnicalCard(None)
  {
  }

  // ------------------------------------------------------------------
  // Changing the status

  /** The backend's answer to the update: success, or an error with an optional message. */
  datatype UpdateOutcome = Updated | Failed(message: Option<string>)

  /** The text after "Erro: ": the error message, or the fallback when it has none. */
  function FailureText(message: Option<string>): string {
    match message
    case None => "Não foi possível atualizar"
    case Some(m) => m
  }

  /** `{ ...service, status: newStatus }`. */
  function WithStatus(service: Json, newStatus: string): (r: Json)
    ensures r.JObj?
    ensures Get(r.entries, "status") == Some(JStr(newStatus))
    ensures forall k :: k != "status" ==> Get(r.entries, k) == Get(SpreadEntries(service), k)
  {
    PutGet(SpreadEntries(service), "status", JStr(newStatus));
    JObj(Put(SpreadEntries(service), "status", JStr(newStatus)))
  }

  /** Setting the status of a record that has one keeps its fields and their order. */
  lemma WithStatusKeepsFields(entries: Entries<Json>, newStatus: string)
    requires "status" in Keys(entries) && DistinctKeys(entries)
    ensures Keys(WithStatus(JObj(entries), newStatus).entries) == Keys(entries)
    ensures DistinctKeys(WithStatus(JObj(entries), newStatus).entries)
  {
    PutDistinct(entries, "status", JStr(newStatus));
  }

  /** The screen's state: the loaded service record and the status message. */
  class ServiceDetails {
    var service: Json
    var statusMessage: string

    constructor(loaded: Json)
      ensures service == loaded && statusMessage == ""
    {
      service := loaded;
      statusMessage := "";
    }

    /**
     * `updateStatus(newStatus)` once the backend has answered: on success
     * the local record takes the new status and the message confirms it;
     * on failure the record is left alone and the message reports the
     * error.
     */
    method UpdateStatus(newStatus: string, outcome: UpdateOutcome)
      modifies this
      ensures outcome.Updated? ==> service == WithStatus(old(service), newStatus)
      ensures outcome.Updated? ==> statusMessage == "Status alterado para: " + newStatus
      ensures outcome.Failed? ==> service == old(service)
      ensures outcome.Failed? ==> statusMessage == "Erro: " + FailureText(outcome.message)
    {
      statusMessage := "Atualizando para: " + newStatus + "...";
      match outcome
      case Failed(message) =>
        statusMessage := "Erro: " + FailureText(message);
      case Updated =>
        service := WithStatus(service, newStatus);
        statusMessage := "Status alterado para: " + newStatus;
    }
  }

  /** Every failure message starts with "Erro: ", and never reads as a confirmation. */
  lemma FailureMessageShape(message: Option<string>, newStatus: string)
    ensures StartsWith("Erro: " + FailureText(message), "Erro: ")
    ensures "Erro: " + FailureText(message) != "Status alterado para: " + newStatus
  {
    var m := "Erro: " + FailureText(message);
    assert m[0] == 'E';
    assert ("Status alterado para: " + newStatus)[0] == 'S';
  }
}
