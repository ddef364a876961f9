/**
 * The badge colours. Two screens colour a service status by looking for
 * words in it, case-insensitively; two others colour an equipment status
 * by an exact switch. Each rule is written identically in both places and
 * is defined once here.
 */
module StatusColors {
  import opened Wrappers
  import opened Text

  const Green := "#10b981"
  const Amber := "#f59e0b"
  const Red := "#ef4444"
  const Gray := "#6b7280"

  predicate SaysDone(lower: string) {
    Contains(lower, "concluído") || Contains(lower, "concluido")
  }

  predicate SaysInProgress(lower: string) {
    Contains(lower, "andamento")
  }

  predicate SaysCancelled(lower: string) {
    Contains(lower, "cancelado")
  }

  /**
   * `getStatusColor(status)` for a service: `status?.toLowerCase()`, then
   * the first word found in priority order picks the colour; a missing
   * status is gray.
   */
  function ServiceStatusColor(status: Option<string>): (r: string)
    ensures r in {Green, Amber, Red, Gray}
    ensures status.None? ==> r == Gray
    ensures status.Some? ==> (r == Green <==> SaysDone(ToLower(status.value)))
    ensures status.Some? ==> (r == Amber <==> !SaysDone(ToLower(status.value)) && SaysInProgress(ToLower(status.value)))
    ensures status.Some? ==> (r == Red <==> !SaysDone(ToLower(status.value)) && !SaysInProgress(ToLower(status.value))
                                             && SaysCancelled(ToLower(status.value)))
  {
    match status
    case None => Gray
    case Some(s) =>
      var lower := ToLower(s);
      if SaysDone(lower) then Green
      else if SaysInProgress(lower) then Amber
      else if SaysCancelled(lower) then Red
      else Gray
  }

  /** The colour does not depend on letter case: two statuses equal up to case get the same colour. */
  lemma ServiceColorIgnoresCase(s: string, t: string)
    requires ToLower(s) == ToLower(t)
    ensures ServiceStatusColor(Some(s)) == ServiceStatusColor(Some(t))
  {
  }

  /** Lower-casing the status first does not change its colour. */
  lemma ServiceColorOfLowered(s: string)
    ensures ServiceStatusColor(Some(ToLower(s))) == ServiceStatusColor(Some(s))
  {
    ToLowerIdempotent(s);
  }

  /** "Concluído" wins over any other word in the same status. */
  lemma DoneTakesPriority(s: string)
    requires SaysDone(ToLower(s))
    ensures ServiceStatusColor(Some(s)) == Green
  {
  }

  // Each action button's label, taken as a status, gets the button's own
  // background colour.

  /** The "Pendente" button is gray. */
  lemma PendingButtonColor()
    ensures ServiceStatusColor(Some("Pendente")) == Gray
  {
    LowerOf("Pendente", "pendente");
    var lower := "pendente";
    NotContainsLonger(lower, "concluído");
    NotContainsLonger(lower, "concluido");
    NotContainsLonger(lower, "andamento");
    NotContainsLonger(lower, "cancelado");
  }

  /** The "Em andamento" button is amber. */
  lemma InProgressButtonColor()
    ensures ServiceStatusColor(Some("Em andamento")) == Amber
  {
    LowerOf("Em andamento", "em andamento");
    InProgressWords();
  }

  lemma InProgressWords()
    ensures !SaysDone("em andamento") && SaysInProgress("em andamento")
  {
    NotDoneInProgress();
    InProgressFound();
  }

  lemma NotDoneInProgress()
    ensures !Contains("em andamento", "concluído") && !Contains("em andamento", "concluido")
  {
    NotContainsFirstChar("em andamento", "concluído");
    NotContainsFirstChar("em andamento", "concluido");
  }

  lemma InProgressFound()
    ensures Contains("em andamento", "andamento")
  {
    var lower := "em andamento";
    assert lower[3..12] == "andamento";
    ContainsWitness(lower, "andamento", 3);
  }

  /** The "Concluído" button is green. */
  lemma DoneButtonColor()
    ensures ServiceStatusColor(Some("Concluído")) == Green
  {
    LowerOf("Concluído", "concluído");
    var lower := "concluído";
    ContainsSameLength(lower, "concluído");
  }

  /** The "Cancelado" button is red. */
  lemma CancelledButtonColor()
    ensures ServiceStatusColor(Some("Cancelado")) == Red
  {
    LowerOf("Cancelado", "cancelado");
    CancelledWords();
  }

  lemma CancelledWords()
    ensures !SaysDone("cancelado") && !SaysInProgress("cancelado") && SaysCancelled("cancelado")
  {
    var lower := "cancelado";
    ContainsSameLength(lower, "concluído");
    ContainsSameLength(lower, "concluido");
    ContainsSameLength(lower, "andamento");
    ContainsSameLength(lower, "cancelado");
  }

  /** A button label and its lower-cased form, letter by letter. */
  lemma LowerOf(text: string, lower: string)
    requires |text| == |lower| && forall i :: 0 <= i < |text| ==> LowerChar(text[i]) == lower[i]
    ensures ToLower(text) == lower
  {
  }

  /** `getStatusColor(status)` for equipment: an exact `switch` with a gray default. */
  function EquipmentStatusColor(status: string): (r: string)
    ensures r in {Green, Amber, Gray}
    ensures r == Green <==> status == "Ativo"
    ensures r == Amber <==> status == "Manutenção"
    ensures r == Gray <==> status != "Ativo" && status != "Manutenção"
  {
    match status
    case "Ativo" => Green
    case "Inativo" => Gray
    case "Manutenção" => Amber
    case _ => Gray
  }

  /** "Inativo" is coloured exactly like a status the switch does not know. */
  lemma InactiveLooksUnknown(other: string)
    requires other != "Ativo" && other != "Inativo" && other != "Manutenção"
    ensures EquipmentStatusColor("Inativo") == EquipmentStatusColor(other) == Gray
  {
  }
}
