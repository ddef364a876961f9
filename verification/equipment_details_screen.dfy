/**
 * The equipment details screen: what it shows once loading ends, the
 * status badge, the parameters of "Criar Atendimento" and the maintenance
 * history header.
 */
module EquipmentDetailsScreen {
  import opened Wrappers
  import opened Text
  import opened Domain
  import StatusColors

  /** What the screen renders. */
  datatype Screen = Loading | NotFound(message: string) | Details(equipment: Equipment, badgeColor: string)

  /**
   * While loading, the spinner; a missing equipment after loading, only
   * "Equipamento não encontrado."; otherwise the details with the status
   * badge coloured by the exact switch.
   */
  function Render(loading: bool, equipment: Option<Equipment>): (r: Screen)
    ensures r.Loading? <==> loading
    ensures r.NotFound? <==> !loading && equipment.None?
    ensures r.NotFound? ==> r.message == "Equipamento não encontrado."
    ensures r.Details? ==> r.equipment == equipment.value
    ensures r.Details? ==> r.badgeColor == StatusColors.EquipmentStatusColor(equipment.value.status)
  {
    if loading then Loading
    else if equipment.None? then NotFound("Equipamento não encontrado.")
    else Details(equipment.value, StatusColors.EquipmentStatusColor(equipment.value.status))
  }

  /** Both cards colour an equipment alike: an active one green, one under maintenance amber. */
  lemma BadgeColors(e: Equipment)
    ensures e.status == "Ativo" ==> Render(false, Some(e)).badgeColor == StatusColors.Green
    ensures e.status == "Manutenção" ==> Render(false, Some(e)).badgeColor == StatusColors.Amber
    ensures e.status == "Inativo" ==> Render(false, Some(e)).badgeColor == StatusColors.Gray
  {
  }

  /** The parameters "Criar Atendimento" passes to AddService. */
  datatype NewServiceParams = NewServiceParams(equipmentId: string, unitId: string)

  function NewServiceParamsOf(e: Equipment): (r: NewServiceParams)
    ensures r.equipmentId == e.id && r.unitId == e.unitId
  {
    NewServiceParams(e.id, e.unitId)
  }

  /** The history card: its header, and whether the empty placeholder shows. */
  datatype History = History(header: string, placeholder: Option<string>)

  /**
   * The header counts the loaded services; with none, the placeholder
   * "Nenhuma manutenção registrada ainda." is shown.
   */
  function HistoryCard(serviceCount: nat): (r: History)
    ensures r.placeholder.Some? <==> serviceCount == 0
    ensures r.placeholder.Some? ==> r.placeholder.value == "Nenhuma manutenção registrada ainda."
    ensures StartsWith(r.header, "Histórico de Manutenções (")
    ensures EndsWith(r.header, NatToString(serviceCount) + ")")
    ensures r.header == "Histórico de Manutenções (" + NatToString(serviceCount) + ")"
  {
    var prefix := "Histórico de Manutenções (";
    var header := prefix + NatToString(serviceCount) + ")";
    assert header[..|prefix|] == prefix;
    assert header[|header| - |NatToString(serviceCount) + ")"|..] == NatToString(serviceCount) + ")";
    History(header, if serviceCount == 0 then Some("Nenhuma manutenção registrada ainda.") else None)
  }

  /** The count in the header reads back as the number of services. */
  lemma HistoryCountReadsBack(serviceCount: nat)
    ensures var h := HistoryCard(serviceCount).header;
      ParseInt(h[|"Histórico de Manutenções ("|..]) == Some(serviceCount)
  {
    var h := HistoryCard(serviceCount).header;
    assert h[|"Histórico de Manutenções ("|..] == IntToString(serviceCount) + ")";
    ParseIntPrefix(serviceCount, ")");
  }
}
