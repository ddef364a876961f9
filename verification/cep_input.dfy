/** The Brazilian postal-code (CEP) input: its 00000-000 mask and the lookup guard. */
module CepInput {
  import opened Wrappers
  import opened Text

  /** The digits the mask keeps: those of the input, in order, at most eight. */
  function CleanCep(text: string): (r: string)
    ensures AllDigits(r) && |r| <= 8
    ensures |r| == if |DigitsOf(text)| > 8 then 8 else |DigitsOf(text)|
    ensures r == DigitsOf(text)[..|r|]
  {
    var d := DigitsOf(text);
    if |d| > 8 then d[..8] else d
  }

  /** The text `handleCepChange` hands to `onChangeText`. */
  function FormatCep(text: string): (r: string)
    ensures |r| <= 9
    ensures forall i :: 0 <= i < |r| ==> IsDigit(r[i]) || (i == 5 && r[i] == '-')
    ensures DigitsOf(r) == CleanCep(text)
    ensures '-' in r <==> |CleanCep(text)| > 5
    ensures |CleanCep(text)| > 5 ==> r[5] == '-' && r[..5] == CleanCep(text)[..5]
    ensures |CleanCep(text)| <= 5 ==> r == CleanCep(text)
  {
    var cleaned := CleanCep(text);
    if |cleaned| > 5 then
      DashAfterFive(cleaned);
      cleaned[..5] + "-" + cleaned[5..]
    else
      DigitsOfAllDigits(cleaned);
      cleaned
  }

  /** Digits with a dash put after the fifth: only digits and that dash, and the digits unchanged. */
  lemma DashAfterFive(c: string)
    requires AllDigits(c) && |c| > 5
    ensures var r := c[..5] + "-" + c[5..];
      |r| == |c| + 1 && r[5] == '-' && r[..5] == c[..5] &&
      (forall i :: 0 <= i < |r| ==> IsDigit(r[i]) || i == 5) &&
      DigitsOf(r) == c
  {
    var r := c[..5] + "-" + c[5..];
    DigitsOfAppend(c[..5] + "-", c[5..]);
    DigitsOfAppend(c[..5], "-");
    DigitsOfAllDigits(c[..5]);
    DigitsOfAllDigits(c[5..]);
    assert c[..5] + c[5..] == c;
    assert forall i :: 0 <= i < |r| && i != 5 ==> r[i] == c[if i < 5 then i else i - 1];
  }

  /** Masking an already masked value changes nothing. */
  lemma FormatCepIdempotent(text: string)
    ensures FormatCep(FormatCep(text)) == FormatCep(text)
  {
    assert CleanCep(FormatCep(text)) == CleanCep(text);
  }

  /** What one keystroke produces: the masked text and, when complete, the lookup. */
  datatype CepChange = CepChange(formatted: string, lookup: Option<string>)

  /** `handleCepChange`: mask the text; fetch the address when eight digits remain. */
  function HandleCepChange(text: string): (r: CepChange)
    ensures r.formatted == FormatCep(text)
    ensures r.lookup.Some? <==> |DigitsOf(text)| >= 8
    ensures r.lookup.Some? ==> r.lookup.value == DigitsOf(text)[..8]
  {
    var cleaned := CleanCep(text);
    CepChange(FormatCep(text), if |cleaned| == 8 then Some(cleaned) else None)
  }

  /** The address fields ViaCEP returns. */
  datatype ViaCepAddress = ViaCepAddress(
    cep: string, logradouro: string, complemento: string,
    bairro: string, localidade: string, uf: string)

  /** What the ViaCEP request produced: a body (whose `erro` flag may be set) or a failure. */
  datatype ViaCepReply = Body(erro: bool, address: ViaCepAddress) | RequestFailed

  /** The component's `loading` and `fetchError` state. */
  datatype LookupState = LookupState(loading: bool, fetchError: string)

  /** After `fetchAddress`: the new state, the URL requested and what reached `onAddressFetched`. */
  datatype LookupResult = LookupResult(
    state: LookupState, requested: Option<string>, delivered: Option<ViaCepAddress>)

  function ViaCepUrl(cleanCep: string): string {
    "https://viacep.com.br/ws/" + cleanCep + "/json/"
  }

  /**
   * `fetchAddress(cep)`, with the HTTP reply as an input: anything but eight
   * digits returns at once; otherwise the error is cleared, the request is
   * made and the reply decides between the callback and an error message.
   */
  function FetchAddress(st: LookupState, cep: string, reply: ViaCepReply): (r: LookupResult)
    ensures |DigitsOf(cep)| != 8 ==> r == LookupResult(st, None, None)
    ensures |DigitsOf(cep)| == 8 ==>
      r.requested == Some(ViaCepUrl(DigitsOf(cep))) && !r.state.loading
    ensures |DigitsOf(cep)| == 8 && reply.Body? && reply.erro ==>
      r.state.fetchError == "CEP não encontrado" && r.delivered == None
    ensures |DigitsOf(cep)| == 8 && reply.Body? && !reply.erro ==>
      r.state.fetchError == "" && r.delivered == Some(reply.address)
    ensures |DigitsOf(cep)| == 8 && reply.RequestFailed? ==>
      r.state.fetchError == "Erro ao buscar CEP" && r.delivered == None
    ensures r.delivered.Some? ==> r.state.fetchError == ""
  {
    var cleanCep := DigitsOf(cep);
    if |cleanCep| != 8 then LookupResult(st, None, None)
    else
      var url := ViaCepUrl(cleanCep);
      match reply
      case RequestFailed => LookupResult(LookupState(false, "Erro ao buscar CEP"), Some(url), None)
      case Body(erro, address) =>
        if erro then LookupResult(LookupState(false, "CEP não encontrado"), Some(url), None)
        else LookupResult(LookupState(false, ""), Some(url), Some(address))
  }

  /** The lookup the mask triggers always passes the eight-digit guard of `fetchAddress`. */
  lemma LookupPassesGuard(text: string)
    requires HandleCepChange(text).lookup.Some?
    ensures |DigitsOf(HandleCepChange(text).lookup.value)| == 8
  {
    DigitsOfAllDigits(HandleCepChange(text).lookup.value);
  }
}
