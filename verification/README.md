# LiveRegister helper logic in Dafny

LiveRegister is a React Native app for air-conditioning field service.
Technicians use it to manage clients, their units (sites), the equipment
installed at each unit, and the service visits ("atendimentos") made to that
equipment. Almost every screen fetches from or inserts into a hosted
backend. This project models the small, self-contained rules the components
and screens apply around that I/O, and proves what each rule promises:

- **CEP input** (Brazilian postal code): the `NNNNN-NNN` mask, the 8-digit
  trigger for the ViaCEP lookup, and how the lookup handles its reply.
- **Technical-details form**: the measurement, service-checklist and
  replaced-parts editors, and the quantity field's `parseInt(v) || 1`.
- **Maintenance indicator**: gray "Sem registro", green "Em dia", yellow
  "Próxima" or red "Atrasada", decided from the days since the last
  maintenance and the interval.
- **Client details**: the `forEach` loop that groups equipment by unit, the
  service status colour, and the address card.
- **Service details**: the status colour, the action buttons, the local
  effect of a status update, and the renderers for technical-detail values
  and key labels.
- **Date and time pickers**: the `YYYY-MM-DD`, `DD/MM/YYYY` and `HH:MM`
  string codecs, and when the change handlers emit a value.
- **Unit card**: the address line, the equipment-count badge, and the
  expand/collapse state.
- **Photo uploader**: the maximum-photos guard, the picker callback, the
  file extension and storage path, and the photo list.
- **Add-equipment screen**: the required fields and defaults, the inserted
  row, and where the screen goes after the insert.
- **Equipment mini card and details screen**: the equipment status badge,
  the detail lines, the not-found branch, the new-service parameters, and the
  history header.

JavaScript behaviour the rules depend on is written out in shared modules:

- `Text` holds the JS string functions the rules use:
  - `replace(/\D/g, "")`, `split` and `join`, `includes`, `padStart(2, "0")`;
  - `toLowerCase` on Latin-1;
  - `parseInt`, where NaN is `None`, and `Number` on a split field.
- `Records` holds a JS object as an ordered list of entries, with spread-update.
- `Lists` holds `filter` by value and by index.
- `JsValue` holds a JSON value, its template-string conversion and its spread.
- `Domain` holds the records of `src/types/index.ts`.

The model keeps the code's behaviour where it differs from what a reader
might expect:

- A `null` maintenance interval is not replaced by the 90-day default.
  JavaScript applies a default parameter only to `undefined`, and `null`
  counts as 0 in the division. Equipment saved without an interval therefore
  shows red one day after its last maintenance (`NullIntervalOverdue`,
  `UnsetIntervalOverdue`).
- `\b\w` in the key-label formatter is ASCII-only, so an accented letter ends
  a word: "pressão" becomes "PressãO" (`AccentSplitsWord`).
- A date reads back unchanged only for years from 100 on. The JS `Date`
  constructor maps years 0–99 to 1900–1999.

Each screen module takes the screen's own form:

- Pure handlers are functions from the current value to the new one.
- The grouping loop is a method with a `while` loop and an invariant.
- `formatAddress` builds its parts list by successive pushes in a method.
- The service-details screen and the photo uploader, whose state changes
  step by step, are classes with `modifies` clauses.

## Model

| member | source | states |
|---|---|---|
| CepInput.CleanCep | src/components/CepInput.tsx:64-65 | only ASCII digits; at most 8; exactly the first min(8, n) digits of the input, in order |
| CepInput.FormatCep | src/components/CepInput.tsx:62-72 | length ≤ 9; digits except a `-` at index 5; its digits are the cleaned digits; `-` present iff more than 5 digits, right after the fifth |
| CepInput.DashAfterFive | src/components/CepInput.tsx:67-70 | inserting the dash after five digits keeps the digits and puts `-` at index 5 |
| CepInput.FormatCepIdempotent | src/components/CepInput.tsx:62-72 | formatting a formatted value gives it back unchanged |
| CepInput.HandleCepChange | src/components/CepInput.tsx:62-78 | the field shows the formatted value; a lookup is fired iff at least 8 digits were typed, with the first 8 |
| CepInput.FetchAddress | src/components/CepInput.tsx:34-60 | nothing happens unless the CEP has exactly 8 digits; an `erro` reply sets "CEP não encontrado" and delivers nothing; a good reply delivers the address and clears the error; a failed request sets "Erro ao buscar CEP"; loading ends in every case where the fetch ran |
| CepInput.LookupPassesGuard | src/components/CepInput.tsx:35-37 | every lookup the mask fires passes the 8-digit guard of the fetch |
| TechnicalDetailsForm.UpdateMeasurement | src/components/TechnicalDetailsForm.tsx:22-30 | the key reads back the new value; every other key and every other field is unchanged; an existing key keeps its place; a new key is appended; distinct keys stay distinct |
| TechnicalDetailsForm.ToggleService | src/components/TechnicalDetailsForm.tsx:32-38 | membership flips; a present service loses every occurrence; an absent one is appended; the other entries are unchanged and in order; no other field changes |
| TechnicalDetailsForm.ToggleKeepsOthers | src/components/TechnicalDetailsForm.tsx:32-38 | appending then removing a service, or removing it twice, leaves the other services as they were |
| TechnicalDetailsForm.ToggleAbsentTwice | src/components/TechnicalDetailsForm.tsx:32-38 | ticking then unticking an absent service restores the list; a missing list comes back empty |
| TechnicalDetailsForm.AddPart | src/components/TechnicalDetailsForm.tsx:40-46 | exactly one `{name: "", quantity: 1}` is appended; earlier parts and other fields are unchanged |
| TechnicalDetailsForm.ApplyEdit | src/components/TechnicalDetailsForm.tsx:48-52 | the edited field takes the new value and the other field is kept |
| TechnicalDetailsForm.UpdatePart | src/components/TechnicalDetailsForm.tsx:48-52 | only part `index` changes, by that edit; the length and all other parts are unchanged |
| TechnicalDetailsForm.RemovePart | src/components/TechnicalDetailsForm.tsx:54-57 | an in-range index removes exactly that part and keeps the others in order; an out-of-range index changes nothing; a missing list becomes `[]` |
| TechnicalDetailsForm.SetRefrigerantAdded | src/components/TechnicalDetailsForm.tsx:231-232 | only `refrigerant_added` changes, to the typed text |
| TechnicalDetailsForm.SetNextMaintenance | src/components/TechnicalDetailsForm.tsx:242-243 | only `next_maintenance` changes, to the typed text |
| TechnicalDetailsForm.QuantityFromText | src/components/TechnicalDetailsForm.tsx:206-208 | the quantity is `parseInt(v)` when that is a non-zero number, and 1 when it is NaN or 0; never 0 |
| TechnicalDetailsForm.QuantityIgnoresTrailingText | src/components/TechnicalDetailsForm.tsx:206-208 | a non-zero integer followed by non-digit text, such as "5abc" or "1.5", gives that integer |
| TechnicalDetailsForm.QuantityRoundTrip | src/components/TechnicalDetailsForm.tsx:205-208 | a displayed non-zero quantity reads back as itself; "" and "0" give 1 |
| TechnicalDetailsForm.TypeQuantity | src/components/TechnicalDetailsForm.tsx:201-208 | typing into a row's quantity field sets that part's quantity to the parsed value and keeps its name |
| MaintenanceIndicator.IntervalOf | src/components/MaintenanceIndicator.tsx:9-11 | an omitted interval is 90; a null one counts as 0; otherwise it is the given number |
| MaintenanceIndicator.Status | src/components/MaintenanceIndicator.tsx:28-39 | for a positive interval: red iff days ≥ interval, yellow iff 75% ≤ ratio < 100%, green iff ratio < 75%; for a negative or zero interval, the signs of JS division |
| MaintenanceIndicator.Classify | src/components/MaintenanceIndicator.tsx:13-47 | no last maintenance gives gray "Sem registro"; otherwise the colour and word of the status, and the caption `"{status} • há {days} dias"` |
| MaintenanceIndicator.NoRecordIgnoresInterval | src/components/MaintenanceIndicator.tsx:13-20 | with no last maintenance the result is gray whatever the days and the interval |
| MaintenanceIndicator.DefaultInterval | src/components/MaintenanceIndicator.tsx:9-11 | an omitted interval behaves as 90 days |
| MaintenanceIndicator.NegativeDaysOnTime | src/components/MaintenanceIndicator.tsx:28-31 | a negative day count with a positive interval is green |
| MaintenanceIndicator.SeverityMonotonic | src/components/MaintenanceIndicator.tsx:28-39 | for a fixed non-negative interval, more days never give a less severe colour (green < yellow < red) |
| MaintenanceIndicator.CaptionCarriesDays | src/components/MaintenanceIndicator.tsx:44-46 | the caption ends with "{days} dias", and that number parses back to the day count |
| MaintenanceIndicator.NullIntervalOverdue | src/components/MaintenanceIndicator.tsx:9-39 | a null interval is red for any positive day count and green otherwise |
| ClientDetailsScreen.GroupByUnit | src/screens/Clients/ClientDetailsScreen.tsx:58-66 | the loop builds exactly the grouping: the keys are the unit ids that occur, and each group holds that unit's equipment in fetched order |
| ClientDetailsScreen.GroupedAfterIsGrouping | src/screens/Clients/ClientDetailsScreen.tsx:59-65 | the dictionary the loop builds is that grouping for every list |
| ClientDetailsScreen.GroupingStep | src/screens/Clients/ClientDetailsScreen.tsx:60-64 | creating the key if missing and pushing one equipment keeps the grouping true for the longer prefix |
| ClientDetailsScreen.InUnitAppend | src/screens/Clients/ClientDetailsScreen.tsx:60-64 | a unit's equipment from two lists is the first list's followed by the second's |
| ClientDetailsScreen.InUnitMembers | src/screens/Clients/ClientDetailsScreen.tsx:60-64 | an equipment is in a unit's group iff it was fetched and carries that unit id |
| ClientDetailsScreen.UnitIdsHas | src/screens/Clients/ClientDetailsScreen.tsx:59-65 | every fetched equipment's unit id is a key |
| ClientDetailsScreen.UnitIdsOccur | src/screens/Clients/ClientDetailsScreen.tsx:59-65 | every key is the unit id of some fetched equipment |
| ClientDetailsScreen.EachEquipmentInOneGroup | src/screens/Clients/ClientDetailsScreen.tsx:59-65 | each equipment is in the group of its own unit and in no other group |
| ClientDetailsScreen.InUnitAbsent | src/screens/Clients/ClientDetailsScreen.tsx:149 | a unit with no equipment gets the empty list |
| ClientDetailsScreen.UnitCardEquipment | src/screens/Clients/ClientDetailsScreen.tsx:149 | the list each unit card receives is that unit's equipment, or `[]` when it has no group |
| ClientDetailsScreen.GroupSizesSum | src/screens/Clients/ClientDetailsScreen.tsx:59-65 | over distinct unit ids that cover every key, the group sizes sum to the number of equipment |
| ClientDetailsScreen.GroupSizesStep | src/screens/Clients/ClientDetailsScreen.tsx:59-65 | one more equipment adds one to the size total for each listed occurrence of its unit |
| ClientDetailsScreen.OccursOnce | src/screens/Clients/ClientDetailsScreen.tsx:59-65 | in a list of distinct ids an id occurs once if present and otherwise not at all |
| ClientDetailsScreen.EmptyGroupSizes | src/screens/Clients/ClientDetailsScreen.tsx:59-65 | with no equipment every group is empty |
| ClientDetailsScreen.ClientAddressCard | src/screens/Clients/ClientDetailsScreen.tsx:119-129 | ", {number}" only for a non-empty number; " - {state}" only for a non-empty state; the "CEP: " line iff zip is non-empty |
| ClientDetailsScreen.AddressCardOf | src/screens/Clients/ClientDetailsScreen.tsx:116-131 | the address card is rendered exactly when the client has an address |
| StatusColors.ServiceStatusColor | src/screens/Services/ServiceDetailsScreen.tsx:112-118 | case-insensitive priority: green iff "concluído"/"concluido" occurs; amber iff not that and "andamento" occurs; red iff neither and "cancelado" occurs; gray otherwise and for a missing status |
| StatusColors.ServiceColorIgnoresCase | src/screens/Services/ServiceDetailsScreen.tsx:113 | statuses equal up to case get the same colour |
| StatusColors.ServiceColorOfLowered | src/screens/Services/ServiceDetailsScreen.tsx:113 | lowering the status first does not change its colour |
| StatusColors.DoneTakesPriority | src/screens/Services/ServiceDetailsScreen.tsx:114 | a status that says done is green whatever else it says |
| StatusColors.PendingButtonColor | src/screens/Services/ServiceDetailsScreen.tsx:211-220 | the "Pendente" button's status maps to gray #6b7280, the button's own colour |
| StatusColors.InProgressButtonColor | src/screens/Services/ServiceDetailsScreen.tsx:221-230 | "Em andamento" maps to amber #f59e0b |
| StatusColors.DoneButtonColor | src/screens/Services/ServiceDetailsScreen.tsx:231-240 | "Concluído" maps to green #10b981 |
| StatusColors.CancelledButtonColor | src/screens/Services/ServiceDetailsScreen.tsx:241-249 | "Cancelado" maps to red #ef4444 |
| StatusColors.EquipmentStatusColor | src/components/EquipmentMiniCard.tsx:17-28 | green iff exactly "Ativo"; amber iff exactly "Manutenção"; gray iff anything else, "Inativo" included |
| StatusColors.InactiveLooksUnknown | src/components/EquipmentMiniCard.tsx:21-26 | "Inativo" gets the same gray as an unknown status |
| ServiceDetailsScreen.EntryTexts | src/screens/Services/ServiceDetailsScreen.tsx:317 | one `"k: v"` text per entry, in order |
| ServiceDetailsScreen.IndexedEntries | src/screens/Services/ServiceDetailsScreen.tsx:316 | an array item's entries are its indices "0", "1", … paired with its elements |
| ServiceDetailsScreen.RenderItem | src/screens/Services/ServiceDetailsScreen.tsx:314-320 | an object or array item renders its `"k: v"` pairs joined by ", "; a scalar renders its string form; a null item throws |
| ServiceDetailsScreen.RenderedItems | src/screens/Services/ServiceDetailsScreen.tsx:313-321 | one rendered text per item, in order |
| ServiceDetailsScreen.FormatDetailValue | src/screens/Services/ServiceDetailsScreen.tsx:305-330 | null, undefined and `[]` give "--"; a non-empty array gives one line per item; an object gives `"k: v"` lines; a scalar its string form; it throws iff an array holds a null |
| ServiceDetailsScreen.ArrayRendersOneLinePerItem | src/screens/Services/ServiceDetailsScreen.tsx:311-322 | splitting an array's rendering at newlines gives back the rendered items |
| ServiceDetailsScreen.ObjectRendersOneLinePerEntry | src/screens/Services/ServiceDetailsScreen.tsx:323-327 | splitting an object's rendering at newlines gives back its `"k: v"` texts |
| ServiceDetailsScreen.SingleItemArrays | src/screens/Services/ServiceDetailsScreen.tsx:314-320 | a one-object array renders its pairs joined by ", "; a one-string array renders the string |
| ServiceDetailsScreen.EmptyObjectRendersNothing | src/screens/Services/ServiceDetailsScreen.tsx:309-327 | `{}` renders the empty text while `[]` renders "--" |
| ServiceDetailsScreen.UpperWordChar | src/screens/Services/ServiceDetailsScreen.tsx:337 | uppercasing keeps a word character a word character |
| ServiceDetailsScreen.Underscores | src/screens/Services/ServiceDetailsScreen.tsx:336 | each `_` becomes a space and every other character is kept |
| ServiceDetailsScreen.CapitalizeWords | src/screens/Services/ServiceDetailsScreen.tsx:337 | exactly the characters that start a word are uppercased |
| ServiceDetailsScreen.KeyLabel | src/screens/Services/ServiceDetailsScreen.tsx:335-337 | same length and no `_` left; underscores become spaces; word starts are uppercased; nothing else changes |
| ServiceDetailsScreen.CapitalizeKeepsWordStarts | src/screens/Services/ServiceDetailsScreen.tsx:337 | capitalising does not move word boundaries |
| ServiceDetailsScreen.KeyLabelIdempotent | src/screens/Services/ServiceDetailsScreen.tsx:335-337 | labelling a label gives it back |
| ServiceDetailsScreen.SnakeCaseLabel | src/screens/Services/ServiceDetailsScreen.tsx:335-337 | "suction_pressure" is labelled "Suction Pressure" |
| ServiceDetailsScreen.AccentSplitsWord | src/screens/Services/ServiceDetailsScreen.tsx:335-337 | "pressão" is labelled "PressãO", because `\w` and `\b` are ASCII-only |
| ServiceDetailsScreen.ShowTechnicalCard | src/screens/Services/ServiceDetailsScreen.tsx:292-293 | the card shows iff the details exist and spread to at least one key; for an object, iff it has an entry |
| ServiceDetailsScreen.NoCardForScalars | src/screens/Services/ServiceDetailsScreen.tsx:292-293 | null, a boolean, a number or missing details show no card |
| ServiceDetailsScreen.WithStatus | src/screens/Services/ServiceDetailsScreen.tsx:86 | the spread record has the new status and every other key reads as before |
| ServiceDetailsScreen.WithStatusKeepsFields | src/screens/Services/ServiceDetailsScreen.tsx:86 | a record that already had a status keeps its keys, their order, and their distinctness |
| ServiceDetailsScreen.ServiceDetails.constructor | src/screens/Services/ServiceDetailsScreen.tsx:27-28 | the screen holds the loaded service and starts with no message |
| ServiceDetailsScreen.ServiceDetails.UpdateStatus | src/screens/Services/ServiceDetailsScreen.tsx:67-94 | on success only the status field changes and the message is "Status alterado para: {s}"; on failure the record is unchanged and the message is "Erro: " followed by the error or a fallback |
| ServiceDetailsScreen.FailureMessageShape | src/screens/Services/ServiceDetailsScreen.tsx:76-94 | a failure message starts with "Erro: " and never equals a success message |
| DatePickerInput.FormatDate | src/components/DatePickerInput.tsx:39-44 | the text is at least six characters longer than the year |
| DatePickerInput.FormatDateSplits | src/components/DatePickerInput.tsx:39-44 | splitting at "-" gives the year, then month and day each zero-padded to two digits |
| DatePickerInput.GetDateFromString | src/components/DatePickerInput.tsx:32-36 | the picker opens on today iff the text is empty; otherwise on the `Number` of the first three "-" fields, with month − 1; a missing field is NaN and later fields are ignored |
| DatePickerInput.ConstructDate | src/components/DatePickerInput.tsx:35 | a constructed calendar date is always a valid date |
| DatePickerInput.ReadThreeFields | src/components/DatePickerInput.tsx:34-35 | three "-" fields are read as year, month − 1 and day |
| DatePickerInput.ReadTwoDateFields | src/components/DatePickerInput.tsx:34-35 | text with only two "-" fields leaves the day NaN |
| DatePickerInput.ExtraDateFieldsIgnored | src/components/DatePickerInput.tsx:34-35 | fields after the third are ignored |
| DatePickerInput.ReadThreeNumbers | src/components/DatePickerInput.tsx:34-35 | three numeric fields give those numbers, with the month made 0-based |
| DatePickerInput.ReadBackFields | src/components/DatePickerInput.tsx:32-44 | reading a formatted date gives back its year, 0-based month and day |
| DatePickerInput.ReadPaddedFields | src/components/DatePickerInput.tsx:34-35 | a year and two padded fields read back as those numbers |
| DatePickerInput.ReadPaddedNumbers | src/components/DatePickerInput.tsx:34-35 | as ReadPaddedFields, over natural numbers |
| DatePickerInput.DateRoundTrip | src/components/DatePickerInput.tsx:32-44 | a valid date from year 100 on, formatted and read back, opens the picker on that same date |
| DatePickerInput.ConstructValid | src/components/DatePickerInput.tsx:35 | a valid date from year 100 on is constructed as itself, with no rollover |
| DatePickerInput.FormatForDisplay | src/components/DatePickerInput.tsx:47-51 | the empty value displays "Selecione uma data" |
| DatePickerInput.DisplaySwaps | src/components/DatePickerInput.tsx:47-51 | any text `a-b-c` with dash-free fields, padded or not, displays as `c/b/a` |
| DatePickerInput.DisplayOfFormatted | src/components/DatePickerInput.tsx:39-51 | a formatted date displays as `DD/MM/YYYY` with the same padded fields |
| DatePickerInput.DisplayText | src/components/DatePickerInput.tsx:73-75 | the field shows "Selecione uma data" for an empty value and the display form otherwise |
| DatePickerInput.HandleDateChange | src/components/DatePickerInput.tsx:53-63 | the picker stays open only on iOS; a value is emitted iff the event is "set" with a date, and it is that date formatted |
| DatePickerInput.ChangeThenReopen | src/components/DatePickerInput.tsx:53-63 | after picking a valid date the picker reopens on that date |
| TimePickerInput.FormatTime | src/components/TimePickerInput.tsx:42-46 | a valid time gives five characters with ":" at index 2 |
| TimePickerInput.PaddedNatLength | src/components/TimePickerInput.tsx:43-44 | the hour and minute of a valid time pad to exactly two digits |
| TimePickerInput.SmallNatLength | src/components/TimePickerInput.tsx:43-44 | a number below 100 has at most two digits |
| TimePickerInput.OrZero | src/components/TimePickerInput.tsx:37 | a missing or NaN field becomes 0, and a number stays itself |
| TimePickerInput.GetDateFromTime | src/components/TimePickerInput.tsx:32-39 | now iff the text is empty; otherwise hours and minutes are the `Number` of the ":" fields, with missing or NaN as 0 and seconds at 0 |
| TimePickerInput.HoursOnly | src/components/TimePickerInput.tsx:36-37 | text without ":" sets only the hours, with minutes 0 |
| TimePickerInput.FormatTimeSplits | src/components/TimePickerInput.tsx:42-46 | splitting at ":" gives the two zero-padded fields |
| TimePickerInput.TimeRoundTrip | src/components/TimePickerInput.tsx:32-46 | reading a formatted valid time gives back its hour and minute |
| TimePickerInput.ReadTwoFields | src/components/TimePickerInput.tsx:36-37 | two ":" fields are read as hours and minutes |
| TimePickerInput.DisplayTime | src/components/TimePickerInput.tsx:68-70 | an empty value shows "Selecione um horário" and any other value shows itself |
| TimePickerInput.HandleTimeChange | src/components/TimePickerInput.tsx:48-58 | the picker stays open only on iOS; a value is emitted iff the event is "set" with a time, and it is that time formatted |
| TimePickerInput.TimeChangeThenReopen | src/components/TimePickerInput.tsx:48-58 | after picking a valid time the picker reopens on that time |
| CollapsibleUnitCard.FormatAddress | src/components/CollapsibleUnitCard.tsx:23-32 | no address gives null; otherwise the non-empty fields joined by ", " |
| CollapsibleUnitCard.PresentNonEmpty | src/components/CollapsibleUnitCard.tsx:27-30 | every pushed part is non-empty |
| CollapsibleUnitCard.PresentFour | src/components/CollapsibleUnitCard.tsx:26-30 | the parts are the non-empty ones among street, number, city and state, in that order |
| CollapsibleUnitCard.ZipIgnored | src/components/CollapsibleUnitCard.tsx:25 | the zip never affects the address line |
| CollapsibleUnitCard.FullAddress | src/components/CollapsibleUnitCard.tsx:25-31 | with all four fields set the line is "street, number, city, state" |
| CollapsibleUnitCard.JoinEmpty | src/components/CollapsibleUnitCard.tsx:31 | joining non-empty parts gives "" only when there are no parts |
| CollapsibleUnitCard.AddressLineShown | src/components/CollapsibleUnitCard.tsx:31-45 | the address line is shown iff one of the four fields is non-empty |
| CollapsibleUnitCard.BadgeLabel | src/components/CollapsibleUnitCard.tsx:50-53 | the badge starts with the count and ends with "equip." iff the count is 1, otherwise with "equips." |
| CollapsibleUnitCard.PressHeader | src/components/CollapsibleUnitCard.tsx:40 | pressing the header flips `expanded` |
| CollapsibleUnitCard.Content | src/components/CollapsibleUnitCard.tsx:59-74 | collapsed shows nothing; expanded and empty shows the empty message; otherwise one mini card per equipment |
| PhotoUploader.MaxPhotos | src/components/PhotoUploader.tsx:29 | the limit defaults to 10 |
| PhotoUploader.PickerGuard | src/components/PhotoUploader.tsx:70-77 | picking is refused iff the list is at the limit, with "Máximo de N fotos permitidas." |
| PhotoUploader.ShowButtons | src/components/PhotoUploader.tsx:160 | the camera and gallery buttons show iff there are fewer photos than the limit |
| PhotoUploader.ButtonsMatchGuard | src/components/PhotoUploader.tsx:160 | the buttons show exactly when the guard lets the picker open |
| PhotoUploader.PickerCallback | src/components/PhotoUploader.tsx:86-101 | a cancel does nothing; an error code alerts, with its message or a fallback; an upload happens iff neither applies and assets are present, with the first asset's uri |
| PhotoUploader.ErrorNeverUploads | src/components/PhotoUploader.tsx:91-97 | a response with an error code never uploads |
| PhotoUploader.FileExt | src/components/PhotoUploader.tsx:35 | the extension is non-empty and contains no "."; it is the text after the last "." or "jpg" when that is empty |
| PhotoUploader.FileExtSpec | src/components/PhotoUploader.tsx:35 | a uri without "." is its own extension; otherwise the uri ends with "." and the extension; the fallback applies iff the uri is empty or ends with "." |
| PhotoUploader.ExtensionAfterLastDot | src/components/PhotoUploader.tsx:35 | `name.ext` has extension `ext` |
| PhotoUploader.PngExtension | src/components/PhotoUploader.tsx:35 | "photo.png" has extension "png" |
| PhotoUploader.StoragePath | src/components/PhotoUploader.tsx:35-39 | the path starts with "equipment/" and ends with "." and the extension |
| PhotoUploader.ContentType | src/components/PhotoUploader.tsx:46-52 | the content type is "image/" followed by the extension |
| PhotoUploader.Uploader.constructor | src/components/PhotoUploader.tsx:26-31 | the uploader starts with the given photos, not uploading, and the limit or 10 |
| PhotoUploader.Uploader.HandleUpload | src/components/PhotoUploader.tsx:111-118 | a returned url is appended at the end; a null result leaves the list; uploading ends false; from a state the guard admitted, the list stays within the limit |
| PhotoUploader.Uploader.RemovePhoto | src/components/PhotoUploader.tsx:120-132 | a confirmed removal filters out exactly that index; a cancelled one changes nothing |
| PhotoUploader.UploadStaysWithinLimit | src/components/PhotoUploader.tsx:71-77 | an upload the guard allows never takes the list above the limit |
| AddEquipmentScreen.DefaultForm | src/screens/Equipment/AddEquipmentScreen.tsx:44-59 | every field starts empty except the interval "90" and the status "Ativo" |
| AddEquipmentScreen.Validate | src/screens/Equipment/AddEquipmentScreen.tsx:14-29 | the form is valid iff tag and status are non-empty, with one message for each missing field |
| AddEquipmentScreen.DefaultFormNeedsTag | src/screens/Equipment/AddEquipmentScreen.tsx:14-59 | the untouched form fails only for the missing tag |
| AddEquipmentScreen.OrNull | src/screens/Equipment/AddEquipmentScreen.tsx:79-80 | "" becomes null and any other text passes through |
| AddEquipmentScreen.InsertRow | src/screens/Equipment/AddEquipmentScreen.tsx:68-89 | text fields are copied; capacity is null iff empty and parsed otherwise; the dates map "" to null; the interval parses the text or "90"; photos are `[]`; the unit id is the route's |
| AddEquipmentScreen.NinetyParses | src/screens/Equipment/AddEquipmentScreen.tsx:81-83 | the fallback "90" parses to 90 |
| AddEquipmentScreen.DefaultRow | src/screens/Equipment/AddEquipmentScreen.tsx:75-83 | the untouched form inserts interval 90, null capacity and a null installation date |
| AddEquipmentScreen.NumbersRoundTrip | src/screens/Equipment/AddEquipmentScreen.tsx:75-83 | a capacity or interval typed as an integer is stored as that integer |
| AddEquipmentScreen.Submit | src/screens/Equipment/AddEquipmentScreen.tsx:38-64 | a row is inserted iff validation passes, and it is the built row |
| AddEquipmentScreen.AfterInsert | src/screens/Equipment/AddEquipmentScreen.tsx:99-109 | on success: to ClientDetails with `{id, refresh: true}` when a client id is present, otherwise back; on failure: an alert with the error message or "Não foi possível salvar." |
| EquipmentMiniCard.BadgeColor | src/components/EquipmentMiniCard.tsx:17-39 | the mini card's badge uses the exact status switch |
| EquipmentMiniCard.LocationLine | src/components/EquipmentMiniCard.tsx:45-47 | the location line shows iff the location is non-empty |
| EquipmentMiniCard.DetailLine | src/components/EquipmentMiniCard.tsx:49-54 | shown iff the type is set; " • N BTU" is added iff the capacity is truthy |
| EquipmentMiniCard.ZeroCapacityOmitted | src/components/EquipmentMiniCard.tsx:52 | a capacity of 0 is omitted just like a missing one |
| EquipmentMiniCard.DetailLineShape | src/components/EquipmentMiniCard.tsx:49-54 | the line starts with the type and ends with " BTU" when a capacity is shown |
| EquipmentMiniCard.IntervalPropOf | src/components/EquipmentMiniCard.tsx:56-59 | the indicator receives the row's interval, with an unset one as null rather than omitted |
| EquipmentMiniCard.CardIndicator | src/components/EquipmentMiniCard.tsx:56-59 | equipment with no recorded maintenance shows gray |
| EquipmentMiniCard.UnsetIntervalOverdue | src/components/EquipmentMiniCard.tsx:56-59 | equipment with a last maintenance but no interval is red from day one |
| EquipmentDetailsScreen.Render | src/screens/Equipment/EquipmentDetailsScreen.tsx:71-98 | the spinner iff loading; "Equipamento não encontrado." iff the load ended without equipment; otherwise the details with the exact-switch badge colour |
| EquipmentDetailsScreen.BadgeColors | src/screens/Equipment/EquipmentDetailsScreen.tsx:87-98 | Ativo is green, Manutenção amber, Inativo gray |
| EquipmentDetailsScreen.NewServiceParamsOf | src/screens/Equipment/EquipmentDetailsScreen.tsx:211-221 | "Criar Atendimento" passes the equipment's id and unit id |
| EquipmentDetailsScreen.HistoryCard | src/screens/Equipment/EquipmentDetailsScreen.tsx:226-233 | the header is "Histórico de Manutenções (N)"; the placeholder shows iff there are no services |
| EquipmentDetailsScreen.HistoryCountReadsBack | src/screens/Equipment/EquipmentDetailsScreen.tsx:228 | the number in the header parses back to the number of services |
| Text.DigitsOf | src/components/CepInput.tsx:64 | `replace(/\D/g, "")` keeps only digits and never grows the text |
| Text.DigitsOfAppend | src/components/CepInput.tsx:64 | filtering a concatenation filters each part |
| Text.DigitsOfAllDigits | src/components/CepInput.tsx:64 | a digit string is kept whole |
| Text.IntToString | src/components/TechnicalDetailsForm.tsx:205 | `String(n)` is a sign for negatives followed by the decimal digits of the magnitude |
| Text.ParseIntOfIntToString | src/components/TechnicalDetailsForm.tsx:207 | `parseInt(String(n))` is n |
| Text.ParseIntPrefix | src/screens/Equipment/AddEquipmentScreen.tsx:76 | `parseInt` of a number followed by a non-digit stops at that non-digit |
| Text.NumberOf | src/components/DatePickerInput.tsx:34 | `Number("")` is 0 and a plain digit string is its value |
| Text.NumberOfPadded | src/components/DatePickerInput.tsx:34 | `Number` reads a zero-padded field back as the number |
| Text.PadStart2 | src/components/DatePickerInput.tsx:41-42 | `padStart(2, "0")` gives at least two characters, the text at the end, and zeros before it |
| Text.Split | src/components/PhotoUploader.tsx:35 | `split` always gives at least one piece |
| Text.SplitPiecesFree | src/components/PhotoUploader.tsx:35 | no piece contains the separator |
| Text.JoinSplit | src/components/PhotoUploader.tsx:35 | joining the pieces with the separator gives the text back |
| Text.SplitJoin | src/screens/Services/ServiceDetailsScreen.tsx:321 | splitting a join of separator-free pieces gives the pieces back |
| Text.SplitLast | src/components/PhotoUploader.tsx:35 | the last piece has no separator; it is the whole text if the separator is absent, and otherwise the text ends with the separator and that piece |
| Text.ToLower | src/screens/Services/ServiceDetailsScreen.tsx:113 | `toLowerCase` lowers each character and keeps the length |
| Text.ToLowerIdempotent | src/screens/Services/ServiceDetailsScreen.tsx:113 | lowering twice is lowering once |
| Text.ContainsAt | src/screens/Services/ServiceDetailsScreen.tsx:114-116 | `includes` holds iff the substring occurs at some position |
| Records.Put | src/components/TechnicalDetailsForm.tsx:22-30 | spread-update keeps an existing key in place and appends a new one |
| Records.PutGet | src/components/TechnicalDetailsForm.tsx:22-30 | after the update the key reads the new value and every other key reads as before |
| Records.PutDistinct | src/components/TechnicalDetailsForm.tsx:22-30 | the update keeps keys distinct |
| Lists.RemoveAll | src/components/TechnicalDetailsForm.tsx:35 | `filter((s) => s !== v)` keeps exactly the elements other than v |
| Lists.RemoveAllAbsent | src/components/TechnicalDetailsForm.tsx:35 | filtering out an absent value changes nothing |
| Lists.RemoveAllAppend | src/components/TechnicalDetailsForm.tsx:35 | filtering distributes over concatenation |
| Lists.RemoveIndexSpec | src/components/PhotoUploader.tsx:127 | filtering by index removes exactly that index when in range and nothing otherwise |
| JsValue.TemplateString | src/screens/Services/ServiceDetailsScreen.tsx:317 | a string is itself; a number reads back with `parseInt`; an empty array is "" |
| JsValue.SpreadEntries | src/screens/Services/ServiceDetailsScreen.tsx:86 | spreading an object gives its entries, an array one per item and a string one per character; anything else gives none |

## Left out

- Backend calls are not modelled: every load, insert and update, storage upload and `getPublicUrl`, and authentication. Their outcomes are inputs instead: `UpdateOutcome`, `InsertResult` and the uploaded URL.
- The ViaCEP HTTP fetch is not modelled. Its reply is an input (`ViaCepReply`), and the URL it would request is built by `ViaCepUrl`.
- The camera and gallery pickers are device I/O. Their response is an input (`PickerResponse`).
- The clock and randomness are parameters:
  - `daysSince` replaces `new Date()` and the millisecond-to-day `Math.floor`.
  - The picker's "today" and "now" are inputs too.
  - `Date.now()` and `Math.random()` in the photo path are the `timestamp` and `random` parameters.
- The `setTimeout` that clears the status message after three seconds is a timer and is not modelled.
- Floating point is not modelled. The maintenance ratio is compared exactly over integers, which agrees with JS doubles at the 75% and 100% boundaries.
- `Text.NumberOf` reads surrounding whitespace, a blank field as 0, and an optional sign before decimal digits. It gives NaN for text JS `Number` accepts: fractions (".5", "5.", "1.5"), exponents, `0x`/`0b`/`0o` prefixes and "Infinity".
- `Text.ToLower` lowers only ASCII and Latin-1 letters, not the rest of Unicode.
- `Text.ParseInt` has no contract of its own. Its behaviour is stated by `Text.ParseIntOfIntToString` and `Text.ParseIntPrefix`.
- `DatePickerInput.ConstructDate` does not compute JS `Date` rollover of out-of-range fields, for example day 31 in April. It returns them as `RolledOver`.
- `DatePickerInput.DateRoundTrip` holds only from year 100 on, because JS maps two-digit years to 19xx.
- `DatePickerInput.FormatDate` states only a length bound directly. Its layout is stated by `FormatDateSplits` and `DisplayOfFormatted`.
- `TimePickerInput.FormatTime` states its shape only for valid times. Its fields are stated by `FormatTimeSplits`.
- `TechnicalDetailsForm.UpdatePart` requires an in-range index. The form only calls it for rendered rows, and an out-of-range write to a JS array would extend it with holes.
- `ClientDetailsScreen.InUnit` states only a length bound. Its contents are stated by `InUnitMembers` and `InUnitAppend`.
- `CollapsibleUnitCard.Present` states only a length bound. Its contents are stated by `PresentFour` and `PresentNonEmpty`.
- The key order of `Object.entries` is taken to be insertion order. Integer-like keys, which JS lists first, are not modelled.
- A rendered array item of type null throws a TypeError in the source. The model returns `None` rather than a partial rendering.
- Navigation, styles, the pickers' show flags, loading flags and `useFocusEffect` are not modelled. Neither are the list, profile, header and drawer components.
- Asynchronous interleavings are not modelled, such as a status update overtaking a reload, or stale closures.
- yup's own `required` semantics are simplified: a field counts as missing exactly when it is "".
- `src/services/MMKVStorage.ts`, the authentication screens and their schemas, and `dateFormat` in `src/utils/functions/index.ts` (locale formatting) are not part of this model.
