/** The form logic of the `FilterPanel` component: the nine-field form, the
    completeness rule, the coupling between start and end time, and the
    guards of adding and editing an event. */
module FilterPanel {
  import opened Wrappers
  import opened JsStrings
  import opened Events
  import EventService

  /** The keys of `FormState`. */
  datatype FormField =
    | Disciplina | Professor | Semestre | HorarioInicio | HorarioFinal
    | Sala | Dia | Turma | Modalidade

  /** `FormState`: only what the user types. */
  datatype FormState = FormState(
    disciplina: string,
    professor: string,
    semestre: string,
    horarioInicio: string,
    horarioFinal: string,
    sala: string,
    dia: string,
    turma: string,
    modalidade: string)
  {
    /** `formData[field]` */
    function Get(f: FormField): string {
      match f
      case Disciplina => disciplina
      case Professor => professor
      case Semestre => semestre
      case HorarioInicio => horarioInicio
      case HorarioFinal => horarioFinal
      case Sala => sala
      case Dia => dia
      case Turma => turma
      case Modalidade => modalidade
    }

    /** `{ ...prev, [field]: value }` */
    function Set(f: FormField, v: string): (r: FormState)
      ensures r.Get(f) == v
      ensures forall g | g != f :: r.Get(g) == Get(g)
    {
      match f
      case Disciplina => this.(disciplina := v)
      case Professor => this.(professor := v)
      case Semestre => this.(semestre := v)
      case HorarioInicio => this.(horarioInicio := v)
      case HorarioFinal => this.(horarioFinal := v)
      case Sala => this.(sala := v)
      case Dia => this.(dia := v)
      case Turma => this.(turma := v)
      case Modalidade => this.(modalidade := v)
    }
  }

  /** The cleared form. */
  const EmptyForm := FormState("", "", "", "", "", "", "", "", "")

  lemma EmptyFormIsEmpty(f: FormField)
    ensures EmptyForm.Get(f) == ""
  {
  }

  // ---------------------------------------------------------------------
  // isFormValid
  // ---------------------------------------------------------------------

  /** `requiredFields`: every key of the form. */
  const RequiredFields: seq<FormField> :=
    [Disciplina, Professor, Semestre, HorarioInicio, HorarioFinal, Sala, Dia, Turma, Modalidade]

  /** `fields.every(field => form[field].trim() !== '')` */
  function Every(fields: seq<FormField>, form: FormState): (r: bool)
    ensures r <==> forall f | f in fields :: Trim(form.Get(f)) != ""
  {
    if fields == [] then true
    else Trim(form.Get(fields[0])) != "" && Every(fields[1..], form)
  }

  /** `requiredFields` lists every key of the form. */
  lemma RequiredFieldsComplete()
    ensures forall f: FormField :: f in RequiredFields
  {
    forall f: FormField ensures f in RequiredFields {
      var k := match f
        case Disciplina => 0 case Professor => 1 case Semestre => 2
        case HorarioInicio => 3 case HorarioFinal => 4 case Sala => 5
        case Dia => 6 case Turma => 7 case Modalidade => 8;
      assert RequiredFields[k] == f;
    }
  }

  /** `isFormValid`: the form is complete exactly when no field is blank. */
  function IsFormValid(form: FormState): (r: bool)
    ensures r <==> forall f: FormField :: !IsBlank(form.Get(f))
  {
    RequiredFieldsComplete();
    forall f: FormField ensures IsBlank(form.Get(f)) <==> Trim(form.Get(f)) == "" {
      BlankIffTrimEmpty(form.Get(f));
    }
    Every(RequiredFields, form)
  }

  lemma EmptyFormInvalid()
    ensures !IsFormValid(EmptyForm)
  {
    assert IsBlank(EmptyForm.Get(Disciplina));
  }

  // ---------------------------------------------------------------------
  // The event data a form describes
  // ---------------------------------------------------------------------

  /** The `CreateEventData` literal of `handleAdd` and `handleEdit`. */
  function EventDataOf(form: FormState): (r: EventService.CreateEventData)
    ensures r.title == form.disciplina && r.day == form.dia
    ensures r.startTime == form.horarioInicio && r.endTime == form.horarioFinal
    ensures r.room == form.sala && r.professor == form.professor && r.semester == form.semestre
    ensures r.turma == form.turma && r.eventType == form.modalidade
  {
    EventService.CreateEventData(form.disciplina, form.dia, form.horarioInicio, form.horarioFinal,
                                 form.sala, form.professor, form.semestre, form.turma, form.modalidade)
  }

  /** A complete form passes every required-field check of
      `validateEventData`; only the time checks can still reject it. */
  lemma CompleteFormLeavesTimeErrors(form: FormState)
    requires forall f: FormField :: !IsBlank(form.Get(f))
    ensures var errors := EventService.DataErrors(EventDataOf(form));
      EventService.TitleRequired !in errors && EventService.DayRequired !in errors
      && EventService.StartTimeRequired !in errors && EventService.EndTimeRequired !in errors
  {
    var data := EventDataOf(form);
    assert !IsBlank(data.title) && !IsBlank(data.day) && !IsBlank(data.startTime) && !IsBlank(data.endTime) by {
      assert data.title == form.Get(Disciplina) && data.day == form.Get(Dia);
      assert data.startTime == form.Get(HorarioInicio) && data.endTime == form.Get(HorarioFinal);
    }
    EventService.DataErrorsExact(data);
  }

  // ---------------------------------------------------------------------
  // handleFieldChange
  // ---------------------------------------------------------------------

  /** Whether setting `field` to `value` also clears the end time: a new
      start time for which the current end time is no longer offered. */
  predicate ClearsEnd(prev: FormState, field: FormField, value: string) {
    field == HorarioInicio && prev.horarioFinal != ""
    && prev.horarioFinal !in EventService.AvailableEndTimes(value)
  }

  /** The form `handleFieldChange` computes from `prev`. */
  function ChangedForm(prev: FormState, field: FormField, value: string): (r: FormState)
    ensures r.Get(field) == value
    ensures forall g | g != field && g != HorarioFinal :: r.Get(g) == prev.Get(g)
    ensures field != HorarioFinal && !ClearsEnd(prev, field, value) ==> r.horarioFinal == prev.horarioFinal
    ensures ClearsEnd(prev, field, value) ==> r.horarioFinal == ""
    ensures field == HorarioInicio ==> r.horarioFinal == "" || r.horarioFinal in EventService.AvailableEndTimes(value)
  {
    if field != HorarioInicio then prev.Set(field, value)
    else
      var newData := prev.(horarioInicio := value);
      if ClearsEnd(prev, field, value) then newData.(horarioFinal := "") else newData
  }

  /** Only a start-time change can touch a second field. */
  lemma OtherFieldsChangeAlone(prev: FormState, field: FormField, value: string)
    requires field != HorarioInicio
    ensures ChangedForm(prev, field, value) == prev.Set(field, value)
  {
  }

  // ---------------------------------------------------------------------
  // The panel
  // ---------------------------------------------------------------------

  /** What `handleAdd` ends in; each failure is one `alert`. */
  datatype AddOutcome =
    | EditInProgress
    | AddIncomplete
    | CreateFailed(message: string)
    | Added(event: Event)

  /** What `handleEdit` ends in. */
  datatype EditOutcome =
    | EditRejected
    | UpdateFailed(message: string)
    | Updated(event: Event)

  function AddAlert(o: AddOutcome): string {
    match o
    case EditInProgress => "Por favor, cancele a edição atual antes de adicionar um novo evento."
    case AddIncomplete => "Por favor, preencha todos os campos obrigatórios."
    case CreateFailed(m) => "Erro ao criar evento: " + m
    case Added(_) => ""
  }

  function EditAlert(o: EditOutcome): string {
    match o
    case EditRejected => "Selecione um evento e preencha todos os campos necessários."
    case UpdateFailed(m) => "Erro ao atualizar evento: " + m
    case Updated(_) => ""
  }

  /** The panel's own state is its form; the selected event is a prop and
      `build` stands for the event factory behind `createEvent`. */
  class Panel {
    var formData: FormState

    constructor()
      ensures formData == EmptyForm
    {
      formData := EmptyForm;
    }

    /** `handleFieldChange` */
    method HandleFieldChange(field: FormField, value: string)
      modifies this
      ensures formData == ChangedForm(old(formData), field, value)
    {
      var prev := formData;
      var newData := prev.Set(field, value);
      if field == HorarioInicio && prev.horarioFinal != "" {
        var availableEndTimes := EventService.GetAvailableEndTimes(value);
        if prev.horarioFinal !in availableEndTimes {
          newData := newData.(horarioFinal := "");
        }
      }
      formData := newData;
    }

    /** `handleAdd`: refused while an event is selected or the form is
        incomplete; otherwise the event is created from the form, and only
        a successful creation clears the form. */
    method HandleAdd(selectedEvent: Option<Event>, build: EventService.CreateEventData -> Event) returns (r: AddOutcome)
      modifies this
      ensures r == EditInProgress <==> selectedEvent.Some?
      ensures r == AddIncomplete <==> selectedEvent.None? && !IsFormValid(old(formData))
      ensures r.CreateFailed? <==>
        selectedEvent.None? && IsFormValid(old(formData)) && EventService.DataErrors(EventDataOf(old(formData))) != []
      ensures r.Added? <==>
        selectedEvent.None? && IsFormValid(old(formData)) && EventService.DataErrors(EventDataOf(old(formData))) == []
      ensures r.Added? ==> r.event == build(EventDataOf(old(formData))) && formData == EmptyForm
      ensures r.CreateFailed? ==> r.message == EventService.InvalidDataMessage(EventService.DataErrors(EventDataOf(old(formData))))
      ensures !r.Added? ==> formData == old(formData)
    {
      if selectedEvent.Some? {
        return EditInProgress;
      }
      if !IsFormValid(formData) {
        return AddIncomplete;
      }
      var eventData := EventDataOf(formData);
      var created := EventService.CreateEvent(eventData, build);
      if created.Failure? {
        return CreateFailed(created.error);
      }
      formData := EmptyForm;
      return Added(created.value);
    }

    /** `handleEdit`: refused without a selected event or with an incomplete
        form; otherwise the event created from the form is emitted under the
        selected event's id. The form is left as it is. */
    method HandleEdit(selectedEvent: Option<Event>, build: EventService.CreateEventData -> Event) returns (r: EditOutcome)
      ensures r == EditRejected <==> selectedEvent.None? || !IsFormValid(formData)
      ensures r.Updated? <==>
        selectedEvent.Some? && IsFormValid(formData) && EventService.DataErrors(EventDataOf(formData)) == []
      ensures r.Updated? ==> r.event.id == selectedEvent.value.id
      ensures r.Updated? ==> SameExceptId(r.event, build(EventDataOf(formData)))
      ensures r.UpdateFailed? ==> r.message == EventService.InvalidDataMessage(EventService.DataErrors(EventDataOf(formData)))
    {
      if selectedEvent.None? || !IsFormValid(formData) {
        return EditRejected;
      }
      var eventData := EventDataOf(formData);
      var created := EventService.CreateEvent(eventData, build);
      if created.Failure? {
        return UpdateFailed(created.error);
      }
      var updatedEvent := created.value.(id := selectedEvent.value.id);
      return Updated(updatedEvent);
    }
  }

  /** `e` and `f` differ at most in their id. */
  predicate SameExceptId(e: Event, f: Event) {
    e.(id := f.id) == f
  }
}
