/** `EventService`: "HH:MM" arithmetic, the validation of new and existing
    events, the end-time slot list, partial updates and the overlap test of
    one event against a list. */
module EventService {
  import opened Wrappers
  import opened JsStrings
  import opened Events
  import Seqs
  import ConflictService

  // ---------------------------------------------------------------------
  // "HH:MM" <-> minutes
  // ---------------------------------------------------------------------

  /** `timeToMinutes`: `""` is 0; otherwise the string is split at `:` and
      the first two pieces are read as numbers. A missing minutes piece is
      `undefined`, which makes the sum NaN. */
  function TimeToMinutes(s: string): (r: Num)
    ensures s == "" ==> r == Int(0)
    ensures r.Int? ==> r.n >= 0
  {
    if s == "" then Int(0)
    else
      var parts := Split(s, ':');
      var hours := ToNumber(parts[0]);
      var minutes := if |parts| >= 2 then ToNumber(parts[1]) else NaN;
      if hours.Int? && minutes.Int? then Int(hours.n * 60 + minutes.n) else NaN
  }

  /** A non-empty string without `:` has no minutes piece, so it is NaN. */
  lemma NoColonIsNaN(s: string)
    requires s != "" && ':' !in s
    ensures TimeToMinutes(s) == NaN
  {
    SplitNoSep(s, ':');
  }

  /** `n.toString().padStart(2, '0')` */
  function Pad(i: int): string {
    PadStart2(IntToString(i))
  }

  /** `minutesToTime`: floor-divided hours and the JavaScript remainder, each
      zero-padded to two characters. */
  function MinutesToTime(m: int): (r: string)
    ensures 0 <= m < 6000 ==> |r| == 5 && r[2] == ':' && AllDigits(r[..2]) && AllDigits(r[3..])
  {
    var h := Pad(m / 60);
    var mm := Pad(JsRem(m, 60));
    if 0 <= m then
      PadDigits(m / 60);
      PadDigits(JsRem(m, 60));
      Shape(h, mm);
      h + ":" + mm
    else
      h + ":" + mm
  }

  /** A natural number printed and zero-padded reads back as itself. */
  lemma PadDigits(n: int)
    requires n >= 0
    ensures AllDigits(Pad(n)) && ':' !in Pad(n)
    ensures n < 100 ==> |Pad(n)| == 2
    ensures ToNumber(Pad(n)) == Int(n)
  {
    var s := NatToString(n);
    var p := PadStart2(s);
    assert p == Pad(n);
    NatToStringValue(n);
    if |s| == 1 {
      LeadingZeroValue(s);
      assert p == "0" + s;
    }
    assert AllDigits(p) && DigitsValue(p) == n;
    assert forall i | 0 <= i < |p| :: !IsSpace(p[i]) && p[i] != ':';
    TrimNoSpace(p);
  }

  lemma Shape(h: string, mm: string)
    requires AllDigits(h) && AllDigits(mm)
    ensures |h| == 2 && |mm| == 2 ==>
      var r := h + ":" + mm; |r| == 5 && r[2] == ':' && r[..2] == h && r[3..] == mm
  {
  }

  /** "H:M" splits into its two pieces when neither holds a `:`. */
  lemma SplitPieces(h: string, mm: string)
    requires ':' !in h && ':' !in mm
    ensures Split(h + ":" + mm, ':') == [h, mm]
  {
    assert h + ":" + mm == h + [':'] + mm;
    SplitAtSep(h, ':', mm);
    SplitNoSep(mm, ':');
  }

  /** A string that splits into two pieces is read as hours and minutes. */
  lemma ReadSplit(s: string, h: string, mm: string)
    requires s != "" && Split(s, ':') == [h, mm]
    ensures TimeToMinutes(s) ==
      if ToNumber(h).Int? && ToNumber(mm).Int? then Int(ToNumber(h).n * 60 + ToNumber(mm).n) else NaN
  {
  }

  /** Reading "H:M" where neither piece holds a `:`. */
  lemma ReadPieces(h: string, mm: string)
    requires ':' !in h && ':' !in mm
    ensures TimeToMinutes(h + ":" + mm) ==
      if ToNumber(h).Int? && ToNumber(mm).Int? then Int(ToNumber(h).n * 60 + ToNumber(mm).n) else NaN
  {
    SplitPieces(h, mm);
    ReadSplit(h + ":" + mm, h, mm);
  }

  lemma MinutesToTimeParts(m: nat)
    ensures MinutesToTime(m) == Pad(m / 60) + ":" + Pad(m % 60)
  {
  }

  lemma ReadPadded(h: nat, mi: nat)
    ensures TimeToMinutes(Pad(h) + ":" + Pad(mi)) == Int(h * 60 + mi)
  {
    PadDigits(h);
    PadDigits(mi);
    ReadPieces(Pad(h), Pad(mi));
  }

  /** Reading back a printed time gives the minute count again, for every
      non-negative count (hours past 99 simply take more digits). */
  lemma TimeRoundTrip(m: nat)
    ensures TimeToMinutes(MinutesToTime(m)) == Int(m)
  {
    MinutesToTimeParts(m);
    ReadPadded(m / 60, m % 60);
  }

  /** The two business-hour limits the validation compares against, and their
      minute counts: `timeToMinutes('07:30')` and `timeToMinutes('22:30')`. */
  const Opening := "07:30"
  const Closing := "22:30"
  const OpeningMinutes := 450
  const ClosingMinutes := 1350

  lemma OpeningIsSlot()
    ensures MinutesToTime(OpeningMinutes) == Opening
  {
    assert NatToString(7) == "7";
    assert NatToString(30) == "30";
  }

  lemma ClosingIsSlot()
    ensures MinutesToTime(ClosingMinutes) == Closing
  {
    assert NatToString(22) == "22";
    assert NatToString(30) == "30";
  }

  lemma BusinessHours()
    ensures TimeToMinutes(Opening) == Int(OpeningMinutes)
    ensures TimeToMinutes(Closing) == Int(ClosingMinutes)
  {
    OpeningIsSlot();
    ClosingIsSlot();
    TimeRoundTrip(OpeningMinutes);
    TimeRoundTrip(ClosingMinutes);
  }

  // ---------------------------------------------------------------------
  // End-time slots
  // ---------------------------------------------------------------------

  /** The first slot, 07:30, and the number of hourly slots up to 22:30. */
  const FirstSlot := 7 * 60 + 30
  const SlotCount := 16

  /** Slot `k`: the time `k` hours after 07:30. */
  function Slot(k: int): string {
    MinutesToTime(FirstSlot + 60 * k)
  }

  /** The list the `for` loop of `getAvailableEndTimes` builds. */
  function HourlySlots(): seq<string> {
    seq(SlotCount, k requires 0 <= k < SlotCount => Slot(k))
  }

  /** Slot `k` reads back as minute 450 + 60k, so the list runs strictly
      upwards and has no repeats. */
  lemma SlotMinutes(k: nat)
    ensures TimeToMinutes(Slot(k)) == Int(FirstSlot + 60 * k)
  {
    TimeRoundTrip(FirstSlot + 60 * k);
  }

  /** The list runs from 07:30 to 22:30. */
  lemma SlotEnds()
    ensures HourlySlots()[0] == Opening
    ensures HourlySlots()[SlotCount - 1] == Closing
  {
    assert HourlySlots()[0] == MinutesToTime(OpeningMinutes) by {
      assert HourlySlots()[0] == Slot(0);
    }
    assert HourlySlots()[SlotCount - 1] == MinutesToTime(ClosingMinutes) by {
      assert HourlySlots()[SlotCount - 1] == Slot(SlotCount - 1);
    }
    OpeningIsSlot();
    ClosingIsSlot();
  }

  lemma SlotsDistinct()
    ensures Seqs.Distinct(HourlySlots())
  {
    forall i, j | 0 <= i < j < SlotCount ensures HourlySlots()[i] != HourlySlots()[j] {
      SlotMinutes(i);
      SlotMinutes(j);
    }
  }

  /** The filter of `getAvailableEndTimes`: times strictly after the start. */
  function LaterThan(startMinutes: Num): string -> bool {
    (t: string) => NumLt(startMinutes, TimeToMinutes(t))
  }

  /** What `getAvailableEndTimes` returns: nothing for an empty start,
      otherwise the slots whose minute count is strictly after the start. */
  function AvailableEndTimes(startTime: string): (r: seq<string>)
    ensures startTime == "" ==> r == []
  {
    if startTime == "" then [] else Seqs.Filter(HourlySlots(), LaterThan(TimeToMinutes(startTime)))
  }

  /** Slot `k` is offered exactly when the start is given and parses to a
      minute count below 450 + 60k. */
  lemma AvailableEndTimesExact(startTime: string, k: nat)
    requires k < SlotCount
    ensures HourlySlots()[k] in AvailableEndTimes(startTime)
      <==> startTime != "" && NumLt(TimeToMinutes(startTime), Int(FirstSlot + 60 * k))
  {
    SlotMinutes(k);
    assert HourlySlots()[k] == Slot(k);
  }

  /** The offered end times keep the order of the hourly slots. */
  lemma AvailableEndTimesInOrder(startTime: string)
    ensures Seqs.IsSubsequence(AvailableEndTimes(startTime), HourlySlots())
  {
  }

  /** Every offered end time is a slot after the start. */
  lemma AvailableEndTimesAfterStart(startTime: string, t: string)
    requires t in AvailableEndTimes(startTime)
    ensures exists k | 0 <= k < SlotCount :: t == HourlySlots()[k]
    ensures NumLt(TimeToMinutes(startTime), TimeToMinutes(t))
  {
    AvailableEndTimesInOrder(startTime);
    Seqs.SubsequenceMembers(AvailableEndTimes(startTime), HourlySlots());
  }

  /** `getAvailableEndTimes`: the counting loop from 07:30 to 22:30 in steps
      of 60 minutes, then the filter. */
  method GetAvailableEndTimes(startTime: string) returns (r: seq<string>)
    ensures r == AvailableEndTimes(startTime)
  {
    if startTime == "" {
      return [];
    }
    var startMinutes := TimeToMinutes(startTime);
    var allTimes: seq<string> := [];
    var minutes := 7 * 60 + 30;
    ghost var k := 0;
    while minutes <= 22 * 60 + 30
      invariant 0 <= k <= SlotCount && minutes == FirstSlot + 60 * k
      invariant allTimes == HourlySlots()[..k]
    {
      Seqs.PrefixSnoc(HourlySlots(), k);
      assert HourlySlots()[k] == Slot(k);
      allTimes := allTimes + [MinutesToTime(minutes)];
      minutes := minutes + 60;
      k := k + 1;
    }
    assert allTimes == HourlySlots();
    r := Seqs.Filter(allTimes, LaterThan(startMinutes));
  }

  // ---------------------------------------------------------------------
  // Validation of the data for a new event
  // ---------------------------------------------------------------------

  /** `CreateEventData`; optional fields that are absent are "". */
  datatype CreateEventData = CreateEventData(
    title: string,
    day: string,
    startTime: string,
    endTime: string,
    room: string,
    professor: string,
    semester: string,
    turma: string,
    eventType: string)

  /** The errors `validateEventData` can report, in the order it checks them. */
  datatype DataError =
    | TitleRequired
    | DayRequired
    | StartTimeRequired
    | EndTimeRequired
    | EndNotAfterStart
    | StartTooEarly
    | EndTooLate

  function DataErrorMessage(e: DataError): string {
    match e
    case TitleRequired => "Title is required"
    case DayRequired => "Day is required"
    case StartTimeRequired => "Start time is required"
    case EndTimeRequired => "End time is required"
    case EndNotAfterStart => "End time must be after start time"
    case StartTooEarly => "Start time cannot be before 07:30"
    case EndTooLate => "End time cannot be after 22:30"
  }

  /** `ValidationResult`, with the errors as codes. */
  datatype Validation<E> = Validation(isValid: bool, errors: seq<E>)

  /** The position of each check in `validateEventData`. */
  function DataErrorRank(e: DataError): (r: nat)
    ensures r < DataCheckCount && CheckAt(r) == e
  {
    match e
    case TitleRequired => 0
    case DayRequired => 1
    case StartTimeRequired => 2
    case EndTimeRequired => 3
    case EndNotAfterStart => 4
    case StartTooEarly => 5
    case EndTooLate => 6
  }

  const DataCheckCount := 7

  /** The check `validateEventData` makes in position `k`. */
  function CheckAt(k: nat): DataError
    requires k < DataCheckCount
  {
    if k == 0 then TitleRequired
    else if k == 1 then DayRequired
    else if k == 2 then StartTimeRequired
    else if k == 3 then EndTimeRequired
    else if k == 4 then EndNotAfterStart
    else if k == 5 then StartTooEarly
    else EndTooLate
  }

  function When<E>(b: bool, e: E): seq<E> {
    if b then [e] else []
  }

  /** The outcome of each check `validateEventData` makes. The time checks
      count only when both time strings are non-empty (untrimmed); a
      comparison with NaN is false, so a time that does not parse fails none
      of them. The two limits are the minute counts of `timeToMinutes('07:30')`
      and `timeToMinutes('22:30')` (`BusinessHours`). */
  datatype DataChecks = DataChecks(
    titleBlank: bool, dayBlank: bool, startBlank: bool, endBlank: bool,
    timesGiven: bool, endNotAfterStart: bool, startTooEarly: bool, endTooLate: bool)

  function ChecksOf(data: CreateEventData): DataChecks {
    var s := TimeToMinutes(data.startTime);
    var e := TimeToMinutes(data.endTime);
    DataChecks(
      IsBlank(data.title), IsBlank(data.day), IsBlank(data.startTime), IsBlank(data.endTime),
      data.startTime != "" && data.endTime != "",
      NumLe(e, s), NumLt(s, Int(OpeningMinutes)), NumLt(Int(ClosingMinutes), e))
  }

  /** Whether the check behind error `e` fails. */
  predicate Failed(c: DataChecks, e: DataError) {
    match e
    case TitleRequired => c.titleBlank
    case DayRequired => c.dayBlank
    case StartTimeRequired => c.startBlank
    case EndTimeRequired => c.endBlank
    case EndNotAfterStart => c.timesGiven && c.endNotAfterStart
    case StartTooEarly => c.timesGiven && c.startTooEarly
    case EndTooLate => c.timesGiven && c.endTooLate
  }

  /** The errors the first `n` checks push. */
  function ErrorsUpTo(c: DataChecks, n: nat): seq<DataError>
    requires n <= DataCheckCount
  {
    if n == 0 then [] else ErrorsUpTo(c, n - 1) + When(Failed(c, CheckAt(n - 1)), CheckAt(n - 1))
  }

  /** One more check pushes its error when it fails. */
  lemma ErrorsUpToNext(c: DataChecks, n: nat)
    requires n < DataCheckCount
    ensures ErrorsUpTo(c, n + 1) == ErrorsUpTo(c, n) + When(Failed(c, CheckAt(n)), CheckAt(n))
  {
  }

  function DataErrors(data: CreateEventData): seq<DataError> {
    ErrorsUpTo(ChecksOf(data), DataCheckCount)
  }

  /** Ranks strictly increase along a list of errors. */
  predicate Ranked(errors: seq<DataError>) {
    forall i, j | 0 <= i < j < |errors| :: DataErrorRank(errors[i]) < DataErrorRank(errors[j])
  }

  /** An error is among those of the first `n` checks exactly when its check
      is one of them and fails. */
  lemma {:induction false} ErrorsUpToMembers(c: DataChecks, n: nat, e: DataError)
    requires n <= DataCheckCount
    ensures e in ErrorsUpTo(c, n) <==> DataErrorRank(e) < n && Failed(c, e)
  {
    if n > 0 {
      ErrorsUpToMembers(c, n - 1, e);
    }
  }

  /** The errors come in the order of the checks. */
  lemma {:induction false} ErrorsUpToRanked(c: DataChecks, n: nat)
    requires n <= DataCheckCount
    ensures Ranked(ErrorsUpTo(c, n))
    ensures forall x | x in ErrorsUpTo(c, n) :: DataErrorRank(x) < n
  {
    if n > 0 {
      ErrorsUpToRanked(c, n - 1);
      var prev, last := ErrorsUpTo(c, n - 1), When(Failed(c, CheckAt(n - 1)), CheckAt(n - 1));
      assert ErrorsUpTo(c, n) == prev + last;
      assert DataErrorRank(CheckAt(n - 1)) == n - 1;
    }
  }

  /** A blank title, day, start or end time each adds its own error; with
      both times given, an end not after the start, a start before 07:30 and
      an end after 22:30 add one each; nothing else adds an error, the errors
      come in the order of the checks, and none is repeated. */
  lemma DataErrorsExact(data: CreateEventData)
    ensures TitleRequired in DataErrors(data) <==> IsBlank(data.title)
    ensures DayRequired in DataErrors(data) <==> IsBlank(data.day)
    ensures StartTimeRequired in DataErrors(data) <==> IsBlank(data.startTime)
    ensures EndTimeRequired in DataErrors(data) <==> IsBlank(data.endTime)
    ensures EndNotAfterStart in DataErrors(data) <==>
      data.startTime != "" && data.endTime != ""
      && NumLe(TimeToMinutes(data.endTime), TimeToMinutes(data.startTime))
    ensures StartTooEarly in DataErrors(data) <==>
      data.startTime != "" && data.endTime != "" && NumLt(TimeToMinutes(data.startTime), TimeToMinutes(Opening))
    ensures EndTooLate in DataErrors(data) <==>
      data.startTime != "" && data.endTime != "" && NumLt(TimeToMinutes(Closing), TimeToMinutes(data.endTime))
    ensures Ranked(DataErrors(data)) && Seqs.Distinct(DataErrors(data))
  {
    BusinessHours();
    var c := ChecksOf(data);
    forall e {
      ErrorsUpToMembers(c, DataCheckCount, e);
    }
    ErrorsUpToRanked(c, DataCheckCount);
  }

  /** `validateEventData`: push one error per failed check; valid exactly
      when no error was pushed. */
  method ValidateEventData(data: CreateEventData) returns (v: Validation<DataError>)
    ensures v.errors == DataErrors(data)
    ensures v.isValid <==> v.errors == []
  {
    var errors := RequiredFieldErrors(data);
    errors := TimeErrors(data, errors);
    v := Validation(|errors| == 0, errors);
  }

  /** The required-field checks of `validateEventData`. */
  method RequiredFieldErrors(data: CreateEventData) returns (errors: seq<DataError>)
    ensures errors == ErrorsUpTo(ChecksOf(data), 4)
  {
    ghost var c := ChecksOf(data);
    ErrorsUpToNext(c, 0);
    ErrorsUpToNext(c, 1);
    ErrorsUpToNext(c, 2);
    ErrorsUpToNext(c, 3);
    errors := [];
    if IsBlank(data.title) {
      errors := errors + [TitleRequired];
    }
    assert errors == ErrorsUpTo(c, 1);
    if IsBlank(data.day) {
      errors := errors + [DayRequired];
    }
    assert errors == ErrorsUpTo(c, 2);
    if IsBlank(data.startTime) {
      errors := errors + [StartTimeRequired];
    }
    assert errors == ErrorsUpTo(c, 3);
    if IsBlank(data.endTime) {
      errors := errors + [EndTimeRequired];
    }
  }

  /** The time checks of `validateEventData`, pushed after the others. */
  method TimeErrors(data: CreateEventData, errors: seq<DataError>) returns (errors': seq<DataError>)
    requires errors == ErrorsUpTo(ChecksOf(data), 4)
    ensures errors' == ErrorsUpTo(ChecksOf(data), DataCheckCount)
  {
    ghost var c := ChecksOf(data);
    ErrorsUpToNext(c, 4);
    ErrorsUpToNext(c, 5);
    ErrorsUpToNext(c, 6);
    errors' := errors;
    if data.startTime != "" && data.endTime != "" {
      var startMinutes := TimeToMinutes(data.startTime);
      var endMinutes := TimeToMinutes(data.endTime);
      assert c.timesGiven && c.endNotAfterStart == NumLe(endMinutes, startMinutes);
      assert c.startTooEarly == NumLt(startMinutes, Int(OpeningMinutes));
      assert c.endTooLate == NumLt(Int(ClosingMinutes), endMinutes);
      if NumLe(endMinutes, startMinutes) {
        errors' := errors' + [EndNotAfterStart];
      }
      assert errors' == ErrorsUpTo(c, 5);
      if NumLt(startMinutes, Int(OpeningMinutes)) {
        errors' := errors' + [StartTooEarly];
      }
      assert errors' == ErrorsUpTo(c, 6);
      if NumLt(Int(ClosingMinutes), endMinutes) {
        errors' := errors' + [EndTooLate];
      }
    } else {
      assert !c.timesGiven;
    }
  }

  /** Two times that do not parse pass every time check; only the four
      required-field checks can then fail. */
  lemma UnparsedTimesPass(data: CreateEventData)
    requires TimeToMinutes(data.startTime) == NaN && TimeToMinutes(data.endTime) == NaN
    ensures forall e | e in DataErrors(data) :: DataErrorRank(e) < 4
  {
    forall e | e in DataErrors(data) {
      ErrorsUpToMembers(ChecksOf(data), DataCheckCount, e);
    }
  }

  /** The text of the error `createEvent` throws. */
  function InvalidDataMessage(errors: seq<DataError>): string {
    "Invalid event data: " + Join(seq(|errors|, i requires 0 <= i < |errors| => DataErrorMessage(errors[i])), ", ")
  }

  /** `createEvent`, guard only: a thrown error is a `Failure`; the event is
      built by `createEventWithFixedDate`, whose code (and the random id it
      is given) is not part of this model, so it is the parameter `build`. */
  method CreateEvent(data: CreateEventData, build: CreateEventData -> Event) returns (r: Result<Event, string>)
    ensures r.Failure? <==> DataErrors(data) != []
    ensures r.Failure? ==> r.error == InvalidDataMessage(DataErrors(data))
    ensures r.Success? ==> r.value == build(data)
  {
    var validation := ValidateEventData(data);
    if !validation.isValid {
      return Failure(InvalidDataMessage(validation.errors));
    }
    return Success(build(data));
  }

  // ---------------------------------------------------------------------
  // Validation of an existing event
  // ---------------------------------------------------------------------

  datatype EventError = TitleEmpty | StartMissing | EndMissing | EndNotAfterStartTime

  function EventErrorMessage(e: EventError): string {
    match e
    case TitleEmpty => "Event title is empty"
    case StartMissing => "Event start time is missing"
    case EndMissing => "Event end time is missing"
    case EndNotAfterStartTime => "Event end time must be after start time"
  }

  /** The position of each check in `validateEvent`. */
  function EventErrorRank(e: EventError): nat {
    match e
    case TitleEmpty => 0
    case StartMissing => 1
    case EndMissing => 2
    case EndNotAfterStartTime => 3
  }

  /** The errors `validateEvent` reports, in its order. `endDate <= startDate`
      is "the start is not before the end". */
  function EventErrors(e: Event): (r: seq<EventError>)
    ensures TitleEmpty in r <==> IsBlank(e.title)
    ensures StartMissing in r <==> e.start == None
    ensures EndMissing in r <==> e.end == None
    ensures EndNotAfterStartTime in r <==>
      e.start.Some? && e.end.Some? && !Before(e.start.value, e.end.value)
    ensures forall i, j | 0 <= i < j < |r| :: EventErrorRank(r[i]) < EventErrorRank(r[j])
    ensures Seqs.Distinct(r)
    ensures |r| <= 3
  {
    When(IsBlank(e.title), TitleEmpty)
    + When(e.start.None?, StartMissing)
    + When(e.end.None?, EndMissing)
    + (if e.start.Some? && e.end.Some? then When(!Before(e.start.value, e.end.value), EndNotAfterStartTime) else [])
  }

  /** `validateEvent` */
  method ValidateEvent(e: Event) returns (v: Validation<EventError>)
    ensures v.errors == EventErrors(e)
    ensures v.isValid <==> v.errors == []
  {
    var errors: seq<EventError> := [];
    if IsBlank(e.title) {
      errors := errors + [TitleEmpty];
    }
    assert errors == When(IsBlank(e.title), TitleEmpty);
    if e.start.None? {
      errors := errors + [StartMissing];
    }
    assert errors == When(IsBlank(e.title), TitleEmpty) + When(e.start.None?, StartMissing);
    if e.end.None? {
      errors := errors + [EndMissing];
    }
    assert errors == When(IsBlank(e.title), TitleEmpty) + When(e.start.None?, StartMissing) + When(e.end.None?, EndMissing);
    if e.start.Some? && e.end.Some? {
      if !Before(e.start.value, e.end.value) {
        errors := errors + [EndNotAfterStartTime];
      }
    }
    v := Validation(|errors| == 0, errors);
  }

  /** `validateAndPrepareEvent`: the validation result only feeds a console
      warning, so whatever it is the event comes back recoloured. */
  method ValidateAndPrepareEvent(palette: Palette, e: Event) returns (r: Event)
    ensures SameExceptColors(r, e)
    ensures r.colors == palette(e.eventType)
  {
    var validation := ValidateEvent(e);
    r := ApplyColors(palette, e);
  }

  // ---------------------------------------------------------------------
  // Partial update
  // ---------------------------------------------------------------------

  /** `Partial<CalendarEvent>`: `None` is a key that is not in the object. */
  datatype EventPatch = EventPatch(
    id: Option<string>,
    title: Option<string>,
    start: Option<Option<Time>>,
    end: Option<Option<Time>>,
    room: Option<string>,
    professor: Option<string>,
    semester: Option<string>,
    turma: Option<string>,
    eventType: Option<string>,
    colors: Option<Colors>)

  const NoChanges := EventPatch(None, None, None, None, None, None, None, None, None, None)

  /** `{ ...existing, ...updates }` */
  function Merge(e: Event, p: EventPatch): Event {
    Event(
      p.id.GetOr(e.id), p.title.GetOr(e.title), p.start.GetOr(e.start), p.end.GetOr(e.end),
      p.room.GetOr(e.room), p.professor.GetOr(e.professor), p.semester.GetOr(e.semester),
      p.turma.GetOr(e.turma), p.eventType.GetOr(e.eventType), p.colors.GetOr(e.colors))
  }

  /** A patch field that is present wins; the others keep the event's value. */
  lemma MergeFields(e: Event, p: EventPatch)
    ensures p.id.Some? ==> Merge(e, p).id == p.id.value
    ensures p.id.None? ==> Merge(e, p).id == e.id
    ensures p.title.Some? ==> Merge(e, p).title == p.title.value
    ensures p.title.None? ==> Merge(e, p).title == e.title
    ensures p.start.Some? ==> Merge(e, p).start == p.start.value
    ensures p.start.None? ==> Merge(e, p).start == e.start
    ensures p.end.Some? ==> Merge(e, p).end == p.end.value
    ensures p.end.None? ==> Merge(e, p).end == e.end
    ensures p.room.Some? ==> Merge(e, p).room == p.room.value
    ensures p.room.None? ==> Merge(e, p).room == e.room
    ensures p.professor.Some? ==> Merge(e, p).professor == p.professor.value
    ensures p.professor.None? ==> Merge(e, p).professor == e.professor
    ensures p.semester.Some? ==> Merge(e, p).semester == p.semester.value
    ensures p.semester.None? ==> Merge(e, p).semester == e.semester
    ensures p.turma.Some? ==> Merge(e, p).turma == p.turma.value
    ensures p.turma.None? ==> Merge(e, p).turma == e.turma
    ensures p.eventType.Some? ==> Merge(e, p).eventType == p.eventType.value
    ensures p.eventType.None? ==> Merge(e, p).eventType == e.eventType
    ensures p.colors.Some? ==> Merge(e, p).colors == p.colors.value
    ensures p.colors.None? ==> Merge(e, p).colors == e.colors
  {
  }

  /** Merging is idempotent, and the empty patch changes nothing. */
  lemma MergeIdempotent(e: Event, p: EventPatch)
    ensures Merge(Merge(e, p), p) == Merge(e, p)
    ensures Merge(e, NoChanges) == e
  {
  }

  /** `updates.type && updates.type !== existing.type` */
  predicate Recolours(e: Event, p: EventPatch) {
    p.eventType.Some? && p.eventType.value != "" && p.eventType.value != e.eventType
  }

  /** `updateEvent`: the merged event, recoloured when the patch brings a
      new, non-empty type. */
  function UpdateEvent(palette: Palette, e: Event, p: EventPatch): (r: Event)
    ensures SameExceptColors(r, Merge(e, p))
    ensures Recolours(e, p) ==> r.colors == palette(r.eventType)
    ensures !Recolours(e, p) ==> r == Merge(e, p)
  {
    var updated := Merge(e, p);
    if Recolours(e, p) then ApplyColors(palette, updated) else updated
  }

  /** A patch that leaves the type alone (or repeats it) never recolours, and
      the empty patch returns the event unchanged. */
  lemma UpdateKeepsColours(palette: Palette, e: Event, p: EventPatch)
    requires p.eventType.None? || p.eventType.value == e.eventType
    ensures UpdateEvent(palette, e, p).colors == p.colors.GetOr(e.colors)
    ensures UpdateEvent(palette, e, NoChanges) == e
  {
  }

  // ---------------------------------------------------------------------
  // Overlap of one event against a list
  // ---------------------------------------------------------------------

  /** The per-entry test of the `some` callback: a different id and an
      overlap in time on the start day. */
  predicate OverlapsOther(e: Event, other: Event) {
    other.id != e.id && ConflictService.HasTimeOverlap(e, other)
  }

  /** `EventService.hasTimeOverlap` */
  function HasTimeOverlap(e: Event, events: seq<Event>): (r: bool)
    ensures r <==> exists o | o in events :: OverlapsOther(e, o)
    ensures r ==> e.start.Some? && e.end.Some?
  {
    if e.start.None? || e.end.None? then false
    else if events == [] then false
    else OverlapsOther(e, events[0]) || HasTimeOverlap(e, events[1..])
  }

  /** The list test never counts the event itself, nor any entry sharing its
      id. */
  lemma OverlapIgnoresSameId(e: Event, events: seq<Event>)
    requires forall o | o in events :: o.id == e.id
    ensures !HasTimeOverlap(e, events)
  {
  }
}
