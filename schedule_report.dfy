/** The data side of the schedule report: the option lists of its five
    filters, the filtered events, the day-by-slot grid they are bucketed
    into, and the striping of the grid's rows. */
module ScheduleReport {
  import opened Wrappers
  import opened JsStrings
  import opened Events
  import Seqs
  import EventService

  // ---------------------------------------------------------------------
  // filterOptions
  // ---------------------------------------------------------------------

  /** The five dimensions of `selectedFilters`. */
  datatype ReportField = ProfessorField | SalaField | TurmaField | SemestreField | ModalidadeField

  /** The event field behind each dimension. */
  function FieldOf(e: Event, f: ReportField): string {
    match f
    case ProfessorField => e.professor
    case SalaField => e.room
    case TurmaField => e.turma
    case SemestreField => e.semester
    case ModalidadeField => e.eventType
  }

  /** `events.map(e => e[field])` */
  function Column(events: seq<Event>, f: ReportField): (r: seq<string>)
    ensures |r| == |events|
    ensures forall k | 0 <= k < |r| :: r[k] == FieldOf(events[k], f)
  {
    seq(|events|, k requires 0 <= k < |events| => FieldOf(events[k], f))
  }

  /** One list of `filterOptions`: the distinct non-empty values of the
      field, sorted. */
  function FilterOptions(events: seq<Event>, f: ReportField): (r: seq<string>)
    ensures Seqs.Sorted(r) && Seqs.Distinct(r)
    ensures "" !in r
    ensures forall v :: v in r <==> v != "" && exists e | e in events :: FieldOf(e, f) == v
  {
    var column := Column(events, f);
    var r := Seqs.UniqueSorted(column);
    forall v ensures v in column <==> exists e | e in events :: FieldOf(e, f) == v {
      if v in column {
        var k :| 0 <= k < |column| && column[k] == v;
        assert events[k] in events;
      }
      if e :| e in events && FieldOf(e, f) == v {
        var k :| 0 <= k < |events| && events[k] == e;
        assert column[k] == v;
      }
    }
    r
  }

  // ---------------------------------------------------------------------
  // filteredEvents
  // ---------------------------------------------------------------------

  /** `selectedFilters`, "" meaning no selection. */
  datatype Selection = Selection(professor: string, sala: string, turma: string, semestre: string, modalidade: string)
  {
    function Get(f: ReportField): string {
      match f
      case ProfessorField => professor
      case SalaField => sala
      case TurmaField => turma
      case SemestreField => semestre
      case ModalidadeField => modalidade
    }
  }

  /** The initial selection. */
  const NoSelection := Selection("", "", "", "", "")

  /** The five-way test of `filteredEvents`. */
  predicate Selected(e: Event, s: Selection) {
    (s.professor == "" || e.professor == s.professor)
    && (s.sala == "" || e.room == s.sala)
    && (s.turma == "" || e.turma == s.turma)
    && (s.semestre == "" || e.semester == s.semestre)
    && (s.modalidade == "" || e.eventType == s.modalidade)
  }

  /** `filteredEvents`: the events, in order, that agree with every
      dimension that has a selection. */
  function FilteredEvents(events: seq<Event>, s: Selection): (r: seq<Event>)
    ensures Seqs.IsSubsequence(r, events)
    ensures forall e :: e in r <==> e in events && forall f: ReportField :: s.Get(f) == "" || FieldOf(e, f) == s.Get(f)
    ensures forall e :: multiset(r)[e] == if Selected(e, s) then multiset(events)[e] else 0
  {
    assert forall e: Event :: Selected(e, s) <==> forall f: ReportField :: s.Get(f) == "" || FieldOf(e, f) == s.Get(f) by {
      forall e: Event ensures Selected(e, s) ==> forall f: ReportField :: s.Get(f) == "" || FieldOf(e, f) == s.Get(f) {
      }
      forall e: Event | forall f: ReportField :: s.Get(f) == "" || FieldOf(e, f) == s.Get(f) ensures Selected(e, s) {
        assert s.Get(ProfessorField) == "" || FieldOf(e, ProfessorField) == s.Get(ProfessorField);
        assert s.Get(SalaField) == "" || FieldOf(e, SalaField) == s.Get(SalaField);
        assert s.Get(TurmaField) == "" || FieldOf(e, TurmaField) == s.Get(TurmaField);
        assert s.Get(SemestreField) == "" || FieldOf(e, SemestreField) == s.Get(SemestreField);
        assert s.Get(ModalidadeField) == "" || FieldOf(e, ModalidadeField) == s.Get(ModalidadeField);
      }
    }
    Seqs.FilterCounts(events, (e: Event) => Selected(e, s));
    Seqs.Filter(events, (e: Event) => Selected(e, s))
  }

  /** With nothing selected the report shows every event. */
  lemma NoSelectionKeepsAll(events: seq<Event>)
    ensures FilteredEvents(events, NoSelection) == events
  {
    Seqs.FilterAll(events, (e: Event) => Selected(e, NoSelection));
  }

  // ---------------------------------------------------------------------
  // organizedEvents
  // ---------------------------------------------------------------------

  /** `dayNames`, indexed by `getDay()`. */
  const DayNames: seq<string> := ["Domingo", "Segunda", "Terça", "Quarta", "Quinta", "Sexta", "Sábado"]

  /** `daysOfWeek`: the report's columns, Monday to Saturday. */
  const DaysOfWeek: seq<string> := DayNames[1..]

  /** `timeSlots`: the sixteen hourly rows from 07:30 to 22:30, the same
      list `getAvailableEndTimes` builds. */
  function TimeSlots(): (r: seq<string>)
    ensures |r| == 16 && Seqs.Distinct(r)
    ensures forall k | 0 <= k < 16 :: r[k] == EventService.Slot(k)
  {
    EventService.SlotsDistinct();
    EventService.HourlySlots()
  }

  /** The weekday name and "HH:MM" start an event is filed under; an event
      without a start has none. */
  function CellKey(e: Event): (r: Option<(string, string)>)
    ensures r.Some? <==> e.start.Some?
  {
    match e.start
    case None => None
    case Some(t) => Some((DayNames[t.day % 7], EventService.MinutesToTime(t.minute)))
  }

  /** The cell `(day, time)` after the events of `s` have been pushed: the
      events filed under that key, in order. */
  function CellOf(s: seq<Event>, day: string, time: string): (r: seq<Event>)
    ensures Seqs.IsSubsequence(r, s)
    ensures forall e :: e in r <==> e in s && CellKey(e) == Some((day, time))
    ensures forall e :: multiset(r)[e] == if CellKey(e) == Some((day, time)) then multiset(s)[e] else 0
  {
    Seqs.BucketCounts(s, CellKey, Some((day, time)));
    Seqs.Bucket(s, CellKey, Some((day, time)))
  }

  /** The nested dictionary `schedule[day][time]`. */
  type Schedule = map<string, map<string, seq<Event>>>

  /** `schedule` has exactly the keys `days` and, under each, exactly the
      keys `slots`. */
  ghost predicate IsGridOver(schedule: Schedule, days: seq<string>, slots: seq<string>) {
    (forall d :: d in schedule <==> d in days)
    && (forall d | d in schedule :: forall t :: t in schedule[d] <==> t in slots)
  }

  /** The structure `organizedEvents` starts from: a row per day holding
      an empty list per slot. */
  method EmptySchedule(days: seq<string>, slots: seq<string>) returns (schedule: Schedule)
    ensures IsGridOver(schedule, days, slots)
    ensures forall d, t | d in schedule && t in schedule[d] :: schedule[d][t] == []
  {
    schedule := map[];
    var i := 0;
    while i < |days|
      invariant 0 <= i <= |days|
      invariant forall d :: d in schedule <==> d in days[..i]
      invariant forall d | d in schedule :: forall t :: t in schedule[d] <==> t in slots
      invariant forall d, t | d in schedule && t in schedule[d] :: schedule[d][t] == []
    {
      var day := days[i];
      var row: map<string, seq<Event>> := map[];
      var j := 0;
      while j < |slots|
        invariant 0 <= j <= |slots|
        invariant forall t :: t in row <==> t in slots[..j]
        invariant forall t | t in row :: row[t] == []
      {
        Seqs.PrefixSnoc(slots, j);
        row := row[slots[j] := []];
        j := j + 1;
      }
      assert slots[..j] == slots;
      Seqs.PrefixSnoc(days, i);
      schedule := schedule[day := row];
      i := i + 1;
    }
    assert days[..i] == days;
  }

  /** `if (schedule[day] && schedule[day][time]) schedule[day][time].push(e)`:
      the event goes into that cell when the grid has it. */
  method PushInto(schedule: Schedule, day: string, time: string, e: Event) returns (next: Schedule)
    ensures forall d :: d in next <==> d in schedule
    ensures forall d | d in next :: forall t :: t in next[d] <==> t in schedule[d]
    ensures forall d, t | d in next && t in next[d] ::
      next[d][t] == if (d, t) == (day, time) then schedule[d][t] + [e] else schedule[d][t]
  {
    next := schedule;
    if day in schedule && time in schedule[day] {
      next := schedule[day := schedule[day][time := schedule[day][time] + [e]]];
    }
  }

  /** One step of the `forEach`: the event goes into the cell of its
      weekday and start time when the grid has that cell. */
  method PushEvent(schedule: Schedule, e: Event) returns (next: Schedule)
    ensures forall d :: d in next <==> d in schedule
    ensures forall d | d in next :: forall t :: t in next[d] <==> t in schedule[d]
    ensures forall d, t | d in next && t in next[d] ::
      next[d][t] == if CellKey(e) == Some((d, t)) then schedule[d][t] + [e] else schedule[d][t]
  {
    next := schedule;
    if e.start.Some? {
      var dayName := DayNames[e.start.value.day % 7];
      var startTime := EventService.MinutesToTime(e.start.value.minute);
      next := PushInto(schedule, dayName, startTime, e);
    }
  }

  /** Pushing the next event extends exactly the cell of its key. */
  lemma CellStep(s: seq<Event>, k: nat, d: string, t: string)
    requires k < |s|
    ensures CellOf(s[..k + 1], d, t)
      == if CellKey(s[k]) == Some((d, t)) then CellOf(s[..k], d, t) + [s[k]] else CellOf(s[..k], d, t)
  {
    Seqs.PrefixSnoc(s, k);
    Seqs.BucketSnoc(s[..k], s[k], CellKey, Some((d, t)));
  }

  /** Each cell of `schedule` holds, in order, the events of `s` filed
      under its key. */
  ghost predicate Filed(schedule: Schedule, s: seq<Event>) {
    forall d, t | d in schedule && t in schedule[d] :: schedule[d][t] == CellOf(s, d, t)
  }

  /** One pass of the `forEach` body over event `k`, with what it keeps. */
  method FileNext(schedule: Schedule, filtered: seq<Event>, k: nat, ghost days: seq<string>, ghost slots: seq<string>)
    returns (next: Schedule)
    requires k < |filtered|
    requires IsGridOver(schedule, days, slots) && Filed(schedule, filtered[..k])
    ensures IsGridOver(next, days, slots) && Filed(next, filtered[..k + 1])
  {
    next := PushEvent(schedule, filtered[k]);
    forall d, t | d in next && t in next[d] ensures next[d][t] == CellOf(filtered[..k + 1], d, t) {
      CellStep(filtered, k, d, t);
    }
  }

  /** `organizedEvents` over given day and slot keys: each cell holds, in
      order, the events filed under its key. */
  method Organize(filtered: seq<Event>, days: seq<string>, slots: seq<string>) returns (schedule: Schedule)
    ensures IsGridOver(schedule, days, slots)
    ensures forall d, t | d in schedule && t in schedule[d] :: schedule[d][t] == CellOf(filtered, d, t)
  {
    schedule := EmptySchedule(days, slots);
    var k := 0;
    while k < |filtered|
      invariant 0 <= k <= |filtered|
      invariant IsGridOver(schedule, days, slots) && Filed(schedule, filtered[..k])
    {
      schedule := FileNext(schedule, filtered, k, days, slots);
      k := k + 1;
    }
    assert filtered[..k] == filtered;
  }

  /** `organizedEvents`: the grid of the six weekday columns and the sixteen
      slots in which each cell holds, in order, the filtered events starting
      on that weekday at that time. Events on a Sunday, or starting at any
      other time, are in no cell. */
  method OrganizeEvents(filtered: seq<Event>) returns (schedule: Schedule)
    ensures IsGridOver(schedule, DaysOfWeek, TimeSlots())
    ensures forall d, t | d in schedule && t in schedule[d] :: schedule[d][t] == CellOf(filtered, d, t)
  {
    var daysOfWeek := DaysOfWeek;
    var timeSlots := TimeSlots();
    schedule := Organize(filtered, daysOfWeek, timeSlots);
  }

  /** An event is filed under slot `k` exactly when it starts exactly `k`
      hours after 07:30; a start between two slots matches no row. */
  lemma SlotOfStart(minute: MinuteOfDay, k: nat)
    requires k < 16
    ensures EventService.MinutesToTime(minute) == TimeSlots()[k] <==> minute == EventService.FirstSlot + 60 * k
  {
    assert TimeSlots()[k] == EventService.Slot(k);
    if EventService.MinutesToTime(minute) == EventService.Slot(k) {
      EventService.TimeRoundTrip(minute);
      EventService.SlotMinutes(k);
    }
  }

  /** Sunday, the only weekday not among the columns. */
  lemma SundayDropped(e: Event, t: string)
    requires e.start.Some? && e.start.value.day % 7 == 0
    ensures forall d | d in DaysOfWeek :: e !in CellOf([e], d, t)
  {
    assert DayNames[0] !in DaysOfWeek;
  }

  // ---------------------------------------------------------------------
  // Every event in at most one cell
  // ---------------------------------------------------------------------

  /** The sizes of the cells under `keys`, added up. */
  function Total(s: seq<Event>, keys: seq<(string, string)>): nat {
    if keys == [] then 0 else |CellOf(s, keys[0].0, keys[0].1)| + Total(s, keys[1..])
  }

  /** How many of `keys` an event is filed under. */
  function Hits(e: Event, keys: seq<(string, string)>): nat {
    if keys == [] then 0 else (if CellKey(e) == Some(keys[0]) then 1 else 0) + Hits(e, keys[1..])
  }

  lemma {:induction false} HitsAtMostOne(e: Event, keys: seq<(string, string)>)
    requires Seqs.Distinct(keys)
    ensures Hits(e, keys) <= 1
  {
    if keys != [] {
      HitsAtMostOne(e, keys[1..]);
      if CellKey(e) == Some(keys[0]) {
        HitsNone(e, keys[1..]);
      }
    }
  }

  lemma {:induction false} HitsNone(e: Event, keys: seq<(string, string)>)
    requires CellKey(e).Some? && CellKey(e).value !in keys
    ensures Hits(e, keys) == 0
  {
    if keys != [] {
      HitsNone(e, keys[1..]);
    }
  }

  lemma {:induction false} TotalSnoc(s: seq<Event>, e: Event, keys: seq<(string, string)>)
    ensures Total(s + [e], keys) == Total(s, keys) + Hits(e, keys)
  {
    if keys != [] {
      TotalSnoc(s, e, keys[1..]);
      assert (s + [e])[..|s + [e]| - 1] == s;
    }
  }

  /** However the keys are chosen, distinct cells together hold no more
      events than were pushed: each event lands in at most one of them. */
  lemma {:induction false} TotalAtMostEvents(s: seq<Event>, keys: seq<(string, string)>)
    requires Seqs.Distinct(keys)
    ensures Total(s, keys) <= |s|
  {
    if s == [] {
      TotalEmpty(keys);
    } else {
      var init := s[..|s| - 1];
      assert s == init + [s[|s| - 1]];
      TotalAtMostEvents(init, keys);
      TotalSnoc(init, s[|s| - 1], keys);
      HitsAtMostOne(s[|s| - 1], keys);
    }
  }

  lemma {:induction false} TotalEmpty(keys: seq<(string, string)>)
    ensures Total([], keys) == 0
  {
    if keys != [] {
      TotalEmpty(keys[1..]);
    }
  }

  /** The 96 keys of the report's grid, day by day. */
  function GridKeys(): (r: seq<(string, string)>)
    ensures |r| == 96
    ensures forall i | 0 <= i < 96 :: r[i] == (DaysOfWeek[i / 16], TimeSlots()[i % 16])
  {
    seq(96, i requires 0 <= i < 96 => (DaysOfWeek[i / 16], TimeSlots()[i % 16]))
  }

  lemma GridKeysDistinct()
    ensures Seqs.Distinct(GridKeys())
  {
    assert Seqs.Distinct(DaysOfWeek);
    var slots := TimeSlots();
    forall i, j | 0 <= i < j < 96 ensures GridKeys()[i] != GridKeys()[j] {
      if i / 16 == j / 16 {
        assert i % 16 != j % 16;
        assert slots[i % 16] != slots[j % 16];
      }
    }
  }

  /** The report's grid places at most `|filteredEvents|` events over all
      its cells. */
  lemma GridHoldsAtMostEvents(filtered: seq<Event>)
    ensures Total(filtered, GridKeys()) <= |filtered|
  {
    GridKeysDistinct();
    TotalAtMostEvents(filtered, GridKeys());
  }

  // ---------------------------------------------------------------------
  // Row striping
  // ---------------------------------------------------------------------

  /** `index % 2 === 0 ? 'even' : 'odd'` */
  function RowClass(index: nat): (r: string)
    ensures r == "even" <==> index % 2 == 0
    ensures r == "odd" <==> index % 2 == 1
  {
    if index % 2 == 0 then "even" else "odd"
  }

  /** Neighbouring rows are striped differently. */
  lemma RowsAlternate(index: nat)
    ensures RowClass(index) != RowClass(index + 1)
  {
  }
}
