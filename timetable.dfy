/** The logic of the `Timetable` component: conflict styling of the filtered
    events, the per-resource conflict groups, the filter set-up of
    `navigateToEvent`, the search over the options in the selection modal,
    and the imperative handle the parent uses to edit the event list. */
module Timetable {
  import opened Wrappers
  import opened JsStrings
  import opened Events
  import Seqs
  import ConflictService
  import opened UseEventFilters

  // ---------------------------------------------------------------------
  // styledEvents
  // ---------------------------------------------------------------------

  /** A calendar entry as rendered: the event with its colours, whether it
      carries the `conflict-event` class, and its `conflictInfo`. */
  datatype StyledEvent = StyledEvent(event: Event, conflictClass: bool, conflictInfo: seq<ConflictService.ConflictInfo>)

  /** `event.id && conflicts.conflictIds.has(event.id)`, with no index at all
      meaning no conflict. */
  predicate InConflict(conflicts: Option<ConflictService.ConflictData>, e: Event) {
    conflicts.Some? && e.id != "" && e.id in conflicts.value.conflictIds
  }

  /** One entry of `styledEvents`. `conflictColors` stands for
      `CONFLICT_COLORS`. */
  function Style(palette: Palette, conflictColors: Colors, conflicts: Option<ConflictService.ConflictData>, e: Event): StyledEvent {
    if InConflict(conflicts, e) then
      StyledEvent(e.(colors := conflictColors), true, ConflictService.GetEventConflicts(e.id, conflicts.value))
    else
      StyledEvent(ApplyColors(palette, e), false, [])
  }

  /** `styledEvents`: one entry per filtered event, in order; an entry in
      conflict gets the conflict colours and its records, every other entry
      the colours of its type and no records. No other field changes. */
  function StyledEvents(palette: Palette, conflictColors: Colors, conflicts: Option<ConflictService.ConflictData>,
                        filtered: seq<Event>): (r: seq<StyledEvent>)
    ensures |r| == |filtered|
    ensures forall k | 0 <= k < |r| :: SameExceptColors(r[k].event, filtered[k])
    ensures forall k | 0 <= k < |r| :: r[k].conflictClass <==> InConflict(conflicts, filtered[k])
    ensures forall k | 0 <= k < |r| && r[k].conflictClass ::
      conflicts.Some? && r[k].event.colors == conflictColors
      && r[k].conflictInfo == ConflictService.GetEventConflicts(filtered[k].id, conflicts.value)
    ensures forall k | 0 <= k < |r| && !r[k].conflictClass ::
      r[k].event.colors == palette(filtered[k].eventType) && r[k].conflictInfo == []
  {
    seq(|filtered|, k requires 0 <= k < |filtered| => Style(palette, conflictColors, conflicts, filtered[k]))
  }

  /** Against the index of the whole list, an entry is marked exactly when
      it takes part in a detected clash. */
  lemma StyledMarksDetected(palette: Palette, conflictColors: Colors, events: seq<Event>, filtered: seq<Event>, k: nat)
    requires k < |filtered|
    ensures StyledEvents(palette, conflictColors, Some(ConflictService.Detect(events)), filtered)[k].conflictClass
      <==> filtered[k].id != ""
           && exists i, j | 0 <= i < j < |events| ::
                ConflictService.CheckEventConflicts(events[i], events[j]) != []
                && filtered[k].id in {events[i].id, events[j].id}
  {
    ConflictService.ConflictIdsExact(events, filtered[k].id);
  }

  // ---------------------------------------------------------------------
  // conflictGroups
  // ---------------------------------------------------------------------

  /** `{ value, events }`: the conflicted events sharing one resource value. */
  datatype Group = Group(value: string, events: seq<Event>)

  datatype ConflictGroups = ConflictGroups(sala: seq<Group>, professor: seq<Group>, turma: seq<Group>)

  /** `events.filter(event => event[field] === value && event.id &&
      conflictIds.has(event.id))` */
  function GroupMembers(events: seq<Event>, ids: set<string>, t: FilterType, v: string): (r: seq<Event>)
    ensures Seqs.IsSubsequence(r, events)
    ensures forall e :: e in r <==> e in events && Field(e, t) == v && e.id != "" && e.id in ids
    ensures forall e :: multiset(r)[e] == if Field(e, t) == v && e.id != "" && e.id in ids then multiset(events)[e] else 0
  {
    Seqs.FilterCounts(events, (e: Event) => Field(e, t) == v && e.id != "" && e.id in ids);
    Seqs.Filter(events, (e: Event) => Field(e, t) == v && e.id != "" && e.id in ids)
  }

  /** The groups one `forEach` over `values` pushes: one per value with at
      least one member, in the order of the values. */
  function GroupsOf(values: seq<string>, events: seq<Event>, ids: set<string>, t: FilterType): seq<Group> {
    if values == [] then []
    else
      var v := values[|values| - 1];
      var members := GroupMembers(events, ids, t, v);
      GroupsOf(values[..|values| - 1], events, ids, t) + (if |members| > 0 then [Group(v, members)] else [])
  }

  /** Every group is non-empty, names one of the values, and holds only
      events of the list whose field is that value and whose id is
      conflicted. */
  lemma {:induction false} GroupsSound(values: seq<string>, events: seq<Event>, ids: set<string>, t: FilterType, g: Group)
    requires g in GroupsOf(values, events, ids, t)
    ensures g.events != [] && g.value in values
    ensures forall e | e in g.events :: e in events && Field(e, t) == g.value && e.id != "" && e.id in ids
  {
    var init := values[..|values| - 1];
    if g !in GroupsOf(init, events, ids, t) {
      assert g.value == values[|values| - 1];
    } else {
      GroupsSound(init, events, ids, t, g);
      assert g.value in values by {
        assert forall x | x in init :: x in values;
      }
    }
  }

  /** Every conflicted event whose field is one of the values appears in a
      group for that value. */
  lemma {:induction false} GroupsComplete(values: seq<string>, events: seq<Event>, ids: set<string>, t: FilterType, e: Event)
    requires Field(e, t) in values && e in events && e.id != "" && e.id in ids
    ensures exists g | g in GroupsOf(values, events, ids, t) :: g.value == Field(e, t) && e in g.events
  {
    var init := values[..|values| - 1];
    var v := values[|values| - 1];
    if Field(e, t) == v {
      var g := Group(v, GroupMembers(events, ids, t, v));
      assert g in GroupsOf(values, events, ids, t);
    } else {
      assert values == init + [v];
      GroupsComplete(init, events, ids, t, e);
      var g :| g in GroupsOf(init, events, ids, t) && g.value == Field(e, t) && e in g.events;
      assert g in GroupsOf(values, events, ids, t);
    }
  }

  /** One `forEach` of `conflictGroups`. */
  method GroupValues(values: seq<string>, events: seq<Event>, ids: set<string>, t: FilterType) returns (groups: seq<Group>)
    ensures groups == GroupsOf(values, events, ids, t)
  {
    groups := [];
    var k := 0;
    while k < |values|
      invariant 0 <= k <= |values|
      invariant groups == GroupsOf(values[..k], events, ids, t)
    {
      var members := GroupMembers(events, ids, t, values[k]);
      if |members| > 0 {
        groups := groups + [Group(values[k], members)];
      }
      Seqs.PrefixSnoc(values, k);
      assert values[..k + 1][..k] == values[..k];
      k := k + 1;
    }
    assert values[..k] == values;
  }

  /** `conflictGroups`: nothing without an index; otherwise the room and
      professor groups over the summary's room and professor values. The
      turma loop runs over `conflictSummary.turma`, a key the summary never
      has, so it never pushes a group. */
  method GetConflictGroups(events: seq<Event>, conflicts: Option<ConflictService.ConflictData>) returns (groups: ConflictGroups)
    ensures conflicts.None? ==> groups == ConflictGroups([], [], [])
    ensures conflicts.Some? ==>
      var summary := ConflictService.SummaryOf(conflicts.value);
      var ids := conflicts.value.conflictIds;
      groups.sala == GroupsOf(summary.sala, events, ids, SalaFilter)
      && groups.professor == GroupsOf(summary.professor, events, ids, ProfessorFilter)
    ensures groups.turma == []
  {
    if conflicts.None? {
      return ConflictGroups([], [], []);
    }
    var d := conflicts.value;
    var conflictSummary := ConflictService.CreateConflictSummary(d);
    var sala := GroupValues(conflictSummary.sala, events, d.conflictIds, SalaFilter);
    var professor := GroupValues(conflictSummary.professor, events, d.conflictIds, ProfessorFilter);
    groups := ConflictGroups(sala, professor, []);
  }

  // ---------------------------------------------------------------------
  // navigateToEvent
  // ---------------------------------------------------------------------

  /** The one filter `navigateToEvent` sets, if any: the requested type when
      the event has that field, or without a request the first of professor,
      room and class that the event has. */
  function NavigationTarget(e: Event, conflictType: Option<FilterType>): (r: Option<FilterType>)
    ensures r.Some? ==> Field(e, r.value) != ""
    ensures conflictType.Some? ==> (r.Some? ==> r == conflictType) && (r.None? <==> Field(e, conflictType.value) == "")
    ensures conflictType.None? ==>
      (r == Some(ProfessorFilter) <==> e.professor != "")
      && (r == Some(SalaFilter) <==> e.professor == "" && e.room != "")
      && (r == Some(TurmaFilter) <==> e.professor == "" && e.room == "" && e.turma != "")
  {
    match conflictType
    case Some(t) => if Field(e, t) != "" then Some(t) else None
    case None =>
      if e.professor != "" then Some(ProfessorFilter)
      else if e.room != "" then Some(SalaFilter)
      else if e.turma != "" then Some(TurmaFilter)
      else None
  }

  /** `navigateToEvent`, up to its delayed selection: all filters and the
      search are cleared, then at most the target filter is set to the
      event's value and made the active dimension. */
  method NavigateToEvent(fm: EventFilters, e: Event, conflictType: Option<FilterType>)
    modifies fm
    ensures var target := NavigationTarget(e, conflictType);
      fm.searchTerm == ""
      && fm.filters == (if target.Some? then NoFilters.Set(target.value, Field(e, target.value)) else NoFilters)
      && fm.activeFilterType == (if target.Some? then target.value else old(fm.activeFilterType))
  {
    fm.ClearAllFilters();
    if conflictType.Some? {
      var t := conflictType.value;
      match t
      case SalaFilter =>
        if e.room != "" {
          fm.SetFilter(SalaFilter, e.room);
          fm.SetActiveFilterType(SalaFilter);
        }
      case ProfessorFilter =>
        if e.professor != "" {
          fm.SetFilter(ProfessorFilter, e.professor);
          fm.SetActiveFilterType(ProfessorFilter);
        }
      case TurmaFilter =>
        if e.turma != "" {
          fm.SetFilter(TurmaFilter, e.turma);
          fm.SetActiveFilterType(TurmaFilter);
        }
    } else {
      if e.professor != "" {
        fm.SetFilter(ProfessorFilter, e.professor);
        fm.SetActiveFilterType(ProfessorFilter);
      } else if e.room != "" {
        fm.SetFilter(SalaFilter, e.room);
        fm.SetActiveFilterType(SalaFilter);
      } else if e.turma != "" {
        fm.SetFilter(TurmaFilter, e.turma);
        fm.SetActiveFilterType(TurmaFilter);
      }
    }
  }

  // ---------------------------------------------------------------------
  // filteredModalOptions
  // ---------------------------------------------------------------------

  /** `filteredModalOptions`: all options for an empty term, otherwise those
      containing the term case-insensitively, in their order. */
  function ModalOptions(options: seq<string>, term: string): (r: seq<string>)
    ensures Seqs.IsSubsequence(r, options)
    ensures term == "" ==> r == options
    ensures forall o :: o in r <==> o in options && (term == "" || Contains(ToLower(o), ToLower(term)))
    ensures forall o :: multiset(r)[o] == if term == "" || Contains(ToLower(o), ToLower(term)) then multiset(options)[o] else 0
  {
    if term == "" then
      Seqs.SubsequenceRefl(options);
      options
    else
      Seqs.FilterCounts(options, (o: string) => Contains(ToLower(o), ToLower(term)));
      Seqs.Filter(options, (o: string) => Contains(ToLower(o), ToLower(term)))
  }

  // ---------------------------------------------------------------------
  // The imperative handle
  // ---------------------------------------------------------------------

  /** The component state the handle touches: the selected event's id. The
      event list itself belongs to the parent; each operation returns the
      list it passes to `onEventsChange`. */
  class TimetableView {
    var selectedEventId: Option<string>

    constructor()
      ensures selectedEventId == None
    {
      selectedEventId := None;
    }

    /** `addEvent`: the list with the event appended. */
    method AddEvent(events: seq<Event>, e: Event) returns (updatedEvents: seq<Event>)
      ensures |updatedEvents| == |events| + 1
      ensures updatedEvents[..|events|] == events && updatedEvents[|events|] == e
    {
      updatedEvents := events + [e];
    }

    /** `updateEvent`: same length, every event with the id replaced. */
    method UpdateEvent(events: seq<Event>, e: Event) returns (updatedEvents: seq<Event>)
      ensures |updatedEvents| == |events|
      ensures forall k | 0 <= k < |events| ::
        updatedEvents[k] == if events[k].id == e.id then e else events[k]
    {
      updatedEvents := ReplaceById(events, e.id, e);
    }

    /** `deleteEvent`: every event with the id dropped, and the selection
        cleared when it was that id. */
    method DeleteEvent(events: seq<Event>, eventId: string) returns (updatedEvents: seq<Event>)
      modifies this
      ensures updatedEvents == RemoveById(events, eventId)
      ensures selectedEventId == if old(selectedEventId) == Some(eventId) then None else old(selectedEventId)
    {
      updatedEvents := RemoveById(events, eventId);
      if selectedEventId == Some(eventId) {
        selectedEventId := None;
      }
    }
  }
}
