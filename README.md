# pampatime-demo scheduling core, modelled in Dafny

pampatime-demo is a timetable editor for a university department. Its
calendar events carry a title, a start and an end, a room (`sala`), a
professor, a semester, a class (`turma`) and a type (`modalidade`). This
project models the deterministic core behind the calendar, with a proof for
each part:

- **Conflict engine.** The engine scans every pair of events. Among pairs
  that overlap on the same day, a conflict rule fires when both events:
  - use the same room;
  - have the same professor;
  - or have the same trimmed semester with different titles.

  The records are folded into an index of conflicted ids and per-event
  record lists. Summaries, descriptions, look-ups and resolution
  suggestions are derived from that index.
- **Event service.** This covers `HH:MM` ↔ minutes arithmetic, the
  validation rules (including business hours 07:30–22:30), the list of
  offered end times, partial updates and the single-event overlap check.
- **Calendar filter state.** This has three filter values, a search term
  and an active dimension. It yields sorted distinct option lists and
  filtered events, and navigates cyclically through an explicit "no
  selection" position.
- **In-memory event store.** The store keeps a selection. Its derived
  conflict index is `Detect(events)`. Its `eventCount` is the length of the
  list and needs no lemma.
- **The calendar view's derived data:**
  - the conflict styling of each event;
  - the evident-conflict groups;
  - the filter setup behind "go to this event";
  - the modal's option search;
  - the list-editing handle.
- **The event form.** This covers its completeness rule, the coupling of
  start and end time, and the guards and id handling of adding and editing.
- **The printable report.** This covers five-way filtering and the bucketing
  of events into a Monday–Saturday × 16-slot grid.
- **The history log.** This covers the diff written for an update and the
  merge that the diff is taken against.

### How the system's values are represented

- **Events and times.** An event is a record of strings, where `""` stands
  for an absent or falsy value. Its start and end are optional pairs of a
  day index and a minute of the day. `day % 7 == 0` is Sunday, and two
  times are on the same day exactly when their day indexes agree.
- **Numbers.** JavaScript numbers that can be `NaN` are `Num = NaN | Int(n)`.
  A comparison involving `NaN` is false, as in JavaScript.
- **Parameters.** Functions whose code is not part of this model become
  parameters:
  - the colour table, a `Palette` from type to colours;
  - the conflict colours;
  - the event factory behind `createEvent`, a function from the form's
    event data to an event.

  Event ids come with that factory, so clock- and random-based id
  generation is not modelled.
- **State.** React state becomes classes:
  - `EventFilters` for the filter hook;
  - `EventStore` for the events hook;
  - `TimetableView` for the calendar's selection;
  - `Panel` for the form.

  Each state-changing method states its whole new state through a
  specification function, and the lemmas are proved about those functions.

Points where the model follows the code as written:

- **The third conflict rule** compares `semester`
  (conflictService.ts:103-105); no rule compares the class (`turma`) field.
- **Turma groups.** The calendar view reads a `turma` list from the
  conflict summary that the summary never has, so its turma groups are
  always empty.
- **Offered end times.** They step by 60 minutes from 07:30 to 22:30, so 16
  of them are offered, although the code's comment speaks of half hours.
- **Unparsable times.** A time string that does not parse becomes `NaN`.
  Every comparison with `NaN` is false, so `validateEventData` raises no
  time error for such a string (`EventService.UnparsedTimesPass`). The
  model's parse is narrower than `Number`, so it treats more strings this
  way than the code does (see "## Left out").
- **The report grid.** It only holds events whose start is exactly one of
  its 16 hourly slots. An event on Sunday, one without a start, or one that
  starts at any other minute is in no cell.

## Model

| member | source | states |
|---|---|---|
| ConflictService.OverlapSymmetric | pampatime-demo/src/services/conflictService.ts:128-145 | the overlap test gives the same answer with its two events swapped |
| ConflictService.TouchingDoNotOverlap | pampatime-demo/src/services/conflictService.ts:128-145 | an event ending exactly where another starts overlaps it in neither direction (half-open intervals) |
| ConflictService.CheckEventConflicts | pampatime-demo/src/services/conflictService.ts:59-63 | no records for a pair that does not overlap or has an empty id |
| ConflictService.CheckUnfold | pampatime-demo/src/services/conflictService.ts:59-123 | an examined pair gets the records of the room rule, then of the professor rule, then of the semester rule |
| ConflictService.CheckLength | pampatime-demo/src/services/conflictService.ts:66-120 | a pair has 0, 2, 4 or 6 records, two per rule that fires |
| ConflictService.CheckMembers | pampatime-demo/src/services/conflictService.ts:59-123 | a record is in the result exactly when it is one side of a rule that fires for an examined pair, naming that side's own field value (the untrimmed semester for the semester rule) |
| ConflictService.CheckBothSides | pampatime-demo/src/services/conflictService.ts:67-82 | a non-empty result holds the record for both sides of its first rule |
| ConflictService.CheckTypes | pampatime-demo/src/services/conflictService.ts:66-120 | a conflict type occurs exactly when the pair is examined and its rule fires; the semester rule needs equal trimmed semesters and different titles |
| ConflictService.CheckOrder | pampatime-demo/src/services/conflictService.ts:66-120 | the records come in rule order room, professor, semester |
| ConflictService.CheckSides | pampatime-demo/src/services/conflictService.ts:68-119 | the records alternate by side: event1 → event2 at even positions, event2 → event1 right after it |
| ConflictService.CheckRecords | pampatime-demo/src/services/conflictService.ts:68-119 | every record links the two events of the pair, and its mirror record is in the result too |
| ConflictService.CheckMirror | pampatime-demo/src/services/conflictService.ts:59-123 | swapping the two events gives the same records, up to order |
| ConflictService.StoreConflicts | pampatime-demo/src/services/conflictService.ts:44-48 | appending a pair's records to the id set and the per-id lists gives the fold of those records |
| ConflictService.RecordPair | pampatime-demo/src/services/conflictService.ts:38-49 | one examined pair updates the index exactly as folding in its records |
| ConflictService.ScanPair | pampatime-demo/src/services/conflictService.ts:33-49 | one turn of the inner loop folds in exactly the records of pair (i, j) |
| ConflictService.RowStoredAll | pampatime-demo/src/services/conflictService.ts:32-50 | folding in a row pair by pair equals folding in the row's records in order of j |
| ConflictService.ScanRow | pampatime-demo/src/services/conflictService.ts:32-50 | the inner loop folds in the records of every pair (i, j) with j > i, in order of j |
| ConflictService.DetectConflicts | pampatime-demo/src/services/conflictService.ts:27-54 | the nested loops produce the fold of all pairs i < j in iteration order |
| ConflictService.RowsStoredAll | pampatime-demo/src/services/conflictService.ts:31-51 | folding in the rows one after the other equals folding in all records in pair-iteration order |
| ConflictService.RecordOrigin | pampatime-demo/src/services/conflictService.ts:31-50 | a record is in the detection only when it comes from a pair i < j |
| ConflictService.DetectIndex | pampatime-demo/src/services/conflictService.ts:27-54 | the conflicted-id set equals the key set of the details; each id's list is its records in pair-iteration order |
| ConflictService.RecordsOfMembers | pampatime-demo/src/services/conflictService.ts:44-48 | the records kept for an id are exactly the records owned by that id |
| ConflictService.ConflictIdsExact | pampatime-demo/src/services/conflictService.ts:38-48 | an id is conflicted exactly when it is the id of one event of some pair i < j that produced records |
| ConflictService.HasConflictsIffRecords | pampatime-demo/src/services/conflictService.ts:208-217 | `hasConflicts(id)` holds exactly when `getEventConflicts(id)` is non-empty |
| ConflictService.NoSelfConflict | pampatime-demo/src/services/conflictService.ts:27-54 | with distinct ids, every record of an event points from that event to another id |
| ConflictService.ConflictMirrored | pampatime-demo/src/services/conflictService.ts:44-48 | each record of an event is mirrored by a record of the conflicting event pointing back |
| ConflictService.CollectValues | pampatime-demo/src/services/conflictService.ts:157-161 | the inner loop adds each record's value to its type's list, once |
| ConflictService.CreateConflictSummary | pampatime-demo/src/services/conflictService.ts:150-169 | the summary method computes the specified summary |
| ConflictService.SummaryOfDetect | pampatime-demo/src/services/conflictService.ts:150-169 | `total` is the number of conflicted ids, not of records; each list is duplicate-free and holds exactly the values of that type across all records |
| ConflictService.TypesPresent | pampatime-demo/src/services/conflictService.ts:177-200 | the types present in a record list, each once, in order room, professor, semester |
| ConflictService.GetConflictDescription | pampatime-demo/src/services/conflictService.ts:174-203 | the description is empty exactly when the record list is; the types it describes are those present, each once, in order room, professor, semester (`TypesPresent`) |
| ConflictService.GetConflictingEvents | pampatime-demo/src/services/conflictService.ts:222-227 | the order-preserving subsequence of the events whose id is the target of one of the event's records, keeping every occurrence of such an event; dangling ids yield nothing |
| ConflictService.ConflictingEventsOverlap | pampatime-demo/src/services/conflictService.ts:222-227 | with distinct ids, every conflicting event is another event that overlaps the given one |
| ConflictService.SuggestResolution | pampatime-demo/src/services/conflictService.ts:232-255 | exactly two fixed lines per type present, in type order, whatever the record count; the lines are `Suggestion` values whose strings `SuggestionText` gives |
| ConflictService.LinesForThree | pampatime-demo/src/services/conflictService.ts:232-255 | the lines are the room pair, then the professor pair, then the semester pair, each only when that type is present |
| EventService.TimeToMinutes | pampatime-demo/src/services/eventService.ts:160-164 | `""` reads as 0 minutes; under the digit-only parse, a parsed result is never negative |
| EventService.NoColonIsNaN | pampatime-demo/src/services/eventService.ts:160-164 | a non-empty string without `:` reads as `NaN` |
| EventService.MinutesToTime | pampatime-demo/src/services/eventService.ts:169-173 | below 100 hours the result has five characters: two digits, `:`, two digits |
| EventService.TimeRoundTrip | pampatime-demo/src/services/eventService.ts:160-173 | reading back a formatted minute count gives that count |
| EventService.BusinessHours | pampatime-demo/src/services/eventService.ts:108-115 | `07:30` is 450 minutes and `22:30` is 1350 |
| EventService.SlotEnds | pampatime-demo/src/services/eventService.ts:184-187 | the slot list starts at `07:30` and ends at `22:30` |
| EventService.SlotsDistinct | pampatime-demo/src/services/eventService.ts:184-187 | the 16 slots are pairwise distinct |
| EventService.AvailableEndTimes | pampatime-demo/src/services/eventService.ts:178-191 | no end times for an empty start |
| EventService.AvailableEndTimesInOrder | pampatime-demo/src/services/eventService.ts:184-190 | the offered end times are an order-preserving subsequence of the hourly slots |
| EventService.AvailableEndTimesExact | pampatime-demo/src/services/eventService.ts:184-190 | slot k is offered exactly when the start is non-empty and the slot is strictly after it |
| EventService.AvailableEndTimesAfterStart | pampatime-demo/src/services/eventService.ts:184-190 | every offered end time is an hourly slot strictly after the start |
| EventService.GetAvailableEndTimes | pampatime-demo/src/services/eventService.ts:178-191 | the counting loop builds the specified list |
| EventService.DataErrorsExact | pampatime-demo/src/services/eventService.ts:79-116 | each required field that is blank, and each failing time check when both times are present, has its own error, and there are no others |
| EventService.ValidateEventData | pampatime-demo/src/services/eventService.ts:79-122 | the pushing method returns the specified errors, and `isValid` holds exactly when there are none |
| EventService.RequiredFieldErrors | pampatime-demo/src/services/eventService.ts:82-97 | the required-field checks give their errors in source order |
| EventService.TimeErrors | pampatime-demo/src/services/eventService.ts:99-116 | the time checks extend those errors in source order |
| EventService.UnparsedTimesPass | pampatime-demo/src/services/eventService.ts:99-116 | when neither time parses, no time-check error is raised |
| EventService.CreateEvent | pampatime-demo/src/services/eventService.ts:25-30 | creation fails exactly when validation reports errors, with their joined message; otherwise it returns the factory's event |
| EventService.EventErrors | pampatime-demo/src/services/eventService.ts:127-155 | an empty title, a missing start, a missing end, and an end not after the start each give their own error, and there are no others; the errors come in that order and none is repeated |
| EventService.ValidateEvent | pampatime-demo/src/services/eventService.ts:127-155 | the pushing method returns those errors, and `isValid` holds exactly when there are none |
| EventService.ValidateAndPrepareEvent | pampatime-demo/src/services/eventService.ts:65-74 | always succeeds, giving the event with its type's colours and every other field kept |
| EventService.MergeFields | pampatime-demo/src/services/eventService.ts:52 | each field of the merge comes from the patch when the patch has it, and from the event otherwise |
| EventService.MergeIdempotent | pampatime-demo/src/services/eventService.ts:52 | merging the same patch twice changes nothing more; an empty patch changes nothing |
| EventService.UpdateEvent | pampatime-demo/src/services/eventService.ts:51-61 | the update is the merge, recoloured exactly when the patch brings a different type |
| EventService.UpdateKeepsColours | pampatime-demo/src/services/eventService.ts:54-59 | without a new type, the colours come from the patch or stay; an empty patch returns the event |
| EventService.HasTimeOverlap | pampatime-demo/src/services/eventService.ts:196-217 | true exactly when some other-id event with both bounds overlaps; never for an event lacking a bound |
| EventService.OverlapIgnoresSameId | pampatime-demo/src/services/eventService.ts:203 | entries with the event's own id never count as overlaps |
| Events.ApplyColors | pampatime-demo/src/hooks/useEvents.ts:33 | recolouring keeps every non-colour field and sets the type's colours |
| Events.ReplaceById | pampatime-demo/src/hooks/useEvents.ts:46-48 | same length; each element with the id is replaced, the others stay |
| Events.ReplaceByIdStable | pampatime-demo/src/hooks/useEvents.ts:46-48 | replacing an absent id changes nothing; replacing twice with the same event under its own id is replacing once |
| Events.RemoveById | pampatime-demo/src/hooks/useEvents.ts:61 | the order-preserving subsequence of events whose id differs |
| Events.RemoveByIdIdempotent | pampatime-demo/src/hooks/useEvents.ts:61 | removing the same id twice is removing it once |
| Events.RemoveByIdLength | pampatime-demo/src/hooks/useEvents.ts:61 | removal shortens the list by the number of events with that id |
| UseEventFilters.FilterState.Set | pampatime-demo/src/hooks/useEventFilters.ts:109-114 | the chosen filter takes the value and the other two are unchanged |
| UseEventFilters.OptionsFor | pampatime-demo/src/hooks/useEventFilters.ts:54-64 | each option list is sorted, duplicate-free, free of `""`, and holds exactly the non-empty values of its field |
| UseEventFilters.FilteredEvents | pampatime-demo/src/hooks/useEventFilters.ts:67-83 | the order-preserving subsequence of events that match the search term case-insensitively and every non-empty filter, keeping every occurrence of a matching event |
| UseEventFilters.FilterSelectsField | pampatime-demo/src/hooks/useEventFilters.ts:77-81 | a kept event has, for every non-empty filter, that filter's value |
| UseEventFilters.NoFiltersKeepAll | pampatime-demo/src/hooks/useEventFilters.ts:67-83 | without filters or search term every event is kept |
| UseEventFilters.SearchIgnoresCase | pampatime-demo/src/hooks/useEventFilters.ts:70-74 | the search result does not depend on the case of the term |
| UseEventFilters.HasActiveFiltersExact | pampatime-demo/src/hooks/useEventFilters.ts:86-88 | active exactly when a filter value or the search term is non-empty |
| UseEventFilters.CurrentFilterInfo | pampatime-demo/src/hooks/useEventFilters.ts:91-106 | `index` is the value's position in the options, or -1 when it is absent; `total` is their number |
| UseEventFilters.CurrentFilterInfoOfOption | pampatime-demo/src/hooks/useEventFilters.ts:91-106 | an option's text is `value (index+1/total)`; the empty value gives index -1 and `Selecione <type>` |
| UseEventFilters.NextValue | pampatime-demo/src/hooks/useEventFilters.ts:157-175 | the next value is `""` or an option |
| UseEventFilters.PreviousValue | pampatime-demo/src/hooks/useEventFilters.ts:137-155 | the previous value is `""` or an option |
| UseEventFilters.NavigationCycle | pampatime-demo/src/hooks/useEventFilters.ts:137-175 | next goes from `""` to the first option, from the last to `""`, otherwise one forward; previous mirrors it |
| UseEventFilters.NavigationInverse | pampatime-demo/src/hooks/useEventFilters.ts:137-175 | previous undoes next, and next undoes previous |
| UseEventFilters.EventFilters.constructor | pampatime-demo/src/hooks/useEventFilters.ts:45-51 | no filters, no search term, the professor dimension active |
| UseEventFilters.EventFilters.SetFilter | pampatime-demo/src/hooks/useEventFilters.ts:109-114 | only the named filter changes |
| UseEventFilters.EventFilters.SetSearchTerm | pampatime-demo/src/hooks/useEventFilters.ts:116-118 | only the search term changes |
| UseEventFilters.EventFilters.SetActiveFilterType | pampatime-demo/src/hooks/useEventFilters.ts:51 | only the active dimension changes |
| UseEventFilters.EventFilters.ClearAllFilters | pampatime-demo/src/hooks/useEventFilters.ts:120-127 | all filters and the search term are emptied; nothing is active afterwards |
| UseEventFilters.EventFilters.ClearFilter | pampatime-demo/src/hooks/useEventFilters.ts:129-134 | only the named filter is emptied |
| UseEventFilters.EventFilters.NavigatePrevious | pampatime-demo/src/hooks/useEventFilters.ts:137-155 | nothing changes without options; otherwise only the active filter moves to its previous value |
| UseEventFilters.EventFilters.NavigateNext | pampatime-demo/src/hooks/useEventFilters.ts:157-175 | nothing changes without options; otherwise only the active filter moves to its next value |
| UseEvents.EventStore.constructor | pampatime-demo/src/hooks/useEvents.ts:24-25 | the store starts empty with nothing selected |
| UseEvents.EventStore.AddEvent | pampatime-demo/src/hooks/useEvents.ts:32-40 | exactly one recoloured event is appended, earlier events and the selection are unchanged |
| UseEvents.EventStore.UpdateEvent | pampatime-demo/src/hooks/useEvents.ts:42-57 | every event with the id is replaced by the recoloured event; the selection is refreshed only when it has that id |
| UseEvents.EventStore.DeleteEvent | pampatime-demo/src/hooks/useEvents.ts:59-70 | every event with the id goes, the rest keep their order; the selection is cleared exactly when its id matches |
| UseEvents.EventStore.SelectEvent | pampatime-demo/src/hooks/useEvents.ts:72-74 | only the selection changes |
| UseEvents.EventStore.Conflicts | pampatime-demo/src/hooks/useEvents.ts:28-30 | the derived index is the detection of the current list, and it is well formed |
| Timetable.StyledEvents | pampatime-demo/src/components/calendar/Timetable.tsx:51-70 | same length and order as the filtered events; an entry is marked, with conflict colours and its records, exactly when its id is conflicted; otherwise it has its type's colours and no records |
| Timetable.StyledMarksDetected | pampatime-demo/src/components/calendar/Timetable.tsx:51-70 | an entry is marked exactly when some record of the detection names its id |
| Timetable.GroupMembers | pampatime-demo/src/components/calendar/Timetable.tsx:251-253 | a group's events are the order-preserving subsequence with that field value and a conflicted id, every occurrence kept |
| Timetable.GroupsSound | pampatime-demo/src/components/calendar/Timetable.tsx:249-266 | every group is non-empty, and each of its events has the group's value and a conflicted id |
| Timetable.GroupsComplete | pampatime-demo/src/components/calendar/Timetable.tsx:249-266 | every conflicted event whose value is listed is in that value's group |
| Timetable.GroupValues | pampatime-demo/src/components/calendar/Timetable.tsx:249-256 | the loop builds the specified groups |
| Timetable.GetConflictGroups | pampatime-demo/src/components/calendar/Timetable.tsx:239-279 | no groups without conflict data; otherwise room and professor groups over the summary's values; turma groups are always empty |
| Timetable.NavigationTarget | pampatime-demo/src/components/calendar/Timetable.tsx:196-230 | an explicit type is used only when the event's field is non-empty; otherwise professor, then room, then class is picked by priority |
| Timetable.NavigateToEvent | pampatime-demo/src/components/calendar/Timetable.tsx:195-231 | all filters and the search term are cleared, then at most the target filter is set to the event's value, and that dimension becomes active |
| Timetable.ModalOptions | pampatime-demo/src/components/calendar/Timetable.tsx:298-304 | all options for an empty term; otherwise the order-preserving subsequence that contains the term case-insensitively, every occurrence kept |
| Timetable.TimetableView.constructor | pampatime-demo/src/components/calendar/Timetable.tsx:41 | nothing is selected initially |
| Timetable.TimetableView.AddEvent | pampatime-demo/src/components/calendar/Timetable.tsx:308-311 | exactly one event is appended, the earlier ones unchanged |
| Timetable.TimetableView.UpdateEvent | pampatime-demo/src/components/calendar/Timetable.tsx:312-315 | same length; events with the id are replaced, the others stay |
| Timetable.TimetableView.DeleteEvent | pampatime-demo/src/components/calendar/Timetable.tsx:316-323 | every event with the id is dropped; the selection is cleared exactly when it matched |
| FilterPanel.FormState.Set | pampatime-demo/src/components/calendar/FilterPanel.tsx:93 | the chosen field takes the value and every other field is unchanged |
| FilterPanel.Every | pampatime-demo/src/components/calendar/FilterPanel.tsx:114 | true exactly when every listed field is non-empty after trimming |
| FilterPanel.RequiredFieldsComplete | pampatime-demo/src/components/calendar/FilterPanel.tsx:109-112 | the required fields are all nine fields of the form |
| JsStrings.BlankIffTrimEmpty | pampatime-demo/src/components/calendar/FilterPanel.tsx:114 | a field is blank, whitespace only, exactly when trimming it leaves `""` |
| FilterPanel.IsFormValid | pampatime-demo/src/components/calendar/FilterPanel.tsx:108-115 | valid exactly when no field of the form is blank |
| FilterPanel.EmptyFormInvalid | pampatime-demo/src/components/calendar/FilterPanel.tsx:108-115 | the cleared form is not valid |
| FilterPanel.EventDataOf | pampatime-demo/src/components/calendar/FilterPanel.tsx:129-139 | the event data takes each form field into its own slot |
| FilterPanel.CompleteFormLeavesTimeErrors | pampatime-demo/src/components/calendar/FilterPanel.tsx:117-143 | a valid form raises none of the required-field errors, so only the time checks can reject it |
| FilterPanel.ChangedForm | pampatime-demo/src/components/calendar/FilterPanel.tsx:91-105 | only the named field changes, except that a new start clears an end time it no longer offers; after a start change the end is `""` or an offered end time |
| FilterPanel.OtherFieldsChangeAlone | pampatime-demo/src/components/calendar/FilterPanel.tsx:91-105 | a change to any field but the start sets just that field |
| FilterPanel.Panel.constructor | pampatime-demo/src/components/calendar/FilterPanel.tsx:36-46 | the form starts empty |
| FilterPanel.Panel.HandleFieldChange | pampatime-demo/src/components/calendar/FilterPanel.tsx:91-105 | the form becomes the specified changed form |
| FilterPanel.Panel.HandleAdd | pampatime-demo/src/components/calendar/FilterPanel.tsx:117-159 | the edit-in-progress alert exactly when an event is selected; the incomplete-form alert exactly when none is and the form is incomplete; the creation-error alert, with the joined validation message, exactly when the complete form's data fails validation; otherwise the event is added and the form cleared, and on every failure the form is unchanged |
| FilterPanel.Panel.HandleEdit | pampatime-demo/src/components/calendar/FilterPanel.tsx:161-187 | rejected exactly when nothing is selected or the form is incomplete; an emitted event is the created one under the selected event's id |
| ScheduleReport.Column | pampatime-demo/src/components/reports/ScheduleReportGenerator.tsx:23-27 | the field's values, one per event, in order |
| ScheduleReport.FilterOptions | pampatime-demo/src/components/reports/ScheduleReportGenerator.tsx:22-30 | each option list is sorted, duplicate-free, free of `""`, and holds exactly the non-empty values of its field |
| ScheduleReport.FilteredEvents | pampatime-demo/src/components/reports/ScheduleReportGenerator.tsx:33-41 | the order-preserving subsequence of events matching every non-empty selection, keeping every occurrence of a matching event |
| ScheduleReport.NoSelectionKeepsAll | pampatime-demo/src/components/reports/ScheduleReportGenerator.tsx:33-41 | with nothing selected every event is kept |
| ScheduleReport.TimeSlots | pampatime-demo/src/components/reports/ScheduleReportGenerator.tsx:46-50 | 16 distinct slots, slot k being the hourly slot k |
| ScheduleReport.CellKey | pampatime-demo/src/components/reports/ScheduleReportGenerator.tsx:64-70 | an event has a cell key exactly when it has a start; the key is its weekday name and `HH:MM` start |
| ScheduleReport.CellOf | pampatime-demo/src/components/reports/ScheduleReportGenerator.tsx:63-74 | a cell holds, in filtered order, exactly the events whose cell it is, each as often as it was pushed |
| ScheduleReport.EmptySchedule | pampatime-demo/src/components/reports/ScheduleReportGenerator.tsx:55-60 | the nested loops build exactly the day × slot grid with every cell empty |
| ScheduleReport.PushInto | pampatime-demo/src/components/reports/ScheduleReportGenerator.tsx:72-73 | the event is appended to that one cell; all other cells are unchanged |
| ScheduleReport.PushEvent | pampatime-demo/src/components/reports/ScheduleReportGenerator.tsx:63-74 | an event lands in its own cell when the grid has it, and nowhere otherwise |
| ScheduleReport.FileNext | pampatime-demo/src/components/reports/ScheduleReportGenerator.tsx:63-74 | filing the next filtered event keeps the grid, and every cell then holds its events among one more filtered event |
| ScheduleReport.Organize | pampatime-demo/src/components/reports/ScheduleReportGenerator.tsx:63-74 | over any days and slots, each cell ends up holding its events in filtered order |
| ScheduleReport.OrganizeEvents | pampatime-demo/src/components/reports/ScheduleReportGenerator.tsx:44-77 | exactly the Monday–Saturday × 16-slot grid, each cell holding its events in filtered order |
| ScheduleReport.SlotOfStart | pampatime-demo/src/components/reports/ScheduleReportGenerator.tsx:63-74 | a start falls in slot k exactly when it is 450 + 60k minutes |
| ScheduleReport.SundayDropped | pampatime-demo/src/components/reports/ScheduleReportGenerator.tsx:63-74 | no cell of the grid holds a Sunday event |
| ScheduleReport.GridKeys | pampatime-demo/src/components/reports/ScheduleReportGenerator.tsx:45-60 | the 96 keys of the grid |
| ScheduleReport.GridHoldsAtMostEvents | pampatime-demo/src/components/reports/ScheduleReportGenerator.tsx:63-74 | the grid holds at most as many entries as there are filtered events |
| ScheduleReport.RowClass | pampatime-demo/src/components/reports/ScheduleReportGenerator.tsx:216 | `even` exactly for an even slot index, `odd` otherwise |
| ScheduleReport.RowsAlternate | pampatime-demo/src/components/reports/ScheduleReportGenerator.tsx:216 | consecutive rows have different classes |
| FirebaseDiff.Diff | pampatime-demo/src/lib/firebase.ts:8-17 | a key is in the diff exactly when it is in either object and its two look-ups differ; both sides are recorded, `null` for a missing one |
| FirebaseDiff.DiffObjects | pampatime-demo/src/lib/firebase.ts:8-17 | the loop over the key union fills in the specified diff; a missing object counts as empty |
| FirebaseDiff.DiffSelfEmpty | pampatime-demo/src/lib/firebase.ts:8-17 | an object has no diff with itself |
| FirebaseDiff.DiffKeysInUnion | pampatime-demo/src/lib/firebase.ts:10 | the diff's keys lie in the union of both objects' keys |
| FirebaseDiff.DiffSymmetric | pampatime-demo/src/lib/firebase.ts:8-17 | the reverse diff has the same keys with before and after swapped |
| FirebaseDiff.NullAndMissingDiffer | pampatime-demo/src/lib/firebase.ts:11-15 | a key stored as `null` on one side and missing on the other is reported with both sides `null` |
| FirebaseDiff.Merge | pampatime-demo/src/lib/firebase.ts:49 | the merge has both key sets; the update wins on shared keys |
| FirebaseDiff.UpdateDiffKeys | pampatime-demo/src/lib/firebase.ts:47-50 | the diff of an update names exactly the updated keys whose value is new, so only updated keys |
| FirebaseDiff.RepeatedUpdateLogsNothing | pampatime-demo/src/lib/firebase.ts:47-50 | an update that repeats the stored values logs no change |
| FirebaseDiff.UpdateLogEntry | pampatime-demo/src/lib/firebase.ts:44-52 | the logged diff is between the stored record, or `{}`, and its merge with the update, and names only updated keys |

## Left out

- **Database and network I/O.** `pushLog`, record creation, deletion and
  restore, and the read and write around `updateTimetableEvent` are left
  out. Only the pure diff and merge are modelled.
- **Asynchronous behaviour.** Realtime hooks, subscriptions, concurrency and
  the ordering of asynchronous writes are left out. The model is
  single-threaded.
- **JavaScript `Date` and locale formatting.** `toDateString`, `getDay` and
  `toTimeString` are replaced by (day, minute) pairs. The report's
  `formatEvent` display strings and the form's date-to-field helpers are
  not modelled.
- **Unseen colour and factory code.** The colour table, the conflict colours
  and the event factory are parameters. The model says nothing about the
  colours chosen beyond which function chooses them.
- **Id generation.** Ids from `Date.now()`/`Math.random()` come with the
  event factory and are not modelled.
- **Browser and UI plumbing.** `alert` and `confirm` are left out. The form's
  outcomes are datatypes, and their alert texts are separate functions.
  Also left out are `setTimeout`, the `onEventsChange` callbacks,
  `handleDelete`, drag-and-drop, rendering and CSS.
- **The report's HTML.** Generating the report's HTML string, and
  downloading or printing it, are left out.
- **The form's sync effect.** The effect that copies the selected event into
  the form is not modelled, because it works on `Date` values.
- ConflictService.GetConflictDescription: its contract states only when the
  description is empty. The clause texts, the `", "` joins of values and
  the `" • "` join of clauses are stated by its definition and by
  `TypesPresent`, not by separate lemmas.
- EventService.TimeToMinutes: `Number` parsing is modelled only for runs of
  decimal digits. As in `Number`, white space around a piece is ignored and
  a blank piece reads as 0. Any other piece (signs, inner spaces, decimals,
  exponents, hex, `Infinity`) reads as `NaN`. A consequence for validation: a signed time such as `"-1:00"`
  is -60 minutes in the code, so `validateEventData` rejects it as starting
  before 07:30. In the model it reads as `NaN` and passes the time checks.
- JsStrings.ToLower: case mapping covers ASCII and Latin-1 only, not all of
  Unicode.
- **Sort order.** Option lists are sorted by comparing characters in
  order. `Array.prototype.sort` compares UTF-16 code units instead, and
  the two orders differ only for characters above the Basic Multilingual
  Plane.
- **Event partial updates.** Event patches are per-field optional values;
  a key set explicitly to `undefined` is not distinguished from a missing
  one.
- **History log values.** Stored records in the diff hold only primitive
  values. A nested object would be compared by reference in the code, and
  that is not modelled.
- ConflictService.SuggestResolution: the code returns the suggestion lines as
  strings. The model returns `Suggestion` values, and `SuggestionText` maps
  each to its fixed string.
- **Numeric ids.** Ids are `string | number` in the code; the model has
  string ids only. A numeric id `0` (falsy) and the distinctness of `1` and
  `"1"` as `Set` and `Map` keys are not modelled.
- UseEvents.EventStore.EventCount: it is the length of the list and has no
  contract of its own.
