/** `useEvents`: the in-memory event list and the selected event, with the
    operations that replace them and the values derived from them. */
module UseEvents {
  import opened Wrappers
  import opened Events
  import ConflictService
  import EventService

  /** The state of one `useEvents` instance. `palette` stands for the colour
      table behind `applyEventColors`. */
  class EventStore {
    const palette: Palette
    var events: seq<Event>
    var selectedEvent: Option<Event>

    /** The initial state: no events, nothing selected. */
    constructor(palette: Palette)
      ensures this.palette == palette
      ensures events == [] && selectedEvent == None
    {
      this.palette := palette;
      events := [];
      selectedEvent := None;
    }

    /** `addEvent`: one recoloured event is appended; the earlier events and
        the selection stay as they are. */
    method AddEvent(event: Event)
      modifies this
      ensures events == old(events) + [ApplyColors(palette, event)]
      ensures |events| == |old(events)| + 1 && events[..|old(events)|] == old(events)
      ensures selectedEvent == old(selectedEvent)
    {
      var validatedEvent := EventService.ValidateAndPrepareEvent(palette, event);
      var newEvents := events + [validatedEvent];
      events := newEvents;
    }

    /** `updateEvent`: every event with the id is replaced by the recoloured
        event; the selection is refreshed only when it has the same id. */
    method UpdateEvent(updatedEvent: Event)
      modifies this
      ensures events == ReplaceById(old(events), updatedEvent.id, ApplyColors(palette, updatedEvent))
      ensures selectedEvent ==
        if old(selectedEvent).Some? && old(selectedEvent).value.id == updatedEvent.id
        then Some(ApplyColors(palette, updatedEvent))
        else old(selectedEvent)
    {
      var validatedEvent := EventService.ValidateAndPrepareEvent(palette, updatedEvent);
      var newEvents := ReplaceById(events, updatedEvent.id, validatedEvent);
      events := newEvents;
      if selectedEvent.Some? && selectedEvent.value.id == updatedEvent.id {
        selectedEvent := Some(validatedEvent);
      }
    }

    /** `deleteEvent`: every event with the id goes, the rest keep their
        order; the selection is cleared exactly when it has that id. */
    method DeleteEvent(eventId: string)
      modifies this
      ensures events == RemoveById(old(events), eventId)
      ensures selectedEvent ==
        if old(selectedEvent).Some? && old(selectedEvent).value.id == eventId then None
        else old(selectedEvent)
    {
      var newEvents := RemoveById(events, eventId);
      events := newEvents;
      if selectedEvent.Some? && selectedEvent.value.id == eventId {
        selectedEvent := None;
      }
    }

    /** `selectEvent` */
    method SelectEvent(event: Option<Event>)
      modifies this
      ensures selectedEvent == event && events == old(events)
    {
      selectedEvent := event;
    }

    /** `conflicts`: the conflict index of the current list. */
    method Conflicts() returns (d: ConflictService.ConflictData)
      ensures d == ConflictService.Detect(events)
      ensures ConflictService.WellFormed(d)
    {
      d := ConflictService.DetectConflicts(events);
      ConflictService.DetectIndex(events, "");
    }

    /** `eventCount` */
    function EventCount(): nat
      reads this
    {
      |events|
    }
  }
}
