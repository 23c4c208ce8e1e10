/** The calendar event record shared by every component, and the list
    operations (replace by id, delete by id) that the stores apply to it. */
module Events {
  import opened Wrappers
  import Seqs

  /** A minute of the day, 00:00 to 23:59. */
  type MinuteOfDay = m: int | 0 <= m < 1440

  /** A point in the recurring teaching week: a day index and a minute of
      that day. Events are pinned to one fixed reference week, so two events
      are on the same day exactly when their day indices are equal. The day
      index follows `Date.getDay`: `day % 7 == 0` is a Sunday, 1 a Monday,
      up to 6 for Saturday. */
  datatype Time = Time(day: int, minute: MinuteOfDay)

  /** `a < b` on the two instants. */
  predicate Before(a: Time, b: Time) {
    a.day < b.day || (a.day == b.day && a.minute < b.minute)
  }

  /** The derived presentation colours of an event. */
  datatype Colors = Colors(background: string, border: string, text: string)

  /** The type-to-colour table behind `applyEventColors`; its contents are
      not part of this model, so it is a parameter. */
  type Palette = string -> Colors

  /** A calendar event. A string field that the source leaves `undefined`
      (or sets to a falsy value) is "" here; `start`/`end` are `None` when
      missing. `turma` is the source's `class` field and `eventType` its
      `type` field (both names are Dafny keywords). */
  datatype Event = Event(
    id: string,
    title: string,
    start: Option<Time>,
    end: Option<Time>,
    room: string,
    professor: string,
    semester: string,
    turma: string,
    eventType: string,
    colors: Colors)

  /** `a` and `b` agree on every field but the colours. */
  predicate SameExceptColors(a: Event, b: Event) {
    a.(colors := b.colors) == b
  }

  /** `applyEventColors(e)`: recolour the event from its type, leaving every
      other field as it is. */
  function ApplyColors(palette: Palette, e: Event): (r: Event)
    ensures SameExceptColors(r, e)
    ensures r.colors == palette(e.eventType)
  {
    e.(colors := palette(e.eventType))
  }

  /** `events.map(x => x.id === id ? e : x)` */
  function ReplaceById(events: seq<Event>, id: string, e: Event): (r: seq<Event>)
    ensures |r| == |events|
    ensures forall k | 0 <= k < |events| :: r[k] == if events[k].id == id then e else events[k]
  {
    seq(|events|, k requires 0 <= k < |events| => if events[k].id == id then e else events[k])
  }

  /** Replacing an id no event carries changes nothing; after a replacement
      with an event of the same id, a second one changes nothing either. */
  lemma ReplaceByIdStable(events: seq<Event>, id: string, e: Event)
    ensures (forall x | x in events :: x.id != id) ==> ReplaceById(events, id, e) == events
    ensures e.id == id ==> ReplaceById(ReplaceById(events, id, e), id, e) == ReplaceById(events, id, e)
  {
  }

  /** `events.filter(x => x.id !== id)` */
  function RemoveById(events: seq<Event>, id: string): (r: seq<Event>)
    ensures Seqs.IsSubsequence(r, events)
    ensures forall x :: x in r <==> x in events && x.id != id
  {
    Seqs.Filter(events, (x: Event) => x.id != id)
  }

  lemma {:induction false} RemoveByIdLength(events: seq<Event>, id: string)
    ensures |RemoveById(events, id)| == |events| - CountId(events, id)
  {
    if events != [] {
      RemoveByIdLength(events[1..], id);
    }
  }

  /** Deleting twice is deleting once. */
  lemma RemoveByIdIdempotent(events: seq<Event>, id: string)
    ensures RemoveById(RemoveById(events, id), id) == RemoveById(events, id)
  {
    var once := RemoveById(events, id);
    Seqs.FilterAll(once, (x: Event) => x.id != id);
  }

  /** How many events carry the id. */
  function CountId(events: seq<Event>, id: string): nat {
    if events == [] then 0 else (if events[0].id == id then 1 else 0) + CountId(events[1..], id)
  }
}
