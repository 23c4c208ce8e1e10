/** `useEventFilters`: three filter values, a search term and the dimension
    the arrow navigation moves along, with the option lists and the filtered
    event list derived from them. */
module UseEventFilters {
  import opened JsStrings
  import opened Events
  import Seqs

  /** `FilterType` */
  datatype FilterType = ProfessorFilter | TurmaFilter | SalaFilter {
    /** The literal the source uses for the type. */
    function Name(): string {
      match this
      case ProfessorFilter => "professor"
      case TurmaFilter => "turma"
      case SalaFilter => "sala"
    }
  }

  /** `FilterState`: one value per filter type, "" for no selection. */
  datatype FilterState = FilterState(professor: string, turma: string, sala: string) {
    /** `filters[t]` */
    function Get(t: FilterType): string {
      match t
      case ProfessorFilter => professor
      case TurmaFilter => turma
      case SalaFilter => sala
    }

    /** `{ ...filters, [t]: v }` */
    function Set(t: FilterType, v: string): (r: FilterState)
      ensures r.Get(t) == v
      ensures forall u | u != t :: r.Get(u) == Get(u)
    {
      match t
      case ProfessorFilter => this.(professor := v)
      case TurmaFilter => this.(turma := v)
      case SalaFilter => this.(sala := v)
    }
  }

  const NoFilters := FilterState("", "", "")

  /** The event field a filter type compares against: `professor`, `class`
      or `room`. */
  function Field(e: Event, t: FilterType): string {
    match t
    case ProfessorFilter => e.professor
    case TurmaFilter => e.turma
    case SalaFilter => e.room
  }

  // ---------------------------------------------------------------------
  // filterOptions
  // ---------------------------------------------------------------------

  /** `events.map(e => e[field])` */
  function FieldValues(events: seq<Event>, t: FilterType): seq<string> {
    seq(|events|, i requires 0 <= i < |events| => Field(events[i], t))
  }

  /** `filterOptions[t]`: `Array.from(new Set(values.filter(Boolean))).sort()`
      — sorted, without repeats or "", and holding exactly the non-empty
      values of that field across the events. */
  function OptionsFor(events: seq<Event>, t: FilterType): (r: seq<string>)
    ensures Seqs.Sorted(r) && Seqs.Distinct(r) && "" !in r
    ensures forall v :: v in r <==> v != "" && exists e | e in events :: Field(e, t) == v
  {
    var values := FieldValues(events, t);
    assert forall v :: v in values <==> exists e | e in events :: Field(e, t) == v by {
      forall v ensures v in values <==> exists e | e in events :: Field(e, t) == v {
        if exists e | e in events :: Field(e, t) == v {
          var e :| e in events && Field(e, t) == v;
          var i :| 0 <= i < |events| && events[i] == e;
          assert values[i] == v;
        }
      }
    }
    Seqs.UniqueSorted(values)
  }

  // ---------------------------------------------------------------------
  // filteredEvents, hasActiveFilters
  // ---------------------------------------------------------------------

  /** The search test: an empty term matches everything; otherwise the
      lower-cased term must occur in the lower-cased title, professor, room
      or class. A missing field ("") holds no non-empty term. */
  predicate MatchesSearch(e: Event, term: string) {
    var t := ToLower(term);
    term == ""
    || Contains(ToLower(e.title), t) || Contains(ToLower(e.professor), t)
    || Contains(ToLower(e.room), t) || Contains(ToLower(e.turma), t)
  }

  /** The three filter tests: an empty filter keeps everything. */
  predicate MatchesFilters(e: Event, f: FilterState) {
    (f.professor == "" || e.professor == f.professor)
    && (f.sala == "" || e.room == f.sala)
    && (f.turma == "" || e.turma == f.turma)
  }

  /** `filteredEvents`: the events, in their order, that pass the search and
      all three filters. */
  function FilteredEvents(events: seq<Event>, f: FilterState, term: string): (r: seq<Event>)
    ensures Seqs.IsSubsequence(r, events)
    ensures forall e :: e in r <==> e in events && MatchesSearch(e, term) && MatchesFilters(e, f)
    ensures forall e :: multiset(r)[e] == if MatchesSearch(e, term) && MatchesFilters(e, f) then multiset(events)[e] else 0
  {
    Seqs.FilterCounts(events, (e: Event) => MatchesSearch(e, term) && MatchesFilters(e, f));
    Seqs.Filter(events, (e: Event) => MatchesSearch(e, term) && MatchesFilters(e, f))
  }

  /** A filter value selects exactly the events whose field equals it. */
  lemma FilterSelectsField(events: seq<Event>, f: FilterState, term: string, t: FilterType, e: Event)
    requires f.Get(t) != "" && e in FilteredEvents(events, f, term)
    ensures Field(e, t) == f.Get(t)
  {
  }

  /** With no filter and no search term every event is kept. */
  lemma NoFiltersKeepAll(events: seq<Event>)
    ensures FilteredEvents(events, NoFilters, "") == events
  {
    Seqs.FilterAll(events, (e: Event) => MatchesSearch(e, "") && MatchesFilters(e, NoFilters));
  }

  /** The search ignores the case of the term. */
  lemma SearchIgnoresCase(e: Event, term: string)
    ensures MatchesSearch(e, ToLower(term)) == MatchesSearch(e, term)
  {
    ToLowerIdempotent(term);
  }

  /** `Object.values(filters)` */
  function Values(f: FilterState): seq<string> {
    [f.professor, f.turma, f.sala]
  }

  /** `hasActiveFilters` */
  predicate HasActiveFilters(f: FilterState, term: string) {
    (exists k | 0 <= k < |Values(f)| :: Values(f)[k] != "") || term != ""
  }

  /** Filters are active exactly when some filter value or the search term
      is non-empty. */
  lemma HasActiveFiltersExact(f: FilterState, term: string)
    ensures HasActiveFilters(f, term) <==> f != NoFilters || term != ""
  {
    if f.professor != "" {
      assert Values(f)[0] != "";
    }
    if f.turma != "" {
      assert Values(f)[1] != "";
    }
    if f.sala != "" {
      assert Values(f)[2] != "";
    }
  }

  // ---------------------------------------------------------------------
  // getCurrentFilterInfo
  // ---------------------------------------------------------------------

  datatype FilterInfo = FilterInfo(value: string, index: int, total: nat, displayText: string)

  /** `getCurrentFilterInfo` on the options and value of the active type. */
  function CurrentFilterInfo(options: seq<string>, value: string, t: FilterType): (r: FilterInfo)
    ensures r.value == value && r.total == |options|
    ensures -1 <= r.index < |options|
    ensures r.index == -1 <==> value !in options
    ensures r.index >= 0 ==> options[r.index] == value
  {
    var index := Seqs.IndexOf(options, value);
    var displayText :=
      if value == "" then "Selecione " + t.Name()
      else value + " (" + NatToString(index + 1) + "/" + NatToString(|options|) + ")";
    FilterInfo(value, index, |options|, displayText)
  }

  /** On a list without repeats, option `k` is reported as position `k`,
      shown as "<value> (k+1/total)"; no selection is shown as
      "Selecione <type>". */
  lemma CurrentFilterInfoOfOption(options: seq<string>, k: nat, t: FilterType)
    requires Seqs.Distinct(options) && "" !in options && k < |options|
    ensures CurrentFilterInfo(options, options[k], t).index == k
    ensures CurrentFilterInfo(options, options[k], t).displayText
      == options[k] + " (" + NatToString(k + 1) + "/" + NatToString(|options|) + ")"
    ensures CurrentFilterInfo(options, "", t).index == -1
    ensures CurrentFilterInfo(options, "", t).displayText == "Selecione " + t.Name()
  {
    Seqs.IndexOfDistinct(options, k);
  }

  // ---------------------------------------------------------------------
  // Navigation
  // ---------------------------------------------------------------------

  /** The value `navigateNext` selects: from no selection the first option,
      from the last option no selection, otherwise the option after the
      value's position (the first option when the value is not listed). */
  function NextValue(options: seq<string>, value: string): (r: string)
    requires options != []
    ensures r == "" || r in options
  {
    if value == "" then options[0]
    else
      var i := Seqs.IndexOf(options, value);
      if i < |options| - 1 then options[i + 1] else ""
  }

  /** The value `navigatePrevious` selects: from no selection the last
      option, from the first option (or a value not listed) no selection,
      otherwise the option before the value's position. */
  function PreviousValue(options: seq<string>, value: string): (r: string)
    requires options != []
    ensures r == "" || r in options
  {
    if value == "" then options[|options| - 1]
    else
      var i := Seqs.IndexOf(options, value);
      if i > 0 then options[i - 1] else ""
  }

  /** On a list without repeats or "", the two moves walk the cycle
      "" -> options[0] -> ... -> options[n-1] -> "". */
  lemma NavigationCycle(options: seq<string>, k: nat)
    requires Seqs.Distinct(options) && "" !in options && k < |options|
    ensures NextValue(options, "") == options[0]
    ensures NextValue(options, options[k]) == if k == |options| - 1 then "" else options[k + 1]
    ensures PreviousValue(options, "") == options[|options| - 1]
    ensures PreviousValue(options, options[k]) == if k == 0 then "" else options[k - 1]
  {
    Seqs.IndexOfDistinct(options, k);
  }

  /** One step back undoes one step forward, and the other way round. */
  lemma NavigationInverse(options: seq<string>, v: string)
    requires Seqs.Distinct(options) && "" !in options && options != []
    requires v == "" || v in options
    ensures PreviousValue(options, NextValue(options, v)) == v
    ensures NextValue(options, PreviousValue(options, v)) == v
  {
    var n := |options|;
    NavigationCycle(options, 0);
    NavigationCycle(options, n - 1);
    if v != "" {
      var k := Seqs.IndexOf(options, v);
      NavigationCycle(options, k);
      if k < n - 1 {
        NavigationCycle(options, k + 1);
      }
      if k > 0 {
        NavigationCycle(options, k - 1);
      }
    }
  }

  // ---------------------------------------------------------------------
  // The hook's state
  // ---------------------------------------------------------------------

  /** The state of one `useEventFilters` instance. The event list is the
      hook's argument, so the members that need it take it as a parameter. */
  class EventFilters {
    var filters: FilterState
    var searchTerm: string
    var activeFilterType: FilterType

    /** The initial state: no filters, no search, professor navigation. */
    constructor()
      ensures filters == NoFilters && searchTerm == "" && activeFilterType == ProfessorFilter
    {
      filters := NoFilters;
      searchTerm := "";
      activeFilterType := ProfessorFilter;
    }

    /** `setFilter`: only filter `t` changes. */
    method SetFilter(t: FilterType, value: string)
      modifies this
      ensures filters == old(filters).Set(t, value)
      ensures searchTerm == old(searchTerm) && activeFilterType == old(activeFilterType)
    {
      filters := filters.Set(t, value);
    }

    /** `setSearchTerm` */
    method SetSearchTerm(term: string)
      modifies this
      ensures searchTerm == term
      ensures filters == old(filters) && activeFilterType == old(activeFilterType)
    {
      searchTerm := term;
    }

    /** `setActiveFilterType` */
    method SetActiveFilterType(t: FilterType)
      modifies this
      ensures activeFilterType == t
      ensures filters == old(filters) && searchTerm == old(searchTerm)
    {
      activeFilterType := t;
    }

    /** `clearAllFilters`: all three filters and the search term become "". */
    method ClearAllFilters()
      modifies this
      ensures filters == NoFilters && searchTerm == ""
      ensures activeFilterType == old(activeFilterType)
      ensures !HasActiveFilters(filters, searchTerm)
    {
      filters := NoFilters;
      searchTerm := "";
      HasActiveFiltersExact(filters, searchTerm);
    }

    /** `clearFilter`: only filter `t` becomes "". */
    method ClearFilter(t: FilterType)
      modifies this
      ensures filters == old(filters).Set(t, "")
      ensures searchTerm == old(searchTerm) && activeFilterType == old(activeFilterType)
    {
      filters := filters.Set(t, "");
    }

    /** `navigatePrevious`: nothing happens without options; otherwise the
      active filter moves one step back along the cycle. */
    method NavigatePrevious(events: seq<Event>)
      modifies this
      ensures var options := OptionsFor(events, old(activeFilterType));
        filters == if options == [] then old(filters)
                   else old(filters).Set(activeFilterType, PreviousValue(options, old(filters).Get(activeFilterType)))
      ensures searchTerm == old(searchTerm) && activeFilterType == old(activeFilterType)
    {
      var currentOptions := OptionsFor(events, activeFilterType);
      var currentValue := filters.Get(activeFilterType);
      if |currentOptions| == 0 {
        return;
      }
      if currentValue == "" {
        SetFilter(activeFilterType, currentOptions[|currentOptions| - 1]);
      } else {
        var currentIndex := Seqs.IndexOf(currentOptions, currentValue);
        if currentIndex > 0 {
          SetFilter(activeFilterType, currentOptions[currentIndex - 1]);
        } else {
          SetFilter(activeFilterType, "");
        }
      }
    }

    /** `navigateNext`: nothing happens without options; otherwise the active
      filter moves one step forward along the cycle. */
    method NavigateNext(events: seq<Event>)
      modifies this
      ensures var options := OptionsFor(events, old(activeFilterType));
        filters == if options == [] then old(filters)
                   else old(filters).Set(activeFilterType, NextValue(options, old(filters).Get(activeFilterType)))
      ensures searchTerm == old(searchTerm) && activeFilterType == old(activeFilterType)
    {
      var currentOptions := OptionsFor(events, activeFilterType);
      var currentValue := filters.Get(activeFilterType);
      if |currentOptions| == 0 {
        return;
      }
      if currentValue == "" {
        SetFilter(activeFilterType, currentOptions[0]);
      } else {
        var currentIndex := Seqs.IndexOf(currentOptions, currentValue);
        if currentIndex < |currentOptions| - 1 {
          SetFilter(activeFilterType, currentOptions[currentIndex + 1]);
        } else {
          SetFilter(activeFilterType, "");
        }
      }
    }

    /** `filteredEvents` for the current state. */
    function Filtered(events: seq<Event>): seq<Event>
      reads this
    {
      FilteredEvents(events, filters, searchTerm)
    }

    /** `getCurrentFilterInfo` for the current state. */
    function GetCurrentFilterInfo(events: seq<Event>): FilterInfo
      reads this
    {
      CurrentFilterInfo(OptionsFor(events, activeFilterType), filters.Get(activeFilterType), activeFilterType)
    }
  }
}
