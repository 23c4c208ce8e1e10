/** The scheduling-conflict engine (`ConflictService`): pairwise detection of
    room, professor and semester clashes between overlapping events, the
    conflict index built from them, and the summaries, descriptions,
    look-ups and suggestions derived from that index. */
module ConflictService {
  import opened Wrappers
  import opened JsStrings
  import opened Events
  import Seqs

  datatype ConflictType = Sala | Professor | Semestre

  /** One side of a clash: `eventId` clashes with `conflictWith` on the
      resource `conflictValue` (the event's own room, professor or semester). */
  datatype ConflictInfo = ConflictInfo(
    eventId: string,
    conflictType: ConflictType,
    conflictValue: string,
    conflictWith: string)

  /** The conflict index: the `conflictIds` set, the `conflictDetails` map
      from event id to its records, and `detailOrder`, the order in which
      keys were first inserted into that map (the order in which a
      JavaScript `Map` is iterated). */
  datatype ConflictData = ConflictData(
    conflictIds: set<string>,
    conflictDetails: map<string, seq<ConflictInfo>>,
    detailOrder: seq<string>)

  datatype ConflictSummary = ConflictSummary(
    sala: seq<string>,
    professor: seq<string>,
    semestre: seq<string>,
    total: nat)

  const NoConflicts := ConflictData({}, map[], [])

  // ---------------------------------------------------------------------
  // Overlap and the three rules
  // ---------------------------------------------------------------------

  /** `hasTimeOverlap`: all four bounds present, both starts on the same
      day, and the half-open intervals intersect. */
  predicate HasTimeOverlap(e1: Event, e2: Event) {
    && e1.start.Some? && e2.start.Some? && e1.end.Some? && e2.end.Some?
    && e1.start.value.day == e2.start.value.day
    && Before(e1.start.value, e2.end.value)
    && Before(e2.start.value, e1.end.value)
  }

  lemma OverlapSymmetric(e1: Event, e2: Event)
    ensures HasTimeOverlap(e1, e2) == HasTimeOverlap(e2, e1)
  {
  }

  /** An event that ends exactly when another starts does not overlap it. */
  lemma TouchingDoNotOverlap(e1: Event, e2: Event)
    requires e1.end.Some? && e2.start.Some? && e1.end.value == e2.start.value
    ensures !HasTimeOverlap(e1, e2) && !HasTimeOverlap(e2, e1)
  {
  }

  /** A pair is examined only when the events overlap and both have an id. */
  predicate Examined(e1: Event, e2: Event) {
    HasTimeOverlap(e1, e2) && e1.id != "" && e2.id != ""
  }

  /** The rule for each conflict type: the room, professor and semester
      tests of `checkEventConflicts`. */
  predicate RuleFires(t: ConflictType, e1: Event, e2: Event) {
    match t
    case Sala => e1.room != "" && e2.room != "" && e1.room == e2.room
    case Professor => e1.professor != "" && e2.professor != "" && e1.professor == e2.professor
    case Semestre =>
      e1.semester != "" && e2.semester != ""
      && Trim(e1.semester) == Trim(e2.semester) && e1.title != e2.title
  }

  /** The field a record of type `t` reports as its `conflictValue`. */
  function ValueFor(e: Event, t: ConflictType): string {
    match t
    case Sala => e.room
    case Professor => e.professor
    case Semestre => e.semester
  }

  /** The position of each rule in the fixed order room, professor, semester. */
  function Rank(t: ConflictType): nat {
    match t
    case Sala => 0
    case Professor => 1
    case Semestre => 2
  }

  /** The record for `a` clashing with `b` on rule `t`. */
  function Record(a: Event, b: Event, t: ConflictType): ConflictInfo {
    ConflictInfo(a.id, t, ValueFor(a, t), b.id)
  }

  predicate HasType(infos: seq<ConflictInfo>, t: ConflictType) {
    exists c | c in infos :: c.conflictType == t
  }

  function RulePair(e1: Event, e2: Event, t: ConflictType): seq<ConflictInfo> {
    if RuleFires(t, e1, e2) then [Record(e1, e2, t), Record(e2, e1, t)] else []
  }

  /** `checkEventConflicts`: nothing unless the pair is examined; otherwise
      two records per rule that fires, in the order room, professor,
      semester, the first for `e1` pointing at `e2` and the second for `e2`
      pointing at `e1`. */
  function CheckEventConflicts(e1: Event, e2: Event): (r: seq<ConflictInfo>)
    ensures !Examined(e1, e2) ==> r == []
  {
    if !Examined(e1, e2) then [] else RulesFrom(e1, e2, RuleOrder)
  }

  /** The order in which `checkEventConflicts` applies the rules. */
  const RuleOrder: seq<ConflictType> := [Sala, Professor, Semestre]

  /** The records of the rules in `rules` that fire, rule after rule. */
  function RulesFrom(e1: Event, e2: Event, rules: seq<ConflictType>): seq<ConflictInfo> {
    if rules == [] then [] else RulePair(e1, e2, rules[0]) + RulesFrom(e1, e2, rules[1..])
  }

  /** An examined pair gets the room records, then the professor records,
      then the semester records. */
  lemma CheckUnfold(e1: Event, e2: Event)
    ensures CheckEventConflicts(e1, e2)
         == if !Examined(e1, e2) then []
            else RulePair(e1, e2, Sala) + RulePair(e1, e2, Professor) + RulePair(e1, e2, Semestre)
  {
    var p0, p1, p2 := RulePair(e1, e2, Sala), RulePair(e1, e2, Professor), RulePair(e1, e2, Semestre);
    assert RulesFrom(e1, e2, [Semestre]) == p2 by {
      assert [Semestre][1..] == [];
    }
    assert RulesFrom(e1, e2, [Professor, Semestre]) == p1 + p2 by {
      assert [Professor, Semestre][1..] == [Semestre];
    }
    assert RulesFrom(e1, e2, RuleOrder) == p0 + (p1 + p2) by {
      assert RuleOrder[1..] == [Professor, Semestre];
    }
    Seqs.AppendAssoc(p0, p1, p2);
  }

  /** A pair has 0, 2, 4 or 6 records: two for each rule that fires. */
  lemma CheckLength(e1: Event, e2: Event)
    ensures var n := |CheckEventConflicts(e1, e2)|; n == 0 || n == 2 || n == 4 || n == 6
  {
    CheckUnfold(e1, e2);
  }

  lemma RulePairMembers(e1: Event, e2: Event, t: ConflictType, c: ConflictInfo)
    ensures c in RulePair(e1, e2, t)
        <==> RuleFires(t, e1, e2) && (c == Record(e1, e2, t) || c == Record(e2, e1, t))
  {
  }

  /** The records of an examined pair are exactly the two records of each
      rule that fires, one per side, each holding its own event's value. */
  lemma CheckMembers(e1: Event, e2: Event, c: ConflictInfo)
    ensures c in CheckEventConflicts(e1, e2)
        <==> Examined(e1, e2) && RuleFires(c.conflictType, e1, e2)
             && (c == Record(e1, e2, c.conflictType) || c == Record(e2, e1, c.conflictType))
  {
    if Examined(e1, e2) {
      var p0, p1, p2 := RulePair(e1, e2, Sala), RulePair(e1, e2, Professor), RulePair(e1, e2, Semestre);
      assert c in CheckEventConflicts(e1, e2) <==> c in p0 || c in p1 || c in p2 by {
        CheckUnfold(e1, e2);
      }
      RulePairMembers(e1, e2, Sala, c);
      RulePairMembers(e1, e2, Professor, c);
      RulePairMembers(e1, e2, Semestre, c);
      match c.conflictType {
        case Sala => assert c !in p1 && c !in p2;
        case Professor => assert c !in p0 && c !in p2;
        case Semestre => assert c !in p0 && c !in p1;
      }
    }
  }

  /** A pair with records has records on both sides for the rule of its
      first record. */
  lemma CheckBothSides(e1: Event, e2: Event)
    requires CheckEventConflicts(e1, e2) != []
    ensures Record(e1, e2, CheckEventConflicts(e1, e2)[0].conflictType) in CheckEventConflicts(e1, e2)
    ensures Record(e2, e1, CheckEventConflicts(e1, e2)[0].conflictType) in CheckEventConflicts(e1, e2)
  {
    var r := CheckEventConflicts(e1, e2);
    CheckMembers(e1, e2, r[0]);
    CheckMembers(e1, e2, Record(e1, e2, r[0].conflictType));
    CheckMembers(e1, e2, Record(e2, e1, r[0].conflictType));
  }

  /** A conflict type shows up in a pair's records exactly when its rule fires. */
  lemma CheckTypes(e1: Event, e2: Event, t: ConflictType)
    ensures HasType(CheckEventConflicts(e1, e2), t) <==> Examined(e1, e2) && RuleFires(t, e1, e2)
  {
    if HasType(CheckEventConflicts(e1, e2), t) {
      var c :| c in CheckEventConflicts(e1, e2) && c.conflictType == t;
      CheckMembers(e1, e2, c);
    }
    if Examined(e1, e2) && RuleFires(t, e1, e2) {
      CheckMembers(e1, e2, Record(e1, e2, t));
    }
  }

  lemma RankAt(p0: seq<ConflictInfo>, p1: seq<ConflictInfo>, p2: seq<ConflictInfo>, k: nat)
    requires forall c | c in p0 :: c.conflictType == Sala
    requires forall c | c in p1 :: c.conflictType == Professor
    requires forall c | c in p2 :: c.conflictType == Semestre
    requires k < |p0 + p1 + p2|
    ensures Rank((p0 + p1 + p2)[k].conflictType) == if k < |p0| then 0 else if k < |p0| + |p1| then 1 else 2
  {
    if k < |p0| {
      assert (p0 + p1 + p2)[k] == p0[k];
    } else if k < |p0| + |p1| {
      assert (p0 + p1 + p2)[k] == p1[k - |p0|];
    } else {
      assert (p0 + p1 + p2)[k] == p2[k - |p0| - |p1|];
    }
  }

  /** Records come in the fixed rule order room, professor, semester. */
  lemma CheckOrder(e1: Event, e2: Event)
    ensures forall a, b | 0 <= a < b < |CheckEventConflicts(e1, e2)| ::
      Rank(CheckEventConflicts(e1, e2)[a].conflictType) <= Rank(CheckEventConflicts(e1, e2)[b].conflictType)
  {
    var r := CheckEventConflicts(e1, e2);
    if Examined(e1, e2) {
      var p0, p1, p2 := RulePair(e1, e2, Sala), RulePair(e1, e2, Professor), RulePair(e1, e2, Semestre);
      CheckUnfold(e1, e2);
      assert r == p0 + p1 + p2;
      forall a, b | 0 <= a < b < |r| ensures Rank(r[a].conflictType) <= Rank(r[b].conflictType) {
        RankAt(p0, p1, p2, a);
        RankAt(p0, p1, p2, b);
      }
    }
  }

  /** A rule contributes nothing or its two records, `e1`'s first. */
  lemma RulePairShape(e1: Event, e2: Event, t: ConflictType)
    ensures RulePair(e1, e2, t) == [] || RulePair(e1, e2, t) == [Record(e1, e2, t), Record(e2, e1, t)]
  {
  }

  lemma SideAt(e1: Event, e2: Event, p0: seq<ConflictInfo>, p1: seq<ConflictInfo>, p2: seq<ConflictInfo>, k: nat)
    requires p0 == [] || p0 == [Record(e1, e2, Sala), Record(e2, e1, Sala)]
    requires p1 == [] || p1 == [Record(e1, e2, Professor), Record(e2, e1, Professor)]
    requires p2 == [] || p2 == [Record(e1, e2, Semestre), Record(e2, e1, Semestre)]
    requires k < |p0 + p1 + p2|
    ensures (p0 + p1 + p2)[k] == if k % 2 == 0 then Record(e1, e2, (p0 + p1 + p2)[k].conflictType)
                                 else Record(e2, e1, (p0 + p1 + p2)[k].conflictType)
  {
    if k < |p0| {
      assert (p0 + p1 + p2)[k] == p0[k];
    } else if k < |p0| + |p1| {
      assert (p0 + p1 + p2)[k] == p1[k - |p0|];
    } else {
      assert (p0 + p1 + p2)[k] == p2[k - |p0| - |p1|];
    }
  }

  /** Within each rule, the record at an even position is `e1`'s, pointing
      at `e2`, and the one after it is `e2`'s, pointing at `e1`. */
  lemma CheckSides(e1: Event, e2: Event)
    ensures forall k | 0 <= k < |CheckEventConflicts(e1, e2)| ::
      var c := CheckEventConflicts(e1, e2)[k];
      c == if k % 2 == 0 then Record(e1, e2, c.conflictType) else Record(e2, e1, c.conflictType)
  {
    if Examined(e1, e2) {
      var p0, p1, p2 := RulePair(e1, e2, Sala), RulePair(e1, e2, Professor), RulePair(e1, e2, Semestre);
      CheckUnfold(e1, e2);
      assert CheckEventConflicts(e1, e2) == p0 + p1 + p2;
      RulePairShape(e1, e2, Sala);
      RulePairShape(e1, e2, Professor);
      RulePairShape(e1, e2, Semestre);
      forall k | 0 <= k < |p0 + p1 + p2| {
        SideAt(e1, e2, p0, p1, p2, k);
      }
    }
  }

  /** Every record of a pair names the two events of that pair, one as its
      owner and the other as the counterpart, and has a mirror record with
      the roles swapped and the same rule. */
  lemma CheckRecords(e1: Event, e2: Event, c: ConflictInfo)
    requires c in CheckEventConflicts(e1, e2)
    ensures (c.eventId == e1.id && c.conflictWith == e2.id) || (c.eventId == e2.id && c.conflictWith == e1.id)
    ensures exists c' | c' in CheckEventConflicts(e1, e2) ::
      c'.eventId == c.conflictWith && c'.conflictWith == c.eventId && c'.conflictType == c.conflictType
  {
    CheckMembers(e1, e2, c);
    var t := c.conflictType;
    var c' := if c == Record(e1, e2, t) then Record(e2, e1, t) else Record(e1, e2, t);
    CheckMembers(e1, e2, c');
  }

  /** Swapping the two events of a pair yields the same records. */
  lemma CheckMirror(e1: Event, e2: Event)
    ensures multiset(CheckEventConflicts(e2, e1)) == multiset(CheckEventConflicts(e1, e2))
  {
    assert Examined(e1, e2) == Examined(e2, e1);
    CheckUnfold(e1, e2);
    CheckUnfold(e2, e1);
    if Examined(e1, e2) {
      forall t ensures multiset(RulePair(e2, e1, t)) == multiset(RulePair(e1, e2, t)) {
        assert RuleFires(t, e1, e2) == RuleFires(t, e2, e1);
      }
    }
  }

  // ---------------------------------------------------------------------
  // The conflict index
  // ---------------------------------------------------------------------

  /** `getEventConflicts`: `conflictDetails.get(id) || []`. */
  function GetEventConflicts(id: string, d: ConflictData): seq<ConflictInfo> {
    if id in d.conflictDetails then d.conflictDetails[id] else []
  }

  /** `hasConflicts` */
  predicate HasConflicts(id: string, d: ConflictData) {
    id in d.conflictIds
  }

  /** Storing one record, as `detectConflicts` does: its owner becomes a
      conflicted id and the record is appended to the owner's list. */
  function Store(d: ConflictData, c: ConflictInfo): ConflictData {
    ConflictData(
      d.conflictIds + {c.eventId},
      d.conflictDetails[c.eventId := GetEventConflicts(c.eventId, d) + [c]],
      if c.eventId in d.conflictDetails then d.detailOrder else d.detailOrder + [c.eventId])
  }

  function StoreAll(d: ConflictData, cs: seq<ConflictInfo>): ConflictData
    decreases |cs|
  {
    if cs == [] then d else StoreAll(Store(d, cs[0]), cs[1..])
  }

  /** A check applied to one pair of events. */
  type PairCheck = (Event, Event) -> seq<ConflictInfo>

  /** The records `check` gives pairs (i, j), (i, j + 1), ..., (i, n - 1). */
  function RowRecords(check: PairCheck, events: seq<Event>, i: nat, j: nat): seq<ConflictInfo>
    requires i < j <= |events|
    decreases |events| - j
  {
    if j == |events| then []
    else check(events[i], events[j]) + RowRecords(check, events, i, j + 1)
  }

  /** The records `check` gives all pairs whose first index is at least i. */
  function RecordsFrom(check: PairCheck, events: seq<Event>, i: nat): seq<ConflictInfo>
    requires i <= |events|
    decreases |events| - i
  {
    if i == |events| then []
    else RowRecords(check, events, i, i + 1) + RecordsFrom(check, events, i + 1)
  }

  /** Every record, in the order the pairs i < j are scanned. */
  function AllRecords(events: seq<Event>): seq<ConflictInfo> {
    RecordsFrom(CheckEventConflicts, events, 0)
  }

  /** The index `detectConflicts` builds. */
  function Detect(events: seq<Event>): ConflictData {
    StoreAll(NoConflicts, AllRecords(events))
  }

  function EventIds(cs: seq<ConflictInfo>): set<string> {
    set c | c in cs :: c.eventId
  }

  /** The records of `cs` owned by `id`, in order. */
  function RecordsOf(cs: seq<ConflictInfo>, id: string): seq<ConflictInfo> {
    if cs == [] then []
    else (if cs[0].eventId == id then [cs[0]] else []) + RecordsOf(cs[1..], id)
  }

  /** `RecordsOf` keeps exactly the records owned by `id`. */
  lemma {:induction false} RecordsOfMembers(cs: seq<ConflictInfo>, id: string)
    ensures forall c :: c in RecordsOf(cs, id) <==> c in cs && c.eventId == id
  {
    if cs != [] {
      RecordsOfMembers(cs[1..], id);
      forall c ensures c in cs <==> c == cs[0] || c in cs[1..] {
        assert cs == [cs[0]] + cs[1..];
      }
    }
  }

  lemma {:induction false} StoreAllAppend(d: ConflictData, a: seq<ConflictInfo>, b: seq<ConflictInfo>)
    ensures StoreAll(d, a + b) == StoreAll(StoreAll(d, a), b)
    decreases |a|
  {
    if a != [] {
      assert (a + b)[0] == a[0] && (a + b)[1..] == a[1..] + b;
      StoreAllAppend(Store(d, a[0]), a[1..], b);
    } else {
      assert a + b == b;
    }
  }

  lemma {:induction false} StoreAllIdsShift(d: ConflictData, s: set<string>, cs: seq<ConflictInfo>)
    ensures StoreAll(d.(conflictIds := d.conflictIds + s), cs)
         == StoreAll(d, cs).(conflictIds := StoreAll(d, cs).conflictIds + s)
    decreases |cs|
  {
    if cs != [] {
      assert Store(d.(conflictIds := d.conflictIds + s), cs[0])
          == Store(d, cs[0]).(conflictIds := Store(d, cs[0]).conflictIds + s);
      StoreAllIdsShift(Store(d, cs[0]), s, cs[1..]);
    }
  }

  lemma {:induction false} StoreAllIds(d: ConflictData, cs: seq<ConflictInfo>)
    ensures StoreAll(d, cs).conflictIds == d.conflictIds + EventIds(cs)
    decreases |cs|
  {
    if cs != [] {
      StoreAllIds(Store(d, cs[0]), cs[1..]);
      assert EventIds(cs) == {cs[0].eventId} + EventIds(cs[1..]) by {
        assert forall c :: c in cs <==> c == cs[0] || c in cs[1..];
      }
    }
  }

  /** Ids of records still to be stored can be added ahead of time. */
  lemma AbsorbIds(d: ConflictData, s: set<string>, cs: seq<ConflictInfo>)
    requires s <= EventIds(cs)
    ensures StoreAll(d.(conflictIds := d.conflictIds + s), cs) == StoreAll(d, cs)
  {
    StoreAllIdsShift(d, s, cs);
    StoreAllIds(d, cs);
  }

  // ---------------------------------------------------------------------
  // detectConflicts
  // ---------------------------------------------------------------------

  /** The two ids of a pair with records are the owners of those records,
      so marking them conflicted ahead of storing the records changes nothing. */
  lemma PairIdsAbsorbed(d: ConflictData, e1: Event, e2: Event)
    requires CheckEventConflicts(e1, e2) != []
    ensures forall c | c in CheckEventConflicts(e1, e2) :: c.eventId in {e1.id, e2.id}
    ensures StoreAll(d.(conflictIds := d.conflictIds + {e1.id, e2.id}), CheckEventConflicts(e1, e2))
         == StoreAll(d, CheckEventConflicts(e1, e2))
  {
    var conflicts := CheckEventConflicts(e1, e2);
    forall c | c in conflicts ensures c.eventId in {e1.id, e2.id} {
      CheckRecords(e1, e2, c);
    }
    CheckBothSides(e1, e2);
    assert Record(e1, e2, conflicts[0].conflictType) in conflicts;
    assert Record(e2, e1, conflicts[0].conflictType) in conflicts;
    AbsorbIds(d, {e1.id, e2.id}, conflicts);
  }

  /** The `conflicts.forEach` of `detectConflicts`: append each
      record to its owner's list, its owner already being a conflicted id. */
  method StoreConflicts(conflictIds: set<string>, details: map<string, seq<ConflictInfo>>,
                        order: seq<string>, conflicts: seq<ConflictInfo>)
    returns (details': map<string, seq<ConflictInfo>>, order': seq<string>)
    requires forall c | c in conflicts :: c.eventId in conflictIds
    ensures ConflictData(conflictIds, details', order')
         == StoreAll(ConflictData(conflictIds, details, order), conflicts)
  {
    details', order' := details, order;
    var k := 0;
    assert conflicts[0..] == conflicts;
    while k < |conflicts|
      invariant 0 <= k <= |conflicts|
      invariant StoreAll(ConflictData(conflictIds, details', order'), conflicts[k..])
             == StoreAll(ConflictData(conflictIds, details, order), conflicts)
    {
      var conflict := conflicts[k];
      ghost var now := ConflictData(conflictIds, details', order');
      assert conflicts[k..][0] == conflict && conflicts[k..][1..] == conflicts[k + 1..];
      assert conflictIds + {conflict.eventId} == conflictIds;
      var existing := if conflict.eventId in details' then details'[conflict.eventId] else [];
      existing := existing + [conflict];
      if conflict.eventId !in details' {
        order' := order' + [conflict.eventId];
      }
      details' := details'[conflict.eventId := existing];
      assert ConflictData(conflictIds, details', order') == Store(now, conflict);
      k := k + 1;
    }
    assert conflicts[k..] == [];
  }

  /** The body of the inner loop of `detectConflicts`: when
      the pair has conflicts, mark both ids and store every record. */
  method RecordPair(data: ConflictData, event1: Event, event2: Event, conflicts: seq<ConflictInfo>)
    returns (data': ConflictData)
    requires conflicts == CheckEventConflicts(event1, event2)
    ensures data' == StoreAll(data, conflicts)
  {
    if |conflicts| > 0 {
      PairIdsAbsorbed(data, event1, event2);
      var conflictIds := data.conflictIds;
      if event1.id != "" {
        conflictIds := conflictIds + {event1.id};
      }
      if event2.id != "" {
        conflictIds := conflictIds + {event2.id};
      }
      assert conflictIds == data.conflictIds + {event1.id, event2.id};
      var conflictDetails, order := StoreConflicts(conflictIds, data.conflictDetails, data.detailOrder, conflicts);
      data' := ConflictData(conflictIds, conflictDetails, order);
    } else {
      data' := data;
    }
  }

  /** Storing the records of pairs (i, j), (i, j + 1), ..., (i, n - 1),
      one pair after the other. */
  ghost function RowStored(d: ConflictData, events: seq<Event>, i: nat, j: nat): ConflictData
    requires i < j <= |events|
    decreases |events| - j
  {
    if j == |events| then d
    else RowStored(StoreAll(d, CheckEventConflicts(events[i], events[j])), events, i, j + 1)
  }

  /** Storing a row pair by pair stores the row's records in scan order. */
  lemma {:induction false} RowStoredAll(d: ConflictData, events: seq<Event>, i: nat, j: nat)
    requires i < j <= |events|
    ensures RowStored(d, events, i, j) == StoreAll(d, RowRecords(CheckEventConflicts, events, i, j))
    decreases |events| - j
  {
    if j < |events| {
      var here := CheckEventConflicts(events[i], events[j]);
      RowStoredAll(StoreAll(d, here), events, i, j + 1);
      StoreAllAppend(d, here, RowRecords(CheckEventConflicts, events, i, j + 1));
    }
  }

  /** One turn of the inner loop of `detectConflicts`: check
      pair (i, j) and record its conflicts. */
  method ScanPair(events: seq<Event>, i: nat, j: nat, data: ConflictData) returns (data': ConflictData)
    requires i < j < |events|
    ensures data' == StoreAll(data, CheckEventConflicts(events[i], events[j]))
  {
    var event1 := events[i];
    var event2 := events[j];
    var conflicts := CheckEventConflicts(event1, event2);
    data' := RecordPair(data, event1, event2, conflicts);
  }

  /** The inner loop of `detectConflicts`: pair event i with
      every later event and record the conflicts of each pair. */
  method ScanRow(events: seq<Event>, i: nat, data: ConflictData) returns (data': ConflictData)
    requires i < |events|
    ensures data' == StoreAll(data, RowRecords(CheckEventConflicts, events, i, i + 1))
  {
    data' := data;
    for j := i + 1 to |events|
      invariant RowStored(data', events, i, j) == RowStored(data, events, i, i + 1)
    {
      data' := ScanPair(events, i, j, data');
    }
    RowStoredAll(data, events, i, i + 1);
  }

  /** Storing the rows i, i + 1, ..., n - 1, one row after the other. */
  ghost function RowsStored(d: ConflictData, events: seq<Event>, i: nat): ConflictData
    requires i <= |events|
    decreases |events| - i
  {
    if i == |events| then d
    else RowsStored(StoreAll(d, RowRecords(CheckEventConflicts, events, i, i + 1)), events, i + 1)
  }

  /** Storing the rows one after the other stores their records in scan
      order. */
  lemma {:induction false} RowsStoredAll(d: ConflictData, events: seq<Event>, i: nat)
    requires i <= |events|
    ensures RowsStored(d, events, i) == StoreAll(d, RecordsFrom(CheckEventConflicts, events, i))
    decreases |events| - i
  {
    if i < |events| {
      var row := RowRecords(CheckEventConflicts, events, i, i + 1);
      RowsStoredAll(StoreAll(d, row), events, i + 1);
      StoreAllAppend(d, row, RecordsFrom(CheckEventConflicts, events, i + 1));
    }
  }

  /** `detectConflicts`: scan every pair i < j, record its conflicts. */
  method DetectConflicts(events: seq<Event>) returns (data: ConflictData)
    ensures data == Detect(events)
  {
    data := NoConflicts;
    var i := 0;
    while i < |events|
      invariant 0 <= i <= |events|
      invariant RowsStored(data, events, i) == RowsStored(NoConflicts, events, 0)
    {
      data := ScanRow(events, i, data);
      i := i + 1;
    }
    RowsStoredAll(NoConflicts, events, 0);
  }

  // ---------------------------------------------------------------------
  // What the index contains
  // ---------------------------------------------------------------------

  /** The shape every index built by storing records keeps. */
  ghost predicate WellFormed(d: ConflictData) {
    && d.conflictIds == d.conflictDetails.Keys
    && Seqs.Distinct(d.detailOrder)
    && (forall k :: k in d.detailOrder <==> k in d.conflictDetails)
    && (forall k | k in d.conflictDetails :: d.conflictDetails[k] != [])
  }

  lemma {:induction false} StoreAllWellFormed(d: ConflictData, cs: seq<ConflictInfo>)
    requires WellFormed(d)
    ensures WellFormed(StoreAll(d, cs))
    decreases |cs|
  {
    if cs != [] {
      var d' := Store(d, cs[0]);
      assert WellFormed(d');
      StoreAllWellFormed(d', cs[1..]);
    }
  }

  lemma StoreDetails(d: ConflictData, c: ConflictInfo, id: string)
    ensures GetEventConflicts(id, Store(d, c)) == GetEventConflicts(id, d) + (if c.eventId == id then [c] else [])
  {
  }

  lemma {:induction false} StoreAllDetails(d: ConflictData, cs: seq<ConflictInfo>, id: string)
    ensures GetEventConflicts(id, StoreAll(d, cs)) == GetEventConflicts(id, d) + RecordsOf(cs, id)
    decreases |cs|
  {
    if cs != [] {
      var d' := Store(d, cs[0]);
      var head := if cs[0].eventId == id then [cs[0]] else [];
      assert StoreAll(d, cs) == StoreAll(d', cs[1..]);
      StoreDetails(d, cs[0], id);
      StoreAllDetails(d', cs[1..], id);
      assert RecordsOf(cs, id) == head + RecordsOf(cs[1..], id);
      Seqs.AppendAssoc(GetEventConflicts(id, d), head, RecordsOf(cs[1..], id));
    }
  }

  lemma {:induction false} RowRecordsOrigin(check: PairCheck, events: seq<Event>, i: nat, j: nat, c: ConflictInfo)
    requires i < j <= |events|
    ensures c in RowRecords(check, events, i, j)
        <==> exists m | j <= m < |events| :: c in check(events[i], events[m])
    decreases |events| - j
  {
    if j < |events| {
      var here := check(events[i], events[j]);
      var rest := RowRecords(check, events, i, j + 1);
      assert RowRecords(check, events, i, j) == here + rest;
      RowRecordsOrigin(check, events, i, j + 1, c);
      if c in here {
        assert j <= j < |events| && c in check(events[i], events[j]);
      }
      if exists m | j <= m < |events| :: c in check(events[i], events[m]) {
        var m :| j <= m < |events| && c in check(events[i], events[m]);
        assert m == j || j + 1 <= m < |events|;
      }
    }
  }

  lemma {:induction false} RecordsFromOrigin(check: PairCheck, events: seq<Event>, i: nat, c: ConflictInfo)
    requires i <= |events|
    ensures c in RecordsFrom(check, events, i)
        <==> exists a, b | i <= a < b < |events| :: c in check(events[a], events[b])
    decreases |events| - i
  {
    if i < |events| {
      RecordsFromOrigin(check, events, i + 1, c);
      RowRecordsOrigin(check, events, i, i + 1, c);
    }
  }

  /** Only pairs i < j are examined, and every record of such a pair is kept. */
  lemma RecordOrigin(events: seq<Event>, c: ConflictInfo)
    ensures c in AllRecords(events)
        <==> exists i, j | 0 <= i < j < |events| :: c in CheckEventConflicts(events[i], events[j])
  {
    RecordsFromOrigin(CheckEventConflicts, events, 0, c);
  }

  /** `conflictIds` is exactly the key set of `conflictDetails`, every list in
      it is non-empty, and each event's list holds its records in the order
      the pairs were scanned. */
  lemma DetectIndex(events: seq<Event>, id: string)
    ensures Detect(events).conflictIds == Detect(events).conflictDetails.Keys
    ensures WellFormed(Detect(events))
    ensures GetEventConflicts(id, Detect(events)) == RecordsOf(AllRecords(events), id)
    ensures forall c :: c in GetEventConflicts(id, Detect(events)) <==> c in AllRecords(events) && c.eventId == id
  {
    assert WellFormed(NoConflicts);
    StoreAllWellFormed(NoConflicts, AllRecords(events));
    StoreAllDetails(NoConflicts, AllRecords(events), id);
    RecordsOfMembers(AllRecords(events), id);
  }

  /** An id is conflicted exactly when it belongs to a scanned pair that
      produced at least one record. */
  lemma ConflictIdsExact(events: seq<Event>, id: string)
    ensures HasConflicts(id, Detect(events))
        <==> exists i, j | 0 <= i < j < |events| ::
               CheckEventConflicts(events[i], events[j]) != []
               && (events[i].id == id || events[j].id == id)
  {
    StoreAllIds(NoConflicts, AllRecords(events));
    var all := AllRecords(events);
    if HasConflicts(id, Detect(events)) {
      var c :| c in all && c.eventId == id;
      RecordOrigin(events, c);
      var i, j :| 0 <= i < j < |events| && c in CheckEventConflicts(events[i], events[j]);
      CheckRecords(events[i], events[j], c);
    }
    if exists i, j | 0 <= i < j < |events| ::
         CheckEventConflicts(events[i], events[j]) != [] && (events[i].id == id || events[j].id == id) {
      var i, j :| 0 <= i < j < |events|
        && CheckEventConflicts(events[i], events[j]) != [] && (events[i].id == id || events[j].id == id);
      var r := CheckEventConflicts(events[i], events[j]);
      CheckBothSides(events[i], events[j]);
      var c := if events[i].id == id then Record(events[i], events[j], r[0].conflictType)
               else Record(events[j], events[i], r[0].conflictType);
      RecordOrigin(events, c);
    }
  }

  /** `hasConflicts(id)` holds exactly when `getEventConflicts(id)` is
      non-empty. */
  lemma HasConflictsIffRecords(events: seq<Event>, id: string)
    ensures HasConflicts(id, Detect(events)) <==> GetEventConflicts(id, Detect(events)) != []
  {
    DetectIndex(events, id);
  }

  predicate DistinctIds(events: seq<Event>) {
    forall i, j | 0 <= i < j < |events| :: events[i].id != events[j].id
  }

  /** With pairwise distinct ids no event is recorded as clashing with
      itself. */
  lemma NoSelfConflict(events: seq<Event>, id: string)
    requires DistinctIds(events)
    ensures forall c | c in GetEventConflicts(id, Detect(events)) ::
      c.eventId == id && c.conflictWith != id
  {
    DetectIndex(events, id);
    forall c | c in GetEventConflicts(id, Detect(events))
      ensures c.eventId == id && c.conflictWith != id
    {
      RecordOrigin(events, c);
      var i, j :| 0 <= i < j < |events| && c in CheckEventConflicts(events[i], events[j]);
      CheckRecords(events[i], events[j], c);
    }
  }

  /** Conflicts are never one-sided: a record of `a` against `b` has a
      mirror record of `b` against `a` for the same rule. */
  lemma ConflictMirrored(events: seq<Event>, a: string, c: ConflictInfo)
    requires c in GetEventConflicts(a, Detect(events))
    ensures exists c' | c' in GetEventConflicts(c.conflictWith, Detect(events)) ::
      c'.conflictWith == a && c'.conflictType == c.conflictType
  {
    DetectIndex(events, a);
    DetectIndex(events, c.conflictWith);
    RecordOrigin(events, c);
    var i, j :| 0 <= i < j < |events| && c in CheckEventConflicts(events[i], events[j]);
    CheckRecords(events[i], events[j], c);
    var c' :| c' in CheckEventConflicts(events[i], events[j])
      && c'.eventId == c.conflictWith && c'.conflictWith == c.eventId && c'.conflictType == c.conflictType;
    RecordOrigin(events, c');
  }

  // ---------------------------------------------------------------------
  // createConflictSummary
  // ---------------------------------------------------------------------

  /** The records of the listed keys' entries, key after key. */
  function RecordsInOrder(d: ConflictData, keys: seq<string>): seq<ConflictInfo> {
    if keys == [] then []
    else RecordsInOrder(d, keys[..|keys| - 1]) + GetEventConflicts(keys[|keys| - 1], d)
  }

  /** The records in `conflictDetails.forEach` order. */
  function OrderedRecords(d: ConflictData): seq<ConflictInfo> {
    RecordsInOrder(d, d.detailOrder)
  }

  /** The `conflictValue`s of the records of type `t`, in order. */
  function ValuesOf(t: ConflictType, cs: seq<ConflictInfo>): seq<string> {
    if cs == [] then []
    else
      var last := cs[|cs| - 1];
      ValuesOf(t, cs[..|cs| - 1]) + (if last.conflictType == t then [last.conflictValue] else [])
  }

  lemma ValuesOfMembers(t: ConflictType, cs: seq<ConflictInfo>, v: string)
    ensures v in ValuesOf(t, cs) <==> exists c | c in cs :: c.conflictType == t && c.conflictValue == v
  {
    if cs != [] {
      ValuesOfMembers(t, cs[..|cs| - 1], v);
      assert cs == cs[..|cs| - 1] + [cs[|cs| - 1]];
    }
  }

  /** The distinct values of type `t` over `recs`, in first-seen order:
      the contents of one `Set` built by `createConflictSummary`. */
  function Collected(t: ConflictType, recs: seq<ConflictInfo>): seq<string> {
    Seqs.Dedup(ValuesOf(t, recs))
  }

  /** The summary `createConflictSummary` returns. */
  function SummaryOf(d: ConflictData): ConflictSummary {
    var recs := OrderedRecords(d);
    ConflictSummary(Collected(Sala, recs), Collected(Professor, recs), Collected(Semestre, recs),
                    |d.conflictIds|)
  }

  /** Adding a value to a JavaScript `Set` kept as its insertion-ordered
      element list. */
  function SetAdd(s: seq<string>, v: string): seq<string> {
    if v in s then s else s + [v]
  }

  lemma CollectedSnoc(t: ConflictType, cs: seq<ConflictInfo>, c: ConflictInfo)
    ensures Collected(t, cs + [c])
         == if c.conflictType == t then SetAdd(Collected(t, cs), c.conflictValue) else Collected(t, cs)
  {
    assert (cs + [c])[..|cs|] == cs;
    var vs := ValuesOf(t, cs);
    if c.conflictType == t {
      assert (vs + [c.conflictValue])[..|vs|] == vs;
    } else {
      assert vs + [] == vs;
    }
  }

  /** The inner `conflicts.forEach` of `createConflictSummary` (lines
      158-160): add each record's value to the set of its type. */
  method CollectValues(sala: seq<string>, professor: seq<string>, semestre: seq<string>,
                       conflicts: seq<ConflictInfo>, ghost done: seq<ConflictInfo>)
    returns (sala': seq<string>, professor': seq<string>, semestre': seq<string>)
    requires sala == Collected(Sala, done)
    requires professor == Collected(Professor, done)
    requires semestre == Collected(Semestre, done)
    ensures sala' == Collected(Sala, done + conflicts)
    ensures professor' == Collected(Professor, done + conflicts)
    ensures semestre' == Collected(Semestre, done + conflicts)
  {
    sala', professor', semestre' := sala, professor, semestre;
    var b := 0;
    assert done + conflicts[..0] == done;
    while b < |conflicts|
      invariant 0 <= b <= |conflicts|
      invariant sala' == Collected(Sala, done + conflicts[..b])
      invariant professor' == Collected(Professor, done + conflicts[..b])
      invariant semestre' == Collected(Semestre, done + conflicts[..b])
    {
      var conflict := conflicts[b];
      CollectStep(Sala, done, conflicts, b);
      CollectStep(Professor, done, conflicts, b);
      CollectStep(Semestre, done, conflicts, b);
      match conflict.conflictType {
        case Sala => sala' := SetAdd(sala', conflict.conflictValue);
        case Professor => professor' := SetAdd(professor', conflict.conflictValue);
        case Semestre => semestre' := SetAdd(semestre', conflict.conflictValue);
      }
      b := b + 1;
    }
    assert conflicts[..b] == conflicts;
  }

  lemma CollectStep(t: ConflictType, done: seq<ConflictInfo>, conflicts: seq<ConflictInfo>, b: nat)
    requires b < |conflicts|
    ensures Collected(t, done + conflicts[..b + 1])
         == if conflicts[b].conflictType == t then SetAdd(Collected(t, done + conflicts[..b]), conflicts[b].conflictValue)
            else Collected(t, done + conflicts[..b])
  {
    Seqs.PrefixSnoc(conflicts, b);
    assert done + conflicts[..b + 1] == (done + conflicts[..b]) + [conflicts[b]];
    CollectedSnoc(t, done + conflicts[..b], conflicts[b]);
  }

  lemma RecordsInOrderStep(d: ConflictData, a: nat)
    requires a < |d.detailOrder|
    ensures RecordsInOrder(d, d.detailOrder[..a + 1])
         == RecordsInOrder(d, d.detailOrder[..a]) + GetEventConflicts(d.detailOrder[a], d)
  {
    assert d.detailOrder[..a + 1][..a] == d.detailOrder[..a];
  }

  /** `createConflictSummary`: collect each type's values into a set while
      iterating the map, and count the conflicted ids. */
  method CreateConflictSummary(d: ConflictData) returns (s: ConflictSummary)
    ensures s == SummaryOf(d)
  {
    var sala: seq<string> := [];
    var professor: seq<string> := [];
    var semestre: seq<string> := [];
    var a := 0;
    while a < |d.detailOrder|
      invariant 0 <= a <= |d.detailOrder|
      invariant sala == Collected(Sala, RecordsInOrder(d, d.detailOrder[..a]))
      invariant professor == Collected(Professor, RecordsInOrder(d, d.detailOrder[..a]))
      invariant semestre == Collected(Semestre, RecordsInOrder(d, d.detailOrder[..a]))
    {
      var conflicts := GetEventConflicts(d.detailOrder[a], d);
      RecordsInOrderStep(d, a);
      sala, professor, semestre :=
        CollectValues(sala, professor, semestre, conflicts, RecordsInOrder(d, d.detailOrder[..a]));
      a := a + 1;
    }
    assert d.detailOrder[..a] == d.detailOrder;
    s := ConflictSummary(sala, professor, semestre, |d.conflictIds|);
  }

  lemma RecordsInOrderMembers(d: ConflictData, keys: seq<string>, c: ConflictInfo)
    ensures c in RecordsInOrder(d, keys) <==> exists k | k in keys :: c in GetEventConflicts(k, d)
  {
    if keys != [] {
      RecordsInOrderMembers(d, keys[..|keys| - 1], c);
      assert keys == keys[..|keys| - 1] + [keys[|keys| - 1]];
    }
  }

  /** For the index of a list of events: `total` counts the conflicted ids,
      not the records, and each of the three arrays is duplicate-free and
      holds exactly the `conflictValue`s of that type over all records. */
  lemma SummaryOfDetect(events: seq<Event>, t: ConflictType, v: string)
    ensures SummaryOf(Detect(events)).total == |EventIds(AllRecords(events))|
    ensures Seqs.Distinct(SummaryOf(Detect(events)).sala)
         && Seqs.Distinct(SummaryOf(Detect(events)).professor)
         && Seqs.Distinct(SummaryOf(Detect(events)).semestre)
    ensures v in Collected(t, OrderedRecords(Detect(events)))
        <==> exists c | c in AllRecords(events) :: c.conflictType == t && c.conflictValue == v
  {
    var d := Detect(events);
    var all := AllRecords(events);
    StoreAllIds(NoConflicts, all);
    ValuesOfMembers(t, OrderedRecords(d), v);
    forall c ensures c in OrderedRecords(d) <==> c in all {
      RecordsInOrderMembers(d, d.detailOrder, c);
      DetectIndex(events, c.eventId);
      if c in OrderedRecords(d) {
        var k :| k in d.detailOrder && c in GetEventConflicts(k, d);
        DetectIndex(events, k);
      }
    }
  }

  // ---------------------------------------------------------------------
  // getConflictDescription, getConflictingEvents, suggestResolution
  // ---------------------------------------------------------------------

  /** The conflict types present in a record list, in the fixed order room,
      professor, semester. */
  function TypesPresent(infos: seq<ConflictInfo>): (r: seq<ConflictType>)
    ensures forall t :: t in r <==> HasType(infos, t)
    ensures forall a, b | 0 <= a < b < |r| :: Rank(r[a]) < Rank(r[b])
  {
    Only(HasType(infos, Sala), Sala) + Only(HasType(infos, Professor), Professor)
    + Only(HasType(infos, Semestre), Semestre)
  }

  /** The clause describing one conflict type. */
  function Clause(t: ConflictType, infos: seq<ConflictInfo>): (r: string)
    ensures r != ""
  {
    var values := Join(Collected(t, infos), ", ");
    match t
    case Sala => "Sala " + values + " ocupada"
    case Professor => "Prof. " + values + " em conflito"
    case Semestre => "Semestre " + values + " sobreposto"
  }

  /** `getConflictDescription`: "" for no records; otherwise one clause per
      type present, joined by " • ". */
  function GetConflictDescription(infos: seq<ConflictInfo>): (r: string)
    ensures r == "" <==> infos == []
  {
    if infos == [] then ""
    else
      var types := TypesPresent(infos);
      assert HasType(infos, infos[0].conflictType);
      var clauses := seq(|types|, i requires 0 <= i < |types| => Clause(types[i], infos));
      assert clauses[0] != "";
      Join(clauses, " \U{2022} ")
  }

  /** `getConflictingEvents`: the events, in their order, whose id is the
      counterpart of one of the given event's records; ids with no event are
      dropped. */
  function GetConflictingEvents(id: string, events: seq<Event>, d: ConflictData): (r: seq<Event>)
    ensures Seqs.IsSubsequence(r, events)
    ensures forall e :: e in r <==>
      e in events && e.id != "" && exists c | c in GetEventConflicts(id, d) :: c.conflictWith == e.id
    ensures forall e :: (multiset(r)[e]
      == if e.id != "" && exists c | c in GetEventConflicts(id, d) :: c.conflictWith == e.id then multiset(events)[e] else 0)
  {
    var conflictingIds := set c | c in GetEventConflicts(id, d) :: c.conflictWith;
    Seqs.FilterCounts(events, (e: Event) => e.id != "" && e.id in conflictingIds);
    Seqs.Filter(events, (e: Event) => e.id != "" && e.id in conflictingIds)
  }

  /** With distinct ids, every event returned for the event `x` overlaps `x`
      and is a different event. */
  lemma ConflictingEventsOverlap(events: seq<Event>, x: Event, e: Event)
    requires DistinctIds(events) && x in events
    requires e in GetConflictingEvents(x.id, events, Detect(events))
    ensures e != x && e.id != x.id && HasTimeOverlap(x, e)
  {
    var c :| c in GetEventConflicts(x.id, Detect(events)) && c.conflictWith == e.id;
    NoSelfConflict(events, x.id);
    DetectIndex(events, x.id);
    RecordOrigin(events, c);
    var i, j :| 0 <= i < j < |events| && c in CheckEventConflicts(events[i], events[j]);
    CheckRecords(events[i], events[j], c);
    var ix :| 0 <= ix < |events| && events[ix] == x;
    var ie :| 0 <= ie < |events| && events[ie] == e;
    if c.eventId == events[i].id {
      assert ix == i && ie == j;
    } else {
      assert ix == j && ie == i;
    }
  }

  /** The fixed suggestion lines of `suggestResolution`. */
  datatype Suggestion =
    | ChangeRoom | OtherRooms
    | ChangeProfessorTime | OtherProfessor
    | ChangeCourseTime | OtherSemesters

  /** The text of each suggestion line. */
  function SuggestionText(s: Suggestion): string {
    match s
    case ChangeRoom => "\U{2022} Alterar a sala de uma das aulas"
    case OtherRooms => "\U{2022} Verificar disponibilidade de outras salas no mesmo hor\U{E1}rio"
    case ChangeProfessorTime => "\U{2022} Alterar o hor\U{E1}rio de uma das aulas do professor"
    case OtherProfessor => "\U{2022} Verificar se outro professor pode assumir uma das aulas"
    case ChangeCourseTime => "\U{2022} Alterar o hor\U{E1}rio de uma das disciplinas"
    case OtherSemesters => "\U{2022} Verificar se as disciplinas podem ser oferecidas em semestres diferentes"
  }

  function SuggestionsFor(t: ConflictType): seq<Suggestion> {
    match t
    case Sala => [ChangeRoom, OtherRooms]
    case Professor => [ChangeProfessorTime, OtherProfessor]
    case Semestre => [ChangeCourseTime, OtherSemesters]
  }

  /** The suggestion lines of the listed types, type after type. */
  function LinesFor(types: seq<ConflictType>): seq<Suggestion> {
    if types == [] then [] else SuggestionsFor(types[0]) + LinesFor(types[1..])
  }

  /** `suggestResolution`: the two fixed lines of each type present, in the
      order room, professor, semester, however many records there are. */
  function SuggestResolution(infos: seq<ConflictInfo>): (r: seq<Suggestion>)
    ensures r == LinesFor(TypesPresent(infos))
    ensures |r| == 2 * |TypesPresent(infos)|
  {
    var sala, professor, semestre := HasType(infos, Sala), HasType(infos, Professor), HasType(infos, Semestre);
    LinesForThree(sala, professor, semestre);
    (if sala then SuggestionsFor(Sala) else [])
    + (if professor then SuggestionsFor(Professor) else [])
    + (if semestre then SuggestionsFor(Semestre) else [])
  }

  function Only(b: bool, t: ConflictType): seq<ConflictType> {
    if b then [t] else []
  }

  lemma LinesForThree(a: bool, b: bool, c: bool)
    ensures LinesFor(Only(a, Sala) + Only(b, Professor) + Only(c, Semestre))
         == (if a then SuggestionsFor(Sala) else [])
            + (if b then SuggestionsFor(Professor) else [])
            + (if c then SuggestionsFor(Semestre) else [])
    ensures |LinesFor(Only(a, Sala) + Only(b, Professor) + Only(c, Semestre))|
         == 2 * |Only(a, Sala) + Only(b, Professor) + Only(c, Semestre)|
  {
    var x, y, z := Only(a, Sala), Only(b, Professor), Only(c, Semestre);
    assert LinesFor(x + y + z) == LinesFor(x) + LinesFor(y) + LinesFor(z) by {
      Seqs.AppendAssoc(x, y, z);
      LinesForAppend(x, y + z);
      LinesForAppend(y, z);
      Seqs.AppendAssoc(LinesFor(x), LinesFor(y), LinesFor(z));
    }
    assert |LinesFor(x + y + z)| == 2 * |x + y + z| by {
      LinesForAppend(x + y + z, []);
    }
    assert LinesFor(x) == if a then SuggestionsFor(Sala) else [];
    assert LinesFor(y) == if b then SuggestionsFor(Professor) else [];
    assert LinesFor(z) == if c then SuggestionsFor(Semestre) else [];
  }

  lemma {:induction false} LinesForAppend(a: seq<ConflictType>, b: seq<ConflictType>)
    ensures LinesFor(a + b) == LinesFor(a) + LinesFor(b)
    ensures |LinesFor(a)| == 2 * |a|
  {
    if a != [] {
      assert (a + b)[1..] == a[1..] + b;
      LinesForAppend(a[1..], b);
    } else {
      assert a + b == b;
    }
  }
}
