/** The pure half of the database layer: the field diff written into the
    history log, and the merge of an update over the stored record that
    the diff is taken against. */
module FirebaseDiff {
  import opened Wrappers

  /** A primitive field value of a stored record; `Null` is `null`. */
  datatype Value = Null | Bool(b: bool) | Number(n: int) | Text(s: string)

  /** A stored record: its own keys and their values. A key that is not in
      the map reads as `undefined`. */
  type Obj = map<string, Value>

  /** `o?.[k]`: `None` is `undefined`. */
  function Lookup(o: Obj, k: string): (r: Option<Value>)
    ensures r.Some? <==> k in o
  {
    if k in o then Some(o[k]) else None
  }

  /** `o?.[k] ?? null` */
  function OrNull(o: Obj, k: string): (r: Value)
    ensures k in o ==> r == o[k]
    ensures k !in o ==> r == Null
  {
    if k in o then o[k] else Null
  }

  /** `{ before, after }` */
  datatype Change = Change(before: Value, after: Value)

  /** `before || {}` */
  function OrEmpty(o: Option<Obj>): (r: Obj)
    ensures o.None? ==> r == map[]
    ensures o.Some? ==> r == o.value
  {
    o.GetOr(map[])
  }

  /** What `diffObjects` returns: every key of either object whose two
      lookups are not strictly equal, with both sides and `null` for a
      missing one. */
  function Diff(before: Obj, after: Obj): (r: map<string, Change>)
    ensures forall k :: k in r <==> (k in before || k in after) && Lookup(before, k) != Lookup(after, k)
    ensures forall k | k in r :: r[k] == Change(OrNull(before, k), OrNull(after, k))
  {
    map k | k in before.Keys + after.Keys && Lookup(before, k) != Lookup(after, k) :: Change(OrNull(before, k), OrNull(after, k))
  }

  /** `diffObjects`: fill `changed` key by key over the union of the two
      objects' keys. Missing objects count as empty. */
  method DiffObjects(before: Option<Obj>, after: Option<Obj>) returns (changed: map<string, Change>)
    ensures changed == Diff(OrEmpty(before), OrEmpty(after))
  {
    var b := OrEmpty(before);
    var a := OrEmpty(after);
    changed := map[];
    var keys := b.Keys + a.Keys;
    var remaining := keys;
    while remaining != {}
      invariant remaining <= keys
      invariant forall k :: k in changed <==> k in keys - remaining && Lookup(b, k) != Lookup(a, k)
      invariant forall k | k in changed :: changed[k] == Change(OrNull(b, k), OrNull(a, k))
      decreases remaining
    {
      var k :| k in remaining;
      if Lookup(b, k) != Lookup(a, k) {
        changed := changed[k := Change(OrNull(b, k), OrNull(a, k))];
      }
      remaining := remaining - {k};
    }
  }

  /** Nothing changes between a record and itself. */
  lemma DiffSelfEmpty(x: Obj)
    ensures Diff(x, x) == map[]
  {
    assert forall k :: k !in Diff(x, x);
  }

  /** Only keys of one of the two objects can appear. */
  lemma DiffKeysInUnion(before: Obj, after: Obj)
    ensures Diff(before, after).Keys <= before.Keys + after.Keys
  {
  }

  /** The diff is the same read in either direction, with its two sides
      swapped. */
  lemma DiffSymmetric(before: Obj, after: Obj)
    ensures Diff(after, before).Keys == Diff(before, after).Keys
    ensures forall k | k in Diff(before, after) ::
      Diff(after, before)[k] == Change(Diff(before, after)[k].after, Diff(before, after)[k].before)
  {
  }

  /** A key stored as `null` on one side and missing on the other is
      reported, although both of its sides read `null`. */
  lemma NullAndMissingDiffer()
    ensures Diff(map["room" := Null], map[]) == map["room" := Change(Null, Null)]
  {
    var d := Diff(map["room" := Null], map[]);
    assert "room" in d;
    assert forall k | k in d :: k == "room";
  }

  // ---------------------------------------------------------------------
  // updateTimetableEvent
  // ---------------------------------------------------------------------

  /** `{ ...beforeVal, ...updatedData }`: the update wins on shared keys. */
  function Merge(beforeVal: Obj, updatedData: Obj): (r: Obj)
    ensures r.Keys == beforeVal.Keys + updatedData.Keys
    ensures forall k | k in updatedData :: r[k] == updatedData[k]
    ensures forall k | k in beforeVal && k !in updatedData :: r[k] == beforeVal[k]
  {
    beforeVal + updatedData
  }

  /** The diff of an update names exactly the updated keys whose value is
      new, so every key in it is a key of the update. */
  lemma UpdateDiffKeys(beforeVal: Obj, updatedData: Obj)
    ensures var changed := Diff(beforeVal, Merge(beforeVal, updatedData));
      changed.Keys <= updatedData.Keys
      && forall k :: k in changed <==> k in updatedData && Lookup(beforeVal, k) != Some(updatedData[k])
  {
    var after := Merge(beforeVal, updatedData);
    forall k | k !in updatedData ensures Lookup(beforeVal, k) == Lookup(after, k) {
    }
  }

  /** An update that repeats the stored values logs no change. */
  lemma RepeatedUpdateLogsNothing(beforeVal: Obj, updatedData: Obj)
    requires forall k | k in updatedData :: k in beforeVal && beforeVal[k] == updatedData[k]
    ensures Diff(beforeVal, Merge(beforeVal, updatedData)) == map[]
  {
    UpdateDiffKeys(beforeVal, updatedData);
    assert forall k :: k !in Diff(beforeVal, Merge(beforeVal, updatedData));
  }

  /** The log entry `updateTimetableEvent` writes after the database
      update: the stored record (or `{}` when there is none) is merged with
      the update, and the diff is taken between the two. */
  method UpdateLogEntry(beforeSnap: Option<Obj>, updatedData: Obj) returns (changed: map<string, Change>, fullAfter: Obj)
    ensures fullAfter == Merge(OrEmpty(beforeSnap), updatedData)
    ensures changed == Diff(OrEmpty(beforeSnap), fullAfter)
    ensures changed.Keys <= updatedData.Keys
  {
    var beforeVal := if beforeSnap.Some? then beforeSnap.value else map[];
    fullAfter := Merge(beforeVal, updatedData);
    changed := DiffObjects(Some(beforeVal), Some(fullAfter));
    UpdateDiffKeys(beforeVal, updatedData);
  }
}
