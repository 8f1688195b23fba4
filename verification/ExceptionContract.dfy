/**
 The operational-exception contract: the delta between observed and desired
 fields, the write payload compiled from it, and the acceptance oracle.
 */
module ExceptionContract {
  import opened Prelude

  datatype FieldValue = Text(text: string) | Number(number: real) | Flag(flag: bool) | Null

  datatype Field = Field(name: string, value: FieldValue)

  // ---------------------------------------------------------------------
  // Field order
  // ---------------------------------------------------------------------

  /** A new field goes after every field whose name is not greater. */
  function Insert(sorted: seq<Field>, f: Field): (out: seq<Field>)
    ensures multiset(out) == multiset(sorted) + multiset{f}
  {
    if sorted == [] then [f]
    else if Less(f.name, sorted[0].name) then
      assert sorted == [sorted[0]] + sorted[1..];
      [f] + sorted
    else
      assert sorted == [sorted[0]] + sorted[1..];
      [sorted[0]] + Insert(sorted[1..], f)
  }

  function SortFields(fields: seq<Field>): (out: seq<Field>)
    ensures multiset(out) == multiset(fields)
  {
    if fields == [] then []
    else
      assert fields == fields[..|fields| - 1] + [fields[|fields| - 1]];
      Insert(SortFields(fields[..|fields| - 1]), fields[|fields| - 1])
  }

  predicate UniqueNames(fields: seq<Field>) {
    forall i, j | 0 <= i < j < |fields| :: fields[i].name != fields[j].name
  }

  /** Strictly increasing names. */
  predicate Increasing(fields: seq<Field>) {
    forall i, j | 0 <= i < j < |fields| :: Less(fields[i].name, fields[j].name)
  }

  lemma MemberOfSorted(fields: seq<Field>, f: Field)
    ensures f in SortFields(fields) <==> f in fields
  {
    assert f in multiset(SortFields(fields)) <==> f in multiset(fields);
  }

  lemma {:induction false} InsertKeepsIncreasing(sorted: seq<Field>, f: Field)
    requires Increasing(sorted) && forall g | g in sorted :: g.name != f.name
    ensures Increasing(Insert(sorted, f))
  {
    if sorted == [] {
    } else if Less(f.name, sorted[0].name) {
      forall j | 0 < j < |sorted| ensures Less(f.name, sorted[j].name) {
        LessIsTransitive(f.name, sorted[0].name, sorted[j].name);
      }
    } else {
      LessIsStrict(f.name, sorted[0].name);
      InsertKeepsIncreasing(sorted[1..], f);
      var rest := Insert(sorted[1..], f);
      forall j | 0 <= j < |rest| ensures Less(sorted[0].name, rest[j].name) {
        assert rest[j] in multiset(rest);
        assert rest[j] == f || rest[j] in sorted[1..];
      }
    }
  }

  lemma {:induction false} SortingIsIncreasing(fields: seq<Field>)
    requires UniqueNames(fields)
    ensures Increasing(SortFields(fields))
  {
    if fields != [] {
      var front, last := fields[..|fields| - 1], fields[|fields| - 1];
      SortingIsIncreasing(front);
      forall g | g in SortFields(front) ensures g.name != last.name {
        MemberOfSorted(front, g);
      }
      InsertKeepsIncreasing(SortFields(front), last);
    }
  }

  lemma HeadsAgree(a: seq<Field>, b: seq<Field>)
    requires Increasing(a) && Increasing(b) && multiset(a) == multiset(b) && a != []
    ensures b != [] && a[0] == b[0]
  {
    assert a[0] in multiset(b);
    assert b[0] in multiset(a);
    FirstIsLeast(a, b[0]);
    FirstIsLeast(b, a[0]);
    LessIsStrict(a[0].name, b[0].name);
  }

  lemma {:induction false} IncreasingIsDetermined(a: seq<Field>, b: seq<Field>)
    requires Increasing(a) && Increasing(b) && multiset(a) == multiset(b)
    ensures a == b
  {
    if a == [] {
      assert multiset(b) == multiset{};
    } else {
      HeadsAgree(a, b);
      assert a == [a[0]] + a[1..] && b == [b[0]] + b[1..];
      assert multiset(a[1..]) == multiset(a) - multiset{a[0]} == multiset(b[1..]);
      IncreasingIsDetermined(a[1..], b[1..]);
    }
  }

  lemma FirstIsLeast(a: seq<Field>, f: Field)
    requires Increasing(a) && f in a
    ensures f == a[0] || Less(a[0].name, f.name)
  {
  }

  /** The sorted form, and so every hash over it, does not depend on field order. */
  lemma SortedFormIgnoresOrder(a: seq<Field>, b: seq<Field>)
    requires UniqueNames(a) && UniqueNames(b) && multiset(a) == multiset(b)
    ensures SortFields(a) == SortFields(b)
  {
    SortingIsIncreasing(a);
    SortingIsIncreasing(b);
    IncreasingIsDetermined(SortFields(a), SortFields(b));
  }

  // ---------------------------------------------------------------------
  // Field maps
  // ---------------------------------------------------------------------

  type FieldMap = map<string, FieldValue>

  /** Writes the entries over the record in order, the last one winning. */
  function Merge(record: FieldMap, entries: seq<Field>): FieldMap {
    if entries == [] then record
    else
      var last := entries[|entries| - 1];
      Merge(record, entries[..|entries| - 1])[last.name := last.value]
  }

  function AsMap(fields: seq<Field>): FieldMap {
    Merge(map[], fields)
  }

  /** An absent field counts as null. */
  function Lookup(m: FieldMap, name: string): FieldValue {
    if name in m then m[name] else Null
  }

  lemma {:induction false} MergeSets(record: FieldMap, entries: seq<Field>, f: Field)
    requires UniqueNames(entries) && f in entries
    ensures f.name in Merge(record, entries) && Merge(record, entries)[f.name] == f.value
  {
    var front, last := entries[..|entries| - 1], entries[|entries| - 1];
    if f != last {
      assert f in front;
      MergeSets(record, front, f);
      var i :| 0 <= i < |front| && front[i] == f;
      assert entries[i].name != last.name;
    }
  }

  lemma {:induction false} MergeSpares(record: FieldMap, entries: seq<Field>, name: string)
    requires forall f | f in entries :: f.name != name
    ensures name in Merge(record, entries) <==> name in record
    ensures Lookup(Merge(record, entries), name) == Lookup(record, name)
  {
    if entries != [] {
      MergeSpares(record, entries[..|entries| - 1], name);
      assert entries[|entries| - 1] in entries;
    }
  }

  // ---------------------------------------------------------------------
  // Delta, payload and oracle
  // ---------------------------------------------------------------------

  datatype FieldChange = FieldChange(name: string, observedValue: FieldValue, desiredValue: FieldValue)

  function ChangesAgainst(observed: FieldMap, targets: seq<Field>): seq<FieldChange> {
    if targets == [] then []
    else
      var front := ChangesAgainst(observed, targets[..|targets| - 1]);
      var last := targets[|targets| - 1];
      if Lookup(observed, last.name) == last.value then front
      else front + [FieldChange(last.name, Lookup(observed, last.name), last.value)]
  }

  function StateDelta(observed: seq<Field>, desired: seq<Field>): seq<FieldChange> {
    ChangesAgainst(AsMap(observed), SortFields(desired))
  }

  /** A change is in the delta exactly for a desired field not held, with what was observed of it, absent as null. */
  lemma {:induction false} ChangesTell(observed: FieldMap, targets: seq<Field>, c: FieldChange)
    ensures c in ChangesAgainst(observed, targets) <==>
      && Field(c.name, c.desiredValue) in targets
      && c.observedValue == (if c.name in observed then observed[c.name] else Null)
      && c.observedValue != c.desiredValue
  {
    if targets != [] {
      var front, last := targets[..|targets| - 1], targets[|targets| - 1];
      ChangesTell(observed, front, c);
      assert targets == front + [last];
    }
  }

  /** The same of a whole delta, which lists its fields by name. */
  lemma DeltaTells(observed: seq<Field>, desired: seq<Field>, c: FieldChange)
    requires UniqueNames(desired)
    ensures c in StateDelta(observed, desired) <==>
      && Field(c.name, c.desiredValue) in desired
      && c.observedValue == (if c.name in AsMap(observed) then AsMap(observed)[c.name] else Null)
      && c.observedValue != c.desiredValue
    ensures Increasing(WritePayload(StateDelta(observed, desired)))
  {
    ChangesTell(AsMap(observed), SortFields(desired), c);
    MemberOfSorted(desired, Field(c.name, c.desiredValue));
    SortingIsIncreasing(desired);
    PayloadIncreasing(AsMap(observed), SortFields(desired));
  }

  /** Uniquely named fields are a map of exactly their names and values. */
  lemma AsMapTells(fields: seq<Field>, name: string)
    requires UniqueNames(fields)
    ensures name in AsMap(fields) <==> exists f | f in fields :: f.name == name
    ensures forall f | f in fields && f.name == name :: AsMap(fields)[name] == f.value
  {
    forall f | f in fields && f.name == name ensures name in AsMap(fields) && AsMap(fields)[name] == f.value {
      MergeSets(map[], fields, f);
    }
    if forall f | f in fields :: f.name != name {
      MergeSpares(map[], fields, name);
    }
  }

  method ComputeStateDelta(observed: seq<Field>, desired: seq<Field>) returns (changes: seq<FieldChange>)
    ensures changes == StateDelta(observed, desired)
  {
    var observedByField: FieldMap := map[];
    for i := 0 to |observed|
      invariant observedByField == AsMap(observed[..i])
    {
      assert observed[..i + 1][..i] == observed[..i];
      observedByField := observedByField[observed[i].name := observed[i].value];
    }
    assert observed[..|observed|] == observed;
    var targets := SortFields(desired);
    changes := [];
    for i := 0 to |targets|
      invariant changes == ChangesAgainst(observedByField, targets[..i])
    {
      assert targets[..i + 1][..i] == targets[..i];
      var target := targets[i];
      var current := if target.name in observedByField then observedByField[target.name] else Null;
      if current != target.value {
        changes := changes + [FieldChange(target.name, current, target.value)];
      }
    }
    assert targets[..|targets|] == targets;
  }

  function WritePayload(changes: seq<FieldChange>): (payload: seq<Field>)
    ensures |payload| == |changes|
  {
    seq(|changes|, i requires 0 <= i < |changes| => Field(changes[i].name, changes[i].desiredValue))
  }

  datatype Constraint = Constraint(id: string, field: string, value: FieldValue)

  function Unsatisfied(fields: FieldMap, constraints: seq<Constraint>): seq<string> {
    if constraints == [] then []
    else
      (if Lookup(fields, constraints[0].field) != constraints[0].value then [constraints[0].id] else [])
      + Unsatisfied(fields, constraints[1..])
  }

  /** A field is in the payload exactly when it is desired and not yet held. */
  lemma {:induction false} PayloadMembers(observed: FieldMap, targets: seq<Field>, f: Field)
    ensures f in WritePayload(ChangesAgainst(observed, targets)) <==>
            f in targets && Lookup(observed, f.name) != f.value
  {
    if targets != [] {
      var front, last := targets[..|targets| - 1], targets[|targets| - 1];
      PayloadMembers(observed, front, f);
      assert targets == front + [last];
      var before := ChangesAgainst(observed, front);
      if Lookup(observed, last.name) != last.value {
        var change := FieldChange(last.name, Lookup(observed, last.name), last.value);
        assert WritePayload(before + [change]) == WritePayload(before) + [last];
      }
    }
  }

  /** The payload keeps the sorted, duplicate-free order of its targets. */
  lemma {:induction false} PayloadIncreasing(observed: FieldMap, targets: seq<Field>)
    requires Increasing(targets)
    ensures Increasing(WritePayload(ChangesAgainst(observed, targets)))
  {
    if targets != [] {
      var front, last := targets[..|targets| - 1], targets[|targets| - 1];
      PayloadIncreasing(observed, front);
      var before := WritePayload(ChangesAgainst(observed, front));
      forall i | 0 <= i < |before| ensures Less(before[i].name, last.name) {
        PayloadMembers(observed, front, before[i]);
        assert before[i] in before;
        var k :| 0 <= k < |front| && front[k] == before[i];
        assert targets[k] == front[k];
      }
      if Lookup(observed, last.name) != last.value {
        var change := FieldChange(last.name, Lookup(observed, last.name), last.value);
        assert WritePayload(ChangesAgainst(observed, front) + [change]) == before + [last];
      }
    }
  }

  lemma IncreasingIsUnique(fields: seq<Field>)
    requires Increasing(fields)
    ensures UniqueNames(fields)
  {
    forall i, j | 0 <= i < j < |fields| ensures fields[i].name != fields[j].name {
      LessIsStrict(fields[i].name, fields[j].name);
    }
  }

  lemma SameNameSameField(fields: seq<Field>, a: Field, b: Field)
    requires UniqueNames(fields) && a in fields && b in fields && a.name == b.name
    ensures a == b
  {
  }

  /** The payload compiled for a record observed with these fields. */
  function CompiledPayload(observed: FieldMap, desired: seq<Field>): seq<Field> {
    WritePayload(ChangesAgainst(observed, SortFields(desired)))
  }

  function Resolved(observed: FieldMap, desired: seq<Field>): FieldMap {
    Merge(observed, CompiledPayload(observed, desired))
  }

  /** What every field holds once the compiled payload is written. */
  function Wanted(observed: FieldMap, desired: seq<Field>, name: string): FieldValue {
    if exists f | f in desired :: f.name == name then Lookup(AsMap(desired), name)
    else Lookup(observed, name)
  }

  /**
   Writing the compiled payload sets every desired field and leaves every other
   field as it was observed.
   */
  lemma PayloadResolvesDelta(observed: FieldMap, desired: seq<Field>, name: string)
    requires UniqueNames(desired)
    ensures Lookup(Resolved(observed, desired), name) == Wanted(observed, desired, name)
    ensures (forall f | f in desired :: f.name != name) ==>
              (name in Resolved(observed, desired) <==> name in observed)
  {
    var before, targets := observed, SortFields(desired);
    var payload := CompiledPayload(observed, desired);
    SortingIsIncreasing(desired);
    PayloadIncreasing(before, targets);
    IncreasingIsUnique(payload);
    if f :| f in desired && f.name == name {
      MergeSets(map[], desired, f);
      MemberOfSorted(desired, f);
      PayloadMembers(before, targets, f);
      if f in payload {
        MergeSets(before, payload, f);
      } else {
        forall g | g in payload ensures g.name != name {
          PayloadMembers(before, targets, g);
          MemberOfSorted(desired, g);
          if g.name == name {
            SameNameSameField(desired, f, g);
          }
        }
        MergeSpares(before, payload, name);
      }
    } else {
      forall g | g in payload ensures g.name != name {
        PayloadMembers(before, targets, g);
        MemberOfSorted(desired, g);
      }
      MergeSpares(before, payload, name);
    }
  }

  predicate DesiredHolds(record: FieldMap, desired: seq<Field>) {
    forall f | f in desired :: Lookup(record, f.name) == f.value
  }

  /** The delta is empty exactly when the desired state already held. */
  lemma EmptyDeltaIffDesiredHolds(observed: FieldMap, desired: seq<Field>)
    ensures ChangesAgainst(observed, SortFields(desired)) == [] <==> DesiredHolds(observed, desired)
  {
    var changes := ChangesAgainst(observed, SortFields(desired));
    var payload := WritePayload(changes);
    if changes == [] {
      forall f | f in desired ensures Lookup(observed, f.name) == f.value {
        MemberOfSorted(desired, f);
        PayloadMembers(observed, SortFields(desired), f);
        assert f !in payload;
      }
    } else {
      assert payload[0] in payload;
      PayloadMembers(observed, SortFields(desired), payload[0]);
      MemberOfSorted(desired, payload[0]);
    }
  }

  /** After the write a recomputed delta is empty. */
  lemma WriteClosesDelta(observed: FieldMap, desired: seq<Field>)
    requires UniqueNames(desired)
    ensures DesiredHolds(Resolved(observed, desired), desired)
    ensures ChangesAgainst(Resolved(observed, desired), SortFields(desired)) == []
  {
    forall f | f in desired ensures Lookup(Resolved(observed, desired), f.name) == f.value {
      PayloadResolvesDelta(observed, desired, f.name);
      MergeSets(map[], desired, f);
    }
    EmptyDeltaIffDesiredHolds(Resolved(observed, desired), desired);
  }

  /** The oracle's answer depends on the record only through the looked-up values. */
  lemma {:induction false} UnsatisfiedMembers(fields: FieldMap, constraints: seq<Constraint>, id: string)
    ensures id in Unsatisfied(fields, constraints) <==>
            exists c | c in constraints :: c.id == id && Lookup(fields, c.field) != c.value
  {
    if constraints != [] {
      UnsatisfiedMembers(fields, constraints[1..], id);
      assert constraints == [constraints[0]] + constraints[1..];
      if id in Unsatisfied(fields, constraints[1..]) {
        var c :| c in constraints[1..] && c.id == id && Lookup(fields, c.field) != c.value;
        assert c in constraints;
      }
      if c :| c in constraints && c.id == id && Lookup(fields, c.field) != c.value {
        assert c == constraints[0] || c in constraints[1..];
      }
    }
  }

  /** After the write, exactly the constraints that disagree with what was wanted are unsatisfied. */
  lemma OracleAgreesWithDesire(observed: FieldMap, desired: seq<Field>, constraints: seq<Constraint>, id: string)
    requires UniqueNames(desired)
    ensures id in Unsatisfied(Resolved(observed, desired), constraints) <==>
            exists c | c in constraints :: c.id == id && Wanted(observed, desired, c.field) != c.value
  {
    UnsatisfiedMembers(Resolved(observed, desired), constraints, id);
    forall c | c in constraints
      ensures Lookup(Resolved(observed, desired), c.field) == Wanted(observed, desired, c.field)
    {
      PayloadResolvesDelta(observed, desired, c.field);
    }
  }
}
