/** Replaying the mirror of `localStorage` into an empty document
    (`src/preload/seed-renderer-storage.ts`). */
module StorageSeed {
  import opened Common

  datatype SeedOutcome = AlreadyPopulated | NoSeed | RolledBack | Seeded | Unavailable

  /** What the document and the bridge do under the replay: reading the length, asking for
      the seed, writing the i-th entry and clearing may each throw. */
  datatype Faults = Faults(lengthThrows: bool, requestThrows: bool, writeThrowsAt: Option<nat>, clearThrows: bool)

  /** An object's entries in enumeration order. */
  type Entries = seq<(string, string)>

  predicate DistinctKeys(entries: Entries) {
    forall i, j :: 0 <= i < j < |entries| ==> entries[i].0 != entries[j].0
  }

  function AsMap(entries: Entries): map<string, string> {
    if entries == [] then map[]
    else AsMap(entries[..|entries| - 1])[entries[|entries| - 1].0 := entries[|entries| - 1].1]
  }

  predicate WriteFails(faults: Faults, count: nat) {
    faults.writeThrowsAt.Some? && faults.writeThrowsAt.value < count
  }

  /** Whether the replay gets as far as its first write. */
  predicate Starts(storage: map<string, string>, seed: Option<Entries>, faults: Faults) {
    !faults.lengthThrows && storage == map[] && !faults.requestThrows && seed.Some? && seed.value != []
  }

  /** The one way a replay can leave a document half filled. */
  predicate Torn(storage: map<string, string>, seed: Option<Entries>, faults: Faults) {
    && Starts(storage, seed, faults)
    && WriteFails(faults, |seed.value|) && faults.writeThrowsAt.value > 0
    && faults.clearThrows
  }

  /** Where a replay ends: the document's storage and the tag it is logged under. */
  function Replayed(storage: map<string, string>, seed: Option<Entries>, faults: Faults): (map<string, string>,
                    SeedOutcome) {
    if !Starts(storage, seed, faults) then
      (storage,
       if faults.lengthThrows then Unavailable
       else if storage != map[] then AlreadyPopulated
       else if faults.requestThrows then Unavailable
       else NoSeed)
    else if !WriteFails(faults, |seed.value|) then (AsMap(seed.value), Seeded)
    else if !faults.clearThrows then (map[], RolledBack)
    else (AsMap(seed.value[..faults.writeThrowsAt.value]), Unavailable)
  }

  class Document {
    var storage: map<string, string>

    constructor (storage: map<string, string>)
      ensures this.storage == storage
    {
      this.storage := storage;
    }

    method SeedRendererStorage(seed: Option<Entries>, faults: Faults) returns (outcome: SeedOutcome)
      modifies this
      ensures (storage, outcome) == Replayed(old(storage), seed, faults)
      ensures outcome == Seeded
         <==> Fillable(old(storage), seed, faults) && forall i: nat :: !WriteThrows(seed, faults, i)
    {
      TagsExactly(storage, seed, faults);
      if faults.lengthThrows { return Unavailable; }
      if |storage| > 0 { return AlreadyPopulated; }
      assert storage == map[];
      if faults.requestThrows { return Unavailable; }
      if seed == None || seed.value == [] { return NoSeed; }
      var threw := WriteEntries(seed.value, faults);
      if !threw { return Seeded; }
      if faults.clearThrows { return Unavailable; }
      storage := map[];
      return RolledBack;
    }

    method WriteEntries(entries: Entries, faults: Faults) returns (threw: bool)
      requires storage == map[]
      modifies this
      ensures threw == WriteFails(faults, |entries|)
      ensures storage == AsMap(if threw then entries[..faults.writeThrowsAt.value] else entries)
    {
      var i := 0;
      while i < |entries|
        invariant 0 <= i <= |entries| && storage == AsMap(entries[..i])
        invariant faults.writeThrowsAt.Some? ==> i <= faults.writeThrowsAt.value
      {
        if faults.writeThrowsAt == Some(i) { return true; }
        assert entries[..i + 1][..i] == entries[..i];
        storage := storage[entries[i].0 := entries[i].1];
        i := i + 1;
      }
      assert entries[..|entries|] == entries;
      return false;
    }
  }

  // ------------------------------------------------------- all or nothing

  predicate HasKey(entries: Entries, key: string) {
    exists i :: 0 <= i < |entries| && entries[i].0 == key
  }

  lemma {:induction false} KeysOf(entries: Entries, key: string)
    ensures key in AsMap(entries) <==> HasKey(entries, key)
  {
    if entries != [] {
      var front, last := entries[..|entries| - 1], entries[|entries| - 1];
      KeysOf(front, key);
      if HasKey(front, key) {
        var i :| 0 <= i < |front| && front[i].0 == key;
        assert entries[i].0 == key;
      }
      if HasKey(entries, key) && key != last.0 {
        var i :| 0 <= i < |entries| && entries[i].0 == key;
        assert front[i].0 == key;
      }
      assert entries[|entries| - 1].0 == last.0;
    }
  }

  /** Some entries but not all of them are neither the whole mirror nor nothing. */
  lemma PartIsNeither(entries: Entries, n: nat)
    requires DistinctKeys(entries) && 0 < n < |entries|
    ensures AsMap(entries[..n]) != AsMap(entries) && AsMap(entries[..n]) != map[]
  {
    KeysOf(entries[..n], entries[0].0);
    assert entries[..n][0].0 == entries[0].0;
    KeysOf(entries, entries[n].0);
    KeysOf(entries[..n], entries[n].0);
    assert forall i :: 0 <= i < n ==> entries[..n][i] == entries[i];
  }

  /** The storage ends untouched or as exactly the mirror, whichever write throws, unless a
      write after the first throws and the clear that should undo it throws too. */
  lemma AllOrNothingExactly(storage: map<string, string>, seed: Option<Entries>, faults: Faults)
    requires seed.Some? ==> DistinctKeys(seed.value)
    ensures
      var (after, _) := Replayed(storage, seed, faults);
      (after == storage || (seed.Some? && after == AsMap(seed.value))) <==> !Torn(storage, seed, faults)
  {
    if Torn(storage, seed, faults) {
      PartIsNeither(seed.value, faults.writeThrowsAt.value);
    } else if Starts(storage, seed, faults) && WriteFails(faults, |seed.value|) && faults.clearThrows {
      assert seed.value[..0] == [];
    }
  }

  /** The tag tells the storage: only `seeded` fills a document, `rolled-back` leaves it
      empty, and no other tag but a torn `unavailable` has touched it. */
  lemma TagTellsStorage(storage: map<string, string>, seed: Option<Entries>, faults: Faults)
    requires seed.Some? ==> DistinctKeys(seed.value)
    ensures
      var (after, outcome) := Replayed(storage, seed, faults);
      && (outcome == Seeded ==> storage == map[] && seed.Some? && after == AsMap(seed.value) && after != map[])
      && (outcome == RolledBack ==> storage == map[] && after == map[])
      && (outcome == AlreadyPopulated ==> storage != map[] && after == storage)
      && (outcome == NoSeed ==> storage == map[] && after == map[])
      && (outcome == Unavailable ==> after == storage || Torn(storage, seed, faults))
  {
    if seed.Some? && seed.value != [] {
      KeysOf(seed.value, seed.value[0].0);
    }
    if Starts(storage, seed, faults) {
      assert seed.value[..0] == [];
    }
  }

  // ------------------------------------------------------ which tag, and when

  /** The i-th write is made and throws. */
  predicate WriteThrows(seed: Option<Entries>, faults: Faults, i: nat) {
    seed.Some? && i < |seed.value| && faults.writeThrowsAt == Some(i)
  }

  /** An empty document, readable, with something to replay into it. */
  predicate Fillable(storage: map<string, string>, seed: Option<Entries>, faults: Faults) {
    !faults.lengthThrows && storage == map[] && !faults.requestThrows && seed.Some? && |seed.value| > 0
  }

  /** Each tag, told of what the document and the bridge did. */
  lemma TagsExactly(storage: map<string, string>, seed: Option<Entries>, faults: Faults)
    ensures
      var outcome := Replayed(storage, seed, faults).1;
      var fillable := Fillable(storage, seed, faults);
      && (outcome == AlreadyPopulated <==> !faults.lengthThrows && storage != map[])
      && (outcome == NoSeed <==> !faults.lengthThrows && storage == map[] && !faults.requestThrows && !fillable)
      && (outcome == Seeded <==> fillable && forall i: nat :: !WriteThrows(seed, faults, i))
      && (outcome == RolledBack <==> fillable && !faults.clearThrows && exists i: nat :: WriteThrows(seed, faults, i))
      && (outcome == Unavailable <==>
            || faults.lengthThrows || (storage == map[] && faults.requestThrows)
            || (fillable && faults.clearThrows && exists i: nat :: WriteThrows(seed, faults, i)))
  {
    if Fillable(storage, seed, faults) && WriteFails(faults, |seed.value|) {
      assert WriteThrows(seed, faults, faults.writeThrowsAt.value);
    }
  }

  lemma {:induction false} ValueOf(entries: Entries, k: nat)
    requires DistinctKeys(entries) && k < |entries|
    ensures entries[k].0 in AsMap(entries) && AsMap(entries)[entries[k].0] == entries[k].1
  {
    var front := entries[..|entries| - 1];
    if k < |front| {
      ValueOf(front, k);
      assert front[k] == entries[k];
    }
  }

  /** A seeded document holds every entry of the seed with its value, and no other key. */
  lemma SeededEntryByEntry(storage: map<string, string>, seed: Option<Entries>, faults: Faults)
    requires seed.Some? && DistinctKeys(seed.value)
    requires Replayed(storage, seed, faults).1 == Seeded
    ensures
      var after := Replayed(storage, seed, faults).0;
      && (forall i :: 0 <= i < |seed.value| ==>
            seed.value[i].0 in after && after[seed.value[i].0] == seed.value[i].1)
      && (forall key :: key in after ==> exists i :: 0 <= i < |seed.value| && seed.value[i].0 == key)
  {
    forall i | 0 <= i < |seed.value|
      ensures seed.value[i].0 in AsMap(seed.value) && AsMap(seed.value)[seed.value[i].0] == seed.value[i].1
    {
      ValueOf(seed.value, i);
    }
    forall key | key in AsMap(seed.value) ensures HasKey(seed.value, key) { KeysOf(seed.value, key); }
  }

  // ------------------------------------------------------------- launches

  datatype Launch = Launch(seed: Option<Entries>, faults: Faults)

  function After(storage: map<string, string>, launches: seq<Launch>): map<string, string> {
    if launches == [] then storage
    else
      var last := launches[|launches| - 1];
      Replayed(After(storage, launches[..|launches| - 1]), last.seed, last.faults).0
  }

  /** However many launches fail, a document that started empty is still empty or holds
      exactly the seed of a launch that found it empty. */
  lemma {:induction false} EmptyOrComplete(launches: seq<Launch>)
    requires forall k :: 0 <= k < |launches| ==>
               !launches[k].faults.clearThrows && (launches[k].seed.Some? ==> DistinctKeys(launches[k].seed.value))
    ensures After(map[], launches) == map[]
         || exists k :: 0 <= k < |launches| && launches[k].seed.Some?
              && After(map[], launches) == AsMap(launches[k].seed.value)
              && After(map[], launches[..k]) == map[]
  {
    if launches != [] {
      var front, last := launches[..|launches| - 1], launches[|launches| - 1];
      EmptyOrComplete(front);
      var before := After(map[], front);
      if before == map[] {
        TagTellsStorage(before, last.seed, last.faults);
        assert launches[|launches| - 1] == last && launches[..|launches| - 1] == front;
      } else {
        var k :| 0 <= k < |front| && front[k].seed.Some? && before == AsMap(front[k].seed.value)
              && After(map[], front[..k]) == map[];
        assert launches[k] == front[k] && launches[..k] == front[..k];
        assert After(map[], launches) == before;
      }
    }
  }
}
