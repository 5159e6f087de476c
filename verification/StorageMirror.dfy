/** The main process's copy of `localStorage`: what it hands out as a seed, which snapshots
    may replace it (`src/main/ipc/handlers/renderer-storage.ts`), and what becomes of it over
    launches of a document on a new origin (with `src/preload/seed-renderer-storage.ts`). */
module StorageMirror {
  import opened Common
  import opened StorageSeed

  type Storage = map<string, string>

  datatype Main = Main(mirror: Storage, author: Option<string>, seeded: set<string>, handedOut: map<nat, Storage>)

  datatype Payload = Malformed | TooLarge | Snapshot(entries: Storage)

  datatype Reason = IsMalformed | IsTooLarge | UnknownOrigin | DatabaseUnavailable | SeedNotApplied | EmptySnapshot

  datatype Answer = Stored | Skipped(reason: Reason)

  /** The entries to replay, or none: the mirror is never offered to an origin that has had
      a seed or that took the snapshot itself. */
  function ReadSeed(m: Main, databaseOpen: bool, origin: string): Option<Storage> {
    if !databaseOpen || origin in m.seeded || m.mirror == map[] || m.author == Some(origin) then None
    else Some(m.mirror)
  }

  function HandOut(m: Main, sender: nat, databaseOpen: bool, origin: Option<string>): Main {
    if origin.Some? && ReadSeed(m, databaseOpen, origin.value).Some?
    then m.(handedOut := m.handedOut[sender := m.mirror])
    else m
  }

  function Judge(m: Main, sender: nat, databaseOpen: bool, origin: Option<string>, payload: Payload): Answer {
    match payload
    case Malformed => Skipped(IsMalformed)
    case TooLarge => Skipped(IsTooLarge)
    case Snapshot(entries) =>
      if origin == None then Skipped(UnknownOrigin)
      else if !databaseOpen then Skipped(DatabaseUnavailable)
      else if sender in m.handedOut && !(m.handedOut[sender].Keys <= entries.Keys) then Skipped(SeedNotApplied)
      else if entries == map[] && m.mirror != map[] then Skipped(EmptySnapshot)
      else Stored
  }

  function Mirrored(m: Main, sender: nat, databaseOpen: bool, origin: Option<string>, payload: Payload): Main {
    if Judge(m, sender, databaseOpen, origin, payload) != Stored || origin == None || !payload.Snapshot? then m
    else
      var stored := m.(mirror := payload.entries, author := origin);
      if sender in m.handedOut
      then stored.(seeded := m.seeded + {origin.value}, handedOut := m.handedOut - {sender})
      else stored
  }

  // ------------------------------------------------- the handlers, in place

  class MainProcess {
    var mirror: Storage
    var author: Option<string>
    var seededOrigins: set<string>
    var handedOutSeeds: map<nat, Storage>

    ghost function Abstract(): Main
      reads this
    {
      Main(mirror, author, seededOrigins, handedOutSeeds)
    }

    /** A launch: the tables are read back, the seeds handed out before are forgotten. */
    constructor (mirror: Storage, author: Option<string>, seededOrigins: set<string>)
      ensures Abstract() == Main(mirror, author, seededOrigins, map[])
    {
      this.mirror, this.author, this.seededOrigins, handedOutSeeds := mirror, author, seededOrigins, map[];
    }

    method RendererStorageSeed(sender: nat, databaseOpen: bool, origin: Option<string>) returns (seed: Option<Storage>)
      modifies this
      ensures seed == if origin == None then None else ReadSeed(old(Abstract()), databaseOpen, origin.value)
      ensures Abstract() == HandOut(old(Abstract()), sender, databaseOpen, origin)
    {
      if origin == None || !databaseOpen { return None; }
      if origin.value in seededOrigins { return None; }
      if |mirror| == 0 {
        assert mirror == map[];
        return None;
      }
      if author == origin { return None; }
      handedOutSeeds := handedOutSeeds[sender := mirror];
      return Some(mirror);
    }

    method MirrorRendererStorage(sender: nat, databaseOpen: bool, origin: Option<string>,
                                 payload: Payload) returns (answer: Answer)
      modifies this
      ensures answer == Judge(old(Abstract()), sender, databaseOpen, origin, payload)
      ensures Abstract() == Mirrored(old(Abstract()), sender, databaseOpen, origin, payload)
    {
      if payload == Malformed { return Skipped(IsMalformed); }
      if payload == TooLarge { return Skipped(IsTooLarge); }
      var entries := payload.entries;
      if origin == None { return Skipped(UnknownOrigin); }
      if !databaseOpen { return Skipped(DatabaseUnavailable); }
      if sender in handedOutSeeds && !(handedOutSeeds[sender].Keys <= entries.Keys) { return Skipped(SeedNotApplied); }
      if entries == map[] && mirror != map[] { return Skipped(EmptySnapshot); }
      mirror, author := entries, origin;
      if sender in handedOutSeeds {
        seededOrigins := seededOrigins + {origin.value};
        handedOutSeeds := handedOutSeeds - {sender};
      }
      return Stored;
    }
  }

  // ------------------------------ any run of the handlers, whatever is sent

  datatype Event =
    | SeedAsked(sender: nat, databaseOpen: bool, origin: Option<string>)
    | SnapshotSent(sender: nat, databaseOpen: bool, origin: Option<string>, payload: Payload)
    | Restarted

  function Step(m: Main, event: Event): Main {
    match event
    case SeedAsked(sender, databaseOpen, origin) => HandOut(m, sender, databaseOpen, origin)
    case SnapshotSent(sender, databaseOpen, origin, payload) => Mirrored(m, sender, databaseOpen, origin, payload)
    case Restarted => m.(handedOut := map[])
  }

  function Run(m: Main, events: seq<Event>): Main {
    if events == [] then m else Step(Run(m, events[..|events| - 1]), events[|events| - 1])
  }

  /** A populated mirror is never emptied and no marker is ever taken back, whatever any
      window sends. */
  lemma {:induction false} MirrorNeverEmptied(m: Main, events: seq<Event>)
    ensures m.mirror != map[] ==> Run(m, events).mirror != map[]
    ensures m.seeded <= Run(m, events).seeded
  {
    if events != [] {
      MirrorNeverEmptied(m, events[..|events| - 1]);
    }
  }

  /** Which snapshots are stored, and what storing one does: the mirror becomes the snapshot,
      its origin the author, and a window that held a seed has proved it. */
  lemma StoredExactly(m: Main, sender: nat, databaseOpen: bool, origin: Option<string>, payload: Payload)
    ensures
      var stored := Judge(m, sender, databaseOpen, origin, payload) == Stored;
      var after := Mirrored(m, sender, databaseOpen, origin, payload);
      var held := sender in m.handedOut;
      && (stored <==>
            && payload.Snapshot? && origin.Some? && databaseOpen
            && (held ==> forall key :: key in m.handedOut[sender] ==> key in payload.entries)
            && (m.mirror != map[] ==> payload.entries != map[]))
      && (!stored ==> after == m)
      && (stored ==>
            && after.mirror == payload.entries && after.author == origin && sender !in after.handedOut
            && (origin.value in after.seeded <==> held || origin.value in m.seeded)
            && (forall o :: o != origin.value ==> (o in after.seeded <==> o in m.seeded))
            && (forall other :: other != sender ==>
                  && (other in after.handedOut <==> other in m.handedOut)
                  && (other in m.handedOut ==> after.handedOut[other] == m.handedOut[other])))
  {
  }

  /** The step at which a sender was handed the seed it still holds. */
  ghost predicate HandedAt(m: Main, events: seq<Event>, i: nat, sender: nat, seed: Storage) {
    && i < |events| && events[i].SeedAsked? && events[i].sender == sender
    && events[i].origin.Some?
    && ReadSeed(Run(m, events[..i]), events[i].databaseOpen, events[i].origin.value) == Some(seed)
    && (forall k :: i < k < |events| ==> events[k] != Restarted)
  }

  lemma {:induction false} HeldSeedsWereHanded(m: Main, events: seq<Event>, sender: nat)
    requires m.handedOut == map[]
    requires sender in Run(m, events).handedOut
    ensures exists i: nat :: HandedAt(m, events, i, sender, Run(m, events).handedOut[sender])
  {
    if events != [] {
      var front, last := events[..|events| - 1], events[|events| - 1];
      var before, after := Run(m, front), Run(m, events);
      if sender in before.handedOut && after.handedOut[sender] == before.handedOut[sender] && last != Restarted {
        HeldSeedsWereHanded(m, front, sender);
        var i: nat :| HandedAt(m, front, i, sender, before.handedOut[sender]);
        assert events[..i] == front[..i];
        assert HandedAt(m, events, i, sender, after.handedOut[sender]);
      } else {
        assert HandedAt(m, events, |events| - 1, sender, after.handedOut[sender]);
      }
    }
  }

  /** The snapshot that proves a seed arrived. */
  ghost predicate ProvedAt(m: Main, events: seq<Event>, j: nat, origin: string) {
    && j < |events| && events[j].SnapshotSent? && events[j].origin == Some(origin) && events[j].payload.Snapshot?
    && exists i: nat, seed :: HandedAt(m, events[..j], i, events[j].sender, seed) && seed != map[]
         && seed.Keys <= events[j].payload.entries.Keys
  }

  /** An origin is marked as seeded only once a snapshot sent from it, in the same launch as
      a non-empty seed handed to the same window, held every key of that seed. */
  lemma {:induction false} MarkedOnlyWhenProved(m: Main, events: seq<Event>, origin: string)
    requires m.handedOut == map[]
    requires origin in Run(m, events).seeded && origin !in m.seeded
    ensures exists j: nat :: ProvedAt(m, events, j, origin)
  {
    if events != [] {
      var front, last := events[..|events| - 1], events[|events| - 1];
      if origin in Run(m, front).seeded {
        MarkedOnlyWhenProved(m, front, origin);
        var j: nat :| ProvedAt(m, front, j, origin);
        assert events[..j] == front[..j] && events[j] == front[j];
        assert ProvedAt(m, events, j, origin);
      } else {
        HeldSeedsWereHanded(m, front, last.sender);
        assert ProvedAt(m, events, |events| - 1, origin);
      }
    }
  }

  // ------------------------------------------ one window, launch after launch

  /** The storage of the document's origin, and main. */
  datatype World = World(storage: Storage, main: Main)

  /** The page writes (to any effect), or its mirror pushes a snapshot of its storage. */
  datatype Act = Edit(storage: Storage) | Push(databaseOpen: bool, fits: bool)

  /** How a launch's preload goes; `order` is how the seed's object is enumerated. */
  datatype Preload = Preload(databaseOpen: bool, faults: Faults, order: Entries)

  const WINDOW: nat := 1

  predicate AsksForSeed(storage: Storage, faults: Faults) {
    !faults.lengthThrows && storage == map[] && !faults.requestThrows
  }

  predicate Enumerates(order: Entries, seed: Storage) {
    DistinctKeys(order) && AsMap(order) == seed
  }

  function Load(w: World, origin: string, preload: Preload): World {
    var main := w.main.(handedOut := map[]);
    if !AsksForSeed(w.storage, preload.faults) then World(w.storage, main)
    else
      var seed := ReadSeed(main, preload.databaseOpen, origin);
      World(Replayed(w.storage, if seed.Some? then Some(preload.order) else None, preload.faults).0,
            HandOut(main, WINDOW, preload.databaseOpen, Some(origin)))
  }

  function Perform(w: World, origin: string, act: Act): World {
    match act
    case Edit(storage) => w.(storage := storage)
    case Push(databaseOpen, fits) =>
      w.(main := Mirrored(w.main, WINDOW, databaseOpen, Some(origin), if fits then Snapshot(w.storage) else TooLarge))
  }

  function Session(w: World, origin: string, acts: seq<Act>): World {
    if acts == [] then w else Perform(Session(w, origin, acts[..|acts| - 1]), origin, acts[|acts| - 1])
  }

  /** An origin the renderer has just moved to: nothing in it yet, and a mirror to bring. */
  predicate Unmoved(w: World, origin: string) {
    w.storage == map[] && w.main.mirror != map[] && w.main.author != Some(origin) && origin !in w.main.seeded
  }

  /** The page's storage after some acts, told without main. */
  function StorageAfter(storage: Storage, acts: seq<Act>): Storage {
    if acts == [] then storage
    else if acts[|acts| - 1].Edit? then acts[|acts| - 1].storage
    else StorageAfter(storage, acts[..|acts| - 1])
  }

  /** A push that finds, in a storage holding every key asked for, something to store. */
  ghost predicate Carries(storage: Storage, keys: set<string>, act: Act) {
    act == Push(true, true) && storage != map[] && keys <= storage.Keys
  }

  ghost predicate CarriedAt(storage: Storage, keys: set<string>, acts: seq<Act>, k: nat) {
    k < |acts| && Carries(StorageAfter(storage, acts[..k]), keys, acts[k])
  }

  ghost predicate Carried(storage: Storage, keys: set<string>, acts: seq<Act>) {
    exists k: nat :: CarriedAt(storage, keys, acts, k)
  }

  lemma CarriedStep(storage: Storage, keys: set<string>, front: seq<Act>, last: Act)
    ensures Carried(storage, keys, front + [last])
         == (Carried(storage, keys, front) || Carries(StorageAfter(storage, front), keys, last))
  {
    var acts := front + [last];
    assert acts[..|front|] == front && acts[|front|] == last;
    if Carried(storage, keys, front) {
      var k: nat :| CarriedAt(storage, keys, front, k);
      assert acts[..k] == front[..k];
      assert CarriedAt(storage, keys, acts, k);
    }
    if Carries(StorageAfter(storage, front), keys, last) {
      assert CarriedAt(storage, keys, acts, |front|);
    }
    if Carried(storage, keys, acts) {
      var k: nat :| CarriedAt(storage, keys, acts, k);
      if k < |front| {
        assert acts[..k] == front[..k];
        assert CarriedAt(storage, keys, front, k);
      }
    }
  }

  /** A session after a launch: until a push is carried nothing of main's changes; from then
      on this origin is the mirror's author. `held` is the seed handed out, if one was. */
  lemma {:induction false} SessionStory(w: World, origin: string, acts: seq<Act>, keys: set<string>)
    requires w.main.mirror != map[] && origin !in w.main.seeded
    requires (w.main.handedOut == map[] && keys == {})
          || (w.main.handedOut.Keys == {WINDOW} && keys == w.main.handedOut[WINDOW].Keys)
    ensures Session(w, origin, acts).storage == StorageAfter(w.storage, acts)
    ensures !Carried(w.storage, keys, acts) ==> Session(w, origin, acts).main == w.main
    ensures Carried(w.storage, keys, acts) ==>
              var main := Session(w, origin, acts).main;
              && main.author == Some(origin) && main.handedOut == map[] && main.mirror != map[]
              && (w.main.handedOut != map[] ==> origin in main.seeded)
  {
    if acts != [] {
      var front, last := acts[..|acts| - 1], acts[|acts| - 1];
      SessionStory(w, origin, front, keys);
      CarriedStep(w.storage, keys, front, last);
      assert acts == front + [last];
    }
  }

  /** The keys a launch's window has to send back: those of the seed, if it was handed one. */
  function KeysAsked(w: World, preload: Preload): set<string> {
    if AsksForSeed(w.storage, preload.faults) && preload.databaseOpen then w.main.mirror.Keys else {}
  }

  /** After a launch on a new origin, however its seed went, the same mirror is offered again
      at the next launch exactly when the page left its storage empty and no push carried
      the seed back (or, with no seed handed out, carried anything at all). */
  lemma OfferedAgainExactly(w: World, origin: string, preload: Preload, acts: seq<Act>)
    requires Unmoved(w, origin) && Enumerates(preload.order, w.main.mirror)
    ensures
      var loaded := Load(w, origin, preload);
      var next := Session(loaded, origin, acts);
      var left := StorageAfter(loaded.storage, acts);
      var carried := Carried(loaded.storage, KeysAsked(w, preload), acts);
      && (next.storage == map[] && ReadSeed(next.main, true, origin).Some? <==> left == map[] && !carried)
      && (!carried ==> ReadSeed(next.main, true, origin) == Some(w.main.mirror))
      && (carried ==> next.main.author == Some(origin))
      && (carried && KeysAsked(w, preload) != {} ==> origin in next.main.seeded)
  {
    var loaded := Load(w, origin, preload);
    SessionStory(loaded, origin, acts, KeysAsked(w, preload));
  }

  /** A rolled-back seed is not always retried. If the page writes anything in that session
      that does not bring back every seeded key, its push is refused; the next launch finds
      the document populated and asks for no seed; and its first push replaces the mirror. */
  lemma RolledBackThenLost(w: World, origin: string, first: Preload, second: Preload, written: Storage)
    requires Unmoved(w, origin) && Enumerates(first.order, w.main.mirror)
    requires KeysAsked(w, first) == w.main.mirror.Keys && Load(w, origin, first).storage == map[]
    requires written != map[] && !(w.main.mirror.Keys <= written.Keys)
    ensures
      var push := Push(true, true);
      var one := Session(Load(w, origin, first), origin, [Edit(written), push]);
      var two := Session(Load(one, origin, second), origin, [push]);
      && one == Load(w, origin, first).(storage := written)
      && two.storage == written && two.main.mirror == written && two.main.author == Some(origin)
  {
    var push := Push(true, true);
    var loaded := Load(w, origin, first);
    var acts := [Edit(written), push];
    assert acts[..1] == [Edit(written)] && [Edit(written)][..0] == [];
    assert Session(loaded, origin, [Edit(written)]) == loaded.(storage := written);
    var one := Session(loaded, origin, acts);
    assert one == Perform(loaded.(storage := written), origin, push);
    var reloaded := Load(one, origin, second);
    assert reloaded == World(written, one.main.(handedOut := map[]));
    assert [push][..0] == [];
    assert Session(reloaded, origin, [push]) == Perform(reloaded, origin, push);
  }

  // --------------------------------------------------- nothing lost in the move

  datatype Move = Start(preload: Preload) | Do(act: Act)

  function WorldAfter(w: World, origin: string, moves: seq<Move>): World {
    if moves == [] then w
    else
      var before, last := WorldAfter(w, origin, moves[..|moves| - 1]), moves[|moves| - 1];
      match last
      case Start(preload) => Load(before, origin, preload)
      case Do(act) => Perform(before, origin, act)
  }

  predicate IsEdit(move: Move) { move.Do? && move.act.Edit? }

  predicate Edited(moves: seq<Move>) {
    if moves == [] then false else IsEdit(moves[|moves| - 1]) || Edited(moves[..|moves| - 1])
  }

  /** The seeded keys that every write of the page has left in its storage. */
  function Kept(keys: set<string>, moves: seq<Move>): set<string> {
    if moves == [] then keys
    else
      var last := moves[|moves| - 1];
      var before := Kept(keys, moves[..|moves| - 1]);
      if IsEdit(last) then before * last.act.storage.Keys else before
  }

  /** Launches whose replays can be cleared, in which the page's first write, whatever it
      does, comes only after the seed has arrived. */
  ghost predicate PatientMoves(w: World, origin: string, moves: seq<Move>) {
    moves != [] ==>
      var front, last := moves[..|moves| - 1], moves[|moves| - 1];
      && PatientMoves(w, origin, front)
      && (last.Start? ==> Enumerates(last.preload.order, w.main.mirror) && !last.preload.faults.clearThrows)
      && (IsEdit(last) && !Edited(front) ==> WorldAfter(w, origin, front).storage != map[])
  }

  /** Before the page writes, main holds the whole seed and the document all of it or
      nothing; from then on both hold whatever of it the page has kept. */
  ghost predicate Moving(w: World, origin: string, seed: Storage, kept: set<string>, edited: bool) {
    if edited then kept <= w.storage.Keys && kept <= w.main.mirror.Keys
    else
      && kept == seed.Keys && seed != map[] && w.main.mirror == seed
      && (w.storage == seed || Unmoved(w, origin))
      && (WINDOW in w.main.handedOut ==> w.main.handedOut[WINDOW] == seed)
  }

  lemma LoadKeepsMoving(w: World, origin: string, seed: Storage, kept: set<string>, edited: bool, preload: Preload)
    requires Moving(w, origin, seed, kept, edited)
    requires Enumerates(preload.order, seed) && !preload.faults.clearThrows
    ensures Moving(Load(w, origin, preload), origin, seed, kept, edited)
  {
    if w.storage == map[] {
      var offered := ReadSeed(w.main.(handedOut := map[]), preload.databaseOpen, origin);
      TagTellsStorage(w.storage, if offered.Some? then Some(preload.order) else None, preload.faults);
    }
  }

  lemma PushKeepsMoving(w: World, origin: string, seed: Storage, kept: set<string>, edited: bool, databaseOpen: bool,
                        fits: bool)
    requires Moving(w, origin, seed, kept, edited)
    ensures Moving(Perform(w, origin, Push(databaseOpen, fits)), origin, seed, kept, edited)
  {
  }

  /** A write to a document the seed has reached, of anything. */
  lemma EditKeepsMoving(w: World, origin: string, seed: Storage, kept: set<string>, edited: bool, storage: Storage)
    requires Moving(w, origin, seed, kept, edited)
    ensures Moving(w.(storage := storage), origin, seed, kept * storage.Keys, true)
  {
  }

  lemma {:induction false} EveryMove(w: World, origin: string, moves: seq<Move>)
    requires Unmoved(w, origin) && w.main.handedOut == map[] && PatientMoves(w, origin, moves)
    ensures Moving(WorldAfter(w, origin, moves), origin, w.main.mirror, Kept(w.main.mirror.Keys, moves), Edited(moves))
  {
    if moves != [] {
      var front, last := moves[..|moves| - 1], moves[|moves| - 1];
      EveryMove(w, origin, front);
      var before, seed := WorldAfter(w, origin, front), w.main.mirror;
      var kept, edited := Kept(seed.Keys, front), Edited(front);
      match last
      case Start(preload) => LoadKeepsMoving(before, origin, seed, kept, edited, preload);
      case Do(Push(databaseOpen, fits)) => PushKeepsMoving(before, origin, seed, kept, edited, databaseOpen, fits);
      case Do(Edit(storage)) => EditKeepsMoving(before, origin, seed, kept, edited, storage);
    }
  }

  /** Over any number of launches, with any of them finding the database closed, the request
      failing or any write refused: if a failed replay can be cleared and the page's first
      write comes after the seed has arrived, then whatever it writes from then on, main's
      copy misses no key of the seed but those the page itself has dropped. */
  lemma NothingLostInTheMove(w: World, origin: string, moves: seq<Move>)
    requires Unmoved(w, origin) && w.main.handedOut == map[]
    requires PatientMoves(w, origin, moves)
    ensures Kept(w.main.mirror.Keys, moves) <= WorldAfter(w, origin, moves).main.mirror.Keys
    ensures !Edited(moves) ==> WorldAfter(w, origin, moves).main.mirror == w.main.mirror
  {
    EveryMove(w, origin, moves);
  }
}
