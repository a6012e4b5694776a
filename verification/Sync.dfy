/** Collecting saves and restoring them: what the sync state records, and why a restore loses
    no save that was not passed on. Saves are known by their identity hashes; no saves have the
    empty identity. */
module Sync {

  type Key = string
  type Id = string

  /** What the files hold for each game, and the state blob: the identity each game last synced,
      and what an unmanaged restore wrote and replaced. */
  datatype World = World(local: map<Key, Id>, synced: map<Key, Id>, restored: map<Key, (Id, Id)>)

  /** A call for one game, with the other games whose saves it reads; `units` are the ones a
      restore has a unit for. */
  datatype Request = Request(game: Key, companions: seq<Key>, units: set<Key>, managed: bool, overwrite: bool)

  predicate IsRequest(req: Request) {
    req.game !in req.companions
  }

  datatype Result = Result(identity: Id, changed: bool, again: bool, conflict: bool)

  function Get(m: map<Key, Id>, k: Key): Id {
    if k in m then m[k] else ""
  }

  /** Records `id`, or nothing when there is nothing to record. */
  function Put(m: map<Key, Id>, k: Key, id: Id): (r: map<Key, Id>)
    ensures Get(r, k) == id && forall j {:trigger Get(r, j)} :: j != k ==> Get(r, j) == Get(m, j)
  {
    if id == "" then m - {k} else m[k := id]
  }

  /* ---- Collect ----------------------------------------------------------------------------------------- */

  /** What the state records of the first `n` companions: the saves found, where there are any. */
  function CompanionsSynced(w: World, cs: seq<Key>, n: nat): map<Key, Id>
    requires n <= |cs|
  {
    if n == 0 then w.synced
    else
      var m := CompanionsSynced(w, cs, n - 1);
      if Get(w.local, cs[n - 1]) == "" then m else m[cs[n - 1] := Get(w.local, cs[n - 1])]
  }

  /** The saves an unmanaged restore replaced are back, and the ones it wrote are gone. */
  predicate Reverted(w: World, game: Key, id: Id) {
    game in w.restored && id != w.restored[game].0 && id == w.restored[game].1
  }

  function AfterCollect(w: World, req: Request): World {
    var id := Get(w.local, req.game);
    var m := CompanionsSynced(w, req.companions, |req.companions|);
    if Reverted(w, req.game, id) then w.(synced := m)
    else w.(synced := Put(m, req.game, id), restored := w.restored - {req.game})
  }

  function CollectResult(w: World, req: Request): Result {
    var id := Get(w.local, req.game);
    var again := Reverted(w, req.game, id);
    var last := CompanionsSynced(w, req.companions, |req.companions|);
    Result(id, !again && Get(last, req.game) != id, again, false)
  }

  /* ---- Restore --------------------------------------------------------------------------------------------- */

  /** The game's saves changed since the last sync, and are not the ones coming. */
  predicate Blocks(local: Id, incoming: Id, last: Id, overwrite: bool) {
    local != incoming && local != "" && local != last && !overwrite
  }

  /** The keys a restore writes. */
  predicate Written(req: Request, k: Key) {
    k == req.game || (k in req.companions && k in req.units)
  }

  predicate BlockedAt(w: World, req: Request, incoming: map<Key, Id>, k: Key) {
    Written(req, k) && Blocks(Get(w.local, k), Get(incoming, k), Get(w.synced, k), req.overwrite)
  }

  predicate Blocked(w: World, req: Request, incoming: map<Key, Id>) {
    BlockedAt(w, req, incoming, req.game)
      || exists k {:trigger BlockedAt(w, req, incoming, k)} :: k in req.companions && BlockedAt(w, req, incoming, k)
  }

  /** `m` with the first `n` companions that have units set to what came. */
  function CompanionsPut(m: map<Key, Id>, req: Request, incoming: map<Key, Id>, n: nat): map<Key, Id>
    requires n <= |req.companions|
  {
    if n == 0 then m
    else
      var k, r := req.companions[n - 1], CompanionsPut(m, req, incoming, n - 1);
      if k in req.units then Put(r, k, Get(incoming, k)) else r
  }

  function AllPut(m: map<Key, Id>, req: Request, incoming: map<Key, Id>): map<Key, Id> {
    Put(CompanionsPut(m, req, incoming, |req.companions|), req.game, Get(incoming, req.game))
  }

  function AfterRestore(w: World, req: Request, incoming: map<Key, Id>): World {
    if Blocked(w, req, incoming) then w
    else
      World(AllPut(w.local, req, incoming), AllPut(w.synced, req, incoming),
            if req.managed then w.restored
            else w.restored[req.game := (Get(incoming, req.game), Get(w.local, req.game))])
  }

  /** Every written key holds what came, and every other is as it was. */
  lemma {:induction false} CompanionsPutAt(m: map<Key, Id>, req: Request, incoming: map<Key, Id>, n: nat, k: Key)
    requires n <= |req.companions|
    ensures Get(CompanionsPut(m, req, incoming, n), k) == if k in req.companions[..n] && k in req.units
      then Get(incoming, k) else Get(m, k)
  {
    if n > 0 {
      CompanionsPutAt(m, req, incoming, n - 1, k);
      assert req.companions[..n] == req.companions[..n - 1] + [req.companions[n - 1]];
    }
  }

  lemma AllPutAt(m: map<Key, Id>, req: Request, incoming: map<Key, Id>, k: Key)
    ensures Get(AllPut(m, req, incoming), k) == if Written(req, k) then Get(incoming, k) else Get(m, k)
  {
    CompanionsPutAt(m, req, incoming, |req.companions|, k);
    assert req.companions[..|req.companions|] == req.companions;
  }

  lemma {:induction false} CompanionsSyncedAt(w: World, cs: seq<Key>, n: nat, k: Key)
    requires n <= |cs|
    ensures Get(CompanionsSynced(w, cs, n), k)
         == if k in cs[..n] && Get(w.local, k) != "" then Get(w.local, k) else Get(w.synced, k)
  {
    if n > 0 {
      CompanionsSyncedAt(w, cs, n - 1, k);
      assert cs[..n] == cs[..n - 1] + [cs[n - 1]];
    }
  }

  /** What a collect leaves on record for a key. */
  lemma CollectAt(w: World, req: Request, k: Key)
    requires IsRequest(req)
    ensures Get(AfterCollect(w, req).synced, k)
         == if k == req.game then (if Reverted(w, k, Get(w.local, k)) then Get(w.synced, k) else Get(w.local, k))
            else if k in req.companions && Get(w.local, k) != "" then Get(w.local, k)
            else Get(w.synced, k)
  {
    CompanionsSyncedAt(w, req.companions, |req.companions|, k);
    assert req.companions[..|req.companions|] == req.companions;
  }

  /** A restore for these would lose the saves of `k`: it writes them, they are neither the ones last synced nor the
      ones coming, and there are some. */
  predicate Loses(w: World, req: Request, incoming: map<Key, Id>, k: Key) {
    && (k == req.game || (k in req.companions && k in req.units))
    && Get(w.local, k) != "" && Get(w.local, k) != Get(w.synced, k) && Get(w.local, k) != Get(incoming, k)
  }

  lemma LosesIff(w: World, req: Request, incoming: map<Key, Id>, k: Key)
    ensures BlockedAt(w, req, incoming, k) <==> !req.overwrite && Loses(w, req, incoming, k)
  {
  }

  /** A restore is refused exactly when it would lose saves and is not told to overwrite. */
  lemma ConflictIff(w: World, req: Request, incoming: map<Key, Id>)
    ensures Blocked(w, req, incoming) <==>
      !req.overwrite && exists k {:trigger Loses(w, req, incoming, k)} :: Loses(w, req, incoming, k)
  {
    if Blocked(w, req, incoming) {
      var k :| BlockedAt(w, req, incoming, k);
      LosesIff(w, req, incoming, k);
    }
    if k :| Loses(w, req, incoming, k) {
      LosesIff(w, req, incoming, k);
    }
  }

  /** What a restore that goes through leaves: of every key it writes what came, as its saves and on record. */
  lemma RestoreAt(w: World, req: Request, incoming: map<Key, Id>, k: Key)
    requires req.overwrite || forall j {:trigger Loses(w, req, incoming, j)} :: !Loses(w, req, incoming, j)
    ensures var v := AfterRestore(w, req, incoming);
      if k == req.game || (k in req.companions && k in req.units)
      then Get(v.local, k) == Get(v.synced, k) == Get(incoming, k)
      else Get(v.local, k) == Get(w.local, k) && Get(v.synced, k) == Get(w.synced, k)
  {
    ConflictIff(w, req, incoming);
    AllPutAt(w.local, req, incoming, k);
    AllPutAt(w.synced, req, incoming, k);
  }

  /* ---- The calls, in place ------------------------------------------------------------------------------------ */

  class Store {
    var local: map<Key, Id>
    var synced: map<Key, Id>
    var restored: map<Key, (Id, Id)>

    function Now(): World
      reads this
    {
      World(local, synced, restored)
    }

    /** Records the game's identity, unless an unmanaged restore's saves were replaced by the old
        ones: then it asks for the restore again. */
    method Finish(game: Key, id: Id, collecting: bool) returns (r: Result)
      modifies this
      ensures local == old(local)
      ensures r.identity == id && r.again == (collecting && Reverted(old(Now()), game, id)) && !r.conflict
      ensures r.changed == (!r.again && Get(old(synced), game) != id)
      ensures synced == if r.again then old(synced) else Put(old(synced), game, id)
      ensures restored == if collecting && !r.again then old(restored) - {game} else old(restored)
    {
      var changed := Get(synced, game) != id;
      var again := false;
      if collecting && game in restored {
        var survived := restored[game].0 == id;
        if !survived && restored[game].1 == id {
          again := true;
          changed := false;
        } else {
          restored := restored - {game};
        }
      }
      if !again {
        synced := Put(synced, game, id);
      }
      assert collecting && game !in old(restored) ==> restored - {game} == restored;
      r := Result(id, changed, again, false);
    }

    method Collect(req: Request) returns (r: Result)
      requires IsRequest(req)
      modifies this
      ensures Now() == AfterCollect(old(Now()), req) && r == CollectResult(old(Now()), req)
    {
      ghost var w := Now();
      for c := 0 to |req.companions|
        invariant local == w.local && restored == w.restored
        invariant synced == CompanionsSynced(w, req.companions, c)
      {
        var k := req.companions[c];
        if Get(local, k) != "" {
          synced := synced[k := Get(local, k)];
        }
      }
      r := Finish(req.game, Get(local, req.game), true);
    }

    /** Whether the restore must not write, looking at the game and at every companion it has a
        unit for. */
    method CheckRestore(req: Request, incoming: map<Key, Id>) returns (blocked: bool)
      requires IsRequest(req)
      ensures blocked == Blocked(Now(), req, incoming)
    {
      blocked := Blocks(Get(local, req.game), Get(incoming, req.game), Get(synced, req.game), req.overwrite);
      for c := 0 to |req.companions|
        invariant blocked == (BlockedAt(Now(), req, incoming, req.game)
                              || exists k {:trigger BlockedAt(Now(), req, incoming, k)} ::
                                k in req.companions[..c] && BlockedAt(Now(), req, incoming, k))
      {
        var k := req.companions[c];
        assert req.companions[..c + 1] == req.companions[..c] + [k];
        if k in req.units {
          blocked := Blocks(Get(local, k), Get(incoming, k), Get(synced, k), req.overwrite) || blocked;
        }
        assert BlockedAt(Now(), req, incoming, k)
          == (k in req.units && Blocks(Get(local, k), Get(incoming, k), Get(synced, k), req.overwrite));
      }
      assert req.companions[..|req.companions|] == req.companions;
    }

    method Restore(req: Request, incoming: map<Key, Id>) returns (r: Result)
      requires IsRequest(req)
      modifies this
      ensures Now() == AfterRestore(old(Now()), req, incoming)
      ensures r.conflict == Blocked(old(Now()), req, incoming)
      ensures r.conflict <==>
        !req.overwrite && exists k {:trigger Loses(old(Now()), req, incoming, k)} :: Loses(old(Now()), req, incoming, k)
      ensures !r.conflict ==> r == Result(Get(incoming, req.game), false, false, false)
    {
      ghost var w := Now();
      ConflictIff(w, req, incoming);
      var id, mine := Get(incoming, req.game), Get(local, req.game);
      var blocked := CheckRestore(req, incoming);
      if blocked {
        return Result(id, false, false, true);
      }
      for c := 0 to |req.companions|
        invariant restored == w.restored
        invariant local == CompanionsPut(w.local, req, incoming, c)
          && synced == CompanionsPut(w.synced, req, incoming, c)
      {
        var k := req.companions[c];
        if k in req.units {
          local := Put(local, k, Get(incoming, k));
          synced := Put(synced, k, Get(incoming, k));
        }
      }
      local := Put(local, req.game, id);
      if !req.managed {
        restored := restored[req.game := (id, mine)];
      }
      r := Finish(req.game, id, false);
      r := r.(changed := false);
    }
  }

  /* ---- Runs ------------------------------------------------------------------------------------------------------ */

  /** Playing a game changes its saves; the calls pass back the state the last one left. */
  datatype Step = Play(key: Key, id: Id) | Collect(req: Request) | Restore(req: Request, incoming: map<Key, Id>)

  predicate IsStep(step: Step) {
    match step case Play(_, _) => true case Collect(req) => IsRequest(req) case Restore(req, _) => IsRequest(req)
  }

  function After(w: World, step: Step): World {
    match step
    case Play(k, id) => w.(local := Put(w.local, k, id))
    case Collect(req) => AfterCollect(w, req)
    case Restore(req, incoming) => AfterRestore(w, req, incoming)
  }

  /** Saves of `k` with identity `id` are elsewhere too once the step is done: a collect passed them
      on, or a restore was given them. */
  predicate PassedOn(w: World, step: Step, k: Key, id: Id) {
    match step
    case Play(_, _) => false
    case Collect(req) => id == Get(w.local, k)
      && ((k == req.game && !CollectResult(w, req).again) || k in req.companions)
    case Restore(req, incoming) => !Blocked(w, req, incoming) && Written(req, k) && id == Get(incoming, k)
  }

  ghost predicate StepAt(states: seq<World>, steps: seq<Step>, i: nat) {
    i < |steps| && i + 1 < |states| && states[i + 1] == After(states[i], steps[i]) && IsStep(steps[i])
  }

  ghost predicate IsRun(states: seq<World>, steps: seq<Step>) {
    && |states| == |steps| + 1 && states[0].synced == map[] && states[0].restored == map[]
    && forall i: nat {:trigger StepAt(states, steps, i)} :: i < |steps| ==> StepAt(states, steps, i)
  }

  ghost predicate PassedAt(states: seq<World>, steps: seq<Step>, i: nat, k: Key, id: Id) {
    i < |steps| && i < |states| && PassedOn(states[i], steps[i], k, id)
  }

  /** Some step before the `n`th passed them on. */
  ghost predicate Safe(states: seq<World>, steps: seq<Step>, n: nat, k: Key, id: Id) {
    exists i: nat {:trigger PassedAt(states, steps, i, k, id)} :: i < n && PassedAt(states, steps, i, k, id)
  }

  /** A step records as synced only what it passes on. */
  lemma RecordsPassed(w: World, step: Step, k: Key)
    requires IsStep(step)
    ensures var id := Get(After(w, step).synced, k);
            id == Get(w.synced, k) || id == "" || PassedOn(w, step, k, id)
  {
    match step {
      case Play(_, _) =>
      case Collect(req) => CollectAt(w, req, k);
      case Restore(req, incoming) => AllPutAt(w.synced, req, incoming, k);
    }
  }

  /** Whatever the state has as synced was passed on. */
  lemma {:induction false} SyncedIsSafe(states: seq<World>, steps: seq<Step>, n: nat, k: Key)
    requires IsRun(states, steps) && n <= |steps| && Get(states[n].synced, k) != ""
    ensures Safe(states, steps, n, k, Get(states[n].synced, k))
  {
    if n > 0 {
      assert StepAt(states, steps, n - 1);
      RecordsPassed(states[n - 1], steps[n - 1], k);
      var id := Get(states[n].synced, k);
      if id == Get(states[n - 1].synced, k) {
        SyncedIsSafe(states, steps, n - 1, k);
        var i: nat :| i < n - 1 && PassedAt(states, steps, i, k, id);
      } else {
        assert PassedAt(states, steps, n - 1, k, id);
      }
    }
  }

  /** No lost update: over every run, saves that a restore replaces without being told to are the
      ones that come anyway, or were passed on before. */
  lemma NoLostUpdate(states: seq<World>, steps: seq<Step>, n: nat, req: Request, incoming: map<Key, Id>, k: Key)
    requires IsRun(states, steps) && n < |steps| && steps[n] == Restore(req, incoming) && !req.overwrite
    requires Get(states[n + 1].local, k) != Get(states[n].local, k) && Get(states[n].local, k) != ""
    ensures Get(states[n].local, k) == Get(states[n].synced, k)
    ensures Safe(states, steps, n, k, Get(states[n].local, k))
  {
    assert StepAt(states, steps, n);
    var w := states[n];
    AllPutAt(w.local, req, incoming, k);
    assert Written(req, k) && !BlockedAt(w, req, incoming, k);
    SyncedIsSafe(states, steps, n, k);
  }

  /** All the saves the restore writes are there already. */
  ghost predicate There(w: World, req: Request, incoming: map<Key, Id>) {
    forall k {:trigger Get(incoming, k)} :: k == req.game || (k in req.companions && k in req.units) ==>
      Get(w.local, k) == Get(incoming, k)
  }

  /** Over every run a restore of saves that are there already goes through, told to overwrite or not, and leaves
      every key's saves as they are and those it writes on record. */
  lemma AlreadyThere(states: seq<World>, steps: seq<Step>, n: nat, req: Request, incoming: map<Key, Id>, k: Key)
    requires IsRun(states, steps) && n < |steps| && steps[n] == Restore(req, incoming)
    requires There(states[n], req, incoming)
    ensures !Blocked(states[n], req, incoming) && Get(states[n + 1].local, k) == Get(states[n].local, k)
    ensures Get(states[n + 1].synced, k) ==
      if k == req.game || (k in req.companions && k in req.units) then Get(incoming, k) else Get(states[n].synced, k)
  {
    assert StepAt(states, steps, n);
    var w := states[n];
    forall j ensures !Loses(w, req, incoming, j) {
      assert Get(incoming, j) == Get(incoming, j);
    }
    ConflictIff(w, req, incoming);
    RestoreAt(w, req, incoming, k);
  }

  /** A restore that went through goes through again. */
  lemma RestoreAgain(w: World, req: Request, incoming: map<Key, Id>)
    requires !Blocked(w, req, incoming)
    ensures There(AfterRestore(w, req, incoming), req, incoming)
    ensures !Blocked(AfterRestore(w, req, incoming), req, incoming)
  {
    var v := AfterRestore(w, req, incoming);
    ConflictIff(w, req, incoming);
    ConflictIff(v, req, incoming);
    forall k | k == req.game || (k in req.companions && k in req.units) ensures Get(v.local, k) == Get(incoming, k) {
      RestoreAt(w, req, incoming, k);
    }
  }

  /* ---- Saves that an unmanaged restore replaced ------------------------------------ */

  /** A collect records the changed saves of a key exactly when it names the key as a companion and finds some, or is
      for the key and the state has no record that an unmanaged restore replaced those saves. */
  lemma CollectRecordsIff(w: World, req: Request, k: Key)
    requires IsRequest(req) && Get(w.local, k) != Get(w.synced, k)
    ensures Get(AfterCollect(w, req).synced, k) == Get(w.local, k)
       <==> (k in req.companions && Get(w.local, k) != "") || (k == req.game && !Reverted(w, k, Get(w.local, k)))
  {
    CollectAt(w, req, k);
  }

  /** The step is a restore for `k` itself, unmanaged and not refused: such steps alone leave a record. */
  predicate Replaces(w: World, step: Step, k: Key) {
    step.Restore? && step.req.game == k && !step.req.managed && !Blocked(w, step.req, step.incoming)
  }

  /** The step leaves the record that saves `new'` replaced `old'`: it replaces none, nor is a collect for `k` that
      finds other saves than those replaced. */
  predicate KeepsRecord(w: World, step: Step, k: Key, new': Id, old': Id) {
    && !Replaces(w, step, k)
    && (step.Collect? && step.req.game == k ==> Get(w.local, k) == old' && old' != new')
  }

  ghost predicate KeepsRecordAt(states: seq<World>, steps: seq<Step>, i: nat, k: Key, new': Id, old': Id) {
    i < |states| && i < |steps| && KeepsRecord(states[i], steps[i], k, new', old')
  }

  /** Step `j` replaced `old'` by `new'`, and every step from then to the `n`th left the record of it. */
  ghost predicate OnRecord(states: seq<World>, steps: seq<Step>, j: nat, n: nat, k: Key, new': Id, old': Id) {
    && j < n && j < |steps| && j < |states| && Replaces(states[j], steps[j], k)
    && Get(steps[j].incoming, k) == new' && Get(states[j].local, k) == old'
    && forall i: nat {:trigger KeepsRecordAt(states, steps, i, k, new', old')} :: j < i < n ==>
       KeepsRecordAt(states, steps, i, k, new', old')
  }

  ghost predicate Standing(states: seq<World>, steps: seq<Step>, n: nat, k: Key, new': Id, old': Id) {
    exists j: nat {:trigger OnRecord(states, steps, j, n, k, new', old')} ::
      OnRecord(states, steps, j, n, k, new', old')
  }

  predicate HasRecord(w: World, k: Key, new': Id, old': Id) {
    k in w.restored && w.restored[k] == (new', old')
  }

  /** What one step does to the record of a key. */
  lemma RecordAfter(w: World, step: Step, k: Key, new': Id, old': Id)
    ensures HasRecord(After(w, step), k, new', old')
       <==> if Replaces(w, step, k) then Get(step.incoming, k) == new' && Get(w.local, k) == old'
            else HasRecord(w, k, new', old') && KeepsRecord(w, step, k, new', old')
  {
  }

  lemma OnRecordNext(states: seq<World>, steps: seq<Step>, j: nat, n: nat, k: Key, new': Id, old': Id)
    requires j < n < |steps| && n < |states|
    ensures OnRecord(states, steps, j, n + 1, k, new', old') <==>
      OnRecord(states, steps, j, n, k, new', old') && KeepsRecord(states[n], steps[n], k, new', old')
  {
    if OnRecord(states, steps, j, n + 1, k, new', old') {
      assert KeepsRecordAt(states, steps, n, k, new', old');
    }
  }

  /** Over every run the state has on record that `new'` replaced `old'` exactly when an unmanaged restore for the key
      itself did that, and every step since left the record. */
  lemma {:induction false} RecordIff(states: seq<World>, steps: seq<Step>, n: nat, k: Key, new': Id, old': Id)
    requires IsRun(states, steps) && n <= |steps|
    ensures HasRecord(states[n], k, new', old') <==> Standing(states, steps, n, k, new', old')
  {
    if n > 0 {
      var m: nat := n - 1;
      RecordIff(states, steps, m, k, new', old');
      assert StepAt(states, steps, m);
      RecordAfter(states[m], steps[m], k, new', old');
      if Standing(states, steps, n, k, new', old') {
        var j: nat :| OnRecord(states, steps, j, n, k, new', old');
        if j < m {
          OnRecordNext(states, steps, j, m, k, new', old');
        }
      }
      if HasRecord(states[n], k, new', old') {
        if Replaces(states[m], steps[m], k) {
          assert OnRecord(states, steps, m, n, k, new', old');
        } else {
          var j: nat :| OnRecord(states, steps, j, m, k, new', old');
          OnRecordNext(states, steps, j, m, k, new', old');
        }
      }
    }
  }

  /** Some unmanaged restore for the key itself replaced these saves by others, and its record stands. */
  ghost predicate Guarded(states: seq<World>, steps: seq<Step>, n: nat, k: Key, id: Id) {
    exists new' {:trigger Standing(states, steps, n, k, new', id)} ::
      new' != id && Standing(states, steps, n, k, new', id)
  }

  lemma GuardedIff(states: seq<World>, steps: seq<Step>, n: nat, k: Key, id: Id)
    requires IsRun(states, steps) && n <= |steps|
    ensures Guarded(states, steps, n, k, id) <==> Reverted(states[n], k, id)
  {
    if Guarded(states, steps, n, k, id) {
      var new' :| new' != id && Standing(states, steps, n, k, new', id);
      RecordIff(states, steps, n, k, new', id);
    }
    if Reverted(states[n], k, id) {
      RecordIff(states, steps, n, k, states[n].restored[k].0, id);
    }
  }

  /** Over every run a collect asks for a restore again exactly when the saves it finds are ones such a restore
      replaced. */
  lemma AgainIff(states: seq<World>, steps: seq<Step>, n: nat, req: Request)
    requires IsRun(states, steps) && n <= |steps|
    ensures CollectResult(states[n], req).again <==> Guarded(states, steps, n, req.game, Get(states[n].local, req.game))
  {
    GuardedIff(states, steps, n, req.game, Get(states[n].local, req.game));
  }

  /** A collect calls its game's saves changed exactly when they are not the ones on record and it does not ask for a
      restore again. */
  lemma ChangedIff(states: seq<World>, steps: seq<Step>, n: nat, req: Request)
    requires IsRun(states, steps) && n <= |steps| && IsRequest(req)
    ensures var w, id := states[n], Get(states[n].local, req.game);
      CollectResult(w, req).changed <==> Get(w.synced, req.game) != id && !Guarded(states, steps, n, req.game, id)
  {
    GuardedIff(states, steps, n, req.game, Get(states[n].local, req.game));
    CompanionsSyncedAt(states[n], req.companions, |req.companions|, req.game);
  }

  /** Step `from` is an unmanaged restore, not refused, that replaced saves of `k`, its own or a companion's, by
      others. */
  ghost predicate Replaced(states: seq<World>, steps: seq<Step>, from: nat, k: Key) {
    && from < |steps| && from < |states| && steps[from].Restore? && !steps[from].req.managed
    && !Blocked(states[from], steps[from].req, steps[from].incoming) && Written(steps[from].req, k)
    && Get(steps[from].incoming, k) != Get(states[from].local, k)
  }

  /** Over every run, when saves that an unmanaged restore replaced are back and a collect looks at them, they stay
      unrecorded exactly when the collect is for their key, and they are ones that an unmanaged restore for that key
      itself replaced, whose record stands. */
  lemma ReplacedRecordedIff(states: seq<World>, steps: seq<Step>, from: nat, n: nat, req: Request, k: Key)
    requires IsRun(states, steps) && from < n < |steps| && Replaced(states, steps, from, k) && steps[n] == Collect(req)
    requires k == req.game || (k in req.companions && Get(states[n].local, k) != "")
    requires Get(states[n].local, k) == Get(states[from].local, k) != Get(states[n].synced, k)
    ensures Get(states[n + 1].synced, k) != Get(states[from].local, k)
       <==> k == req.game && Guarded(states, steps, n, k, Get(states[from].local, k))
  {
    assert StepAt(states, steps, n);
    CollectRecordsIff(states[n], req, k);
    GuardedIff(states, steps, n, k, Get(states[n].local, k));
  }

  /** The replacing restore's own record stands exactly when it was for the key itself and every step since left it. */
  lemma OwnRecordIff(states: seq<World>, steps: seq<Step>, from: nat, n: nat, k: Key)
    requires Replaced(states, steps, from, k) && from < n <= |steps|
    ensures var new', old' := Get(steps[from].incoming, k), Get(states[from].local, k);
      OnRecord(states, steps, from, n, k, new', old') <==>
        k == steps[from].req.game
        && forall i: nat {:trigger KeepsRecordAt(states, steps, i, k, new', old')} :: from < i < n ==>
           KeepsRecordAt(states, steps, i, k, new', old')
  {
  }

  /** When no other restore's record of those saves stands, that is the whole condition: the restore was for the key,
      every step since left its record, and the collect is for the key. */
  lemma ReplacedStayIff(states: seq<World>, steps: seq<Step>, from: nat, n: nat, req: Request, k: Key)
    requires IsRun(states, steps) && from < n < |steps| && Replaced(states, steps, from, k) && steps[n] == Collect(req)
    requires k == req.game || (k in req.companions && Get(states[n].local, k) != "")
    requires Get(states[n].local, k) == Get(states[from].local, k) != Get(states[n].synced, k)
    requires forall j: nat, new' {:trigger OnRecord(states, steps, j, n, k, new', Get(states[from].local, k))} ::
      j != from ==> !OnRecord(states, steps, j, n, k, new', Get(states[from].local, k))
    ensures var new', old' := Get(steps[from].incoming, k), Get(states[from].local, k);
      Get(states[n + 1].synced, k) != old' <==>
        k == steps[from].req.game && k == req.game
        && forall i: nat {:trigger KeepsRecordAt(states, steps, i, k, new', old')} :: from < i < n ==>
           KeepsRecordAt(states, steps, i, k, new', old')
  {
    var new', old' := Get(steps[from].incoming, k), Get(states[from].local, k);
    ReplacedRecordedIff(states, steps, from, n, req, k);
    OwnRecordIff(states, steps, from, n, k);
    assert Guarded(states, steps, n, k, old') <==> OnRecord(states, steps, from, n, k, new', old') by {
      if OnRecord(states, steps, from, n, k, new', old') {
        assert Standing(states, steps, n, k, new', old');
      }
      if Guarded(states, steps, n, k, old') {
        var m :| m != old' && Standing(states, steps, n, k, m, old');
        var j: nat :| OnRecord(states, steps, j, n, k, m, old');
      }
    }
  }

  /** The state has what an unmanaged restore wrote for the game, and that it is synced. */
  predicate Recorded(w: World, game: Key, new': Id, old': Id) {
    game in w.restored && w.restored[game] == (new', old') && Get(w.synced, game) == new'
  }

  /** The step leaves that as it is: a collect of the game that finds the replaced saves, or one that
      finds none of them, or those written, as a companion's; a restore refused, or of the same saves. */
  predicate Leaves(w: World, step: Step, game: Key, new': Id, old': Id) {
    match step
    case Play(_, _) => true
    case Collect(req) =>
      && (req.game == game ==> Reverted(w, game, Get(w.local, game)))
      && (game in req.companions ==> Get(w.local, game) == "" || Get(w.local, game) == new')
    case Restore(req, incoming) =>
      || Blocked(w, req, incoming)
      || ((Written(req, game) ==> Get(incoming, game) == new')
          && (req.game == game && !req.managed ==> Get(w.local, game) == old'))
  }

  /** Those steps and no others. */
  lemma LeavesIff(w: World, step: Step, game: Key, new': Id, old': Id)
    requires Recorded(w, game, new', old') && IsStep(step)
    ensures Recorded(After(w, step), game, new', old') <==> Leaves(w, step, game, new', old')
  {
    match step {
      case Play(_, _) =>
      case Collect(req) => CollectAt(w, req, game);
      case Restore(req, incoming) => AllPutAt(w.synced, req, incoming, game);
    }
  }

  ghost predicate LeavesAt(states: seq<World>, steps: seq<Step>, game: Key, new': Id, old': Id, i: nat) {
    i < |states| && i < |steps| && Leaves(states[i], steps[i], game, new', old')
  }

  /** After an unmanaged restore every collect that finds the replaced saves asks for the restore
      again, however often, and the record stays at what the restore wrote. */
  lemma {:induction false} AskedAgain(states: seq<World>, steps: seq<Step>, from: nat, n: nat, req: Request,
                                      incoming: map<Key, Id>,
                                      old': Id)
    requires IsRun(states, steps) && from < n <= |steps| && old' == Get(states[from].local, req.game)
    requires steps[from] == Restore(req, incoming) && !req.managed && !Blocked(states[from], req, incoming)
    requires forall i: nat {:trigger LeavesAt(states, steps, req.game, Get(incoming, req.game), old', i)} ::
               from < i < n ==> LeavesAt(states, steps, req.game, Get(incoming, req.game), old', i)
    ensures var g, new' := req.game, Get(incoming, req.game);
            && Recorded(states[n], g, new', old')
            && forall c: Request {:trigger CollectResult(states[n], c)} ::
                 c.game == g && Get(states[n].local, g) == old' && old' != new' ==> CollectResult(states[n], c).again
    decreases n
  {
    var g, new' := req.game, Get(incoming, req.game);
    if n == from + 1 {
      assert StepAt(states, steps, from);
      AllPutAt(states[from].synced, req, incoming, g);
    } else {
      AskedAgain(states, steps, from, n - 1, req, incoming, old');
      assert StepAt(states, steps, n - 1) && LeavesAt(states, steps, g, new', old', n - 1);
      LeavesIff(states[n - 1], steps[n - 1], g, new', old');
    }
  }

  /** Naming the game as another's companion is different: a collect for the other game records the
      replaced saves as synced. */
  lemma CompanionForgets()
    ensures exists states: seq<World>, steps: seq<Step> {:trigger IsRun(states, steps)} ::
              && IsRun(states, steps) && |steps| == 4
              && steps[1] == Restore(Request("a", [], {}, false, true), map["a" := "new"])
              && steps[3] == Collect(Request("b", ["a"], {}, false, false))
              && states[3].restored == map["a" := ("new", "old")] && Get(states[3].synced, "a") == "new"
              && Get(states[3].local, "a") == "old" && Get(states[4].synced, "a") == "old"
  {
    var s0 := World(map[], map[], map[]);
    var restore := Restore(Request("a", [], {}, false, true), map["a" := "new"]);
    var collect := Collect(Request("b", ["a"], {}, false, false));
    var steps := [Play("a", "old"), restore, Play("a", "old"), collect];
    var s1 := After(s0, steps[0]);
    var s2 := After(s1, steps[1]);
    var s3 := After(s2, steps[2]);
    var s4 := After(s3, steps[3]);
    var states := [s0, s1, s2, s3, s4];
    AllPutAt(s1.synced, restore.req, restore.incoming, "a");
    CollectAt(s3, collect.req, "a");
    forall i: nat | i < 4 ensures StepAt(states, steps, i) {
    }
    assert IsRun(states, steps);
  }

  /** What a restore for "b" does to a companion "a" whose saves are the synced ones. */
  lemma ReplacedAsCompanion(w: World)
    requires Get(w.local, "a") == Get(w.synced, "a") == "old" && Get(w.local, "b") == "" && w.restored == map[]
    ensures var req, incoming := Request("b", ["a"], {"a"}, false, false), map["a" := "new", "b" := "x"];
            var v := AfterRestore(w, req, incoming);
            && !Blocked(w, req, incoming) && Get(v.local, "a") == Get(v.synced, "a") == "new" && "a" !in v.restored
  {
    hide AllPut, CompanionsPut;
    var req, incoming := Request("b", ["a"], {"a"}, false, false), map["a" := "new", "b" := "x"];
    AllPutAt(w.local, req, incoming, "a");
    AllPutAt(w.synced, req, incoming, "a");
  }

  lemma OwnCollect(w: World)
    requires "a" !in w.restored
    ensures var req := Request("a", [], {}, false, false);
            && Get(AfterCollect(w, req).synced, "a") == Get(w.local, "a") && AfterCollect(w, req).local == w.local
            && AfterCollect(w, req).restored == w.restored && !CollectResult(w, req).again
  {
    CollectAt(w, Request("a", [], {}, false, false), "a");
  }

  /** Saves replaced as a companion's leave no record: the key's own collect records them, and asks for nothing.
      Nothing in this run is told to overwrite. */
  lemma CompanionReplaced()
    ensures exists states: seq<World>, steps: seq<Step> {:trigger IsRun(states, steps)} ::
              && IsRun(states, steps) && |steps| == 5
              && steps[2] == Restore(Request("b", ["a"], {"a"}, false, false), map["a" := "new", "b" := "x"])
              && steps[4] == Collect(Request("a", [], {}, false, false)) && Replaced(states, steps, 2, "a")
              && Get(states[2].local, "a") == "old" == Get(states[4].local, "a") && Get(states[4].synced, "a") == "new"
              && !CollectResult(states[4], steps[4].req).again && Get(states[5].synced, "a") == "old"
  {
    hide AfterCollect, AfterRestore, CollectResult, Blocked, Put;
    var s0 := World(map[], map[], map[]);
    var own := Request("a", [], {}, false, false);
    var restore := Restore(Request("b", ["a"], {"a"}, false, false), map["a" := "new", "b" := "x"]);
    var steps := [Play("a", "old"), Collect(own), restore, Play("a", "old"), Collect(own)];
    var s1 := After(s0, steps[0]);
    var s2 := After(s1, steps[1]);
    var s3 := After(s2, steps[2]);
    var s4 := After(s3, steps[3]);
    var s5 := After(s4, steps[4]);
    var states := [s0, s1, s2, s3, s4, s5];
    OwnCollect(s1);
    assert Get(s1.local, "b") == Get(s0.local, "b");
    ReplacedAsCompanion(s2);
    OwnCollect(s4);
    forall i: nat | i < 5 ensures StepAt(states, steps, i) {
    }
    assert IsRun(states, steps);
  }
}
