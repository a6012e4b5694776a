/** What the operations on a GameCube card amount to: over every run of injects and deletes a sealed card
    shows a directory, its two copies of each table stay sealed and alike, and the directory settles each answer. */
module GameCubeTheorems {
  import opened Bytes
  import opened Status
  import opened Chains
  import opened FatVolume
  import opened FatDirectory
  import opened GameCubeImage
  import opened GameCubeCard
  import opened Simulation

  /** A readable card whose saves are sound. */
  ghost predicate Kept(image: seq<u8>) {
    OpenView(image).Some? && Sound(CardOf(image))
  }

  /** A kept card whose blocks are all accounted for: none is in use that no save holds. */
  ghost predicate Accounted(image: seq<u8>) {
    Kept(image) && Tight(CardOf(image))
  }

  ghost function MapOf(image: seq<u8>): map<seq<u8>, Save> {
    if Kept(image) then Saves(CardOf(image)) else map[]
  }

  lemma TakenMeansHeld(v: Volume, id: seq<u8>)
    requires Sound(v)
    ensures IdentityTaken(v.dir, id) <==> id in Saves(v)
    ensures !IdentityTaken(v.dir, id) <==> NewName(v, id)
  {
    if IdentityTaken(v.dir, id) {
      var s: nat :| s < |v.dir| && v.dir[s].File? && v.dir[s].id == id;
      SavesHas(v, s);
    }
    if id in Saves(v) {
      var s := SavesFrom(v, id);
    }
  }

  /** An inject adds exactly its save or, on an error, nothing; on a readable card
      and a valid unit it succeeds exactly when the identity is new, a slot is
      vacant and the blocks are there. */
  lemma InjectOnKept(before: seq<u8>, gci: seq<u8>, rc: Status, after: seq<u8>)
    requires Kept(before) && InjectStep(before, gci, rc, after)
    ensures Kept(after) && (Accounted(before) ==> Accounted(after))
    ensures rc != Ok ==> after == before
    ensures rc == Unsupported <==> GciBlocks(gci) == 0
    ensures rc == Exists <==> GciBlocks(gci) > 0 && Identity(gci) in Saves(CardOf(before))
    ensures rc == NoSpace <==> (GciBlocks(gci) > 0 && rc != Exists
      && (Vacant !in CardOf(before).dir || GciBlocks(gci) > FreeCount(CardOf(before).fat)))
    ensures rc == Ok ==> Sealed(after) && Saves(CardOf(after)) == Saves(CardOf(before))[Identity(gci) := SaveOf(gci)]
    ensures rc == Ok ==> FreeCount(CardOf(after).fat) == FreeCount(CardOf(before).fat) - GciBlocks(gci)
  {
    var v := CardOf(before);
    if GciBlocks(gci) > 0 {
      TakenMeansHeld(v, Identity(gci));
    }
    if rc == Ok {
      var slot, cells := FirstVacant(v.dir).value, Chosen(v.fat, GciBlocks(gci)).value;
      WrittenAdds(v, slot, Identity(gci), SaveOf(gci), cells, CardOf(after));
      if Tight(v) {
        WrittenTight(v, slot, Identity(gci), SaveOf(gci), cells, CardOf(after));
      }
    }
  }

  /** On a sound card the save a first block names is the only one that starts there. */
  lemma NamedOnce(v: Volume, first: nat, blocks: nat, s: nat, t: nat)
    requires Sound(v) && StartsAt(v, first, s) && StartsAt(v, first, t)
    ensures s == t
  {
    FirstNamesOne(v, s, t);
  }

  ghost predicate Starts(v: Volume, first: nat) {
    exists s: nat :: StartsAt(v, first, s)
  }

  /** A delete removes exactly the named save, gives back exactly its blocks and
      leaves both copies sealed. */
  lemma DeleteOnKept(before: seq<u8>, first: nat, rc: Status, after: seq<u8>, s: nat)
    requires Kept(before) && DeleteStep(before, first, rc, after)
    ensures Kept(after) && (Accounted(before) ==> Accounted(after))
    ensures rc != Ok ==> after == before
    ensures rc == Ok <==> Starts(CardOf(before), first)
    ensures StartsAt(CardOf(before), first, s) ==>
      && Sealed(after) && CardOf(before).dir[s].id in Saves(CardOf(before))
      && Saves(CardOf(after)) == Saves(CardOf(before)) - {CardOf(before).dir[s].id}
      && FreeCount(CardOf(after).fat) == FreeCount(CardOf(before).fat) + CardOf(before).dir[s].size
  {
    hide Sealed, CardOf, Sound, Tight, Removes, FreeCount, Saves, ChainAt;
    SealedOpens(after);
    var v := CardOf(before);
    if rc == Ok {
      var t: nat :| FirstStartsAt(v, first, 0, t) && Removes(v, t, CardOf(after));
      RemovedErases(v, first, t, CardOf(after));
      if StartsAt(v, first, s) {
        NamedOnce(v, first, 0, s, t);
      }
    }
  }

  lemma SealedOpens(image: seq<u8>)
    ensures Sealed(image) ==> OpenView(image).Some?
  {
  }

  lemma RemovedErases(v: Volume, first: nat, t: nat, w: Volume)
    requires Sound(v) && StartsAt(v, first, t) && Removes(v, t, w)
    ensures Sound(w) && (Tight(v) ==> Tight(w)) && v.dir[t].id in Saves(v)
    ensures Saves(w) == Saves(v) - {v.dir[t].id} && FreeCount(w.fat) == FreeCount(v.fat) + v.dir[t].size
  {
    SavesHas(v, t);
    ErasedRemoves(v, t, w);
    if Tight(v) {
      ErasedTight(v, t, w);
    }
  }

  /** Extract gives the .gci form of the save the map holds. */
  lemma ExtractOnKept(image: seq<u8>, first: nat, blocks: nat, rc: Status, out: seq<u8>, s: nat)
    requires Kept(image) && blocks > 0 && ExtractResult(image, first, blocks, rc, out)
    requires StartsAt(CardOf(image), first, s)
    ensures rc == Ok <==> CardOf(image).dir[s].size == blocks
    ensures CardOf(image).dir[s].id in Saves(CardOf(image))
    ensures rc == Ok ==> IsGciOf(out, Saves(CardOf(image))[CardOf(image).dir[s].id])
  {
    var v := CardOf(image);
    SavesHas(v, s);
    if rc == Ok {
      var t: nat :| FirstStartsAt(v, first, blocks, t) && Whole(v, t) && IsGciOf(out, SaveAt(v, t));
      NamedOnce(v, first, blocks, s, t);
    }
  }

  /** The first of the blocks an inject puts the unit's save in, as the source numbers blocks. */
  ghost function FirstChosen(before: seq<u8>, gci: seq<u8>): nat
    requires InjectStatus(before, gci) == Ok
  {
    SYSTEM_BLOCKS + Chosen(CardOf(before).fat, GciBlocks(gci)).value[0]
  }

  /** After an inject the first chosen block names the new save. */
  lemma InjectedStarts(before: seq<u8>, gci: seq<u8>, after: seq<u8>) returns (slot: nat)
    requires Kept(before) && InjectStep(before, gci, Ok, after)
    ensures Kept(after) && StartsAt(CardOf(after), FirstChosen(before, gci), slot)
    ensures CardOf(after).dir[slot].id == Identity(gci) && CardOf(after).dir[slot].size == GciBlocks(gci) > 0
  {
    hide Sealed, Tight, SaveOf, Identity, CardOf, Sound;
    SealedOpens(after);
    InjectOnKept(before, gci, Ok, after);
    var v, w := CardOf(before), CardOf(after);
    slot := FirstVacant(v.dir).value;
    TakenMeansHeld(v, Identity(gci));
    WrittenNew(v, slot, Identity(gci), SaveOf(gci), Chosen(v.fat, GciBlocks(gci)).value, w);
  }

  /** What goes in comes out: at the first block the inject chose the unit extracts, and is itself but for its
      first-block field. */
  lemma InjectThenExtract(before: seq<u8>, gci: seq<u8>, after: seq<u8>, rc: Status, out: seq<u8>)
    requires Kept(before) && InjectStep(before, gci, Ok, after)
    requires ExtractResult(after, FirstChosen(before, gci), GciBlocks(gci), rc, out)
    ensures rc == Ok && Masked(out) == Masked(gci)
  {
    hide CardOf, Sealed, Sound, Tight, InjectStep, ExtractResult, StartsAt, SaveOf, Identity, Masked, Chosen;
    InjectOnKept(before, gci, Ok, after);
    var slot := InjectedStarts(before, gci, after);
    ExtractOnKept(after, FirstChosen(before, gci), GciBlocks(gci), rc, out, slot);
    GciRoundTrip(gci);
  }

  /* ---- Runs ---------------------------------------------------------------------------- */

  datatype Op = InjectOp(gci: seq<u8>) | DeleteOp(first: nat)

  ghost predicate Step(before: seq<u8>, op: Op, rc: Status, after: seq<u8>) {
    match op
    case InjectOp(gci) => InjectStep(before, gci, rc, after)
    case DeleteOp(first) => DeleteStep(before, first, rc, after)
  }

  ghost predicate ShowsCard(image: seq<u8>, d: Dir) {
    Kept(image) && Shows(CardOf(image), d)
  }

  /** A card that shows `d`, both copies of its tables sealed if `sealed` and its blocks all accounted for if
      `tight`. */
  ghost predicate ShowsSo(image: seq<u8>, d: Dir, sealed: bool, tight: bool) {
    ShowsCard(image, d) && (sealed ==> Sealed(image)) && (tight ==> Accounted(image))
  }

  /** What a call keeps beside. */
  ghost predicate Stays(before: seq<u8>, after: seq<u8>) {
    (Sealed(before) ==> Sealed(after)) && (Accounted(before) ==> Accounted(after))
  }

  /** Every kept card shows a directory. */
  lemma KeptShows(image: seq<u8>) returns (d: Dir)
    requires Kept(image)
    ensures ShowsCard(image, d) && forall id {:trigger id in d.files} :: id in d.files <==> id in MapOf(image)
  {
    d := SoundShows(CardOf(image));
  }

  /** The unit's save is added in the blocks picked for it. */
  ghost predicate Adds(d: Dir, gci: seq<u8>, cells: seq<nat>, n: Dir)
    requires GciBlocks(gci) > 0
  {
    Lowest(d.free, GciBlocks(gci), cells) && n == WithSave(d, Identity(gci), SaveOf(gci), cells)
  }

  /** What a call answers on the directory, and leaves of it. */
  ghost predicate DirStep(d: Dir, op: Op, rc: Status, n: Dir) {
    match op
    case InjectOp(gci) =>
      if GciBlocks(gci) == 0 then rc == Unsupported && n == d
      else if Identity(gci) in d.files then rc == Exists && n == d
      else if d.vacant == 0 || GciBlocks(gci) > |d.free| then rc == NoSpace && n == d
      else rc == Ok && exists cells {:trigger Adds(d, gci, cells, n)} :: Adds(d, gci, cells, n)
    case DeleteOp(first) =>
      if exists id {:trigger StartsIn(d, id, CellOf(first))} :: StartsIn(d, id, CellOf(first))
      then rc == Ok && exists id {:trigger StartsIn(d, id, CellOf(first))} ::
        StartsIn(d, id, CellOf(first)) && n == WithoutSave(d, id)
      else rc == InvalidArg && n == d
  }

  lemma {:induction false} UpAscends(fat: Fat, n: nat, i: nat, j: nat)
    requires n <= |fat| && i < j < |FreeUp(fat, n)|
    ensures FreeUp(fat, n)[i] < FreeUp(fat, n)[j] < n
  {
    if j < |FreeUp(fat, n - 1)| {
      UpAscends(fat, n - 1, i, j);
    } else {
      assert FreeUp(fat, n - 1)[i] in FreeUp(fat, n - 1);
      FreeUpDistinct(fat, n - 1);
    }
  }

  /** What is chosen is what the free blocks settle. */
  lemma ChosenPicks(fat: Fat, n: nat)
    ensures Chosen(fat, n).Some? <==> n <= |FreeCells(fat)|
    ensures Chosen(fat, n).Some? ==> Lowest(FreeCells(fat), n, Chosen(fat, n).value)
  {
    FreeCountCard(fat);
    if Chosen(fat, n).Some? {
      var cells, up := Chosen(fat, n).value, FreeUp(fat, |fat|);
      assert forall j {:trigger up[j]} :: 0 <= j < n ==> cells[j] == up[j];
      forall i, j | 0 <= i < j < n ensures cells[i] < cells[j] {
        UpAscends(fat, |fat|, i, j);
      }
      forall i, x | 0 <= i < n && x in FreeCells(fat) && x !in cells ensures cells[i] < x {
        FreeUpHas(fat, |fat|, x);
        var j :| 0 <= j < |up| && up[j] == x;
        UpAscends(fat, |fat|, i, j);
      }
    }
  }

  lemma InjectShows(before: seq<u8>, gci: seq<u8>, rc: Status, after: seq<u8>, d: Dir) returns (n: Dir)
    requires ShowsCard(before, d) && InjectStep(before, gci, rc, after)
    ensures ShowsCard(after, n) && DirStep(d, InjectOp(gci), rc, n) && Stays(before, after)
  {
    n := d;
    InjectOnKept(before, gci, rc, after);
    if GciBlocks(gci) > 0 {
      var v := CardOf(before);
      var blocks, id := GciBlocks(gci), Identity(gci);
      NameIff(v, d, id);
      TakenMeansHeld(v, id);
      VacantIff(v, d);
      ChosenPicks(v.fat, blocks);
      if rc == Ok {
        var cells := Chosen(v.fat, blocks).value;
        WrittenShows(v, FirstVacant(v.dir).value, id, SaveOf(gci), cells, CardOf(after), d);
        n := WithSave(d, id, SaveOf(gci), cells);
        assert Adds(d, gci, cells, n);
      }
    }
  }

  lemma DeleteShows(before: seq<u8>, first: nat, rc: Status, after: seq<u8>, d: Dir) returns (n: Dir)
    requires ShowsCard(before, d) && DeleteStep(before, first, rc, after)
    ensures ShowsCard(after, n) && DirStep(d, DeleteOp(first), rc, n) && Stays(before, after)
  {
    n := d;
    var v, cell := CardOf(before), CellOf(first);
    DeleteOnKept(before, first, rc, after, 0);
    if rc == Ok {
      var s: nat :| FirstStartsAt(v, first, 0, s) && Removes(v, s, CardOf(after));
      DeleteOnKept(before, first, rc, after, s);
      StartIs(v, d, s, v.dir[s].id);
      ErasedShows(v, s, CardOf(after), d);
      n := WithoutSave(d, v.dir[s].id);
      assert StartsIn(d, v.dir[s].id, cell);
    } else {
      forall id ensures !StartsIn(d, id, cell) {
        if StartsIn(d, id, cell) {
          var s := StartSlot(v, d, id, cell);
          assert StartsAt(v, first, s);
        }
      }
    }
  }

  lemma StepShows(before: seq<u8>, op: Op, rc: Status, after: seq<u8>, d: Dir) returns (n: Dir)
    requires ShowsCard(before, d) && Step(before, op, rc, after)
    ensures ShowsCard(after, n) && DirStep(d, op, rc, n) && Stays(before, after)
  {
    match op
    case InjectOp(gci) => n := InjectShows(before, gci, rc, after, d);
    case DeleteOp(first) => n := DeleteShows(before, first, rc, after, d);
  }

  ghost function Showing(sealed: bool, tight: bool): (seq<u8>, Dir) -> bool {
    (image: seq<u8>, d: Dir) => ShowsSo(image, d, sealed, tight)
  }

  lemma Simulated(sealed: bool, tight: bool)
    ensures Simulates(Showing(sealed, tight), Step, DirStep)
  {
    var shows := Showing(sealed, tight);
    forall before, op, rc, after, d | shows(before, d) && Step(before, op, rc, after)
      ensures exists n {:trigger DirStep(d, op, rc, n)} :: shows(after, n) && DirStep(d, op, rc, n) {
      var n := StepShows(before, op, rc, after, d);
      assert shows(after, n) && DirStep(d, op, rc, n);
    }
  }

  /** Over every run from a readable card whose saves are sound they stay sound, and each step, with its answer, is
      the one the directory settles; sealed copies of the tables stay sealed with the right free count, and where
      every block in use was a save's, it stays so. */
  lemma RunShowsDirs(sealed: bool, tight: bool, images: seq<seq<u8>>, ops: seq<Op>, rcs: seq<Status>, d: Dir)
    returns (dirs: seq<Dir>)
    requires IsRun(Step, images, ops, rcs) && ShowsSo(images[0], d, sealed, tight)
    ensures ShowsAll(Showing(sealed, tight), images, dirs) && IsRun(DirStep, dirs, ops, rcs) && dirs[0] == d
  {
    Simulated(sealed, tight);
    dirs := RunShows(Showing(sealed, tight), Step, DirStep, images, ops, rcs, d);
  }

  /** On an accounted card, free and listed blocks add up to the data area. */
  lemma AccountedConserves(image: seq<u8>)
    requires Accounted(image)
    ensures FreeCount(CardOf(image).fat) + Listed(CardOf(image)) == TotalBlocks(|image|) - SYSTEM_BLOCKS
  {
    Conservation(CardOf(image));
  }

  lemma {:induction false} AllFree(fat: Fat, n: nat)
    requires n <= |fat| && forall b :: 0 <= b < |fat| ==> fat[b] == Free
    ensures FreeBelow(fat, n) == n
  {
    if n > 0 {
      AllFree(fat, n - 1);
    }
  }

  lemma FormatOpens(image: seq<u8>, total: nat, shiftJis: bool)
    requires Formatted(image, total, shiftJis)
    ensures OpenView(image) == Some(CardView(total, 2, 4))
    ensures CardOf(image) == Volume(FatView(Zeros(BLOCK_SIZE), total), BlockView(image, total), DirView(FormatDir(1)))
  {
    FormatHeaderReads(total, shiftJis);
    FormatDirReads(0);
    FormatDirReads(1);
    FormatBatReads(total, 0);
    FormatBatReads(total, 1);
  }

  lemma FormatSealed(image: seq<u8>, total: nat, shiftJis: bool)
    requires Formatted(image, total, shiftJis)
    ensures Sealed(image) && FreeCount(CardOf(image).fat) == total - SYSTEM_BLOCKS
  {
    FormatOpens(image, total, shiftJis);
    FormatDirReads(0);
    FormatDirReads(1);
    FormatBatReads(total, 0);
    FormatBatReads(total, 1);
    EmptyBat(total);
    AllFree(FatView(Zeros(BLOCK_SIZE), total), total - SYSTEM_BLOCKS);
    assert DirView(FormatDir(0)) == DirView(FormatDir(1));
  }

  lemma EmptyVolume(v: Volume)
    requires |v.blocks| == |v.fat| && (forall s :: 0 <= s < |v.dir| ==>
        v.dir[s] == Vacant) && forall b :: 0 <= b < |v.fat| ==> v.fat[b] == Free
    ensures Sound(v) && Tight(v) && Saves(v) == map[]
  {
  }

  /** A formatted card holds the empty map, sealed, with every data block free. */
  lemma FormatIsEmpty(image: seq<u8>, total: nat, shiftJis: bool)
    requires Formatted(image, total, shiftJis)
    ensures Accounted(image) && Sealed(image) && MapOf(image) == map[]
    ensures FreeCount(CardOf(image).fat) == total - SYSTEM_BLOCKS
  {
    hide OpenView, Sound, Tight, Saves, Sealed, FormatDir, DirView, DirValid, FatView, BlockView;
    FormatOpens(image, total, shiftJis);
    FormatSealed(image, total, shiftJis);
    FormatDirReads(1);
    EmptyBat(total);
    EmptyVolume(CardOf(image));
  }
}
