/** What the operations on a VMU amount to: over every run of injects and
    deletes a sound card is a finite map from names to saves. */
module DreamcastTheorems {
  import opened Bytes
  import opened Status
  import opened Chains
  import opened FatVolume
  import opened FatDirectory
  import opened Simulation
  import opened DreamcastImage
  import opened DreamcastCard

  /** A card that reads as a VMU and whose saves are sound. */
  ghost predicate Kept(image: Image) {
    ReadLayout(image).Some? && Sound(CardOf(image))
  }

  /** A kept card whose blocks are all accounted for: none is in use that no save holds. */
  ghost predicate Accounted(image: Image) {
    Kept(image) && Tight(CardOf(image))
  }

  ghost function CardOf(image: Image): Volume
    requires ReadLayout(image).Some?
  {
    View(image, ReadLayout(image).value)
  }

  ghost function MapOf(image: Image): map<seq<u8>, Save> {
    if Kept(image) then Saves(CardOf(image)) else map[]
  }

  lemma TakenMeansHeld(v: Volume, name: seq<u8>)
    requires Sound(v)
    ensures NameTaken(v, name) <==> name in Saves(v)
    ensures !NameTaken(v, name) <==> NewName(v, name)
  {
    if NameTaken(v, name) {
      var s: nat :| Live(v, s) && v.dir[s].id == name;
      SavesHas(v, s);
    }
    if name in Saves(v) {
      var s := SavesFrom(v, name);
    }
  }

  /** An inject adds exactly its save or, on an error, nothing; it fails exactly
      for a bad unit, a taken name, or too little room. */
  lemma InjectOnKept(before: Image, dci: seq<u8>, rc: Status, after: Image)
    requires Kept(before) && InjectStep(before, dci, rc, after)
    ensures Kept(after) && (Accounted(before) ==> Accounted(after))
    ensures rc == Unsupported <==> DciBlocks(dci) == 0
    ensures rc == Exists <==> DciBlocks(dci) > 0 && EntryName(dci) in Saves(CardOf(before))
    ensures rc == Ok ==> Saves(CardOf(after)) == Saves(CardOf(before))[EntryName(dci) := SaveOf(dci)]
    ensures rc == Ok ==> FreeCount(CardOf(after).fat) == FreeCount(CardOf(before).fat) - DciBlocks(dci)
    ensures rc != Ok ==> after == before
    ensures DciBlocks(dci) > 0 && dci[0] == TYPE_DATA && rc != Exists ==>
      (rc == Ok <==> DciBlocks(dci) <= FreeCount(CardOf(before).fat) && Vacant in CardOf(before).dir)
  {
    var v := CardOf(before);
    if DciBlocks(dci) > 0 {
      TakenMeansHeld(v, EntryName(dci));
      FreeDownDistinct(v.fat, 0);
    }
    if rc == Ok {
      var slot := FirstVacant(v.dir).value;
      var cells := Chosen(v.fat, dci[0] == TYPE_GAME, DciBlocks(dci)).value;
      WrittenAdds(v, slot, EntryName(dci), SaveOf(dci), cells, CardOf(after));
      if Tight(v) {
        WrittenTight(v, slot, EntryName(dci), SaveOf(dci), cells, CardOf(after));
      }
    }
  }

  /** The save a first block names, if it names one. */
  ghost function NamedSlot(v: Volume, first: nat): (r: Option<nat>)
    ensures r.Some? ==> FirstStartsAt(v, first, r.value)
    ensures r.None? ==> forall s: nat :: !FirstStartsAt(v, first, s)
  {
    if s: nat :| FirstStartsAt(v, first, s) then Some(s) else None
  }

  lemma NamedSlotIs(v: Volume, first: nat, s: nat)
    requires FirstStartsAt(v, first, s)
    ensures NamedSlot(v, first) == Some(s)
  {
  }

  lemma {:induction false} NamedSlotNone(v: Volume, first: nat, s: nat)
    requires NamedSlot(v, first).None?
    ensures !StartsAt(v, first, s)
  {
    forall t: nat | t < s ensures !StartsAt(v, first, t) {
      NamedSlotNone(v, first, t);
    }
    assert !FirstStartsAt(v, first, s);
  }

  /** A delete removes exactly the named save and gives back exactly its blocks. */
  lemma DeleteOnKept(before: Image, first: nat, rc: Status, after: Image)
    requires Kept(before) && DeleteStep(before, first, rc, after)
    ensures Kept(after) && (Accounted(before) ==> Accounted(after))
    ensures var v, named := CardOf(before), NamedSlot(CardOf(before), first);
      && (rc == Ok <==> named.Some?)
      && (rc != Ok ==> after == before)
      && (rc == Ok ==> v.dir[named.value].id in Saves(v))
      && (rc == Ok ==> Saves(CardOf(after)) == Saves(v) - {v.dir[named.value].id})
      && (rc == Ok ==> FreeCount(CardOf(after).fat) == FreeCount(v.fat) + v.dir[named.value].size)
  {
    var v := CardOf(before);
    if rc == Ok {
      var s: nat :| FirstStartsAt(v, first, s) && Erases(v, s, CardOf(after));
      NamedSlotIs(v, first, s);
      ErasedRemoves(v, s, CardOf(after));
      if Tight(v) {
        ErasedTight(v, s, CardOf(after));
      }
      SavesHas(v, s);
    }
  }

  /** Extract gives the .dci form of the save the map holds, for exactly the
      first blocks that name one of the given length. */
  lemma ExtractOnKept(image: Image, first: nat, blocks: nat, rc: Status, out: seq<u8>)
    requires Kept(image) && ExtractResult(image, first, blocks, rc, out)
    ensures var v, named := CardOf(image), NamedSlot(CardOf(image), first);
      && (rc == Ok <==> named.Some? && v.dir[named.value].size == blocks)
      && (rc == Ok ==> v.dir[named.value].id in Saves(v) && IsDciOf(out, Saves(v)[v.dir[named.value].id]))
  {
    var v := CardOf(image);
    if rc == Ok {
      var s: nat :| FirstStartsAt(v, first, s) && v.dir[s].size == blocks && IsDciOf(out, SaveAt(v, s));
      NamedSlotIs(v, first, s);
      SavesHas(v, s);
    }
  }

  /** The first of the blocks an inject puts the unit's save in. */
  ghost function FirstChosen(before: Image, dci: seq<u8>): nat
    requires InjectStatus(before, dci) == Ok
  {
    Chosen(CardOf(before).fat, dci[0] == TYPE_GAME, DciBlocks(dci)).value[0]
  }

  /** After an inject the first chosen block names the new save. */
  lemma InjectedNamed(before: Image, dci: seq<u8>, after: Image)
    requires Kept(before) && InjectStep(before, dci, Ok, after)
    ensures Kept(after)
    ensures var v, slot := CardOf(after), NamedSlot(CardOf(after), FirstChosen(before, dci));
      slot.Some? && slot.value < |v.dir| && v.dir[slot.value].File?
      && v.dir[slot.value].id == EntryName(dci) && v.dir[slot.value].size == DciBlocks(dci)
  {
    var v, w := CardOf(before), CardOf(after);
    var slot := FirstVacant(v.dir).value;
    var cells := Chosen(v.fat, dci[0] == TYPE_GAME, DciBlocks(dci)).value;
    TakenMeansHeld(v, EntryName(dci));
    InjectOnKept(before, dci, Ok, after);
    WrittenNew(v, slot, EntryName(dci), SaveOf(dci), cells, w);
    forall t: nat | t < slot ensures !StartsAt(w, cells[0], t) {
      if StartsAt(w, cells[0], t) {
        FirstNamesOne(w, t, slot);
      }
    }
    NamedSlotIs(w, cells[0], slot);
  }

  /** What goes in comes out: at the first block the inject chose the unit extracts, and is itself but for its
      first-block field, which is zero. */
  lemma InjectThenExtract(before: Image, dci: seq<u8>, after: Image, rc: Status, out: seq<u8>)
    requires Kept(before) && InjectStep(before, dci, Ok, after)
    requires ExtractResult(after, FirstChosen(before, dci), DciBlocks(dci), rc, out)
    ensures rc == Ok && out == Masked(dci)
  {
    InjectOnKept(before, dci, Ok, after);
    InjectedNamed(before, dci, after);
    ExtractOnKept(after, FirstChosen(before, dci), DciBlocks(dci), rc, out);
    DciRoundTrip(dci);
  }

  lemma FormatIsEmpty(image: Image)
    requires ReadLayout(image) == Some(FORMAT_LAYOUT)
    requires forall b :: 0 <= b <= ROOT_BLOCK ==> FatGet(image, FORMAT_LAYOUT, b) == FormatCell(b)
    requires forall p :: 0 <= p < 254 * BLOCK_SIZE ==> image[p] == 0
    ensures Accounted(image) && Saves(CardOf(image)) == map[]
    ensures FreeCount(CardOf(image).fat) == 200
  {
    var v := CardOf(image);
    forall s: nat | s < |v.dir| ensures v.dir[s] == Vacant {
      assert Entry(image, FORMAT_LAYOUT, s)[0] == image[FORMAT_LAYOUT.SlotOffset(s)];
    }
    Conservation(v);
    NothingListed(v, |v.dir|);
  }

  lemma {:induction false} NothingListed(v: Volume, n: nat)
    requires n <= |v.dir| && forall s :: 0 <= s < |v.dir| ==> v.dir[s] == Vacant
    ensures ListedBelow(v, n) == 0
  {
    if n > 0 {
      NothingListed(v, n - 1);
    }
  }

  /* ---- Putting a deleted save back --------------------------------------------------- */

  /** The stored form of a save: its entry masked and its length recorded. */
  ghost predicate Storable(id: seq<u8>, save: Save) {
    && |save.rest| == ENTRY_SIZE && Masked(save.rest) == save.rest && IsFile(save.rest) && EntryName(save.rest) == id
    && Le16(save.rest, ENTRY_LENGTH) == |save.data| && 0 < |save.data| <= 256
    && forall i :: 0 <= i < |save.data| ==> |save.data[i]| == BLOCK_SIZE
  }

  lemma {:induction false} PackedAt(data: seq<seq<u8>>, i: nat)
    requires i < |data| && forall k :: 0 <= k < |data| ==> |data[k]| == BLOCK_SIZE
    ensures Packed(data)[i * BLOCK_SIZE..(i + 1) * BLOCK_SIZE] == Reversed(data[i])
  {
    var n := |data| - 1;
    if i < n {
      PackedAt(data[..n], i);
      assert Packed(data)[i * BLOCK_SIZE..(i + 1) * BLOCK_SIZE]
        == Packed(data[..n])[i * BLOCK_SIZE..(i + 1) * BLOCK_SIZE];
    }
  }

  /** A stored save's .dci form carries it back whole. */
  lemma SaveRoundTrip(id: seq<u8>, save: Save)
    requires Storable(id, save)
    ensures DciBlocks(DciOf(save)) == |save.data| && SaveOf(DciOf(save)) == save && EntryName(DciOf(save)) == id
  {
    var dci := DciOf(save);
    assert dci[..ENTRY_SIZE] == save.rest;
    assert EntryName(dci) == EntryName(save.rest);
    forall i | 0 <= i < |save.data| ensures Reversed(DciChunk(dci, i)) == save.data[i] {
      PackedAt(save.data, i);
      assert DciChunk(dci, i) == Packed(save.data)[i * BLOCK_SIZE..(i + 1) * BLOCK_SIZE];
      ReversedTwice(save.data[i]);
    }
    assert SaveOf(dci).data == save.data;
  }

  lemma EntryStores(entry: seq<u8>)
    requires |entry| == ENTRY_SIZE && IsFile(entry)
    ensures Masked(Masked(entry)) == Masked(entry) && IsFile(Masked(entry))
    ensures EntryName(Masked(entry)) == EntryName(entry)
      && Le16(Masked(entry), ENTRY_LENGTH) == Le16(entry, ENTRY_LENGTH)
  {
    assert EntryName(Masked(entry)) == EntryName(entry);
    Le16Frame(entry, ENTRY_FIRST_BLOCK, Le16Bytes(0), ENTRY_LENGTH);
  }

  lemma ReadSizes(image: Image, l: Layout, c: seq<nat>)
    requires l.Valid() && forall i :: 0 <= i < |c| ==> c[i] < l.userBlocks
    ensures forall i :: 0 <= i < |c| ==> |Read(BlockView(image, l), c)[i]| == BLOCK_SIZE
  {
  }

  lemma KeptStores(image: Image, s: nat)
    requires Kept(image) && Live(CardOf(image), s)
    ensures Whole(CardOf(image), s) && Storable(CardOf(image).dir[s].id, SaveAt(CardOf(image), s))
  {
    var l := ReadLayout(image).value;
    var v := CardOf(image);
    SavesHas(v, s);
    ChainBound(v.fat, ChainAt(v, s));
    ReadSizes(image, l, ChainAt(v, s));
    EntryStores(Entry(image, l, s));
    assert v.dir[s] == SlotOf(Entry(image, l, s));
  }

  /** `save` is what the card holds under `id`, named by `first`. */
  ghost predicate Holds(image: Image, first: nat, id: seq<u8>, save: Save) {
    Kept(image) && exists s: nat :: SlotHolds(CardOf(image), first, s, id, save)
  }

  ghost predicate SlotHolds(v: Volume, first: nat, s: nat, id: seq<u8>, save: Save) {
    |v.blocks| == |v.fat| && FirstStartsAt(v, first, s) && v.dir[s].id == id && SaveAt(v, s) == save
  }

  ghost predicate FreeUpTo(image: Image, n: nat) {
    && ReadLayout(image).Some? && n <= |CardOf(image).fat|
    && forall b :: 0 <= b < n ==> CardOf(image).fat[b] == Free
  }

  ghost predicate HasRoom(image: Image, save: Save) {
    && ReadLayout(image).Some? && Vacant in CardOf(image).dir
    && |save.data| <= FreeCount(CardOf(image).fat)
  }

  /** Injecting a save's own .dci form puts that save on the card: a data save
      whenever there is room, a game file exactly when the blocks from 0 up are free. */
  lemma StoredGoesIn(mid: Image, id: seq<u8>, save: Save, rc: Status, after: Image)
    requires Kept(mid) && Storable(id, save) && id !in Saves(CardOf(mid)) && HasRoom(mid, save)
    requires InjectStep(mid, DciOf(save), rc, after)
    ensures rc == Ok ==> MapOf(after) == MapOf(mid)[id := save]
    ensures rc == Ok <==> save.rest[0] == TYPE_DATA || FreeUpTo(mid, |save.data|)
  {
    var dci := DciOf(save);
    SaveRoundTrip(id, save);
    InjectOnKept(mid, dci, rc, after);
    assert dci[0] == save.rest[0];
    TakenMeansHeld(CardOf(mid), id);
  }

  lemma DeletedSlot(before: Image, first: nat, s: nat, mid: Image)
    requires ReadLayout(before).Some? && FirstStartsAt(CardOf(before), first, s) && DeleteStep(before, first, Ok, mid)
    ensures ReadLayout(mid) == ReadLayout(before) && Vacant in CardOf(mid).dir
  {
    var t: nat :| FirstStartsAt(CardOf(before), first, t) && Erases(CardOf(before), t, CardOf(mid));
    assert CardOf(mid).dir[t] == Vacant;
  }

  lemma HoldsNamed(image: Image, first: nat, id: seq<u8>, save: Save)
    requires Holds(image, first, id, save)
    ensures NamedSlot(CardOf(image), first).Some? && Live(CardOf(image), NamedSlot(CardOf(image), first).value)
    ensures CardOf(image).dir[NamedSlot(CardOf(image), first).value].id == id
    ensures CardOf(image).dir[NamedSlot(CardOf(image), first).value].size == |save.data|
    ensures id in MapOf(image) && MapOf(image)[id] == save && Storable(id, save)
  {
    var s: nat :| SlotHolds(CardOf(image), first, s, id, save);
    NamedSlotIs(CardOf(image), first, s);
    KeptStores(image, s);
    SavesHas(CardOf(image), s);
  }

  lemma PutBack<K, V>(m: map<K, V>, k: K)
    requires k in m
    ensures (m - {k})[k := m[k]] == m
  {
  }

  lemma DeleteMakesRoom(before: Image, first: nat, id: seq<u8>, save: Save, mid: Image)
    requires Holds(before, first, id, save) && DeleteStep(before, first, Ok, mid)
    ensures Kept(mid) && id !in MapOf(mid) && HasRoom(mid, save) && Storable(id, save)
    ensures MapOf(before) == MapOf(mid)[id := save]
  {
    HoldsNamed(before, first, id, save);
    DeleteOnKept(before, first, Ok, mid);
    DeletedSlot(before, first, NamedSlot(CardOf(before), first).value, mid);
    PutBack(MapOf(before), id);
  }

  /** Extract, delete, inject: a data save goes back and the map is as it was; a
      game file goes back exactly when the blocks from 0 up are free again. */
  lemma DeletedGoesBack(before: Image, first: nat, id: seq<u8>, save: Save, dci: seq<u8>, mid: Image, rc: Status,
                        after: Image)
    requires Holds(before, first, id, save) && IsDciOf(dci, save)
    requires DeleteStep(before, first, Ok, mid) && InjectStep(mid, dci, rc, after)
    ensures rc == Ok ==> MapOf(after) == MapOf(before)
    ensures Storable(id, save)
    ensures rc == Ok <==> save.rest[0] == TYPE_DATA || FreeUpTo(mid, |save.data|)
  {
    DeleteMakesRoom(before, first, id, save, mid);
    StoredGoesIn(mid, id, save, rc, after);
  }

  /* ---- Runs ---------------------------------------------------------------------------- */

  datatype Op = InjectOp(dci: seq<u8>) | DeleteOp(first: nat)

  ghost predicate Step(before: Image, op: Op, rc: Status, after: Image) {
    match op
    case InjectOp(dci) => InjectStep(before, dci, rc, after)
    case DeleteOp(first) => DeleteStep(before, first, rc, after)
  }

  ghost predicate ShowsCard(image: Image, d: Dir) {
    Kept(image) && Shows(CardOf(image), d)
  }

  /** A card that shows `d`, its blocks all accounted for if `tight`. */
  ghost predicate ShowsSo(image: Image, d: Dir, tight: bool) {
    ShowsCard(image, d) && (tight ==> Accounted(image))
  }

  /** Every kept card shows a directory. */
  lemma KeptShows(image: Image) returns (d: Dir)
    requires Kept(image)
    ensures ShowsCard(image, d) && forall id {:trigger id in d.files} :: id in d.files <==> id in MapOf(image)
  {
    d := SoundShows(CardOf(image));
  }

  /** The blocks a file takes of the free ones: the first of the card for a game, the highest for data, falling. */
  ghost predicate Picks(free: set<nat>, game: bool, n: nat, cells: seq<nat>) {
    && |cells| == n && (forall i {:trigger cells[i]} :: 0 <= i < n ==> cells[i] in free)
    && if game then forall i {:trigger cells[i]} :: 0 <= i < n ==> cells[i] == i
       else (forall i, j {:trigger cells[i], cells[j]} :: 0 <= i < j < n ==> cells[j] < cells[i])
            && forall i, x {:trigger cells[i], x in free} :: 0 <= i < n && x in free && x !in cells ==> x < cells[i]
  }

  /** Whether a file of `n` blocks has room. */
  ghost predicate Fits(d: Dir, game: bool, n: nat) {
    d.vacant > 0 && if game then forall b: nat {:trigger b in d.free} :: b < n ==> b in d.free else n <= |d.free|
  }

  /** The file's save is added in the blocks picked for it. */
  ghost predicate Adds(d: Dir, dci: seq<u8>, cells: seq<nat>, n: Dir)
    requires DciBlocks(dci) > 0
  {
    Picks(d.free, dci[0] == TYPE_GAME, DciBlocks(dci), cells) && n == WithSave(d, EntryName(dci), SaveOf(dci), cells)
  }

  /** What a call answers on the directory, and leaves of it. */
  ghost predicate DirStep(d: Dir, op: Op, rc: Status, n: Dir) {
    match op
    case InjectOp(dci) =>
      if DciBlocks(dci) == 0 then rc == Unsupported && n == d
      else if EntryName(dci) in d.files then rc == Exists && n == d
      else if !Fits(d, dci[0] == TYPE_GAME, DciBlocks(dci)) then rc == NoSpace && n == d
      else rc == Ok && exists cells {:trigger Adds(d, dci, cells, n)} :: Adds(d, dci, cells, n)
    case DeleteOp(first) =>
      if exists id {:trigger StartsIn(d, id, first)} :: StartsIn(d, id, first)
      then rc == Ok && exists id {:trigger StartsIn(d, id, first)} :: StartsIn(d, id, first) && n == WithoutSave(d, id)
      else rc == InvalidArg && n == d
  }

  lemma {:induction false} DownFirst(fat: Fat, n: nat, x: nat)
    requires n <= x < |fat| && fat[x] == Free
    ensures x in FreeDown(fat, n)
    decreases x - n
  {
    if n < x {
      DownFirst(fat, n + 1, x);
    }
  }

  lemma {:induction false} DownDescends(fat: Fat, n: nat, i: nat, j: nat)
    requires n <= |fat| && i < j < |FreeDown(fat, n)|
    ensures FreeDown(fat, n)[j] < FreeDown(fat, n)[i]
    decreases |fat| - n
  {
    if n < |fat| && j < |FreeDown(fat, n + 1)| {
      DownDescends(fat, n + 1, i, j);
    }
  }

  /** What is chosen is what the free blocks settle, and something is chosen when there is room. */
  lemma ChosenPicks(fat: Fat, game: bool, n: nat)
    ensures Chosen(fat, game, n).Some?
      <==> if game then forall b: nat {:trigger b in FreeCells(fat)} :: b < n ==>
        b in FreeCells(fat) else n <= |FreeCells(fat)|
    ensures Chosen(fat, game, n).Some? ==> Picks(FreeCells(fat), game, n, Chosen(fat, game, n).value)
  {
    FreeCountCard(fat);
    FreeDownDistinct(fat, 0);
    if game {
      if n > |fat| {
        assert |fat| !in FreeCells(fat);
      }
      if Chosen(fat, game, n).None? && n <= |fat| {
        var b: nat :| b < n && fat[b] != Free;
        assert b !in FreeCells(fat);
      }
    } else if Chosen(fat, game, n).Some? {
      var cells := Chosen(fat, game, n).value;
      assert forall j {:trigger FreeDown(fat, 0)[j]} :: 0 <= j < n ==> cells[j] == FreeDown(fat, 0)[j];
      forall i, j | 0 <= i < j < n ensures cells[j] < cells[i] {
        DownDescends(fat, 0, i, j);
      }
      forall i, x | 0 <= i < n && x in FreeCells(fat) && x !in cells ensures x < cells[i] {
        DownFirst(fat, 0, x);
        var j :| 0 <= j < |FreeDown(fat, 0)| && FreeDown(fat, 0)[j] == x;
        DownDescends(fat, 0, i, j);
      }
    }
  }

  lemma InjectShows(before: Image, dci: seq<u8>, rc: Status, after: Image, d: Dir) returns (n: Dir)
    requires ShowsCard(before, d) && InjectStep(before, dci, rc, after)
    ensures ShowsCard(after, n) && DirStep(d, InjectOp(dci), rc, n) && (Accounted(before) ==> Accounted(after))
  {
    n := d;
    InjectOnKept(before, dci, rc, after);
    if DciBlocks(dci) > 0 {
      var v := CardOf(before);
      var game, blocks, id := dci[0] == TYPE_GAME, DciBlocks(dci), EntryName(dci);
      NameIff(v, d, id);
      TakenMeansHeld(v, id);
      VacantIff(v, d);
      ChosenPicks(v.fat, game, blocks);
      assert Fits(d, game, blocks) <==> Chosen(v.fat, game, blocks).Some? && FirstVacant(v.dir).Some?;
      if rc == Ok {
        var cells := Chosen(v.fat, game, blocks).value;
        WrittenShows(v, FirstVacant(v.dir).value, id, SaveOf(dci), cells, CardOf(after), d);
        n := WithSave(d, id, SaveOf(dci), cells);
        assert Adds(d, dci, cells, n);
      }
    }
  }

  lemma DeleteShows(before: Image, first: nat, rc: Status, after: Image, d: Dir) returns (n: Dir)
    requires ShowsCard(before, d) && DeleteStep(before, first, rc, after)
    ensures ShowsCard(after, n) && DirStep(d, DeleteOp(first), rc, n) && (Accounted(before) ==> Accounted(after))
  {
    n := d;
    var v := CardOf(before);
    DeleteOnKept(before, first, rc, after);
    if rc == Ok {
      var s: nat :| FirstStartsAt(v, first, s) && Erases(v, s, CardOf(after));
      StartIs(v, d, s, v.dir[s].id);
      ErasedShows(v, s, CardOf(after), d);
      n := WithoutSave(d, v.dir[s].id);
      assert StartsIn(d, v.dir[s].id, first);
    } else {
      forall id ensures !StartsIn(d, id, first) {
        if StartsIn(d, id, first) {
          var s := StartSlot(v, d, id, first);
          assert StartsAt(v, first, s);
        }
      }
    }
  }

  lemma StepShows(before: Image, op: Op, rc: Status, after: Image, d: Dir) returns (n: Dir)
    requires ShowsCard(before, d) && Step(before, op, rc, after)
    ensures ShowsCard(after, n) && DirStep(d, op, rc, n) && (Accounted(before) ==> Accounted(after))
  {
    match op
    case InjectOp(dci) => n := InjectShows(before, dci, rc, after, d);
    case DeleteOp(first) => n := DeleteShows(before, first, rc, after, d);
  }

  ghost function Showing(tight: bool): (Image, Dir) -> bool {
    (image: Image, d: Dir) => ShowsSo(image, d, tight)
  }

  lemma Simulated(tight: bool)
    ensures Simulates(Showing(tight), Step, DirStep)
  {
    var shows := Showing(tight);
    forall before, op, rc, after, d | shows(before, d) && Step(before, op, rc, after)
      ensures exists n {:trigger DirStep(d, op, rc, n)} :: shows(after, n) && DirStep(d, op, rc, n) {
      var n := StepShows(before, op, rc, after, d);
      assert shows(after, n) && DirStep(d, op, rc, n);
    }
  }

  /** Over every run from a card whose saves are sound they stay sound, and each step, with its answer, is the one
      the directory settles; where every block in use was a save's, it stays so. */
  lemma RunShowsDirs(tight: bool, images: seq<Image>, ops: seq<Op>, rcs: seq<Status>, d: Dir) returns (dirs: seq<Dir>)
    requires IsRun(Step, images, ops, rcs) && ShowsSo(images[0], d, tight)
    ensures ShowsAll(Showing(tight), images, dirs) && IsRun(DirStep, dirs, ops, rcs) && dirs[0] == d
  {
    Simulated(tight);
    dirs := RunShows(Showing(tight), Step, DirStep, images, ops, rcs, d);
  }

  /** On an accounted card, free and listed blocks add up to the user area. */
  lemma AccountedConserves(image: Image)
    requires Accounted(image)
    ensures FreeCount(CardOf(image).fat) + Listed(CardOf(image)) == ReadLayout(image).value.userBlocks
  {
    Conservation(CardOf(image));
  }
}
