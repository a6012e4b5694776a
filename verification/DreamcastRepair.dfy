/** Listing a VMU, and repairing the saves whose chain was never written. */
module DreamcastRepair {
  import opened Bytes
  import opened Status
  import opened Chains
  import opened FatVolume
  import opened DreamcastImage
  import opened DreamcastCard
  import B = BitTerms
  import C = Crc16
  import P = Polynomials

  /* ---- Claims --------------------------------------------------------------------- */

  ghost predicate Claimed(v: Volume, s: nat, b: nat) {
    Whole(v, s) && b in ChainAt(v, s)
  }

  /** How many of the first `n` entries' chains reach block `b`. */
  ghost function Claims(v: Volume, n: nat, b: nat): nat {
    if n == 0 then 0 else Claims(v, n - 1, b) + if Claimed(v, n - 1, b) then 1 else 0
  }

  lemma {:induction false} ClaimsNone(v: Volume, n: nat, b: nat)
    ensures Claims(v, n, b) == 0 <==> forall s: nat :: s < n ==> !Claimed(v, s, b)
  {
    if n > 0 {
      ClaimsNone(v, n - 1, b);
    }
  }

  /** A block of entry `s` is claimed more than once exactly when another entry's
      chain reaches it too. */
  lemma {:induction false} ClaimsShared(v: Volume, n: nat, s: nat, b: nat)
    requires s < n && Claimed(v, s, b)
    ensures Claims(v, n, b) >= 1
    ensures Claims(v, n, b) > 1 <==> exists t: nat :: t < n && t != s && Claimed(v, t, b)
  {
    ClaimsNone(v, n - 1, b);
    if s < n - 1 {
      ClaimsShared(v, n - 1, s, b);
    }
  }

  function Saturate(n: nat): u8 {
    if n < 255 then n else 255
  }

  method CountClaims(image: array<u8>, l: Layout) returns (claims: array<u8>)
    requires image.Length == CARD_SIZE && l.Valid()
    ensures fresh(claims) && claims.Length == 256
    ensures forall b: nat :: b < 256 ==> claims[b] == Saturate(Claims(View(image[..], l), l.SlotCount(), b))
  {
    ghost var v := View(image[..], l);
    claims := new u8[256](_ => 0);
    for s := 0 to l.SlotCount()
      invariant fresh(claims) && image[..] == old(image[..])
      invariant forall b: nat :: b < 256 ==> claims[b] == Saturate(Claims(v, s, b))
    {
      ClaimSlot(image, l, s, claims);
    }
  }

  /** Counts one more entry's chain. */
  method ClaimSlot(image: array<u8>, l: Layout, s: nat, claims: array<u8>)
    requires image.Length == CARD_SIZE && l.Valid() && s < l.SlotCount() && claims.Length == 256 && claims != image
    requires forall b: nat :: b < 256 ==> claims[b] == Saturate(Claims(View(image[..], l), s, b))
    modifies claims
    ensures forall b: nat :: b < 256 ==> claims[b] == Saturate(Claims(View(image[..], l), s + 1, b))
  {
    ghost var v := View(image[..], l);
    assert v.dir[s] == SlotOf(Entry(image[..], l, s));
    if IsFile(Entry(image[..], l, s)) {
      var n, order := EntryChain(image, l, s);
      if n > 0 {
        ChainDistinct(v.fat, order);
        AddClaims(claims, order);
      }
    }
  }

  method AddClaims(claims: array<u8>, order: seq<nat>)
    requires claims.Length == 256 && Distinct(order) && forall i :: 0 <= i < |order| ==> order[i] < 256
    modifies claims
    ensures forall b: nat :: b < 256 ==>
      claims[b] == if b in order then Saturate(old(claims[b]) as int + 1) else old(claims[b])
  {
    for i := 0 to |order|
      invariant forall b: nat :: b < 256 ==>
        claims[b] == if b in order[..i] then Saturate(old(claims[b]) as int + 1) else old(claims[b])
    {
      assert order[..i + 1] == order[..i] + [order[i]];
      if claims[order[i]] < 255 {
        claims[order[i]] := claims[order[i]] + 1;
      }
    }
    assert order[..|order|] == order;
  }

  /** Whether another entry's chain reached a block of this one when the claims were counted. */
  ghost predicate SharedBy(v: Volume, c: seq<nat>) {
    exists i :: 0 <= i < |c| && Claims(v, |v.dir|, c[i]) > 1
  }

  method ChainShared(image: array<u8>, l: Layout, s: nat, claims: array<u8>, ghost v0: Volume) returns (shared: bool)
    requires image.Length == CARD_SIZE && l.Valid() && s < l.SlotCount() && claims.Length == 256
    requires IsFile(Entry(image[..], l, s)) && Whole(View(image[..], l), s)
    requires forall b: nat :: b < 256 ==> claims[b] == Saturate(Claims(v0, |v0.dir|, b))
    ensures shared <==> SharedBy(v0, ChainAt(View(image[..], l), s))
  {
    var n, order := EntryChain(image, l, s);
    for i := 0 to n
      invariant claims[..] == old(claims[..])
      invariant forall k :: 0 <= k < i ==> Claims(v0, |v0.dir|, order[k]) <= 1
    {
      if claims[order[i]] > 1 {
        return true;
      }
    }
    return false;
  }

  /** The claim count finds exactly the saves a listing must leave out. */
  lemma NotSharedIsListable(v: Volume, s: nat)
    requires Whole(v, s)
    ensures !SharedBy(v, ChainAt(v, s)) <==> Listable(v, s)
  {
    var c := ChainAt(v, s);
    if !SharedBy(v, c) {
      forall t: nat | t != s && Whole(v, t) ensures Disjoint(c, ChainAt(v, t)) {
        forall i, j | 0 <= i < |c| && 0 <= j < |ChainAt(v, t)| ensures c[i] != ChainAt(v, t)[j] {
          ClaimsShared(v, |v.dir|, s, c[i]);
          assert c[i] == ChainAt(v, t)[j] ==> Claimed(v, t, c[i]);
        }
      }
    }
    if Listable(v, s) {
      forall i | 0 <= i < |c| ensures Claims(v, |v.dir|, c[i]) <= 1 {
        ClaimsShared(v, |v.dir|, s, c[i]);
        forall t: nat | t != s && Whole(v, t) ensures !Claimed(v, t, c[i]) {
          assert Disjoint(c, ChainAt(v, t));
        }
      }
    }
  }

  /* ---- List -------------------------------------------------------------------------- */

  datatype ListedSave = ListedSave(name: seq<u8>, blocks: nat, first: nat)

  datatype Listing = Listing(freeBlocks: nat, freeSlots: nat, saves: seq<ListedSave>, corrupt: seq<ListedSave>)

  ghost function ListedAt(v: Volume, s: nat): ListedSave
    requires Live(v, s)
  {
    ListedSave(v.dir[s].id, v.dir[s].size, v.dir[s].first)
  }

  /** The listing of the first `n` slots: every listable save, and apart from
      them every other entry. */
  ghost function ListTo(v: Volume, n: nat): Listing
    requires n <= |v.dir|
  {
    if n == 0 then Listing(FreeCount(v.fat), 0, [], [])
    else
      var done := ListTo(v, n - 1);
      match v.dir[n - 1]
      case Vacant => done.(freeSlots := done.freeSlots + 1)
      case Other => done
      case File(id, first, size, _) =>
        if Listable(v, n - 1) then done.(saves := done.saves + [ListedAt(v, n - 1)])
        else done.(corrupt := done.corrupt + [ListedSave(id, 0, first)])
  }

  method CountFree(image: array<u8>, l: Layout) returns (n: nat)
    requires image.Length == CARD_SIZE && l.Valid()
    ensures n == FreeCount(FatView(image[..], l))
  {
    ghost var fat := FatView(image[..], l);
    n := 0;
    for b := 0 to l.userBlocks
      invariant n == FreeBelow(fat, b)
    {
      var free := CellIsFree(image, l, b);
      if free {
        n := n + 1;
      }
    }
  }

  method ListSlot(image: array<u8>, l: Layout, s: nat, claims: array<u8>, done: Listing) returns (listing: Listing)
    requires image.Length == CARD_SIZE && l.Valid() && s < l.SlotCount() && claims.Length == 256
    requires forall b: nat :: b < 256 ==> claims[b] == Saturate(Claims(View(image[..], l), l.SlotCount(), b))
    requires done == ListTo(View(image[..], l), s)
    ensures listing == ListTo(View(image[..], l), s + 1)
  {
    ghost var v := View(image[..], l);
    var entry := Entry(image[..], l, s);
    assert v.dir[s] == SlotOf(entry);
    listing := done;
    if entry[0] == TYPE_EMPTY {
      listing := done.(freeSlots := done.freeSlots + 1);
    } else if IsFile(entry) {
      var n, _ := EntryChain(image, l, s);
      var shared := false;
      if n > 0 {
        shared := ChainShared(image, l, s, claims, v);
        NotSharedIsListable(v, s);
      }
      var name, first := EntryName(entry), Le16(entry, ENTRY_FIRST_BLOCK);
      listing := if n == 0 || shared then done.(corrupt := done.corrupt + [ListedSave(name, 0, first)])
                 else done.(saves := done.saves + [ListedSave(name, n, first)]);
    }
  }

  /** Lists the files whose chains are intact and unshared, and apart from them the corrupt ones. */
  method List(image: array<u8>) returns (r: Option<Listing>)
    requires image.Length == CARD_SIZE
    ensures r.Some? <==> ReadLayout(image[..]).Some?
    ensures r.Some? ==> var v := View(image[..], ReadLayout(image[..]).value); r.value == ListTo(v, |v.dir|)
  {
    var layout := ReadLayout(image[..]);
    if layout.None? {
      return None;
    }
    var l := layout.value;
    var claims := CountClaims(image, l);
    var free := CountFree(image, l);
    var listing := Listing(free, 0, [], []);
    for s := 0 to l.SlotCount()
      invariant image[..] == old(image[..])
      invariant forall b: nat :: b < 256 ==> claims[b] == Saturate(Claims(View(image[..], l), l.SlotCount(), b))
      invariant listing == ListTo(View(image[..], l), s)
    {
      listing := ListSlot(image, l, s, claims, listing);
    }
    return Some(listing);
  }

  lemma {:induction false} ListToOnSound(v: Volume, n: nat)
    requires Sound(v) && n <= |v.dir|
    ensures ListTo(v, n).corrupt == []
    ensures forall s: nat :: s < n && Live(v, s) ==> ListedAt(v, s) in ListTo(v, n).saves
    ensures forall e :: e in ListTo(v, n).saves ==> exists s: nat :: s < n && Live(v, s) && e == ListedAt(v, s)
  {
    if n > 0 {
      ListToOnSound(v, n - 1);
      if Live(v, n - 1) {
        SoundIsListable(v, n - 1);
      }
      forall e | e in ListTo(v, n).saves ensures exists s: nat :: s < n && Live(v, s) && e == ListedAt(v, s) {
        if e !in ListTo(v, n - 1).saves {
          assert Live(v, n - 1) && e == ListedAt(v, n - 1);
        }
      }
    }
  }

  /* ---- Repair -------------------------------------------------------------------------- */

  datatype Damage =
    BlocksShared | SizeMismatch | ChainBroken | Unverifiable | BlocksInUse | ChecksumMismatch | ChainUnwritten

  datatype Note = Note(name: seq<u8>, first: nat, damage: Damage, repaired: bool)

  datatype Check = Passes | Fails | NoChecksum

  const VMS_HEADER_SIZE := 0x80
  const VMS_ICON_COUNT := 0x40
  const VMS_EYECATCH_TYPE := 0x44
  const VMS_CRC := 0x46
  const VMS_DATA_SIZE := 0x48
  const VMS_ICON_SIZE := 512

  function EyecatchSize(kind: nat): nat {
    match kind
    case 1 => 72 * 56 * 2
    case 2 => 512 + 72 * 56
    case 3 => 32 + 72 * 56 / 2
    case _ => 0
  }

  function Bits(s: seq<u8>): (r: seq<bv8>)
    ensures |r| == |s|
  {
    if s == [] then [] else Bits(s[..|s| - 1]) + [s[|s| - 1] as bv8]
  }

  /** The bytes a VMS header's checksum covers: header, icons, eyecatch and data. */
  function Covered(file: seq<u8>): nat
    requires |file| >= BLOCK_SIZE
  {
    VMS_HEADER_SIZE + Le16(file, VMS_ICON_COUNT) * VMS_ICON_SIZE + EyecatchSize(Le16(file, VMS_EYECATCH_TYPE))
    + Le32(file, VMS_DATA_SIZE)
  }

  function StoredCrc(file: seq<u8>): bv16
    requires |file| >= BLOCK_SIZE
  {
    B.Pair(file[VMS_CRC + 1] as bv8, file[VMS_CRC] as bv8)
  }

  /** Whether the file's header checksum, read as zero, is the one over the bytes it covers. */
  function VmsCheck(file: seq<u8>): Check
    requires |file| >= BLOCK_SIZE
  {
    var stored := Le16(file, VMS_CRC);
    if stored == 0 then NoChecksum
    else if Le16(file, VMS_EYECATCH_TYPE) < 4 && Covered(file) <= |file|
            && C.Crc(Bits(Splice(file, VMS_CRC, [0, 0])[..Covered(file)])) == StoredCrc(file) then Passes
    else Fails
  }

  /** A file passes exactly when it has a checksum and an eyecatch of a known kind, is as long as its header says, and
      the bytes covered, the checksum among them read as zero, with the checksum after them are a multiple of the
      generator. */
  lemma VmsPassesIff(file: seq<u8>)
    requires |file| >= BLOCK_SIZE
    ensures VmsCheck(file) == Passes <==>
      && (file[VMS_CRC] != 0 || file[VMS_CRC + 1] != 0) && Le16(file, VMS_EYECATCH_TYPE) < 4 && Covered(file) <= |file|
      && P.Divides(C.GENERATOR, B.Terms(Bits(Splice(file, VMS_CRC, [0, 0])[..Covered(file)])
                                        + [file[VMS_CRC + 1] as bv8, file[VMS_CRC] as bv8]))
    ensures VmsCheck(file) == NoChecksum <==> file[VMS_CRC] == 0 && file[VMS_CRC + 1] == 0
  {
    hide P.Divides, B.Terms, C.Crc, Bits, B.Pair;
    if Le16(file, VMS_EYECATCH_TYPE) < 4 && Covered(file) <= |file| {
      var covered := Bits(Splice(file, VMS_CRC, [0, 0])[..Covered(file)]);
      C.CodeWordIff(covered, file[VMS_CRC + 1] as bv8, file[VMS_CRC] as bv8);
    }
  }

  /** An eyecatch is 72 by 56 pixels of 16, 8 or 4 bits, after its colours of 16 bits each, 256 or 16 of them. */
  lemma EyecatchIs()
    ensures 8 * EyecatchSize(1) == 72 * 56 * 16 && 8 * EyecatchSize(2) == 256 * 16 + 72 * 56 * 8
    ensures 8 * EyecatchSize(3) == 16 * 16 + 72 * 56 * 4 && EyecatchSize(0) == 0
  {
  }

  function Joined(data: seq<seq<u8>>): (s: seq<u8>)
    requires forall i :: 0 <= i < |data| ==> |data[i]| == BLOCK_SIZE
    ensures |s| == |data| * BLOCK_SIZE
  {
    if data == [] then [] else Joined(data[..|data| - 1]) + data[|data| - 1]
  }

  /** The blocks an unwritten chain ran over: down from the first. */
  function DownFrom(first: nat, n: nat): (c: seq<nat>)
    requires n <= first + 1
    ensures |c| == n && forall i :: 0 <= i < n ==> c[i] == first - i
  {
    seq(n, i requires 0 <= i < n => first - i)
  }

  ghost predicate BlocksSized(v: Volume) {
    |v.blocks| == |v.fat| && forall b :: 0 <= b < |v.blocks| ==> |v.blocks[b]| == BLOCK_SIZE
  }

  /** What ails entry `s`, and the chain its blocks prove when it was never written. */
  ghost function DamageOf(v: Volume, s: nat): (r: (Damage, seq<nat>))
    requires Live(v, s) && |v.dir[s].rest| == ENTRY_SIZE && BlocksSized(v)
    ensures r.1 != [] ==> r.0 == ChainUnwritten && forall i :: 0 <= i < |r.1| ==>
      r.1[i] < |v.fat| && v.fat[r.1[i]] == Free
    ensures r.1 != [] ==> Distinct(r.1) && r.1[0] == v.dir[s].first && |r.1| == v.dir[s].size
  {
    var e := v.dir[s];
    var walked := |ChainOf(v.fat, e.first)|;
    if walked != 0 then ((if walked == e.size then BlocksShared else SizeMismatch), [])
    else if e.first >= |v.fat| || v.fat[e.first] != Free then (ChainBroken, [])
    else if e.rest[0] != TYPE_DATA || Le16(e.rest, ENTRY_HEADER) != 0 || e.size == 0 then (Unverifiable, [])
    else if e.size > e.first + 1 || exists b: nat :: e.first - e.size < b <= e.first && v.fat[b] != Free
      then (BlocksInUse, [])
    else
      var cells := DownFrom(e.first, e.size);
      match VmsCheck(Joined(Read(v.blocks, cells)))
      case Passes => (ChainUnwritten, cells)
      case Fails => (ChecksumMismatch, [])
      case NoChecksum => (Unverifiable, [])
  }

  method ToBits(s: seq<u8>) returns (r: seq<bv8>)
    ensures r == Bits(s)
  {
    r := [];
    for i := 0 to |s|
      invariant r == Bits(s[..i])
    {
      assert s[..i + 1][..i] == s[..i];
      r := r + [s[i] as bv8];
    }
    assert s[..|s|] == s;
  }

  method CheckVms(file: seq<u8>) returns (check: Check)
    requires |file| >= BLOCK_SIZE
    ensures check == VmsCheck(file)
  {
    var stored := Le16(file, VMS_CRC);
    if stored == 0 {
      return NoChecksum;
    }
    check := Fails;
    if Le16(file, VMS_EYECATCH_TYPE) < 4 && Covered(file) <= |file| {
      var bits := ToBits(Splice(file, VMS_CRC, [0, 0])[..Covered(file)]);
      var crc := C.Compute(bits);
      if crc == StoredCrc(file) {
        check := Passes;
      }
    }
  }

  lemma ViewSized(image: Image, l: Layout)
    requires l.Valid()
    ensures BlocksSized(View(image, l))
  {
  }

  method ReadFile(image: array<u8>, l: Layout, cells: seq<nat>) returns (file: seq<u8>)
    requires image.Length == CARD_SIZE && l.Valid() && BlocksSized(View(image[..], l))
    requires forall i :: 0 <= i < |cells| ==> cells[i] < l.userBlocks
    ensures file == Joined(Read(BlockView(image[..], l), cells))
  {
    ghost var blocks := BlockView(image[..], l);
    file := [];
    for i := 0 to |cells|
      invariant file == Joined(Read(blocks, cells[..i]))
    {
      assert cells[..i + 1][..i] == cells[..i];
      file := file + Block(image[..], cells[i]);
    }
    assert cells[..|cells|] == cells;
  }

  /** The free blocks down from `first`, or None when one of them is in use. */
  method FreeRun(image: array<u8>, l: Layout, first: nat, size: nat) returns (cells: Option<seq<nat>>)
    requires image.Length == CARD_SIZE && l.Valid() && first < l.userBlocks && 0 < size <= first + 1
    ensures cells.None? <==> exists b: nat :: first - size < b <= first && FatView(image[..], l)[b] != Free
    ensures cells.Some? ==> cells.value == DownFrom(first, size)
  {
    var run: seq<nat> := [];
    ghost var fat := FatView(image[..], l);
    for i := 0 to size
      invariant run == DownFrom(first, i)
      invariant forall b: nat :: first - i < b <= first ==> fat[b] == Free
    {
      var free := CellIsFree(image, l, first - i);
      if !free {
        return None;
      }
      run := run + [first - i];
    }
    return Some(run);
  }

  /** What is wrong with the chain of entry `s`, and the run of blocks it can be rebuilt over, if any. */
  method FindDamage(image: array<u8>, l: Layout, s: nat) returns (damage: Damage, rebuilt: seq<nat>)
    requires image.Length == CARD_SIZE && l.Valid() && s < l.SlotCount() && IsFile(Entry(image[..], l, s))
    ensures Live(View(image[..], l), s) && |View(image[..], l).dir[s].rest| == ENTRY_SIZE
      && BlocksSized(View(image[..], l))
    ensures (damage, rebuilt) == DamageOf(View(image[..], l), s)
  {
    hide VmsCheck, Joined;
    var entry := Entry(image[..], l, s);
    ghost var v := View(image[..], l);
    assert v.dir[s] == SlotOf(entry);
    Le16Frame(entry, ENTRY_FIRST_BLOCK, Le16Bytes(0), ENTRY_HEADER);
    var first, size := Le16(entry, ENTRY_FIRST_BLOCK), Le16(entry, ENTRY_LENGTH);
    var walked, _ := WalkChain(image, l, first);
    if walked != 0 {
      return if walked == size then BlocksShared else SizeMismatch, [];
    }
    if first >= l.userBlocks {
      return ChainBroken, [];
    }
    var free := CellIsFree(image, l, first);
    if !free {
      return ChainBroken, [];
    }
    if entry[0] != TYPE_DATA || Le16(entry, ENTRY_HEADER) != 0 || size == 0 {
      return Unverifiable, [];
    }
    if size > first + 1 {
      return BlocksInUse, [];
    }
    var run := FreeRun(image, l, first, size);
    if run.None? {
      return BlocksInUse, [];
    }
    ViewSized(image[..], l);
    var file := ReadFile(image, l, run.value);
    var check := CheckVms(file);
    match check
    case Passes => return ChainUnwritten, run.value;
    case Fails => return ChecksumMismatch, [];
    case NoChecksum => return Unverifiable, [];
  }

  /** `fat` with the first `n` of `cells` linked, in the order they are written. */
  function RelinkTo(fat: Fat, cells: seq<nat>, n: nat): (r: Fat)
    requires n <= |cells| && forall i :: 0 <= i < |cells| ==> cells[i] < |fat|
    ensures |r| == |fat|
  {
    if n == 0 then fat else RelinkTo(fat, cells, n - 1)[cells[n - 1] := LinkAt(cells, n - 1)]
  }

  lemma {:induction false} RelinkToAt(fat: Fat, cells: seq<nat>, n: nat, b: nat)
    requires n <= |cells| && Distinct(cells) && b < |fat| && forall i :: 0 <= i < |cells| ==> cells[i] < |fat|
    ensures b !in cells[..n] ==> RelinkTo(fat, cells, n)[b] == fat[b]
    ensures forall i :: 0 <= i < n && cells[i] == b ==> RelinkTo(fat, cells, n)[b] == LinkAt(cells, i)
  {
    if n > 0 {
      RelinkToAt(fat, cells, n - 1, b);
      assert cells[..n] == cells[..n - 1] + [cells[n - 1]];
    }
  }

  lemma RelinkLinks(fat: Fat, cells: seq<nat>)
    requires |cells| > 0 && Distinct(cells) && forall i :: 0 <= i < |cells| ==> cells[i] < |fat|
    ensures LinkedInto(fat, cells, RelinkTo(fat, cells, |cells|))
  {
    var r := RelinkTo(fat, cells, |cells|);
    assert cells[..|cells|] == cells;
    forall b | 0 <= b < |fat| && b !in cells ensures r[b] == fat[b] {
      RelinkToAt(fat, cells, |cells|, b);
    }
    forall i: nat | i < |cells| ensures r[cells[i]] == LinkAt(cells, i) {
      RelinkToAt(fat, cells, |cells|, cells[i]);
    }
    forall i: nat | 0 < i < |cells| ensures Steps(r, cells, i) {
      assert r[cells[i - 1]] == LinkAt(cells, i - 1);
    }
  }

  ghost predicate Storing(v: Volume) {
    BlocksSized(v) && forall s: nat :: Live(v, s) ==> |v.dir[s].rest| == ENTRY_SIZE
  }

  /** One slot: passed over when its chain now walks to its size over blocks no
      other entry claimed before the repair, else noted and, if it can be, relinked. */
  ghost function RepairSlot(v: Volume, w: Volume, s: nat, notes: seq<Note>): (r: (Fat, seq<Note>))
    requires s < |v.dir| && Storing(w) && w.dir == v.dir
    ensures |r.0| == |w.fat|
  {
    if PassedOver(v, w, s) then (w.fat, notes)
    else
      var (damage, cells) := DamageOf(w, s);
      (RelinkTo(w.fat, cells, |cells|), notes + [Note(w.dir[s].id, w.dir[s].first, damage, cells != [])])
  }

  ghost predicate Notes(w: Volume, s: nat, note: Note) {
    Live(w, s) && note.name == w.dir[s].id && note.first == w.dir[s].first
  }

  lemma LayoutValid(image: Image, l: Layout)
    requires ReadLayout(image) == Some(l)
    ensures l.Valid()
  {
  }

  lemma RelinkStarts(fat: Fat, cells: seq<nat>, image: Image, l: Layout)
    requires l.Valid() && forall i :: 0 <= i < |cells| ==> cells[i] < |fat|
    ensures RelinkTo(fat, cells, 0) == fat && SameElsewhere(image, image, l)
  {
  }

  lemma RelinkNext(fat: Fat, cells: seq<nat>, n: nat)
    requires n < |cells| && forall i :: 0 <= i < |cells| ==> cells[i] < |fat|
    ensures RelinkTo(fat, cells, n + 1) == RelinkTo(fat, cells, n)[cells[n] := LinkAt(cells, n)]
  {
  }

  lemma SameElsewhereTrans(a: Image, b: Image, c: Image, l: Layout)
    requires l.Valid() && SameElsewhere(a, b, l) && SameElsewhere(b, c, l)
    ensures SameElsewhere(a, c, l)
  {
  }

  method Relink(image: array<u8>, l: Layout, cells: seq<nat>)
    requires image.Length == CARD_SIZE && ReadLayout(image[..]) == Some(l)
    requires forall i :: 0 <= i < |cells| ==> cells[i] < l.userBlocks
    modifies image
    ensures ReadLayout(image[..]) == Some(l) && SameElsewhere(old(image[..]), image[..], l)
    ensures View(image[..], l) == old(View(image[..], l).(fat := RelinkTo(View(image[..], l).fat, cells, |cells|)))
    ensures cells == [] ==> image[..] == old(image[..])
  {
    hide ReadLayout, View, RelinkTo, SameElsewhere, Splice, Le16Bytes, Layout.Valid, Layout.CellOffset;
    ghost var v := View(image[..], l);
    LayoutValid(image[..], l);
    ViewSizes(image[..], l);
    RelinkStarts(v.fat, cells, image[..], l);
    for i := 0 to |cells|
      invariant i == 0 ==> image[..] == old(image[..])
      invariant ReadLayout(image[..]) == Some(l) && SameElsewhere(old(image[..]), image[..], l)
      invariant View(image[..], l) == v.(fat := RelinkTo(v.fat, cells, i))
    {
      var value := if i + 1 < |cells| then cells[i + 1] else FAT_END;
      RelinkNext(v.fat, cells, i);
      assert LinkOf(value) == LinkAt(cells, i);
      ghost var was := image[..];
      FatSet(image, l, cells[i], value);
      SameElsewhereTrans(old(image[..]), was, image[..], l);
    }
  }

  ghost predicate PassedOver(v: Volume, w: Volume, s: nat) {
    !Live(w, s) || (Whole(w, s) && !SharedBy(v, ChainAt(w, s)))
  }

  method IsPassedOver(image: array<u8>, l: Layout, s: nat, claims: array<u8>, ghost v: Volume) returns (yes: bool)
    requires image.Length == CARD_SIZE && l.Valid() && s < l.SlotCount() && claims.Length == 256
    requires forall b: nat :: b < 256 ==> claims[b] == Saturate(Claims(v, |v.dir|, b))
    ensures yes <==> PassedOver(v, View(image[..], l), s)
    ensures !yes ==> IsFile(Entry(image[..], l, s))
  {
    var entry := Entry(image[..], l, s);
    assert View(image[..], l).dir[s] == SlotOf(entry);
    if !IsFile(entry) {
      return true;
    }
    var n, _ := EntryChain(image, l, s);
    if n == 0 {
      return false;
    }
    var shared := ChainShared(image, l, s, claims, v);
    return !shared;
  }

  method RepairEntry(image: array<u8>, l: Layout, s: nat, claims: array<u8>, ghost v: Volume, notes: seq<Note>)
    returns (report: seq<Note>, wrote: bool)
    requires image.Length == CARD_SIZE && ReadLayout(image[..]) == Some(l) && s < l.SlotCount()
    requires claims.Length == 256 && claims != image
    requires forall b: nat :: b < 256 ==> claims[b] == Saturate(Claims(v, |v.dir|, b))
    requires v.dir == View(image[..], l).dir && Storing(View(image[..], l))
    modifies image
    ensures ReadLayout(image[..]) == Some(l) && SameElsewhere(old(image[..]), image[..], l)
    ensures var w := old(View(image[..], l));
      View(image[..], l) == w.(fat := RepairSlot(v, w, s, notes).0) && report == RepairSlot(v, w, s, notes).1
    ensures !wrote ==> image[..] == old(image[..])
  {
    ghost var w := View(image[..], l);
    var over := IsPassedOver(image, l, s, claims, v);
    if over {
      return notes, false;
    }
    var damage, cells := FindDamage(image, l, s);
    var entry := Entry(image[..], l, s);
    assert w.dir[s] == SlotOf(entry);
    Relink(image, l, cells);
    report := notes + [Note(EntryName(entry), Le16(entry, ENTRY_FIRST_BLOCK), damage, cells != [])];
    wrote := cells != [];
  }

  lemma ViewStores(image: Image, l: Layout)
    requires l.Valid()
    ensures Storing(View(image, l))
  {
    var v := View(image, l);
    forall s: nat | Live(v, s) ensures |v.dir[s].rest| == ENTRY_SIZE {
      assert v.dir[s] == SlotOf(Entry(image, l, s));
    }
  }

  /* ---- Repair is safe --------------------------------------------------------------------- */

  ghost predicate SameSave(v: Volume, w: Volume, s: nat) {
    && |v.blocks| == |v.fat| && |w.blocks| == |w.fat| && Listable(v, s) && Listable(w, s)
    && ChainAt(w, s) == ChainAt(v, s) && SaveAt(w, s) == SaveAt(v, s)
  }

  /** Entry `s` walks down from its first block to its recorded size, over
      blocks whose header checksum passes. */
  ghost predicate Rebuilt(w: Volume, s: nat) {
    && BlocksSized(w) && Whole(w, s) && w.dir[s].size <= w.dir[s].first + 1
    && ChainAt(w, s) == DownFrom(w.dir[s].first, w.dir[s].size)
    && VmsCheck(Joined(Read(w.blocks, ChainAt(w, s)))) == Passes
  }

  /** `w` differs from `v` only in cells that were free. */
  ghost predicate OnlyFreeCells(v: Volume, w: Volume) {
    && w.blocks == v.blocks && w.dir == v.dir && |w.fat| == |v.fat|
    && forall b :: 0 <= b < |v.fat| && v.fat[b] != Free ==> w.fat[b] == v.fat[b]
  }

  /** One slot's repair keeps every listed save and every chain rebuilt so far. */
  lemma SlotIsSafe(v: Volume, w: Volume, s: nat, notes: seq<Note>, t: nat)
    requires s < |v.dir| && Storing(w) && w.dir == v.dir
    ensures var w' := w.(fat := RepairSlot(v, w, s, notes).0);
      && OnlyFreeCells(w, w')
      && (Listable(w, t) ==> SameSave(w, w', t))
      && (Whole(w, t) ==> Whole(w', t) && ChainAt(w', t) == ChainAt(w, t))
  {
    var (fat, _) := RepairSlot(v, w, s, notes);
    var w' := w.(fat := fat);
    if !PassedOver(v, w, s) && DamageOf(w, s).1 != [] {
      var cells := DamageOf(w, s).1;
      RelinkLinks(w.fat, cells);
      if Listable(w, t) {
        LinkingKeepsListed(w, cells, w', t);
      }
      if Whole(w, t) {
        ChainLinks(w.fat, ChainAt(w, t));
        ChainFrame(w.fat, w'.fat, ChainAt(w, t));
      }
    }
  }

  /** A slot whose chain the repair writes is rebuilt, and noted. */
  lemma SlotRebuilds(v: Volume, w: Volume, s: nat, notes: seq<Note>)
    requires s < |v.dir| && Storing(w) && w.dir == v.dir && !PassedOver(v, w, s) && DamageOf(w, s).1 != []
    ensures Rebuilt(w.(fat := RepairSlot(v, w, s, notes).0), s)
  {
    var cells := DamageOf(w, s).1;
    var fat := RelinkTo(w.fat, cells, |cells|);
    RelinkLinks(w.fat, cells);
    ChainOfUnique(fat, cells);
  }

  /** What a repair has kept and done after `n` slots: `slots[i]` is the entry
      that `report[i]` notes. */
  ghost predicate RepairKept(v: Volume, w: Volume, n: nat, slots: seq<nat>, report: seq<Note>) {
    && OnlyFreeCells(v, w) && |slots| == |report|
    && (forall t: nat {:trigger Listable(v, t)} :: Listable(v, t) ==> SameSave(v, w, t))
    && (forall i: nat {:trigger NotedRight(v, w, slots, report, i)} :: i < |slots| ==>
        slots[i] < n && NotedRight(v, w, slots, report, i))
    && (forall s: nat {:trigger Listable(v, s)} :: s < n && Live(v, s) && !Listable(v, s) && s !in slots ==>
        Whole(w, s) && !Whole(v, s))
  }

  ghost predicate NotedRight(v: Volume, w: Volume, slots: seq<nat>, report: seq<Note>, i: nat)
    requires i < |slots| == |report|
  {
    Notes(v, slots[i], report[i]) && !Listable(v, slots[i]) && (report[i].repaired ==> Rebuilt(w, slots[i]))
  }

  ghost function SlotsAfter(v: Volume, w: Volume, n: nat, slots: seq<nat>): seq<nat> {
    if PassedOver(v, w, n) then slots else slots + [n]
  }

  lemma KeptStepListed(v: Volume, w: Volume, n: nat, slots: seq<nat>, report: seq<Note>, w': Volume, t: nat)
    requires RepairKept(v, w, n, slots, report) && Storing(w) && n < |v.dir|
    requires w' == w.(fat := RepairSlot(v, w, n, report).0)
    ensures OnlyFreeCells(v, w')
    ensures Listable(v, t) ==> SameSave(v, w', t)
    ensures Rebuilt(w, t) ==> Rebuilt(w', t)
    ensures Whole(w, t) ==> Whole(w', t)
  {
    SlotIsSafe(v, w, n, report, t);
    FreeCellsAgain(v, w, w');
  }

  lemma FreeCellsAgain(v: Volume, w: Volume, w': Volume)
    requires OnlyFreeCells(v, w) && OnlyFreeCells(w, w')
    ensures OnlyFreeCells(v, w')
  {
  }

  /** An unlisted entry is passed over only when the repair itself completed its chain. */
  lemma PassedOverUnlisted(v: Volume, w: Volume, n: nat, slots: seq<nat>, report: seq<Note>)
    requires RepairKept(v, w, n, slots, report) && n < |v.dir| && Live(v, n)
    ensures Listable(v, n) ==> PassedOver(v, w, n)
    ensures PassedOver(v, w, n) && !Listable(v, n) ==> Whole(w, n) && !Whole(v, n)
  {
    if Whole(v, n) {
      NotSharedIsListable(v, n);
      ChainLinks(v.fat, ChainAt(v, n));
      ChainFrame(v.fat, w.fat, ChainAt(v, n));
    }
  }

  lemma NewNote(v: Volume, w: Volume, n: nat, slots: seq<nat>, report: seq<Note>, w': Volume)
    requires RepairKept(v, w, n, slots, report) && Storing(w) && n < |v.dir| && !PassedOver(v, w, n)
    requires w' == w.(fat := RepairSlot(v, w, n, report).0)
    ensures var r := RepairSlot(v, w, n, report).1;
      |r| == |report| + 1 && r[..|report|] == report && NotedRight(v, w', slots + [n], r, |report|)
  {
    PassedOverUnlisted(v, w, n, slots, report);
    if DamageOf(w, n).1 != [] {
      SlotRebuilds(v, w, n, report);
    }
  }

  lemma KeptStep(v: Volume, w: Volume, n: nat, slots: seq<nat>, report: seq<Note>, w': Volume, report': seq<Note>)
    requires RepairKept(v, w, n, slots, report) && Storing(w) && n < |v.dir|
    requires w' == w.(fat := RepairSlot(v, w, n, report).0) && report' == RepairSlot(v, w, n, report).1
    ensures RepairKept(v, w', n + 1, SlotsAfter(v, w, n, slots), report')
  {
    var slots' := SlotsAfter(v, w, n, slots);
    if !PassedOver(v, w, n) {
      NewNote(v, w, n, slots, report, w');
    }
    forall t: nat ensures OnlyFreeCells(v, w') && (Listable(v, t) ==> SameSave(v, w', t)) {
      KeptStepListed(v, w, n, slots, report, w', t);
    }
    forall i: nat | i < |slots'| ensures slots'[i] < n + 1 && NotedRight(v, w', slots', report', i) {
      if i < |slots| {
        assert NotedRight(v, w, slots, report, i);
        assert report'[i] == report[i];
        KeptStepListed(v, w, n, slots, report, w', slots[i]);
      }
    }
    forall s: nat | s < n + 1 && Live(v, s) && !Listable(v, s) && s !in slots' ensures Whole(w', s) && !Whole(v, s) {
      KeptStepListed(v, w, n, slots, report, w', s);
      if s == n {
        PassedOverUnlisted(v, w, n, slots, report);
      } else {
        assert s !in slots;
      }
    }
  }

  /** Relinks the data files whose checksum shows where their blocks are. However broken the card, only free cells are
      written; every save listed before is listed after with the same bytes; each
      chain reported rebuilt walks to its recorded size over blocks whose checksum
      passes; and every save left out is noted, unless the repair itself completed
      its chain. `slots[i]` is the entry that `report[i]` notes. */
  method Repair(image: array<u8>) returns (rc: Status, report: seq<Note>, changed: bool, ghost slots: seq<nat>)
    requires image.Length == CARD_SIZE
    modifies image
    ensures rc == if ReadLayout(old(image[..])).Some? then Ok else Unsupported
    ensures !changed ==> image[..] == old(image[..])
    ensures rc == Ok ==> var l := ReadLayout(old(image[..])).value;
      var v := old(View(image[..], l));
      && ReadLayout(image[..]) == Some(l) && SameElsewhere(old(image[..]), image[..], l)
      && RepairKept(v, View(image[..], l), |v.dir|, slots, report)
  {
    report, changed, slots := [], false, [];
    var layout := ReadLayout(image[..]);
    if layout.None? {
      return Unsupported, [], false, [];
    }
    report, changed, slots := RepairAll(image, layout.value);
    rc := Ok;
  }

  method RepairAll(image: array<u8>, l: Layout) returns (report: seq<Note>, changed: bool, ghost slots: seq<nat>)
    requires image.Length == CARD_SIZE && ReadLayout(image[..]) == Some(l)
    modifies image
    ensures !changed ==> image[..] == old(image[..])
    ensures ReadLayout(image[..]) == Some(l) && SameElsewhere(old(image[..]), image[..], l)
    ensures RepairKept(old(View(image[..], l)), View(image[..], l), l.SlotCount(), slots, report)
  {
    report, changed, slots := [], false, [];
    ghost var v := View(image[..], l);
    var claims := CountClaims(image, l);
    for s := 0 to l.SlotCount()
      invariant ReadLayout(image[..]) == Some(l) && SameElsewhere(old(image[..]), image[..], l)
      invariant forall b: nat :: b < 256 ==> claims[b] == Saturate(Claims(v, |v.dir|, b))
      invariant RepairKept(v, View(image[..], l), s, slots, report)
      invariant !changed ==> image[..] == old(image[..])
    {
      var wrote;
      report, wrote, slots := RepairStep(image, l, s, claims, v, report, slots);
      changed := changed || wrote;
    }
  }

  method RepairStep(image: array<u8>, l: Layout, s: nat, claims: array<u8>, ghost v: Volume, notes: seq<Note>,
                    ghost slots: seq<nat>)
    returns (report: seq<Note>, wrote: bool, ghost slots': seq<nat>)
    requires image.Length == CARD_SIZE && ReadLayout(image[..]) == Some(l) && s < l.SlotCount()
    requires claims.Length == 256 && claims != image
    requires forall b: nat :: b < 256 ==> claims[b] == Saturate(Claims(v, |v.dir|, b))
    requires RepairKept(v, View(image[..], l), s, slots, notes)
    modifies image
    ensures ReadLayout(image[..]) == Some(l) && SameElsewhere(old(image[..]), image[..], l)
    ensures RepairKept(v, View(image[..], l), s + 1, slots', report)
    ensures !wrote ==> image[..] == old(image[..])
  {
    ghost var w := View(image[..], l);
    ViewStores(image[..], l);
    report, wrote := RepairEntry(image, l, s, claims, v, notes);
    KeptStep(v, w, s, slots, notes, View(image[..], l), report);
    slots' := SlotsAfter(v, w, s, slots);
  }
}
