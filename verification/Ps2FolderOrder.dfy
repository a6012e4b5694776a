/** Where packing a folder puts the files its index does not place, against the order src/card_ps2.h promises. */
module Ps2FolderOrder {
  import opened Bytes
  import opened Status
  import opened Text
  import opened Ps2Index
  import opened Ps2IndexTheorems
  import opened Ps2Folder
  import opened Ps2FolderParts

  /* ---- Sorting by insertion -------------------------------------------------------------------------------- */

  predicate Ascends(items: seq<Item>) {
    forall i, j {:trigger items[i], items[j]} :: 0 <= i < j < |items| ==> items[i].order <= items[j].order
  }

  /** `k` items come no later than `x`, all the rest later. */
  predicate Parts(items: seq<Item>, x: Item, k: nat) {
    && k <= |items|
    && (forall i {:trigger items[i]} :: 0 <= i < k ==> items[i].order <= x.order)
    && (forall i {:trigger items[i]} :: k <= i < |items| ==> x.order < items[i].order)
  }

  lemma InsertedEnd(items: seq<Item>, y: Item, x: Item)
    ensures Inserted(items + [y], x) == if x.order < y.order then Inserted(items, x) + [y] else items + [y] + [x]
  {
    assert (items + [y])[..|items|] == items;
  }

  lemma {:induction false} InsertedThere(a: seq<Item>, b: seq<Item>, x: Item)
    requires forall i {:trigger a[i]} :: 0 <= i < |a| ==> a[i].order <= x.order
    requires forall i {:trigger b[i]} :: 0 <= i < |b| ==> x.order < b[i].order
    ensures Inserted(a + b, x) == a + [x] + b
    decreases |b|
  {
    hide Inserted;
    if b != [] {
      var front, y := b[..|b| - 1], b[|b| - 1];
      InsertedThere(a, front, x);
      InsertedEnd(a + front, y, x);
      assert a + b == a + front + [y];
      assert a + [x] + b == a + [x] + front + [y];
    } else if a != [] {
      InsertedEnd(a[..|a| - 1], a[|a| - 1], x);
      assert a == a[..|a| - 1] + [a[|a| - 1]];
      assert a + b == a && a + [x] + b == a + [x];
    } else {
      InsertedNone(x);
      assert a + b == [] && a + [x] + b == [x];
    }
  }

  lemma InsertedNone(x: Item)
    ensures Inserted([], x) == [x]
  {
  }

  lemma {:induction false} Split(items: seq<Item>, x: Item) returns (k: nat)
    requires Ascends(items)
    ensures Parts(items, x, k)
    decreases |items|
  {
    k := |items|;
    if items != [] && x.order < items[|items| - 1].order {
      k := Split(items[..|items| - 1], x);
    }
  }

  /** Inserting cuts an ascending list in two. */
  lemma InsertedAt(items: seq<Item>, x: Item) returns (k: nat)
    requires Ascends(items)
    ensures Parts(items, x, k)
    ensures Inserted(items, x) == items[..k] + [x] + items[k..]
    ensures Ascends(Inserted(items, x))
  {
    hide Inserted;
    k := Split(items, x);
    InsertedThere(items[..k], items[k..], x);
    assert items == items[..k] + items[k..];
  }

  lemma {:induction false} OrderedAscends(items: seq<Item>)
    ensures Ascends(Ordered(items))
    decreases |items|
  {
    if items != [] {
      OrderedAscends(items[..|items| - 1]);
      var _ := InsertedAt(Ordered(items[..|items| - 1]), items[|items| - 1]);
    }
  }

  /* ---- The files a row places and those none does ------------------------------------------------------------- */

  predicate HasPlace(rows: seq<Row>, path: seq<u8>) {
    RowFor(rows, path).Some? && RowFor(rows, path).value.order.Some?
  }

  predicate IsPlaced(rows: seq<Row>, x: Item) {
    HasPlace(rows, x.file.path)
  }

  /** The items a row places, or those none does, as they come. */
  function Those(items: seq<Item>, rows: seq<Row>, placed: bool): (r: seq<Item>)
    ensures |r| <= |items|
    ensures forall x {:trigger x in r} :: x in r ==> x in items && IsPlaced(rows, x) == placed
  {
    if items == [] then []
    else Those(items[..|items| - 1], rows, placed) + if IsPlaced(rows, items[|items| - 1]) == placed
      then [items[|items| - 1]] else []
  }

  lemma {:induction false} ThoseJoin(a: seq<Item>, b: seq<Item>, rows: seq<Row>, placed: bool)
    ensures Those(a + b, rows, placed) == Those(a, rows, placed) + Those(b, rows, placed)
    decreases |b|
  {
    hide IsPlaced;
    if b == [] {
      assert a + b == a;
    } else {
      assert (a + b)[..|a + b| - 1] == a + b[..|b| - 1] && (a + b)[|a + b| - 1] == b[|b| - 1];
      ThoseJoin(a, b[..|b| - 1], rows, placed);
    }
  }

  lemma ThoseOne(x: Item, rows: seq<Row>, placed: bool)
    ensures Those([x], rows, placed) == if IsPlaced(rows, x) == placed then [x] else []
  {
    assert [x][..0] == [];
  }

  /** Where an item goes among some of the items is settled by where it goes among all. */
  lemma ThoseInserted(items: seq<Item>, x: Item, rows: seq<Row>, placed: bool)
    requires Ascends(items)
    ensures Those(Inserted(items, x), rows, placed)
         == if IsPlaced(rows, x) == placed then Inserted(Those(items, rows, placed), x) else Those(items, rows, placed)
  {
    hide IsPlaced, Inserted;
    var k := InsertedAt(items, x);
    var a, b := items[..k], items[k..];
    assert items == a + b;
    ThoseJoin(a + [x], b, rows, placed);
    ThoseJoin(a, [x], rows, placed);
    ThoseJoin(a, b, rows, placed);
    ThoseOne(x, rows, placed);
    var c, d := Those(a, rows, placed), Those(b, rows, placed);
    forall i | 0 <= i < |c| ensures c[i].order <= x.order {
      assert c[i] in c && c[i] in a;
    }
    forall i | 0 <= i < |d| ensures x.order < d[i].order {
      assert d[i] in d && d[i] in b;
    }
    InsertedThere(c, d, x);
    assert c + [] + d == c + d;
  }

  lemma OrderedEnd(items: seq<Item>, x: Item)
    ensures Ordered(items + [x]) == Inserted(Ordered(items), x)
  {
    assert (items + [x])[..|items|] == items;
  }

  /** Ordering all the items orders those that a row places and those that none does. */
  lemma {:induction false} ThoseOrdered(items: seq<Item>, rows: seq<Row>, placed: bool)
    ensures Those(Ordered(items), rows, placed) == Ordered(Those(items, rows, placed))
    decreases |items|
  {
    hide IsPlaced, Inserted;
    if items != [] {
      var front, last := items[..|items| - 1], items[|items| - 1];
      ThoseOrdered(front, rows, placed);
      OrderedAscends(front);
      ThoseInserted(Ordered(front), last, rows, placed);
      if IsPlaced(rows, last) == placed {
        OrderedEnd(Those(front, rows, placed), last);
      } else {
        assert Those(items, rows, placed) == Those(front, rows, placed);
      }
    }
  }

  /* ---- What is gathered ------------------------------------------------------------------------------------------ */

  predicate Loose(rows: seq<Row>, f: FolderFile) {
    !Reserved(f.path) && !HasPlace(rows, f.path)
  }

  /** The files that no row places, as they are given. */
  function LooseFiles(files: seq<FolderFile>, rows: seq<Row>): (r: seq<FolderFile>)
    ensures |r| <= |files|
  {
    if files == [] then [] else (if Loose(rows, files[0]) then [files[0]] else []) + LooseFiles(files[1..], rows)
  }

  /** Files numbered downward from `from`. */
  function Downward(files: seq<FolderFile>, from: int): (items: seq<Item>)
    ensures |items| == |files| && forall i {:trigger items[i]} :: 0 <= i < |files| ==>
      items[i] == Item(files[i], from - i)
  {
    seq(|files|, i requires 0 <= i < |files| => Item(files[i], from - i))
  }

  lemma LooseNext(items: Items, f: FolderFile, rows: seq<Row>)
    requires Gathered(items, f, RowFor(rows, f.path)).Some?
    ensures var next := Gathered(items, f, RowFor(rows, f.path)).value;
            var loose := if Loose(rows, f) then [f] else [];
            && Those(next.list, rows, false) == Those(items.list, rows, false) + Downward(loose, -1 - items.unlisted)
            && next.unlisted == items.unlisted + |loose|
  {
    hide Reserved, PlainName, RowFor, Those;
    var none := Downward([], -1 - items.unlisted);
    assert Those(items.list, rows, false) + none == Those(items.list, rows, false);
    if !Reserved(f.path) {
      var x := Gathered(items, f, RowFor(rows, f.path)).value.list[|items.list|];
      ThoseJoin(items.list, [x], rows, false);
      ThoseOne(x, rows, false);
      assert Loose(rows, f) ==> [x] == Downward([f], -1 - items.unlisted);
    }
  }

  lemma DownwardJoin(a: seq<FolderFile>, b: seq<FolderFile>, from: int)
    ensures Downward(a + b, from) == Downward(a, from) + Downward(b, from - |a|)
  {
  }

  lemma {:induction false} LooseGathered(files: seq<FolderFile>, rows: seq<Row>, items: Items)
    requires Gather(files, rows, items).Some?
    ensures Those(Gather(files, rows, items).value.list, rows, false)
         == Those(items.list, rows, false) + Downward(LooseFiles(files, rows), -1 - items.unlisted)
    decreases |files|
  {
    hide Gathered, RowFor, Loose, Those, Downward;
    if files == [] {
      assert Those(items.list, rows, false) + Downward([], -1 - items.unlisted) == Those(items.list, rows, false);
    } else {
      var next := Gathered(items, files[0], RowFor(rows, files[0].path)).value;
      LooseNext(items, files[0], rows);
      LooseGathered(files[1..], rows, next);
      DownwardJoin(if Loose(rows, files[0]) then [files[0]] else [], LooseFiles(files[1..], rows), -1 - items.unlisted);
    }
  }

  /* ---- In reverse ------------------------------------------------------------------ */

  lemma {:induction false} DownwardTurns(items: seq<Item>)
    requires forall i, j {:trigger items[i], items[j]} :: 0 <= i < j < |items| ==> items[j].order < items[i].order
    ensures forall i {:trigger Ordered(items)[i]} :: 0 <= i < |items| ==> Ordered(items)[i] == items[|items| - 1 - i]
    decreases |items|
  {
    if items != [] {
      var front, last := items[..|items| - 1], items[|items| - 1];
      DownwardTurns(front);
      forall i | 0 <= i < |front| ensures last.order < Ordered(front)[i].order {
        assert Ordered(front)[i] == front[|front| - 1 - i];
      }
      InsertedFirst(Ordered(front), last);
    }
  }

  /** In any folder the files that no row places go into the save in the reverse of the order they are given in, each
      numbered down from -1. */
  lemma UnnamedReverse(files: seq<FolderFile>, rows: seq<Row>)
    requires Gather(files, rows, Items([], 0)).Some?
    ensures var loose := Those(Ordered(Gather(files, rows, Items([], 0)).value.list), rows, false);
            && |loose| == |LooseFiles(files, rows)|
            && forall i {:trigger loose[i]} :: 0 <= i < |loose| ==>
               loose[i] == Item(LooseFiles(files, rows)[|loose| - 1 - i], i - |loose|)
  {
    hide Gather, Ordered, LooseFiles;
    var list := Gather(files, rows, Items([], 0)).value.list;
    ThoseOrdered(list, rows, false);
    LooseGathered(files, rows, Items([], 0));
    var items := Downward(LooseFiles(files, rows), -1);
    assert Those([], rows, false) + items == items;
    DownwardTurns(items);
  }

  /* ---- Before the others ----------------------------------------------------------- */

  /** Those that no row places stand before all that one does. */
  predicate LooseFirst(items: seq<Item>, rows: seq<Row>) {
    forall i, j {:trigger items[i], items[j]} :: 0 <= i < j < |items| && !IsPlaced(rows, items[j]) ==>
      !IsPlaced(rows, items[i])
  }

  /** `x` at `i` goes before `y` at `j`. */
  predicate Before(x: Item, i: int, y: Item, j: int) {
    x.order < y.order || (x.order == y.order && i < j)
  }

  predicate AllBefore(items: seq<Item>, rows: seq<Row>) {
    forall i, j {:trigger items[i], items[j]} ::
      0 <= i < |items| && 0 <= j < |items| && !IsPlaced(rows, items[i]) && IsPlaced(rows, items[j]) ==>
        Before(items[i], i, items[j], j)
  }

  lemma Same(a: seq<Item>, b: seq<Item>)
    requires multiset(a) == multiset(b)
    ensures forall x {:trigger x in a} {:trigger x in b} :: x in a <==> x in b
  {
    forall x ensures x in a <==> x in b {
      assert x in a <==> x in multiset(a);
    }
  }

  lemma {:induction false} FirstIff(items: seq<Item>, rows: seq<Row>)
    ensures LooseFirst(Ordered(items), rows) <==> AllBefore(items, rows)
    decreases |items|
  {
    hide IsPlaced, Inserted;
    if items != [] {
      var n := |items| - 1;
      var front, last := items[..n], items[n];
      var s := Ordered(front);
      FirstIff(front, rows);
      OrderedAscends(front);
      OrderedHas(front);
      Same(s, front);
      var k := InsertedAt(s, last);
      InsertedFirstIff(s, last, k, rows);
      AllBeforeIff(items, rows);
      NextIff(s, front, last, k, rows);
    }
  }

  /** `last` and the items before it. */
  predicate LastFits(front: seq<Item>, last: Item, rows: seq<Row>) {
    if IsPlaced(rows, last) then forall i {:trigger front[i]} :: 0 <= i < |front| && !IsPlaced(rows, front[i]) ==>
      front[i].order <= last.order
    else forall i {:trigger front[i]} :: 0 <= i < |front| && IsPlaced(rows, front[i]) ==> last.order < front[i].order
  }

  lemma AllBeforeIff(items: seq<Item>, rows: seq<Row>)
    requires items != []
    ensures AllBefore(items, rows)
      <==> AllBefore(items[..|items| - 1], rows) && LastFits(items[..|items| - 1], items[|items| - 1], rows)
  {
    hide IsPlaced;
    var n := |items| - 1;
    var front, last := items[..n], items[n];
    assert forall i {:trigger items[i]} {:trigger front[i]} :: 0 <= i < n ==> items[i] == front[i];
  }

  /** The one inserted at `k` and the items on either side. */
  predicate PlaceFits(s: seq<Item>, last: Item, k: nat, rows: seq<Row>)
    requires k <= |s|
  {
    if IsPlaced(rows, last) then forall i {:trigger s[i]} :: k <= i < |s| ==> IsPlaced(rows, s[i])
    else forall i {:trigger s[i]} :: 0 <= i < k ==> !IsPlaced(rows, s[i])
  }

  lemma InsertedFirstIff(s: seq<Item>, x: Item, k: nat, rows: seq<Row>)
    requires k <= |s|
    ensures LooseFirst(s[..k] + [x] + s[k..], rows) <==> LooseFirst(s, rows) && PlaceFits(s, x, k, rows)
  {
    hide IsPlaced;
    var t := s[..k] + [x] + s[k..];
    assert forall i {:trigger t[i]} :: 0 <= i < |t| ==> t[i] == if i < k then s[i] else if i == k then x else s[i - 1];
    assert forall i {:trigger s[i]} :: 0 <= i < |s| ==> s[i] == if i < k then t[i] else t[i + 1];
    assert t[k] == x;
  }

  lemma NextIff(s: seq<Item>, front: seq<Item>, last: Item, k: nat, rows: seq<Row>)
    requires multiset(s) == multiset(front) && Parts(s, last, k)
    ensures PlaceFits(s, last, k, rows) <==> LastFits(front, last, rows)
  {
    hide IsPlaced;
    Same(s, front);
    if LastFits(front, last, rows) {
      forall i | 0 <= i < |s| ensures IsPlaced(rows, last) && k <= i ==> IsPlaced(rows, s[i])
                              ensures !IsPlaced(rows, last) && i < k ==> !IsPlaced(rows, s[i]) {
        assert s[i] in front;
      }
    }
    if PlaceFits(s, last, k, rows) {
      forall i | 0 <= i < |front| ensures IsPlaced(rows, last) && !IsPlaced(rows, front[i]) ==>
        front[i].order <= last.order
                                  ensures !IsPlaced(rows, last) && IsPlaced(rows, front[i]) ==>
                                    last.order < front[i].order {
        assert front[i] in s;
      }
    }
  }

  /* ---- When the promise is kept ---------------------------------------------------- */

  /** The files that are packed, as they are given. */
  function Given(files: seq<FolderFile>): (r: seq<FolderFile>) {
    if files == [] then [] else (if Reserved(files[0].path) then [] else [files[0]]) + Given(files[1..])
  }

  function PlaceIn(rows: seq<Row>, path: seq<u8>): int {
    if HasPlace(rows, path) then RowFor(rows, path).value.order.value else 0
  }

  /** The items are those files, where rows place them if they do. */
  predicate ItemsFor(items: seq<Item>, files: seq<FolderFile>, rows: seq<Row>) {
    && |items| == |files|
    && forall k {:trigger items[k]} {:trigger files[k]} :: 0 <= k < |items| ==>
         items[k].file == files[k] && (HasPlace(rows, files[k].path) ==> items[k].order == PlaceIn(rows, files[k].path))
  }

  lemma GivenNext(items: Items, f: FolderFile, rows: seq<Row>, files: seq<FolderFile>)
    requires Gathered(items, f, RowFor(rows, f.path)).Some? && ItemsFor(items.list, files, rows)
    ensures ItemsFor(Gathered(items, f, RowFor(rows, f.path)).value.list, files + if Reserved(f.path)
        then [] else [f], rows)
  {
    hide Reserved, PlainName, RowFor;
    assert files + [] == files;
  }

  lemma {:induction false} GivenGathered(files: seq<FolderFile>, rows: seq<Row>, items: Items, before: seq<FolderFile>)
    requires Gather(files, rows, items).Some? && ItemsFor(items.list, before, rows)
    ensures ItemsFor(Gather(files, rows, items).value.list, before + Given(files), rows)
    decreases |files|
  {
    hide Gathered, RowFor, ItemsFor;
    if files == [] {
      assert before + [] == before;
    } else {
      var now := if Reserved(files[0].path) then [] else [files[0]];
      var next := Gathered(items, files[0], RowFor(rows, files[0].path)).value;
      GivenNext(items, files[0], rows, before);
      GivenGathered(files[1..], rows, next, before + now);
      assert before + now + Given(files[1..]) == before + Given(files);
    }
  }

  lemma ThoseApart(items: seq<Item>, rows: seq<Row>, i: nat, j: nat)
    requires i < j < |items| && !IsPlaced(rows, items[i]) && !IsPlaced(rows, items[j])
    requires Descends(Those(items, rows, false))
    ensures items[j].order < items[i].order
  {
    hide IsPlaced;
    var a, b := items[..j], items[j..];
    assert items == a + b && a[i] == items[i] && b[0] == items[j];
    ThoseJoin(a, b, rows, false);
    ThoseKeeps(a, rows, i);
    ThoseKeeps(b, rows, 0);
    var c, d := Those(a, rows, false), Those(b, rows, false);
    var m :| 0 <= m < |c| && c[m] == items[i];
    var n :| 0 <= n < |d| && d[n] == items[j];
    assert (c + d)[m] == items[i] && (c + d)[|c| + n] == items[j];
  }

  predicate Descends(items: seq<Item>) {
    forall i, j {:trigger items[i], items[j]} :: 0 <= i < j < |items| ==> items[j].order < items[i].order
  }

  lemma {:induction false} ThoseKeeps(items: seq<Item>, rows: seq<Row>, i: nat)
    requires i < |items| && !IsPlaced(rows, items[i])
    ensures items[i] in Those(items, rows, false)
    decreases |items|
  {
    hide IsPlaced;
    if i < |items| - 1 {
      ThoseKeeps(items[..|items| - 1], rows, i);
    }
  }

  /** Some file is left unplaced, and the first of those is at -1, the others below. */
  predicate FirstIs(items: seq<Item>, rows: seq<Row>, f: nat) {
    && f < |items| && !IsPlaced(rows, items[f]) && items[f].order == -1
    && forall i {:trigger items[i]} :: 0 <= i < |items| && i != f && !IsPlaced(rows, items[i]) ==>
       f < i && items[i].order < -1
  }

  lemma FindFirst(items: seq<Item>, files: seq<FolderFile>, rows: seq<Row>) returns (f: nat)
    requires files != [] && Those(items, rows, false) == Downward(files, -1)
    ensures FirstIs(items, rows, f)
  {
    hide IsPlaced, Those;
    var those := Those(items, rows, false);
    assert those[0] in those;
    f :| f < |items| && items[f] == those[0];
    assert Descends(those);
    assert !IsPlaced(rows, items[f]);
    forall i | 0 <= i < |items| && i != f && !IsPlaced(rows, items[i]) ensures f < i && items[i].order < -1 {
      ThoseKeeps(items, rows, i);
      var m :| 0 <= m < |those| && those[m] == items[i];
      assert items[i].order <= -1;
      if i < f {
        ThoseApart(items, rows, i, f);
      } else {
        ThoseApart(items, rows, f, i);
      }
    }
  }

  predicate SomeLooseBefore(files: seq<FolderFile>, rows: seq<Row>, j: int) {
    exists i {:trigger files[i]} :: 0 <= i < j && i < |files| && !HasPlace(rows, files[i].path)
  }

  /** No row puts a file below -1, nor at -1 one given before all those that no row places. */
  predicate NoneBelow(files: seq<FolderFile>, rows: seq<Row>) {
    forall j {:trigger files[j]} :: 0 <= j < |files| && HasPlace(rows, files[j].path) ==>
      0 <= PlaceIn(rows, files[j].path) || (PlaceIn(rows, files[j].path) == -1 && SomeLooseBefore(files, rows, j))
  }

  lemma BelowIff(items: seq<Item>, files: seq<FolderFile>, rows: seq<Row>, f: nat)
    requires ItemsFor(items, files, rows) && FirstIs(items, rows, f)
    ensures AllBefore(items, rows) <==> NoneBelow(files, rows)
  {
    hide HasPlace, PlaceIn;
    assert forall i {:trigger items[i]} {:trigger files[i]} :: 0 <= i < |items| ==>
      IsPlaced(rows, items[i]) == HasPlace(rows, files[i].path);
    assert !HasPlace(rows, files[f].path);
    if AllBefore(items, rows) {
      forall j | 0 <= j < |files| && HasPlace(rows, files[j].path)
        ensures 0 <= PlaceIn(rows, files[j].path)
          || (PlaceIn(rows, files[j].path) == -1 && SomeLooseBefore(files, rows, j)) {
        assert Before(items[f], f, items[j], j);
      }
    }
    if NoneBelow(files, rows) {
      forall i, j | 0 <= i < |items| && 0 <= j < |items| && !IsPlaced(rows, items[i]) && IsPlaced(rows, items[j])
        ensures Before(items[i], i, items[j], j) {
        assert HasPlace(rows, files[j].path) && items[j].order == PlaceIn(rows, files[j].path);
        if items[j].order < 0 {
          var k :| 0 <= k < j && !HasPlace(rows, files[k].path);
          assert !IsPlaced(rows, items[k]);
        }
      }
    }
  }

  /** The files that no row places come before all the others exactly when there are none, or no other is put below
      them. */
  lemma UnnamedFirstIff(files: seq<FolderFile>, rows: seq<Row>)
    requires Gather(files, rows, Items([], 0)).Some?
    ensures LooseFirst(Ordered(Gather(files, rows, Items([], 0)).value.list), rows)
       <==> LooseFiles(files, rows) == [] || NoneBelow(Given(files), rows)
  {
    hide Gather, Ordered, LooseFiles, Given, ItemsFor, NoneBelow, Those, Downward, LooseFirst, AllBefore;
    var list := Gather(files, rows, Items([], 0)).value.list;
    FirstIff(list, rows);
    LooseAre(files, rows);
    GivenAre(files, rows);
    if LooseFiles(files, rows) == [] {
      NoneLoose(list, rows);
    } else {
      var f := FindFirst(list, LooseFiles(files, rows), rows);
      BelowIff(list, Given(files), rows, f);
    }
  }

  lemma LooseAre(files: seq<FolderFile>, rows: seq<Row>)
    requires Gather(files, rows, Items([], 0)).Some?
    ensures Those(Gather(files, rows, Items([], 0)).value.list, rows, false) == Downward(LooseFiles(files, rows), -1)
  {
    hide Gather, LooseFiles, Downward;
    LooseGathered(files, rows, Items([], 0));
    assert Those([], rows, false) + Downward(LooseFiles(files, rows), -1) == Downward(LooseFiles(files, rows), -1);
  }

  lemma GivenAre(files: seq<FolderFile>, rows: seq<Row>)
    requires Gather(files, rows, Items([], 0)).Some?
    ensures ItemsFor(Gather(files, rows, Items([], 0)).value.list, Given(files), rows)
  {
    hide Gather, Given;
    GivenGathered(files, rows, Items([], 0), []);
    assert [] + Given(files) == Given(files);
  }

  lemma NoneLoose(items: seq<Item>, rows: seq<Row>)
    requires Those(items, rows, false) == Downward([], -1)
    ensures AllBefore(items, rows)
  {
    hide IsPlaced, Those;
    forall i | 0 <= i < |items| ensures IsPlaced(rows, items[i]) {
      if !IsPlaced(rows, items[i]) {
        ThoseKeeps(items, rows, i);
        assert false;
      }
    }
  }

  /** What src/card_ps2.h promises of the files gathered: those the index does not place first, in the order given, and
      the others by their places. */
  predicate AsPromised(items: seq<Item>, rows: seq<Row>) {
    && LooseFirst(Ordered(items), rows)
    && Those(Ordered(items), rows, false) == Those(items, rows, false)
    && Ascends(Those(Ordered(items), rows, true))
  }

  /** The promise is kept exactly when at most one file is left unplaced and no other is put below it. */
  lemma PromiseKeptIff(files: seq<FolderFile>, rows: seq<Row>)
    requires Gather(files, rows, Items([], 0)).Some?
    ensures AsPromised(Gather(files, rows, Items([], 0)).value.list, rows)
       <==> |LooseFiles(files, rows)| <= 1 && (LooseFiles(files, rows) == [] || NoneBelow(Given(files), rows))
  {
    hide Gather, Ordered, LooseFiles, Given, NoneBelow, Those, LooseFirst, Ascends;
    var list := Gather(files, rows, Items([], 0)).value.list;
    UnnamedFirstIff(files, rows);
    UnnamedReverse(files, rows);
    LooseAre(files, rows);
    ThoseOrdered(list, rows, true);
    OrderedAscends(Those(list, rows, true));
    var a, b := Those(Ordered(list), rows, false), Those(list, rows, false);
    assert |a| == |b|;
    if |a| > 1 {
      assert a[0].order == -|a| && b[0].order == -1;
    } else {
      assert a == b;
    }
  }

  /* ---- Two folders ----------------------------------------------------------------- */

  /** A file of one byte, its own name. */
  function Letter(c: u8): FolderFile {
    FolderFile([c], [c])
  }

  lemma LetterName(c: u8)
    requires c != DOT && c != SLASH && c != BACKSLASH
    ensures !Reserved([c]) && PlainName([c])
  {
    assert |PREFIX| == 7;
  }

  function OneRow(c: u8, place: int): seq<Row> {
    [Row([c], Some(place), None, None)]
  }

  /** The lines 'c': and order: 1. */
  const C_AT_ONE: seq<u8> :=
    [0x27, 0x63, 0x27, 0x3A, 0x0A, 0x20, 0x20, 0x6F, 0x72, 0x64, 0x65, 0x72, 0x3A, 0x20, 0x31, 0x0A]

  /** The lines 'a': and order: -5. */
  const A_AT_MINUS_FIVE: seq<u8> :=
    [0x27, 0x61, 0x27, 0x3A, 0x0A, 0x20, 0x20, 0x6F, 0x72, 0x64, 0x65, 0x72, 0x3A, 0x20, 0x2D, 0x35, 0x0A]

  lemma LinesFor(c: u8, place: int)
    requires 0x61 <= c <= 0x7A && Printable(place)
    ensures ParseIndex(KeyLine(QuotedKey([c])) + FieldLine(ORDER, place)) == Some(OneRow(c, place))
  {
    hide BlockRows, FlowRows, BlockLine, NextLine, KeyLine, QuotedKey, FieldLine, ORDER, CString;
    var key, line := KeyLine(QuotedKey([c])), FieldLine(ORDER, place);
    var row := NewRow([c]);
    FieldsAreWords();
    KeyFirst(c, line);
    WholeCString(key + line);
    KeyReads([c], line, []);
    KeyLineSome(QuotedKey([c]));
    BlockStep(key, line, [], [] + [row]);
    assert line + [] == line;
    FieldStep(ORDER, place, [], [] + [row]);
    NothingLeft([] + [row.(order := Some(place))]);
    OrderField(row, place);
    LastSet([], row, row.(order := Some(place)));
    assert [] + [row.(order := Some(place))] == OneRow(c, place);
  }

  lemma OrderField(r: Row, v: int)
    ensures WithField(r, ORDER, v) == r.(order := Some(v))
  {
  }

  lemma KeyFirst(c: u8, line: seq<u8>)
    requires 0x61 <= c <= 0x7A && exists v {:trigger FieldLine(ORDER, v)} :: line == FieldLine(ORDER, v)
    ensures var text := KeyLine(QuotedKey([c])) + line;
            0 !in text && text != [] && text[0] == QUOTE && SkipSpace(text) == text
  {
    hide FieldLine, ORDER;
    var v :| line == FieldLine(ORDER, v);
    FieldsAreWords();
    FieldNoNul(ORDER, v);
    DoubledPlainOne(c);
  }

  lemma DoubledPlainOne(c: u8)
    requires c != QUOTE
    ensures Doubled([c]) == [c]
  {
    assert [c][1..] == [];
  }

  lemma IndexBytes()
    ensures ParseIndex(C_AT_ONE) == Some(OneRow(0x63, 1)) && ParseIndex(A_AT_MINUS_FIVE) == Some(OneRow(0x61, -5))
  {
    hide ParseIndex;
    DoubledPlainOne(0x63);
    DoubledPlainOne(0x61);
    assert C_AT_ONE == KeyLine(QuotedKey([0x63])) + FieldLine(ORDER, 1);
    assert A_AT_MINUS_FIVE == KeyLine(QuotedKey([0x61])) + FieldLine(ORDER, -5);
    LinesFor(0x63, 1);
    LinesFor(0x61, -5);
  }

  lemma GatherLetter(c: u8, row: u8, place: int, items: Items)
    requires c != DOT && c != SLASH && c != BACKSLASH
    ensures Gathered(items, Letter(c), RowFor(OneRow(row, place), [c]))
         == Some(if c == row then Items(items.list + [Item(Letter(c), place)], items.unlisted)
                 else Items(items.list + [Item(Letter(c), -1 - items.unlisted)], items.unlisted + 1))
    ensures HasPlace(OneRow(row, place), [c]) == (c == row)
  {
    LetterName(c);
    assert OneRow(row, place)[1..] == [];
    assert [c] == [row] <==> c == row;
  }

  lemma GatherStep(f: FolderFile, rest: seq<FolderFile>, rows: seq<Row>, items: Items, next: Items)
    requires Gathered(items, f, RowFor(rows, f.path)) == Some(next)
    ensures Gather([f] + rest, rows, items) == Gather(rest, rows, next)
  {
    assert ([f] + rest)[1..] == rest;
  }

  /** A folder "s" of an index and files of single letters. */
  function Folder(index: seq<u8>, letters: seq<FolderFile>): seq<FolderFile> {
    [FolderFile(INDEX, index)] + letters
  }

  lemma IndexPassed(index: seq<u8>, letters: seq<FolderFile>, rows: seq<Row>)
    ensures Gather(Folder(index, letters), rows, Items([], 0)) == Gather(letters, rows, Items([], 0))
    ensures Lookup(Folder(index, letters), INDEX) == Some(index)
  {
    PathsApart([], []);
    GatherStep(FolderFile(INDEX, index), letters, rows, Items([], 0), Items([], 0));
  }

  /** What packs from items of letters keeps their bytes in order. */
  lemma LettersPack(files: seq<FolderFile>, rows: seq<Row>, items: Items, list: seq<Item>)
    requires IndexRows(files) == Some(rows) && Gather(files, rows, Items([], 0)) == Some(items)
      && Ordered(items.list) == list
    requires forall i {:trigger list[i]} :: 0 <= i < |list| ==> |list[i].file.path| == 1 == |list[i].file.data|
    ensures var t := PackOf([0x73], files);
            t.Some? && |t.value.files| == |list| && forall i {:trigger list[i]} :: 0 <= i < |list| ==>
              t.value.files[i].data == list[i].file.data
  {
    hide IndexRows, Gather, Ordered, PackedDir, DotEntry, Lookup, EntryFromMeta;
    assert PlainName([0x73]);
    forall i | 0 <= i < |list| ensures Fits(list[i]) {
    }
  }

  /** Files "a", "b" and "c" with an index that puts "c" at 1 and names no other: they pack as "b", "a", "c". */
  lemma TwoUnnamedTurn()
    ensures var files := Folder(C_AT_ONE, [Letter(0x61), Letter(0x62), Letter(0x63)]);
            var t := PackOf([0x73], files);
            && t.Some? && |t.value.files| == 3
            && t.value.files[0].data == [0x62] && t.value.files[1].data == [0x61] && t.value.files[2].data == [0x63]
  {
    hide Gather, Gathered, RowFor, OneRow, Ordered, Inserted, HasPlace, Reserved, PlainName, C_AT_ONE, ParseIndex,
      PackOf, Lookup;
    var a, b, c := Letter(0x61), Letter(0x62), Letter(0x63);
    var files, rows := [a, b, c], OneRow(0x63, 1);
    var x, y, z := Item(a, -1), Item(b, -2), Item(c, 1);
    IndexBytes();
    IndexPassed(C_AT_ONE, files, rows);
    assert [] + [x] == [x] && [x] + [y] == [x, y] && [x, y] + [z] == [x, y, z];
    GatherLetter(0x61, 0x63, 1, Items([], 0));
    GatherStep(a, [b, c], rows, Items([], 0), Items([x], 1));
    GatherLetter(0x62, 0x63, 1, Items([x], 1));
    GatherStep(b, [c], rows, Items([x], 1), Items([x, y], 2));
    GatherLetter(0x63, 0x63, 1, Items([x, y], 2));
    GatherStep(c, [], rows, Items([x, y], 2), Items([x, y, z], 2));
    NoGather(rows, Items([x, y, z], 2));
    assert files == [a] + [b, c] && [b, c] == [b] + [c] && [c] == [c] + [];
    OrderedNone();
    OrderedEnd([], x);
    InsertedNone(x);
    OrderedEnd([x], y);
    InsertedFirst([x], y);
    OrderedEnd([x, y], z);
    InsertedThere([y, x], [], z);
    assert [y] + [x] == [y, x] && [y, x] + [z] + [] == [y, x, z] && [y, x] + [] == [y, x];
    LettersPack(Folder(C_AT_ONE, files), rows, Items([x, y, z], 2), [y, x, z]);
    var list := [y, x, z];
    assert list[0] == y && list[1] == x && list[2] == z;
  }

  lemma OrderedNone()
    ensures Ordered([]) == []
  {
  }

  /** Files "a" and "b" with an index that puts "a" at -5: they pack as "a", "b", though the index does not name "b". */
  lemma NegativePlaceFirst()
    ensures var files := Folder(A_AT_MINUS_FIVE, [Letter(0x61), Letter(0x62)]);
            var t := PackOf([0x73], files);
            && t.Some? && |t.value.files| == 2 && t.value.files[0].data == [0x61] && t.value.files[1].data == [0x62]
  {
    hide Gather, Gathered, RowFor, OneRow, Ordered, Inserted, HasPlace, A_AT_MINUS_FIVE, ParseIndex, PackOf, Lookup;
    var a, b := Letter(0x61), Letter(0x62);
    var files, rows := [a, b], OneRow(0x61, -5);
    var x, y := Item(a, -5), Item(b, -1);
    IndexBytes();
    IndexPassed(A_AT_MINUS_FIVE, files, rows);
    assert [] + [x] == [x] && [x] + [y] == [x, y];
    GatherLetter(0x61, 0x61, -5, Items([], 0));
    GatherStep(a, [b], rows, Items([], 0), Items([x], 0));
    GatherLetter(0x62, 0x61, -5, Items([x], 0));
    GatherStep(b, [], rows, Items([x], 0), Items([x, y], 1));
    NoGather(rows, Items([x, y], 1));
    assert files == [a] + [b] && [b] == [b] + [];
    OrderedAlready([x, y]);
    LettersPack(Folder(A_AT_MINUS_FIVE, files), rows, Items([x, y], 1), [x, y]);
    var list := [x, y];
    assert list[0] == x && list[1] == y;
  }
}
