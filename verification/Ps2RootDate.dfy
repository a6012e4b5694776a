/** The root's own entry once a folder is added: changed when the later of the two was. */
module Ps2RootDate {
  import opened Bytes
  import opened Calendar
  import opened Division
  import opened Ps2Fat
  import opened Ps2Cells
  import opened Ps2Read
  import opened Ps2Save
  import opened Ps2Build
  import opened Ps2Grow
  import opened Ps2Card

  lemma YearInOrder(a: Calendar.Tod, b: Calendar.Tod)
    ensures Le16(a, 6) > Le16(b, 6) <==> a[7] > b[7] || (a[7] == b[7] && a[6] > b[6])
    ensures Le16(a, 6) == Le16(b, 6) <==> a[7] == b[7] && a[6] == b[6]
  {
  }

  lemma SecondsInOrder(a: Calendar.Tod, b: Calendar.Tod)
    requires IsTod(a) && IsTod(b)
    ensures 0 <= Seconds(a) < 86400
    ensures Seconds(a) > Seconds(b) <==> a[3] > b[3] || (a[3] == b[3] && (a[2] > b[2] || (a[2] == b[2] && a[1] > b[1])))
  {
  }

  lemma TodInDays(t: Calendar.Tod)
    requires IsTod(t)
    ensures TodToUnix(t) == DaysFromCivil(TodDate(t)) * 86400 + Seconds(t)
  {
  }

  lemma DaysFirst(m: int, n: int, p: int, q: int)
    requires 0 <= p < 86400 && 0 <= q < 86400
    ensures m * 86400 + p > n * 86400 + q <==> m > n || (m == n && p > q)
  {
  }

  /** Of two dates and times of day the bytes, the last first, tell which is the later. */
  lemma LaterIff(a: Calendar.Tod, b: Calendar.Tod)
    requires IsTod(a) && IsTod(b)
    ensures TodLater(a, b, 7) <==> TodToUnix(a) > TodToUnix(b)
  {
    hide DaysFromCivil, TodToUnix, Seconds;
    TodInDays(a);
    TodInDays(b);
    SecondsInOrder(a, b);
    SecondsInOrder(b, a);
    DaysFirst(DaysFromCivil(TodDate(a)), DaysFromCivil(TodDate(b)), Seconds(a), Seconds(b));
    DaysInOrder(TodDate(a), TodDate(b));
    DaysInOrder(TodDate(b), TodDate(a));
    YearInOrder(a, b);
    YearInOrder(b, a);
    LaterOut(a, b);
  }

  lemma LaterOut(a: seq<u8>, b: seq<u8>)
    requires |a| == |b| == 8
    ensures TodLater(a, b, 7) <==>
      var minute := a[2] > b[2] || (a[2] == b[2] && a[1] > b[1]);
      var hour := a[3] > b[3] || (a[3] == b[3] && minute);
      var day := a[4] > b[4] || (a[4] == b[4] && hour);
      var month := a[5] > b[5] || (a[5] == b[5] && day);
      a[7] > b[7] || (a[7] == b[7] && (a[6] > b[6] || (a[6] == b[6] && month)))
  {
    assert TodLater(a, b, 1) == (a[1] > b[1]);
    assert TodLater(a, b, 3) == (a[3] > b[3] || (a[3] == b[3] && (a[2] > b[2] || (a[2] == b[2] && a[1] > b[1]))));
    assert TodLater(a, b, 5) == (a[5] > b[5] || (a[5] == b[5] && (a[4] > b[4] || (a[4] == b[4] && TodLater(a, b, 3)))));
  }

  /** The root's own entry before and after: its length one more when the new entry went on the end, its modified date
      the later of what it was and the folder's creation, everything else as it was. */
  ghost predicate Dated(was: Entry, now: Entry, created: seq<u8>, grew: bool, count: nat) {
    && Le32(now, LENGTH) == (if grew then (count + 1) % 0x1_0000_0000 else Le32(was, LENGTH))
    && (Ps2Card.Tod(now, MODIFIED) == Ps2Card.Tod(was, MODIFIED) || Ps2Card.Tod(now, MODIFIED) == created)
    && (|created| == TOD_SIZE && IsTod(created) && IsTod(Ps2Card.Tod(was, MODIFIED)) ==>
        var had, made := TodToUnix(Ps2Card.Tod(was, MODIFIED)), TodToUnix(created);
        TodToUnix(Ps2Card.Tod(now, MODIFIED)) == if made > had then made else had)
    && forall k {:trigger now[k]} ::
         0 <= k < ENTRY_SIZE && !(LENGTH <= k < LENGTH + 4) && !(MODIFIED <= k < MODIFIED + TOD_SIZE) ==>
         now[k] == was[k]
  }

  lemma Counted(was: Entry, count: nat)
    ensures var e := WithLe32(was, LENGTH, count + 1);
      && Le32(e, LENGTH) == (count + 1) % 0x1_0000_0000 && Ps2Card.Tod(e, MODIFIED) == Ps2Card.Tod(was, MODIFIED)
  {
    var e := WithLe32(was, LENGTH, count + 1);
    assert e[LENGTH..LENGTH + 4] == Le32Bytes(count + 1);
    assert Le32(e, LENGTH) == Le32(e[LENGTH..LENGTH + 4], 0);
  }

  lemma Stamped(e: Entry, tod: seq<u8>)
    requires |tod| == TOD_SIZE
    ensures var n: Entry := Splice(e, MODIFIED, tod);
            Ps2Card.Tod(n, MODIFIED) == tod && Le32(n, LENGTH) == Le32(e, LENGTH)
  {
  }

  lemma SelfDated(was: Entry, save: Save, slot: nat, count: nat)
    ensures Dated(was, RootSelf(was, save, slot, count), Ps2Card.Tod(save.self, CREATED), slot == count, count)
  {
    hide TodToUnix, TodLater, IsTod, Le32, Le32Bytes;
    var created, had := Ps2Card.Tod(save.self, CREATED), Ps2Card.Tod(was, MODIFIED);
    Counted(was, count);
    var e: Entry := if slot == count then WithLe32(was, LENGTH, count + 1) else was;
    Stamped(e, created);
    if IsTod(created) && IsTod(had) {
      LaterIff(created, had);
    }
  }

  /** After every inject that succeeds the root's first entry has as its modified date the later of the one it had and
      the folder's creation. */
  lemma RootIsDated(s: Progress, g: Geometry, save: Save, slot: nat, es: seq<Entry>, v: View)
    requires Injected(s, g, save, slot, es, v)
    ensures Sized(s.at, g) && Div(0, Per(g)) < |s.chains[0]| && s.chains[0][Div(0, Per(g))] < g.end
    ensures Dated(es[0], EntryAt(s.at.data, g, s.chains[0], 0), Ps2Card.Tod(save.self, CREATED), slot == |es|, |es|)
  {
    hide Dated, RootSelf;
    var want := RootAfter(es, save, slot, s.chains[1][0]);
    assert EntryIs(s.at, g, s.chains[0], want, 0);
    SelfDated(es[0], save, slot, |es|);
  }
}
