/** Game Boy cartridge clocks in the layouts emulators write, and the neutral form between them. */
module ClockGb {
  import opened Bytes
  import opened Status

  const DAY_LIMIT := 512
  const DAY_SECONDS := 86400
  const TWO32 := 0x1_0000_0000
  const TWO63 := 0x8000_0000_0000_0000
  const TWO64 := 0x1_0000_0000_0000_0000

  datatype Format = Vba | Vba32 | Mgba | Gambatte | Mesen2 | SameboyLibretro | TgbDual

  /** Registers valid at the UTC time `stamp`, and the ones last latched. */
  datatype Clock = Clock(seconds: nat, minutes: nat, hours: nat, days: nat, halted: bool, carry: bool,
                         latched: seq<u8>, stamp: int)

  predicate InRange(c: Clock) {
    c.seconds < 60 && c.minutes < 60 && c.hours < 24 && c.days < DAY_LIMIT && |c.latched| == 5
      && -TWO63 <= c.stamp < TWO63
  }

  function SecondsOf(c: Clock): nat {
    c.days * DAY_SECONDS + c.hours * 3600 + c.minutes * 60 + c.seconds
  }

  /** What the clock shows at time `t`, in seconds. */
  function Shows(c: Clock, t: int): int {
    if c.halted then SecondsOf(c) else SecondsOf(c) + t - c.stamp
  }

  /* ---- Fields ---------------------------------------------------------------------------------------------- */

  function Signed(v: nat): int {
    if v >= TWO63 then v - TWO64 else v
  }

  function Unsigned(v: int): (r: nat)
    ensures r < TWO64
  {
    v % TWO64
  }

  lemma SignedUnsigned(v: int)
    ensures Signed(Unsigned(v)) == v <==> -TWO63 <= v < TWO63
  {
  }

  function Le64(s: seq<u8>, at: nat): (v: nat)
    requires at + 8 <= |s|
    ensures v < TWO64
  {
    Le32(s, at) + TWO32 * Le32(s, at + 4)
  }

  function Be64(s: seq<u8>, at: nat): (v: nat)
    requires at + 8 <= |s|
    ensures v < TWO64
  {
    TWO32 * Be32(s, at) + Be32(s, at + 4)
  }

  function Le64Bytes(v: nat): (s: seq<u8>)
    requires v < TWO64
    ensures |s| == 8
  {
    Le32Bytes(v % TWO32) + Le32Bytes(v / TWO32)
  }

  function Be64Bytes(v: nat): (s: seq<u8>)
    requires v < TWO64
    ensures |s| == 8
  {
    Be32Bytes(v / TWO32) + Be32Bytes(v % TWO32)
  }

  lemma Le32In(a: seq<u8>, b: seq<u8>, c: seq<u8>)
    requires |b| == 4
    ensures Le32(a + b + c, |a|) == Le32(b, 0) && Be32(a + b + c, |a|) == Be32(b, 0)
  {
    var s := a + b + c;
    assert forall k {:trigger b[k]} :: 0 <= k < 4 ==> s[|a| + k] == b[k];
  }

  lemma Joined<T>(a: seq<T>, b: seq<T>, c: seq<T>, d: seq<T>, s: seq<T>)
    requires s == b + c
    ensures a + s + d == a + b + (c + d) == a + b + c + d
  {
  }

  lemma Le32Of(a: seq<u8>, v: nat, c: seq<u8>)
    requires v < TWO32
    ensures Le32(a + Le32Bytes(v) + c, |a|) == v && Be32(a + Be32Bytes(v) + c, |a|) == v
  {
    Le32In(a, Le32Bytes(v), c);
    Le32In(a, Be32Bytes(v), c);
  }

  lemma Le64In(a: seq<u8>, v: nat, c: seq<u8>)
    requires v < TWO64
    ensures Le64(a + Le64Bytes(v) + c, |a|) == v
  {
    var lo, hi := v % TWO32, v / TWO32;
    Joined(a, Le32Bytes(lo), Le32Bytes(hi), c, Le64Bytes(v));
    Le32Of(a, lo, Le32Bytes(hi) + c);
    Le32Of(a + Le32Bytes(lo), hi, c);
  }

  lemma Be64In(a: seq<u8>, v: nat, c: seq<u8>)
    requires v < TWO64
    ensures Be64(a + Be64Bytes(v) + c, |a|) == v
  {
    var lo, hi := v % TWO32, v / TWO32;
    Joined(a, Be32Bytes(hi), Be32Bytes(lo), c, Be64Bytes(v));
    Le32Of(a, hi, Be32Bytes(lo) + c);
    Le32Of(a + Be32Bytes(hi), lo, c);
  }

  /** 32-bit words, low byte first. */
  function Words(ws: seq<nat>): (s: seq<u8>)
    ensures |s| == 4 * |ws|
  {
    if ws == [] then [] else Words(ws[..|ws| - 1]) + Le32Bytes(ws[|ws| - 1])
  }

  lemma {:induction false} WordAt(ws: seq<nat>, tail: seq<u8>, k: nat)
    requires k < |ws| && ws[k] < TWO32
    ensures Le32(Words(ws) + tail, 4 * k) == ws[k]
    decreases |ws|
  {
    var n := |ws| - 1;
    var last := Le32Bytes(ws[n]);
    assert Words(ws) + tail == Words(ws[..n]) + last + tail == Words(ws[..n]) + (last + tail);
    if k == n {
      Le32In(Words(ws[..n]), last, tail);
    } else {
      WordAt(ws[..n], last + tail, k);
    }
  }

  /* ---- Registers ------------------------------------------------------------------------------------------- */

  function DhOf(c: Clock): (dh: nat)
    ensures dh < 256
  {
    c.days / 256 % 2 + (if c.halted then 0x40 else 0) + (if c.carry then 0x80 else 0)
  }

  /** The clock with its registers set; a DL past 255 is taken as the whole day count. */
  function SetRegisters(c: Clock, s: nat, m: nat, h: nat, dl: nat, dh: nat): Clock {
    c.(seconds := s % 60, minutes := m % 60, hours := h % 24,
       days := if dl > 0xFF then dl % DAY_LIMIT else dl + dh % 2 * 256,
       halted := dh / 0x40 % 2 == 1, carry := dh / 0x80 % 2 == 1)
  }

  /** The registers of a clock in range set it back. */
  lemma RegistersBack(c: Clock, d: Clock)
    requires InRange(c)
    ensures SetRegisters(d, c.seconds, c.minutes, c.hours, c.days % 256, DhOf(c))
         == d.(seconds := c.seconds, minutes := c.minutes, hours := c.hours, days := c.days, halted := c.halted,
             carry := c.carry)
  {
  }

  function LatchCurrent(c: Clock): Clock
    requires c.seconds < 256 && c.minutes < 256 && c.hours < 256
  {
    c.(latched := [c.seconds, c.minutes, c.hours, c.days % 256, DhOf(c)])
  }

  /* ---- Reading ----------------------------------------------------------------------------------------------- */

  function Size(f: Format): nat {
    match f
    case Vba => 48 case Vba32 => 44 case Mgba => 48 case Gambatte => 8 case Mesen2 => 13 case SameboyLibretro => 32
      case TgbDual => 4
  }

  function Blank(): Clock {
    Clock(0, 0, 0, 0, false, false, [0, 0, 0, 0, 0], 0)
  }

  function VbaLatched(data: seq<u8>): (l: seq<u8>)
    requires |data| >= 40
    ensures |l| == 5
  {
    [Le32(data, 20) % 256, Le32(data, 24) % 256, Le32(data, 28) % 256, Le32(data, 32) % 256, Le32(data, 36) % 256]
  }

  /** The VBA layout, with the current registers from `at`. */
  function ReadVba(data: seq<u8>, at: nat, stamp: int): Clock
    requires |data| >= 40 && at + 20 <= 40
  {
    SetRegisters(Blank(), Le32(data, at), Le32(data, at + 4), Le32(data, at + 8), Le32(data, at + 12),
        Le32(data, at + 16))
      .(latched := VbaLatched(data), stamp := stamp)
  }

  function ReadRegisters(data: seq<u8>): Clock
    requires |data| >= 5
  {
    SetRegisters(Blank(), data[0], data[1], data[2], data[3], data[4])
  }

  /** What the emulator's clock says, in the neutral form. */
  function Read(f: Format, data: seq<u8>, now: int): (c: Option<Clock>)
    ensures c.None? <==> |data| != Size(f)
    ensures c.Some? && -TWO63 <= now < TWO63 ==> InRange(c.value)
  {
    if |data| != Size(f) then None
    else match f
      case Vba => Some(ReadVba(data, 0, Signed(Le64(data, 40))))
      case Vba32 => Some(ReadVba(data, 0, Le32(data, 40)))
      case Mgba => Some(ReadVba(data, 20, Signed(Le64(data, 40))))
      case Gambatte => Some(LatchCurrent(Blank().(stamp := Signed(Le64(data, 0)))))
      case Mesen2 => Some(LatchCurrent(ReadRegisters(data).(stamp := Be64(data, 5) / 1000)))
      case SameboyLibretro => Some(ReadRegisters(data).(latched := data[5..10], stamp := Signed(Le64(data, 16))))
      case TgbDual =>
        var n := Le32(data, 0);
        Some(LatchCurrent(Blank().(seconds := n % 60, minutes := n / 60 % 60, hours := n / 3600 % 24,
                                   carry := n / DAY_SECONDS >= DAY_LIMIT, days := n / DAY_SECONDS % DAY_LIMIT,
                                     stamp := now)))
  }

  /* ---- Writing ----------------------------------------------------------------------------------------------- */

  datatype Written = Written(data: seq<u8>, lossy: bool)

  function VbaRegisters(c: Clock, latched: seq<u8>): (s: seq<u8>)
    requires InRange(c) && |latched| == 5
    ensures |s| == 40
  {
    Words([c.seconds, c.minutes, c.hours, c.days % 256, DhOf(c), latched[0], latched[1], latched[2], latched[3],
        latched[4]])
  }

  function Registers(c: Clock): (s: seq<u8>)
    requires InRange(c)
    ensures |s| == 5
  {
    [c.seconds, c.minutes, c.hours, c.days % 256, DhOf(c)]
  }

  /** Gambatte's base time: the counter is the time now less the base. */
  function Base(c: Clock): int {
    c.stamp - (SecondsOf(c) + if c.carry then DAY_LIMIT * DAY_SECONDS else 0)
  }

  /** The clock in an emulator's layout, and whether the layout leaves part of it out. */
  function Write(f: Format, c: Clock): (w: Written)
    requires InRange(c)
    ensures |w.data| == Size(f)
  {
    match f
    case Vba => Written(VbaRegisters(c, c.latched) + Le64Bytes(Unsigned(c.stamp)), false)
    case Vba32 => Written(VbaRegisters(c, c.latched) + Le32Bytes(c.stamp % TWO32), c.stamp < 0 || c.stamp >= TWO32)
    case Mgba => Written(VbaRegisters(c, LatchCurrent(c).latched) + Le64Bytes(Unsigned(c.stamp)), false)
    case Gambatte => Written(Le64Bytes(Unsigned(Base(c))), c.halted || c.carry)
    case Mesen2 => Written(Registers(c) + Be64Bytes(Unsigned(Unsigned(c.stamp) * 1000)),
        LatchCurrent(c).latched != c.latched)
    case SameboyLibretro =>
      Written(Registers(c) + c.latched + Zeros(6) + Le64Bytes(Unsigned(c.stamp)) + Zeros(8), false)
    case TgbDual => Written(Le32Bytes(SecondsOf(c)), true)
  }

  /* ---- Meaning kept -------------------------------------------------------------------------------------------- */

  /** The same reading at every instant, and the same halt and carry. */
  ghost predicate SameClock(c: Clock, d: Clock) {
    d.halted == c.halted && d.carry == c.carry && forall t: int {:trigger Shows(c, t)} :: Shows(d, t) == Shows(c, t)
  }

  /** The stamps a layout's arithmetic holds. */
  predicate StampFits(f: Format, c: Clock) {
    match f
    case Gambatte => Base(c) >= -TWO63
    case Mesen2 => c.halted || 0 <= c.stamp * 1000 < TWO64
    case _ => true
  }

  /** Every word of the VBA registers reads back. */
  lemma VbaWords(c: Clock, latched: seq<u8>, tail: seq<u8>)
    requires InRange(c) && |latched| == 5
    ensures var w := VbaRegisters(c, latched) + tail;
            && Le32(w, 0) == c.seconds && Le32(w, 4) == c.minutes && Le32(w, 8) == c.hours
               && Le32(w, 12) == c.days % 256
            && Le32(w, 16) == DhOf(c) && Le32(w, 20) == latched[0] && Le32(w, 24) == latched[1]
               && Le32(w, 28) == latched[2]
            && Le32(w, 32) == latched[3] && Le32(w, 36) == latched[4]
  {
    var ws: seq<nat> := [c.seconds, c.minutes, c.hours, c.days % 256, DhOf(c), latched[0], latched[1], latched[2],
        latched[3], latched[4]];
    WordsOf(ws, tail);
  }

  lemma WordsOf(ws: seq<nat>, tail: seq<u8>)
    requires |ws| == 10 && forall k {:trigger ws[k]} :: 0 <= k < 10 ==> ws[k] < TWO32
    ensures var w := Words(ws) + tail;
            && Le32(w, 0) == ws[0] && Le32(w, 4) == ws[1] && Le32(w, 8) == ws[2] && Le32(w, 12) == ws[3]
               && Le32(w, 16) == ws[4]
            && Le32(w, 20) == ws[5] && Le32(w, 24) == ws[6] && Le32(w, 28) == ws[7] && Le32(w, 32) == ws[8]
               && Le32(w, 36) == ws[9]
  {
    WordAt(ws, tail, 0);
    WordAt(ws, tail, 1);
    WordAt(ws, tail, 2);
    WordAt(ws, tail, 3);
    WordAt(ws, tail, 4);
    WordAt(ws, tail, 5);
    WordAt(ws, tail, 6);
    WordAt(ws, tail, 7);
    WordAt(ws, tail, 8);
    WordAt(ws, tail, 9);
  }

  /** The VBA layout reads back as the clock it was written from. */
  lemma ReadVbaBack(c: Clock, latched: seq<u8>, tail: seq<u8>, stamp: int)
    requires InRange(c) && |latched| == 5
    ensures var w := VbaRegisters(c, latched) + tail;
            && ReadVba(w, 0, stamp) == c.(latched := latched, stamp := stamp)
            && (latched == LatchCurrent(c).latched ==> ReadVba(w, 20, stamp) == c.(latched := latched, stamp := stamp))
  {
    var w := VbaRegisters(c, latched) + tail;
    VbaWords(c, latched, tail);
    RegistersBack(c, Blank());
    assert VbaLatched(w) == latched;
  }

  lemma VbaBack(c: Clock, latched: seq<u8>)
    requires InRange(c) && |latched| == 5
    ensures var w := VbaRegisters(c, latched) + Le64Bytes(Unsigned(c.stamp));
            && ReadVba(w, 0, Signed(Le64(w, 40))) == c.(latched := latched)
            && (latched == LatchCurrent(c).latched ==> ReadVba(w, 20, Signed(Le64(w, 40))) == c.(latched := latched))
  {
    var stamp := Le64Bytes(Unsigned(c.stamp));
    SignedUnsigned(c.stamp);
    ReadVbaBack(c, latched, stamp, c.stamp);
    Le64In(VbaRegisters(c, latched), Unsigned(c.stamp), []);
    assert VbaRegisters(c, latched) + stamp + [] == VbaRegisters(c, latched) + stamp;
  }

  lemma Vba32Back(c: Clock)
    requires InRange(c) && 0 <= c.stamp < TWO32
    ensures var w := VbaRegisters(c, c.latched) + Le32Bytes(c.stamp % TWO32); ReadVba(w, 0, Le32(w, 40)) == c
  {
    var stamp := Le32Bytes(c.stamp);
    ReadVbaBack(c, c.latched, stamp, c.stamp);
    Le32Of(VbaRegisters(c, c.latched), c.stamp, []);
    assert VbaRegisters(c, c.latched) + stamp + [] == VbaRegisters(c, c.latched) + stamp;
  }

  lemma SameboyBack(c: Clock, now: int)
    requires InRange(c)
    ensures Read(SameboyLibretro, Write(SameboyLibretro, c).data, now) == Some(c)
  {
    var head := Registers(c) + c.latched + Zeros(6);
    SignedUnsigned(c.stamp);
    RegistersBack(c, Blank());
    Le64In(head, Unsigned(c.stamp), Zeros(8));
    var w := Write(SameboyLibretro, c).data;
    assert w == head + Le64Bytes(Unsigned(c.stamp)) + Zeros(8);
    assert w[..5] == Registers(c) && w[5..10] == c.latched;
    assert w[0] == w[..5][0] && w[1] == w[..5][1] && w[2] == w[..5][2] && w[3] == w[..5][3] && w[4] == w[..5][4];
  }

  /** Mesen2 keeps the registers, and the stamp when its milliseconds fit. */
  lemma MesenBack(c: Clock, now: int)
    requires InRange(c)
    ensures var ms := Unsigned(Unsigned(c.stamp) * 1000);
            Read(Mesen2, Write(Mesen2, c).data, now) == Some(LatchCurrent(c.(stamp := ms / 1000)))
  {
    var ms := Unsigned(Unsigned(c.stamp) * 1000);
    RegistersBack(c, Blank());
    Be64In(Registers(c), ms, []);
    var w := Write(Mesen2, c).data;
    assert w == Registers(c) + Be64Bytes(ms) + [];
    assert w[..5] == Registers(c);
    assert w[0] == w[..5][0] && w[1] == w[..5][1] && w[2] == w[..5][2] && w[3] == w[..5][3] && w[4] == w[..5][4];
  }

  lemma MilliFits(stamp: int)
    requires -TWO63 <= stamp < TWO63
    ensures Unsigned(Unsigned(stamp) * 1000) / 1000 == stamp <==> 0 <= stamp * 1000 < TWO64
  {
    var ms := Unsigned(Unsigned(stamp) * 1000);
    if 0 <= stamp * 1000 < TWO64 {
      assert ms == stamp * 1000;
    }
  }

  /** Gambatte keeps the difference of the reading and the stamp alone. */
  lemma GambatteBack(c: Clock, now: int)
    requires InRange(c) && !c.carry
    ensures Read(Gambatte, Write(Gambatte, c).data, now)
      == Some(LatchCurrent(Blank().(stamp := Signed(Unsigned(c.stamp - SecondsOf(c))))))
  {
    var base := Unsigned(Base(c));
    Le64In([], base, []);
    assert Write(Gambatte, c).data == [] + Le64Bytes(base) + [];
  }

  /** A clock that a layout says it keeps whole is kept whole exactly when its stamp fits the
      layout: read back, it shows the same at every instant, and halts and carries the same. */
  lemma WriteKeepsClock(f: Format, c: Clock, now: int)
    requires InRange(c) && !Write(f, c).lossy
    ensures Read(f, Write(f, c).data, now).Some?
    ensures SameClock(c, Read(f, Write(f, c).data, now).value) <==> StampFits(f, c)
  {
    var d := Read(f, Write(f, c).data, now).value;
    match f {
      case Vba => VbaBack(c, c.latched);
      case Mgba => VbaBack(c, LatchCurrent(c).latched);
      case Vba32 => Vba32Back(c);
      case SameboyLibretro => SameboyBack(c, now);
      case Mesen2 =>
        MesenBack(c, now);
        MilliFits(c.stamp);
        SameIff(c, d);
      case Gambatte =>
        GambatteBack(c, now);
        SignedUnsigned(Base(c));
        SameIff(c, d);
    }
  }

  /** Two running clocks show the same at every instant when they do at one. */
  lemma SameIff(c: Clock, d: Clock)
    ensures SameClock(c, d) <==> d.halted == c.halted && d.carry == c.carry && Shows(d, 0) == Shows(c, 0)
  {
    assert SameClock(c, d) ==> Shows(d, 0) == Shows(c, 0);
  }

  lemma MilliWraps()
    ensures Unsigned(Unsigned(-1) * 1000) / 1000 == 18446744073709550
  {
    assert Unsigned(-1) == TWO64 - 1;
  }

  lemma LatchBlank(stamp: int)
    ensures LatchCurrent(Blank().(stamp := stamp)) == Blank().(stamp := stamp) && DhOf(Blank().(stamp := stamp)) == 0
  {
  }

  /** A running clock at zero whose registers are valid one second before 1970: Mesen2 reports no loss, and hands it
      back as one that is valid some 584 million years later. */
  lemma MesenForgets(now: int)
    ensures var c := Blank().(stamp := -1);
            && InRange(c) && !Write(Mesen2, c).lossy
               && Read(Mesen2, Write(Mesen2, c).data, now) == Some(c.(stamp := 18446744073709550))
            && !SameClock(c, c.(stamp := 18446744073709550))
  {
    hide Read, LatchCurrent, Be64Bytes, Unsigned, DhOf, SameClock;
    var c := Blank().(stamp := -1);
    LatchBlank(-1);
    LatchBlank(18446744073709550);
    MesenBack(c, now);
    MilliWraps();
    assert c.(stamp := Unsigned(Unsigned(c.stamp) * 1000) / 1000) == c.(stamp := 18446744073709550);
    SameIff(c, c.(stamp := 18446744073709550));
  }

  /** One at a second past zero whose registers are valid as early as a stamp can say: Gambatte reports no loss,
      though stamp less reading is out of range; where that subtraction wraps, as it is taken to, the clock comes back
      as one at zero that is valid as late as a stamp can say. */
  lemma GambatteForgets(now: int)
    ensures var c := Blank().(seconds := 1, stamp := -TWO63);
            && InRange(c) && !Write(Gambatte, c).lossy
            && Read(Gambatte, Write(Gambatte, c).data, now) == Some(Blank().(stamp := TWO63 - 1))
            && !SameClock(c, Blank().(stamp := TWO63 - 1))
  {
    var c := Blank().(seconds := 1, stamp := -TWO63);
    GambatteBack(c, now);
    assert Signed(Unsigned(c.stamp - SecondsOf(c))) == TWO63 - 1;
    assert Shows(c, 0) != Shows(Blank().(stamp := TWO63 - 1), 0);
  }

  /* ---- Readings -------------------------------------------------------------------------------- */

  /** The registers a second later: each counts up and carries into the next, and the carry flag stays set once the
      days run out. */
  function Tick(c: Clock): Clock {
    if c.seconds < 59 then c.(seconds := c.seconds + 1)
    else if c.minutes < 59 then c.(seconds := 0, minutes := c.minutes + 1)
    else if c.hours < 23 then c.(seconds := 0, minutes := 0, hours := c.hours + 1)
    else if c.days < 511 then c.(seconds := 0, minutes := 0, hours := 0, days := c.days + 1)
    else c.(seconds := 0, minutes := 0, hours := 0, days := 0, carry := true)
  }

  /** The reading counts ticks: it is 0 on a blank clock and one more after each, until it starts over. */
  lemma Ticks(c: Clock)
    requires InRange(c)
    ensures SecondsOf(Blank()) == 0 && InRange(Tick(c))
    ensures SecondsOf(Tick(c)) == SecondsOf(c) + 1
         || (SecondsOf(c) == 44_236_799 && SecondsOf(Tick(c)) == 0 && Tick(c).carry)
    ensures SecondsOf(c) < 44_236_800 && (SecondsOf(c) < 44_236_799 ==> Tick(c).carry == c.carry)
  {
  }

  /** TGB Dual's count is read as that many ticks of a running clock, valid now. */
  lemma TgbDualReads(data: seq<u8>, now: int)
    requires |data| == 4 && -TWO63 <= now < TWO63
    ensures var c := Read(TgbDual, data, now).value;
      && InRange(c) && SecondsOf(c) == Le32(data, 0) % 44_236_800 && (c.carry <==> Le32(data, 0) >= 44_236_800)
      && !c.halted && c.stamp == now
  {
    CountParts(Le32(data, 0));
  }

  lemma DayParts(r: nat)
    requires r < DAY_SECONDS
    ensures r / 3600 < 24 && r / 3600 * 3600 + r / 60 % 60 * 60 + r % 60 == r
  {
  }

  lemma DaysAside(q: nat, r: nat)
    requires r < DAY_SECONDS
    ensures var n := q * DAY_SECONDS + r;
      && n / DAY_SECONDS == q && n / 3600 == 24 * q + r / 3600 && n / 60 == 1440 * q + r / 60 && n % 60 == r % 60
  {
  }

  lemma HoursAside(q: nat, h: nat)
    requires h < 24
    ensures (24 * q + h) % 24 == h
  {
  }

  lemma MinutesAside(q: nat, m: nat)
    ensures (1440 * q + m) % 60 == m % 60
  {
  }

  lemma DaysLimited(q: nat, r: nat)
    requires r < DAY_SECONDS
    ensures q % DAY_LIMIT * DAY_SECONDS + r == (q * DAY_SECONDS + r) % 44_236_800
    ensures q >= DAY_LIMIT <==> q * DAY_SECONDS + r >= 44_236_800
  {
    var k := q / DAY_LIMIT;
    assert q * DAY_SECONDS + r == k * 44_236_800 + (q % DAY_LIMIT * DAY_SECONDS + r);
  }

  lemma CountParts(n: nat)
    ensures n / DAY_SECONDS % DAY_LIMIT * DAY_SECONDS + n / 3600 % 24 * 3600 + n / 60 % 60 * 60 + n % 60
         == n % 44_236_800
    ensures n / DAY_SECONDS >= DAY_LIMIT <==> n >= 44_236_800
  {
    var q, r := n / DAY_SECONDS, n % DAY_SECONDS;
    DaysAside(q, r);
    DayParts(r);
    DaysLimited(q, r);
    HoursAside(q, r / 3600);
    MinutesAside(q, r / 60);
  }

  /** And is written as the reading. */
  lemma TgbDualWrites(c: Clock)
    requires InRange(c)
    ensures Le32(Write(TgbDual, c).data, 0) == SecondsOf(c)
  {
    hide Tick, Le32, Le32Bytes;
    Ticks(c);
    assert Write(TgbDual, c).data == Le32Bytes(SecondsOf(c));
  }

  /** What a layout is said to lose something of: a stamp out of 32 bits in the older VBA one, a halted or carrying
      clock in Gambatte's, latched registers that are not the current ones in Mesen2's, and all but the reading in TGB
      Dual's. */
  lemma LossyIff(f: Format, c: Clock)
    requires InRange(c)
    ensures Write(f, c).lossy <==>
      || (f == Vba32 && !(0 <= c.stamp < 0x1_0000_0000))
      || (f == Gambatte && (c.halted || c.carry))
      || (f == Mesen2 && c.latched != [c.seconds, c.minutes, c.hours, c.days % 256,
            c.days / 256 + (if c.halted then 64 else 0) + (if c.carry then 128 else 0)])
      || f == TgbDual
  {
  }

  /** Gambatte's base time is the stamp less the reading, with the days that ran out when the clock carries. */
  lemma GambatteWrites(c: Clock)
    requires InRange(c)
    ensures var reading := SecondsOf(c) + if c.carry then 44_236_800 else 0;
      Signed(Le64(Write(Gambatte, c).data, 0)) == c.stamp - reading <==> c.stamp - reading >= -TWO63
  {
    hide SecondsOf, Le64, Le64Bytes, Unsigned, Signed;
    Le64In([], Unsigned(Base(c)), []);
    assert Write(Gambatte, c).data == [] + Le64Bytes(Unsigned(Base(c))) + [];
    SignedUnsigned(Base(c));
  }
}
