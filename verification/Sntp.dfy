/**
 * The 96-bit clock arithmetic of the SNTP client (apps/sntp_test/sntp.c): a number is three
 * 32-bit words, most significant first, and every operation writes its result array word by
 * word. RFC 2030, section 5, defines the clock offset that SNTP_set_time adds to the clock.
 */
module Sntp {

  const WORD: int := 0x1_0000_0000
  const TWO64: int := 0x1_0000_0000_0000_0000
  const TWO96: int := 0x1_0000_0000_0000_0000_0000_0000
  const EPOCH_1900_TO_1970: int := 2208988800
  const MS_DIVISOR: int := 4294967  // 0xFFFFFFFF / 1000

  type uint32 = x: int | 0 <= x < 0x1_0000_0000

  ghost function Value(w: array<uint32>): (v: int)
    requires w.Length == 3
    reads w
    ensures 0 <= v < TWO96
  {
    Number(w[0], w[1], w[2])
  }

  ghost function Number(hi: uint32, mid: uint32, lo: uint32): (v: int)
    ensures 0 <= v < TWO96
  {
    hi * TWO64 + mid * WORD + lo
  }

  lemma AddWords(x: uint32, y: uint32, carry: int)
    requires 0 <= carry <= 1
    ensures (x + y + carry) % WORD == x + y + carry - (if x + y + carry >= WORD then WORD else 0)
  {}

  lemma SubWords(x: uint32, y: uint32, borrow: int)
    requires 0 <= borrow <= 1
    ensures (x - y - borrow) % WORD == x - y - borrow + (if x < y + borrow then WORD else 0)
  {}

  lemma Mod96(a: int, k: int, r: int)
    requires 0 <= r < TWO96 && a == k * TWO96 + r
    ensures a % TWO96 == r
  {}

  // The carry into the word after x + y (+ 1 if carry), read off the wrapped sum z. A carry into a
  // word that wraps to zero is itself the outgoing carry.
  predicate CarryOut(x: uint32, z: uint32, carry: bool) {
    if !carry then z < x else z == 0 || z - 1 < x
  }

  predicate BorrowOut(x: uint32, y: uint32, borrow: bool) {
    if !borrow then x < y else x == 0 || x - 1 < y
  }

  function Bit(b: bool): int {
    if b then 1 else 0
  }

  lemma AddWord(x: uint32, y: uint32, carry: bool, z: uint32)
    requires z == (x + y + Bit(carry)) % WORD
    ensures x + y + Bit(carry) == z + Bit(CarryOut(x, z, carry)) * WORD
  {
    AddWords(x, y, Bit(carry));
  }

  lemma SubWord(x: uint32, y: uint32, borrow: bool, z: uint32)
    requires z == (x - y - Bit(borrow)) % WORD
    ensures x - y - Bit(borrow) == z - Bit(BorrowOut(x, y, borrow)) * WORD
  {
    SubWords(x, y, Bit(borrow));
  }

  lemma AddNumbers(x0: uint32, x1: uint32, x2: uint32, y0: uint32, y1: uint32, y2: uint32,
                   z0: uint32, z1: uint32, z2: uint32, c0: int, c1: int, c2: int)
    requires x2 + y2 == z2 + c2 * WORD && x1 + y1 + c2 == z1 + c1 * WORD && x0 + y0 + c1 == z0 + c0 * WORD
    ensures Number(z0, z1, z2) == (Number(x0, x1, x2) + Number(y0, y1, y2)) % TWO96
  {
    Mod96(Number(x0, x1, x2) + Number(y0, y1, y2), c0, Number(z0, z1, z2));
  }

  lemma SubNumbers(x0: uint32, x1: uint32, x2: uint32, y0: uint32, y1: uint32, y2: uint32,
                   z0: uint32, z1: uint32, z2: uint32, c0: int, c1: int, c2: int)
    requires x2 - y2 == z2 - c2 * WORD && x1 - y1 - c2 == z1 - c1 * WORD && x0 - y0 - c1 == z0 - c0 * WORD
    ensures Number(z0, z1, z2) == (Number(x0, x1, x2) - Number(y0, y1, y2)) % TWO96
  {
    Mod96(Number(x0, x1, x2) - Number(y0, y1, y2), -c0, Number(z0, z1, z2));
  }

  // SNTP_add96. The result may share y's words but not x's: the carry tests read x after z is written.
  method Add96(x: array<uint32>, y: array<uint32>, z: array<uint32>)
    requires x.Length == y.Length == z.Length == 3 && z != x
    modifies z
    ensures Value(z) == (old(Value(x)) + old(Value(y))) % TWO96
  {
    hide Number;
    ghost var y0, y1, y2 := y[0], y[1], y[2];
    z[2] := (x[2] + y[2]) % WORD;
    AddWord(x[2], y2, false, z[2]);
    var carry := z[2] < x[2];
    ghost var c2 := carry;
    z[1] := (x[1] + y[1] + (if carry then 1 else 0)) % WORD;
    AddWord(x[1], y1, c2, z[1]);
    if !carry {
      carry := z[1] < x[1];
    } else if z[1] != 0 {
      carry := z[1] - 1 < x[1];
    }
    ghost var c1 := carry;
    z[0] := (x[0] + y[0] + (if carry then 1 else 0)) % WORD;
    AddWord(x[0], y0, c1, z[0]);
    AddNumbers(x[0], x[1], x[2], y0, y1, y2, z[0], z[1], z[2], Bit(CarryOut(x[0], z[0], c1)), Bit(c1), Bit(c2));
  }

  // SNTP_sub96. Both operands are read after z is written.
  method Sub96(x: array<uint32>, y: array<uint32>, z: array<uint32>)
    requires x.Length == y.Length == z.Length == 3 && z != x && z != y
    modifies z
    ensures Value(z) == (Value(x) - Value(y)) % TWO96
  {
    hide Number;
    z[2] := (x[2] - y[2]) % WORD;
    SubWord(x[2], y[2], false, z[2]);
    var carry := x[2] < y[2];
    ghost var c2 := carry;
    z[1] := (x[1] - y[1] - (if carry then 1 else 0)) % WORD;
    SubWord(x[1], y[1], c2, z[1]);
    // A borrow out of a middle word that is zero goes on to the high word.
    if !carry {
      carry := x[1] < y[1];
    } else if x[1] != 0 {
      carry := x[1] - 1 < y[1];
    }
    ghost var c1 := carry;
    z[0] := (x[0] - y[0] - (if carry then 1 else 0)) % WORD;
    SubWord(x[0], y[0], c1, z[0]);
    SubNumbers(x[0], x[1], x[2], y[0], y[1], y[2], z[0], z[1], z[2], Bit(BorrowOut(x[0], y[0], c1)), Bit(c1), Bit(c2));
  }

  // The source joins the shifted halves with a bitwise or; they share no bit, so it is their sum.
  lemma OrIsSum(a: bv32, b: bv32)
    ensures (a << 31) | (b >> 1) == (a << 31) + (b >> 1)
  {}

  lemma ShiftedBit(x: uint32)
    ensures x * 0x8000_0000 % WORD == x % 2 * 0x8000_0000
  {}

  // SNTP_shiftr96.
  method ShiftRight96(x: array<uint32>, z: array<uint32>)
    requires x.Length == z.Length == 3 && z != x
    modifies z
    ensures Value(z) == Value(x) / 2
  {
    ShiftedBit(x[0]);
    ShiftedBit(x[1]);
    z[0] := x[0] / 2;
    z[1] := x[0] * 0x8000_0000 % WORD + x[1] / 2;
    z[2] := x[1] * 0x8000_0000 % WORD + x[2] / 2;
  }

  datatype Timestamp = Timestamp(sec: uint32, fract: uint32) {
    ghost function Raw(): (v: int)
      ensures 0 <= v < TWO64
    {
      sec * WORD + fract
    }

    // The two words of an unbounded true time, counted in units of 2^-32 seconds since 1900.
    ghost predicate Of(trueTime: int) {
      Raw() == trueTime % TWO64
    }

    predicate Before(other: Timestamp) {
      sec < other.sec || (sec == other.sec && fract < other.fract)
    }
  }

  // The offset of RFC 2030, section 5, rounded down to the clock's resolution.
  ghost function ClockOffset(t1: int, t2: int, t3: int, t4: int): int {
    ((t2 - t1) + (t3 - t4)) / 2
  }

  ghost function NewClock(now: int, t1: int, t2: int, t3: int, t4: int): int {
    (now + ClockOffset(t1, t2, t3, t4)) % TWO64
  }

  // A timestamp that reads as earlier than its predecessor is taken to be in the next era.
  ghost function Lifted(late: Timestamp, early: Timestamp): int {
    late.Raw() + (if late.Before(early) then TWO64 else 0)
  }

  ghost function LiftedDifference(originate: Timestamp, receive: Timestamp,
                                  transmit: Timestamp, destination: Timestamp): (d: int)
    ensures -4 * TWO64 <= d <= 4 * TWO64
  {
    (receive.Raw() - originate.Raw()) + (Lifted(transmit, receive) - Lifted(destination, originate))
  }

  lemma LiftKeepsDifference(early: Timestamp, late: Timestamp, trueEarly: int, trueLate: int)
    requires early.Of(trueEarly) && late.Of(trueLate)
    requires trueEarly <= trueLate < trueEarly + TWO64
    ensures Lifted(late, early) - early.Raw() == trueLate - trueEarly
  {
    assert late.Before(early) <==> late.Raw() < early.Raw();
  }

  // The unsigned half of the 96-bit image of a signed number is off by whole eras at most.
  lemma UnsignedHalfOfSigned(d: int)
    requires -4 * TWO64 <= d <= 4 * TWO64
    ensures d % TWO96 / 2 == d / 2 + (if d < 0 then 0x8000_0000 else 0) * TWO64
  {}

  lemma EraFree(x: int, eras: int)
    ensures (x + eras * TWO64) % TWO64 == x % TWO64
  {}

  lemma SumOfResidues(a: int, b: int)
    ensures (a % TWO96 + b % TWO96) % TWO96 == (a + b) % TWO96
  {}

  // The lifted words give the same halved offset as the true times, up to whole eras.
  lemma LiftedOffset(originate: Timestamp, receive: Timestamp, transmit: Timestamp, destination: Timestamp,
                     t1: int, t2: int, t3: int, t4: int)
    requires originate.Of(t1) && receive.Of(t2) && transmit.Of(t3) && destination.Of(t4)
    requires t1 <= t4 < t1 + TWO64 && t2 <= t3 < t2 + TWO64
    ensures ClockOffset(t1, t2, t3, t4)
            == LiftedDifference(originate, receive, transmit, destination) / 2 + (t2 / TWO64 - t1 / TWO64) * TWO64
  {
    LiftKeepsDifference(originate, destination, t1, t4);
    LiftKeepsDifference(receive, transmit, t2, t3);
    var d := LiftedDifference(originate, receive, transmit, destination);
    assert t1 == t1 / TWO64 * TWO64 + originate.Raw() && t2 == t2 / TWO64 * TWO64 + receive.Raw();
    assert (t2 - t1) + (t3 - t4) == d + 2 * ((t2 / TWO64 - t1 / TWO64) * TWO64);
  }

  lemma LowOfMod96(x: int)
    ensures x % TWO96 % TWO64 == x % TWO64
  {}

  lemma NewClockWords(now: int, d: int, shifted: int, eras: int, result: int)
    requires -4 * TWO64 <= d <= 4 * TWO64 && shifted == d % TWO96 / 2
    requires result == (now + shifted) % TWO96
    ensures result % TWO64 == (now + (d / 2 + eras * TWO64)) % TWO64
  {
    UnsignedHalfOfSigned(d);
    LowOfMod96(now + shifted);
    var half := d / 2;
    var wraps := if d < 0 then 0x8000_0000 else 0;
    EraFree(now + half, wraps);
    EraFree(now + half, eras);
  }

  lemma LowWords(w: array<uint32>)
    requires w.Length == 3
    ensures Value(w) % TWO64 / WORD == w[1] && Value(w) % TWO64 % WORD == w[2]
  {
    assert Value(w) % TWO64 == w[1] * WORD + w[2];
  }

  // The last lines of SNTP_set_time: seconds from the Unix epoch, fractions to milliseconds.
  method ToDate(clock: array<uint32>) returns (sec: uint32, ms: uint32)
    requires clock.Length == 3
    modifies clock
    ensures var c := old(Value(clock)) % TWO64;
            && sec == (c / WORD - EPOCH_1900_TO_1970) % WORD
            && ms == c % WORD / MS_DIVISOR
            && (ms > 999 <==> c % WORD >= 1000 * MS_DIVISOR)
  {
    LowWords(clock);
    clock[1] := (clock[1] - EPOCH_1900_TO_1970) % WORD;
    clock[2] := clock[2] / MS_DIVISOR;
    sec, ms := clock[1], clock[2];
  }

  // One pair of timestamps as 96-bit numbers: the later one gets a high word if it reads as earlier.
  method LoadPair(early: Timestamp, late: Timestamp, e: array<uint32>, l: array<uint32>)
    requires e.Length == l.Length == 3 && e != l
    modifies e, l
    ensures Value(e) == early.Raw() && Value(l) == Lifted(late, early)
  {
    e[0], e[1], e[2] := 0, early.sec, early.fract;
    l[1], l[2] := late.sec, late.fract;
    if l[1] < e[1] || (l[1] == e[1] && l[2] < e[2]) {
      l[0] := 1;
    } else {
      l[0] := 0;
    }
  }

  method HalveSum(t1: array<uint32>, t2: array<uint32>, t3: array<uint32>, t4: array<uint32>, half: array<uint32>)
    requires t1.Length == t2.Length == t3.Length == t4.Length == half.Length == 3
    requires t4 != t3 && t4 != half && t3 != half
    modifies t4, half
    ensures Value(half) == old((Value(t2) - Value(t1)) + (Value(t3) - Value(t4))) % TWO96 / 2
  {
    hide Value;
    var temp1 := new uint32[3];
    SumOfResidues(Value(t2) - Value(t1), Value(t3) - Value(t4));
    Sub96(t2, t1, temp1);
    Sub96(t3, t4, half);
    Add96(temp1, half, t4);
    ShiftRight96(t4, half);
  }

  // The first half of SNTP_set_time: half of (T2 - T1) + (T3 - T4) over the lifted words.
  method HalveOffset(originate: Timestamp, receive: Timestamp, transmit: Timestamp, destination: Timestamp)
    returns (half: array<uint32>)
    ensures half.Length == 3 && fresh(half)
    ensures Value(half) == LiftedDifference(originate, receive, transmit, destination) % TWO96 / 2
  {
    var t1, t2, t3, t4 := new uint32[3], new uint32[3], new uint32[3], new uint32[3];
    LoadPair(originate, destination, t1, t4);
    LoadPair(receive, transmit, t2, t3);
    half := new uint32[3];
    HalveSum(t1, t2, t3, t4, half);
  }

  lemma ClockAfterSet(originate: Timestamp, receive: Timestamp, transmit: Timestamp, destination: Timestamp,
                      t1: int, t2: int, t3: int, t4: int, now: int, half: int, result: int)
    requires originate.Of(t1) && receive.Of(t2) && transmit.Of(t3) && destination.Of(t4)
    requires t1 <= t4 < t1 + TWO64 && t2 <= t3 < t2 + TWO64
    requires half == LiftedDifference(originate, receive, transmit, destination) % TWO96 / 2
    requires result == (now + half) % TWO96
    ensures result % TWO64 == NewClock(now, t1, t2, t3, t4)
  {
    LiftedOffset(originate, receive, transmit, destination, t1, t2, t3, t4);
    NewClockWords(now, LiftedDifference(originate, receive, transmit, destination), half, t2 / TWO64 - t1 / TWO64, result);
  }

  /**
   * What the offset is for: if the client's clock is ahead of the server's by ahead and both ways take the
   * same time delay, the new clock is the server's time.
   */
  lemma SymmetricDelay(sent: int, answered: int, delay: int, now: int, ahead: int)
    ensures ClockOffset(sent + ahead, sent + delay, answered, answered + delay + ahead) == -ahead
    ensures NewClock(now + ahead, sent + ahead, sent + delay, answered, answered + delay + ahead) == now % TWO64
  {}

  // Seventy years, seventeen of them leap years, lie between the two epochs, and a second has as many
  // fractions as a word has values.
  lemma Units()
    ensures EPOCH_1900_TO_1970 == (70 * 365 + 17) * 24 * 60 * 60
    ensures MS_DIVISOR * 1000 < WORD <= (MS_DIVISOR + 1) * 1000
    ensures TWO64 == WORD * WORD && TWO96 == WORD * WORD * WORD
  {}

  /**
   * SNTP_set_time: the clock, read as now, is moved by the RFC 2030 offset modulo one NTP era.
   * The four timestamps are the low words of unbounded true times, so either pair may straddle
   * an era boundary, and the offset may be negative although the shift is unsigned. The
   * millisecond field leaves the range 0..999 exactly for the last 296 fractions of a second.
   */
  method SetTime(originate: Timestamp, receive: Timestamp, transmit: Timestamp, destination: Timestamp, now: Timestamp,
                 ghost t1True: int, ghost t2True: int, ghost t3True: int, ghost t4True: int)
    returns (sec: uint32, ms: uint32)
    requires originate.Of(t1True) && receive.Of(t2True) && transmit.Of(t3True) && destination.Of(t4True)
    requires t1True <= t4True < t1True + TWO64 && t2True <= t3True < t2True + TWO64
    ensures var clock := NewClock(now.Raw(), t1True, t2True, t3True, t4True);
            && sec == (clock / WORD - EPOCH_1900_TO_1970) % WORD
            && ms == clock % WORD / MS_DIVISOR
            && (ms > 999 <==> clock % WORD >= 1000 * MS_DIVISOR)
  {
    hide NewClock;
    var temp2 := HalveOffset(originate, receive, transmit, destination);
    var temp1, t4 := new uint32[3], new uint32[3];
    temp1[0] := 0;
    temp1[1], temp1[2] := now.sec, now.fract;
    Add96(temp1, temp2, t4);
    ClockAfterSet(originate, receive, transmit, destination, t1True, t2True, t3True, t4True,
                  now.Raw(), Value(temp2), Value(t4));
    sec, ms := ToDate(t4);
  }
}
