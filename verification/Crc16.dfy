/** The nibble-table CRC that protects downloaded configuration (WIFI/cmdevt.c). */
module Crc16 {

  const POLY: bv16 := 0xA001
  const INIT: bv16 := 0xFFFF

  // ---------------------------------------------------------------------
  // Bit-serial division by the reflected polynomial

  /** One message bit enters the register. */
  function FeedBit(c: bv16, bit: bv16): bv16 {
    (c >> 1) ^ (if (c ^ bit) & 1 == 1 then POLY else 0)
  }

  /** Four message bits, least significant first. */
  function FeedNibble(c: bv16, n: bv16): bv16 {
    FeedBit(FeedBit(FeedBit(FeedBit(c, n), n >> 1), n >> 2), n >> 3)
  }

  function FeedByte(c: bv16, b: bv8): bv16 {
    var x := b as bv16;
    FeedNibble(FeedNibble(c, x), x >> 4)
  }

  function Feed(c: bv16, buf: seq<bv8>): bv16
    decreases |buf|
  {
    if buf == [] then c else FeedByte(Feed(c, buf[..|buf| - 1]), buf[|buf| - 1])
  }

  // ---------------------------------------------------------------------
  // The table

  /** CRC_table */
  function Table(i: bv16): bv16 {
    if i == 0 then 0x0000 else if i == 1 then 0xCC01 else if i == 2 then 0xD801 else if i == 3 then 0x1400
    else if i == 4 then 0xF001 else if i == 5 then 0x3C00 else if i == 6 then 0x2800 else if i == 7 then 0xE401
    else if i == 8 then 0xA001 else if i == 9 then 0x6C00 else if i == 10 then 0x7800 else if i == 11 then 0xB401
    else if i == 12 then 0x5000 else if i == 13 then 0x9C01 else if i == 14 then 0x8801 else 0x4400
  }

  function TableStep(c: bv16, n: bv16): bv16 {
    Table((n ^ c) & 15) ^ (c >> 4)
  }

  /** The register is shifted to the right, and 0xA001, the reflected x^16 + x^15 + x^2 + 1, is
      subtracted if the bit shifted out differs from the message bit. */
  lemma BitLaw(c: bv16, bit: bv16)
    ensures FeedBit(c, bit) == if c & 1 == bit & 1 then c >> 1 else (c >> 1) ^ 0xA001
  {
  }

  /** One look-up does the work of four single-bit divisions. */
  lemma TableStepIsFeed(c: bv16, n: bv16)
    ensures TableStep(c, n) == FeedNibble(c, n)
  {
  }

  /** CRC16 */
  method Crc(buf: seq<bv8>) returns (crc: bv16)
    requires |buf| < 0x1_0000
    ensures crc == Feed(INIT, buf)
  {
    hide FeedNibble, TableStep;
    crc := INIT;
    for i := 0 to |buf|
      invariant crc == Feed(INIT, buf[..i])
    {
      assert buf[..i + 1][..i] == buf[..i];
      var ch := buf[i] as bv16;
      TableStepIsFeed(crc, ch);
      crc := TableStep(crc, ch);
      TableStepIsFeed(crc, ch >> 4);
      crc := TableStep(crc, ch >> 4);
    }
    assert buf[..|buf|] == buf;
  }

  // ---------------------------------------------------------------------
  // The check value

  /** The digits 1 to 9 as characters. */
  const CHECK: seq<bv8> := [0x31, 0x32, 0x33, 0x34, 0x35, 0x36, 0x37, 0x38, 0x39]

  lemma FeedLast(buf: seq<bv8>, b: bv8)
    ensures Feed(INIT, buf + [b]) == FeedByte(Feed(INIT, buf), b)
  {
    assert (buf + [b])[..|buf|] == buf;
  }

  lemma CheckSteps()
    ensures FeedByte(0xFFFF, 0x31) == 0x947E
    ensures FeedByte(0x947E, 0x32) == 0xF595
    ensures FeedByte(0xF595, 0x33) == 0x7A75
    ensures FeedByte(0x7A75, 0x34) == 0x30BA
    ensures FeedByte(0x30BA, 0x35) == 0xA471
    ensures FeedByte(0xA471, 0x36) == 0x32E4
    ensures FeedByte(0x32E4, 0x37) == 0x9D73
    ensures FeedByte(0x9D73, 0x38) == 0x37DD
    ensures FeedByte(0x37DD, 0x39) == 0x4B37
  {
  }

  /** The checksum of the nine digits is 0x4B37, the value listed for this polynomial and start value. */
  lemma CheckValue()
    ensures Feed(0xFFFF, CHECK) == 0x4B37
  {
    hide FeedByte;
    CheckSteps();
    assert CHECK[..0] == [] && CHECK == CHECK[..9];
    FeedLast(CHECK[..0], 0x31);
    assert CHECK[..1] == CHECK[..0] + [0x31];
    FeedLast(CHECK[..1], 0x32);
    assert CHECK[..2] == CHECK[..1] + [0x32];
    FeedLast(CHECK[..2], 0x33);
    assert CHECK[..3] == CHECK[..2] + [0x33];
    FeedLast(CHECK[..3], 0x34);
    assert CHECK[..4] == CHECK[..3] + [0x34];
    FeedLast(CHECK[..4], 0x35);
    assert CHECK[..5] == CHECK[..4] + [0x35];
    FeedLast(CHECK[..5], 0x36);
    assert CHECK[..6] == CHECK[..5] + [0x36];
    FeedLast(CHECK[..6], 0x37);
    assert CHECK[..7] == CHECK[..6] + [0x37];
    FeedLast(CHECK[..7], 0x38);
    assert CHECK[..8] == CHECK[..7] + [0x38];
    FeedLast(CHECK[..8], 0x39);
    assert CHECK[..9] == CHECK[..8] + [0x39];
  }

  // ---------------------------------------------------------------------
  // What it detects

  // Division without new message bits, and message bits laid over the register.

  function Shift4(c: bv16): bv16 {
    FeedNibble(c, 0)
  }

  function Shift8(c: bv16): bv16 {
    Shift4(Shift4(c))
  }

  function LowNibble(c: bv16, n: bv16): bv16 {
    c ^ (n & 15)
  }

  function LowByte(c: bv16, b: bv8): bv16 {
    c ^ (b as bv16)
  }

  function HighByte(c: bv16, b: bv8): bv16 {
    c ^ ((b as bv16) << 8)
  }

  lemma Shift4Injective(c: bv16, d: bv16)
    requires Shift4(c) == Shift4(d)
    ensures c == d
  {
  }

  lemma Shift8Injective(c: bv16, d: bv16)
    requires Shift8(c) == Shift8(d)
    ensures c == d
  {
    hide Shift4;
    Shift4Injective(Shift4(c), Shift4(d));
    Shift4Injective(c, d);
  }

  lemma NibbleIsXor(c: bv16, n: bv16)
    ensures FeedNibble(c, n) == Shift4(LowNibble(c, n))
  {
  }

  /** The upper nibble of a byte passes through the division of the lower one unchanged. */
  lemma HighNibbleWaits(c: bv16, b: bv8)
    ensures var x := b as bv16; LowNibble(Shift4(LowNibble(c, x)), x >> 4) == Shift4(LowByte(c, b))
  {
  }

  /** A message byte acts as a difference on the register. */
  lemma ByteIsXor(c: bv16, b: bv8)
    ensures FeedByte(c, b) == Shift8(LowByte(c, b))
  {
    hide FeedNibble, Shift4, LowNibble, LowByte;
    var x := b as bv16;
    NibbleIsXor(c, x);
    NibbleIsXor(FeedNibble(c, x), x >> 4);
    HighNibbleWaits(c, b);
  }

  /** Bits above the next eight pass through a division unchanged. */
  lemma HighByteWaits(c: bv16, b: bv8)
    ensures LowByte(Shift8(c), b) == Shift8(HighByte(c, b))
  {
  }

  /** Two message bytes act as one 16-bit difference. */
  lemma WordIsXor(c: bv16, x: bv8, y: bv8)
    ensures FeedByte(FeedByte(c, x), y) == Shift8(Shift8(HighByte(LowByte(c, x), y)))
  {
    hide FeedByte, Shift8, LowByte, HighByte;
    ByteIsXor(c, x);
    ByteIsXor(FeedByte(c, x), y);
    HighByteWaits(LowByte(c, x), y);
  }

  lemma WordTells(c: bv16, x: bv8, y: bv8, x': bv8, y': bv8)
    ensures HighByte(LowByte(c, x), y) == HighByte(LowByte(c, x'), y') <==> x == x' && y == y'
  {
  }

  lemma ByteTells(c: bv16, x: bv8, x': bv8)
    ensures LowByte(c, x) == LowByte(c, x') <==> x == x'
  {
  }

  lemma {:induction false} FeedSplit(c: bv16, p: seq<bv8>, s: seq<bv8>)
    ensures Feed(c, p + s) == Feed(Feed(c, p), s)
    decreases |s|
  {
    if s == [] {
      assert p + s == p;
    } else {
      var n := |s| - 1;
      FeedSplit(c, p, s[..n]);
      assert (p + s)[..|p + s| - 1] == p + s[..n];
      hide FeedByte;
    }
  }

  /** Equal bytes keep different registers different. */
  lemma {:induction false} FeedInjective(c: bv16, d: bv16, s: seq<bv8>)
    requires Feed(c, s) == Feed(d, s)
    ensures c == d
    decreases |s|
  {
    hide FeedByte, Shift8, LowByte;
    if s != [] {
      var n := |s| - 1;
      var c', d', b := Feed(c, s[..n]), Feed(d, s[..n]), s[n];
      ByteIsXor(c', b);
      ByteIsXor(d', b);
      Shift8Injective(LowByte(c', b), LowByte(d', b));
      LowByteInjective(c', d', b);
      FeedInjective(c, d, s[..n]);
    }
  }

  lemma LowByteInjective(c: bv16, d: bv16, b: bv8)
    requires LowByte(c, b) == LowByte(d, b)
    ensures c == d
  {
  }

  lemma FeedOneTwo(c: bv16, m: seq<bv8>)
    requires 1 <= |m| <= 2
    ensures Feed(c, m) == if |m| == 1 then FeedByte(c, m[0]) else FeedByte(FeedByte(c, m[0]), m[1])
  {
    hide FeedByte;
    assert m[..|m| - 1] == if |m| == 1 then [] else [m[0]];
    if |m| == 2 {
      assert Feed(c, [m[0]]) == FeedByte(Feed(c, []), m[0]);
    }
  }

  lemma ShortBurst(c: bv16, m: seq<bv8>, m': seq<bv8>)
    requires |m| == |m'| && 1 <= |m| <= 2 && m != m'
    ensures Feed(c, m) != Feed(c, m')
  {
    hide FeedByte, Shift8, LowByte, HighByte;
    FeedOneTwo(c, m);
    FeedOneTwo(c, m');
    if Feed(c, m) == Feed(c, m') {
      if |m| == 1 {
        ByteIsXor(c, m[0]);
        ByteIsXor(c, m'[0]);
        Shift8Injective(LowByte(c, m[0]), LowByte(c, m'[0]));
        ByteTells(c, m[0], m'[0]);
      } else {
        WordIsXor(c, m[0], m[1]);
        WordIsXor(c, m'[0], m'[1]);
        var w, w' := HighByte(LowByte(c, m[0]), m[1]), HighByte(LowByte(c, m'[0]), m'[1]);
        Shift8Injective(Shift8(w), Shift8(w'));
        Shift8Injective(w, w');
        WordTells(c, m[0], m[1], m'[0], m'[1]);
      }
    }
  }

  /** Two buffers that differ only inside one byte, or inside two neighbouring bytes, always have
      different CRCs. */
  lemma BurstDetected(p: seq<bv8>, m: seq<bv8>, m': seq<bv8>, s: seq<bv8>)
    requires |m| == |m'| && 1 <= |m| <= 2 && m != m'
    ensures Feed(INIT, p + m + s) != Feed(INIT, p + m' + s)
  {
    var c := Feed(INIT, p);
    FeedSplit(INIT, p + m, s);
    FeedSplit(INIT, p, m);
    FeedSplit(INIT, p + m', s);
    FeedSplit(INIT, p, m');
    ShortBurst(c, m, m');
    if Feed(Feed(c, m), s) == Feed(Feed(c, m'), s) {
      FeedInjective(Feed(c, m), Feed(c, m'), s);
    }
  }

  /** The register as sprdwl_down_ini_cmd appends it: two bytes, the low one first. */
  function Trailer(c: bv16): seq<bv8> {
    [(c & 0xff) as bv8, (c >> 8) as bv8]
  }

  lemma SelfCancels(c: bv16)
    ensures HighByte(LowByte(c, Trailer(c)[0]), Trailer(c)[1]) == 0
  {
  }

  lemma ZeroStays()
    ensures Shift8(0) == 0
  {
  }

  /** A receiver that runs over the data and the appended CRC ends with zero. */
  lemma ResidueZero(buf: seq<bv8>)
    ensures Feed(INIT, buf + Trailer(Feed(INIT, buf))) == 0
  {
    hide FeedByte, Shift8, LowByte, HighByte, Trailer;
    var c := Feed(INIT, buf);
    var t := Trailer(c);
    TrailerTwo(c);
    FeedSplit(INIT, buf, t);
    FeedOneTwo(c, t);
    WordIsXor(c, t[0], t[1]);
    SelfCancels(c);
    ZeroStays();
  }

  lemma TrailerTwo(c: bv16)
    ensures |Trailer(c)| == 2
  {
  }
}
