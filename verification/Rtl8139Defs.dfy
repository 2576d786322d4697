/** Constants of the RTL8139 network driver, and the bit tests made on its registers. */
module Rtl8139Defs {
  import opened Bytes

  const ETH_MIN_LEN := 60
  const NUM_TX_DESC := 4
  const TX_BUF_SIZE := 1536
  const TOTAL_TX_BUF_SIZE := TX_BUF_SIZE * NUM_TX_DESC

  const RX_BUF_LEN := 32768
  const RX_BUF_PAD := 16
  const RX_BUF_WRAP_PAD := 2048
  const TOTAL_RX_BUF_SIZE := RX_BUF_LEN + RX_BUF_PAD + RX_BUF_WRAP_PAD

  // Bits of a transmit status word.
  const TX_UNDERRUN := 0x4000
  const TX_STAT_OK := 0x8000
  const TX_OUT_OF_WINDOW := 0x2000_0000
  const TX_ABORTED := 0x4000_0000
  const TX_CARRIER_LOST := 0x8000_0000

  // Bits of the interrupt status register.
  const RX_OK: bv16 := 0x01
  const RX_ERR: bv16 := 0x02
  const TX_OK: bv16 := 0x04
  const TX_ERR: bv16 := 0x08
  const INT_MASK: bv16 := 0xE07F

  type word16 = x: int | 0 <= x < 0x1_0000
  type word32 = x: int | 0 <= x < 0x1_0000_0000

  /** The test `w & mask` for a mask of one bit. */
  predicate Bit(w: nat, mask: nat)
    requires mask > 0
  {
    w / mask % 2 == 1
  }

  /** The parts of a transmit status word that the driver looks at. */
  datatype Status = Status(size: nat, ok: bool, aborted: bool, underrun: bool,
                           outOfWindow: bool, carrierLost: bool, collisions: nat)

  /** Reads a status word: the size is `w & 0x1fff`, the collision count `(w >> 24) & 0xF`. */
  function Decode(w: word32): Status {
    Status(w % 0x2000, Bit(w, TX_STAT_OK), Bit(w, TX_ABORTED), Bit(w, TX_UNDERRUN),
           Bit(w, TX_OUT_OF_WINDOW), Bit(w, TX_CARRIER_LOST), w / 0x100_0000 % 16)
  }

  /**
   * A status word by its bits: the size in 0-12, the host's ownership in 13, underrun in 14, success
   * in 15, the early threshold in 16-23, collisions in 24-27, the heartbeat in 28, and in 29-31 a
   * collision out of the window, an abort, and a lost carrier.
   */
  function Word(st: Status, owns: nat, early: nat, heartbeat: nat): (w: word32)
    requires st.size < 0x2000 && owns < 2 && early < 0x100 && st.collisions < 16 && heartbeat < 2
  {
    st.size + owns * 0x2000 + One(st.underrun) * 0x4000 + One(st.ok) * 0x8000 + early * 0x1_0000
    + st.collisions * 0x100_0000 + heartbeat * 0x1000_0000
    + One(st.outOfWindow) * 0x2000_0000 + One(st.aborted) * 0x4000_0000 + One(st.carrierLost) * 0x8000_0000
  }

  /** The driver reads each part back, whatever the others and the bits that it does not look at. */
  lemma DecodeWord(st: Status, owns: nat, early: nat, heartbeat: nat)
    requires st.size < 0x2000 && owns < 2 && early < 0x100 && st.collisions < 16 && heartbeat < 2
    ensures Decode(Word(st, owns, early, heartbeat)) == st
  {
    var high := st.collisions + 0x10 * heartbeat + 0x20 * One(st.outOfWindow) + 0x40 * One(st.aborted)
                + 0x80 * One(st.carrierLost);
    LowParts(st.size, owns, One(st.underrun), One(st.ok), early + 0x100 * high);
    HighParts(Word(st, owns, early, heartbeat) - 0x100_0000 * high, st.collisions, heartbeat,
              One(st.outOfWindow), One(st.aborted), One(st.carrierLost));
  }

  lemma LowParts(size: nat, owns: nat, u: nat, o: nat, rest: nat)
    requires size < 0x2000 && owns < 2 && u < 2 && o < 2
    ensures var w := size + owns * 0x2000 + u * 0x4000 + o * 0x8000 + rest * 0x1_0000;
            w % 0x2000 == size && w / 0x4000 % 2 == u && w / 0x8000 % 2 == o
  {
    SizePart(size, owns + 2 * u + 4 * o + 8 * rest);
    Bit14(size + owns * 0x2000, u, o + 2 * rest);
    Bit15(size + owns * 0x2000 + u * 0x4000, o, rest);
  }

  lemma SizePart(size: nat, rest: nat)
    requires size < 0x2000
    ensures (size + 0x2000 * rest) % 0x2000 == size
  {
  }

  lemma Bit14(low: nat, bit: nat, rest: nat)
    requires low < 0x4000 && bit < 2
    ensures (low + 0x4000 * (bit + 2 * rest)) / 0x4000 % 2 == bit
  {
    assert (low + 0x4000 * (bit + 2 * rest)) / 0x4000 == bit + 2 * rest;
  }

  lemma Bit15(low: nat, bit: nat, rest: nat)
    requires low < 0x8000 && bit < 2
    ensures (low + 0x8000 * (bit + 2 * rest)) / 0x8000 % 2 == bit
  {
    assert (low + 0x8000 * (bit + 2 * rest)) / 0x8000 == bit + 2 * rest;
  }

  lemma HighParts(low: nat, c: nat, h: nat, x: nat, a: nat, l: nat)
    requires low < 0x100_0000 && c < 16 && h < 2 && x < 2 && a < 2 && l < 2
    ensures var w := low + 0x100_0000 * (c + 0x10 * h + 0x20 * x + 0x40 * a + 0x80 * l);
            && w / 0x100_0000 % 16 == c && w / 0x2000_0000 % 2 == x && w / 0x4000_0000 % 2 == a
            && w / 0x8000_0000 % 2 == l
  {
    var w := low + 0x100_0000 * (c + 0x10 * h + 0x20 * x + 0x40 * a + 0x80 * l);
    assert w / 0x100_0000 == c + 16 * (h + 2 * x + 4 * a + 8 * l);
    assert w / 0x2000_0000 == x + 2 * (a + 2 * l);
    assert w / 0x4000_0000 == a + 2 * l;
    assert w / 0x8000_0000 == l;
  }

  /** Every word has such parts, so reading is settled for every word. */
  lemma WordOfDecoded(w: word32)
    ensures var st := Decode(w);
            st.size < 0x2000 && st.collisions < 16
            && Word(st, w / 0x2000 % 2, w / 0x1_0000 % 0x100, w / 0x1000_0000 % 2) == w
  {
    BitOne(w, TX_UNDERRUN);
    BitOne(w, TX_STAT_OK);
    BitOne(w, TX_OUT_OF_WINDOW);
    BitOne(w, TX_ABORTED);
    BitOne(w, TX_CARRIER_LOST);
    hide Bit, One;
    PeelLow(w);
    PeelHigh(w);
  }

  lemma BitOne(w: nat, mask: nat)
    requires mask > 0
    ensures One(Bit(w, mask)) == w / mask % 2
  {
  }

  lemma PeelLow(w: nat)
    ensures w == w % 0x2000 + w / 0x2000 % 2 * 0x2000 + w / 0x4000 % 2 * 0x4000 + w / 0x8000 % 2 * 0x8000
                 + w / 0x1_0000 % 0x100 * 0x1_0000 + w / 0x100_0000 * 0x100_0000
  {
    assert w / 0x4000 == w / 0x2000 / 2;
    assert w / 0x8000 == w / 0x4000 / 2;
    assert w / 0x1_0000 == w / 0x8000 / 2;
    assert w / 0x100_0000 == w / 0x1_0000 / 0x100;
  }

  lemma PeelHigh(w: word32)
    ensures w / 0x100_0000 * 0x100_0000
            == w / 0x100_0000 % 16 * 0x100_0000 + w / 0x1000_0000 % 2 * 0x1000_0000
               + w / 0x2000_0000 % 2 * 0x2000_0000 + w / 0x4000_0000 % 2 * 0x4000_0000
               + w / 0x8000_0000 % 2 * 0x8000_0000
  {
    assert w / 0x1000_0000 == w / 0x100_0000 / 16;
    assert w / 0x2000_0000 == w / 0x1000_0000 / 2;
    assert w / 0x4000_0000 == w / 0x2000_0000 / 2;
    assert w / 0x8000_0000 == w / 0x4000_0000 / 2;
  }

  /** Writing a bare size below 0x2000 clears every status bit, and the mask recovers the size. */
  lemma BareSizeIsClean(len: nat)
    requires len < 0x2000
    ensures Decode(len) == Status(len, false, false, false, false, false, 0)
  {
  }

  /** Rounds up to a multiple of four: `(n + 3) & ~3`. */
  function Align4(n: nat): nat {
    (n + 3) / 4 * 4
  }

  lemma Align4IsLeast(n: nat)
    ensures Align4(n) % 4 == 0 && n <= Align4(n) < n + 4
  {
  }

  /** The handler goes past its two early exits. */
  predicate Serviced(isr: bv16) {
    isr & INT_MASK != 0 && isr != 0xFFFF
  }

  predicate TxRequested(isr: bv16) {
    Serviced(isr) && (isr & TX_OK != 0 || isr & TX_ERR != 0)
  }

  predicate RxRequested(isr: bv16) {
    Serviced(isr) && isr & RX_OK != 0
  }

  /** For which status words the parts of the handler run. */
  lemma RequestsExactly(isr: bv16)
    ensures Serviced(isr) <==> isr & 0xE07F != 0 && isr != 0xFFFF
    ensures TxRequested(isr) <==> isr != 0xFFFF && (isr & 0x04 != 0 || isr & 0x08 != 0)
    ensures RxRequested(isr) <==> isr != 0xFFFF && isr & 0x01 != 0
    ensures Serviced(isr) && isr & RX_ERR != 0 <==> isr != 0xFFFF && isr & 0x02 != 0
  {
  }

  datatype Option<+T> = None | Some(value: T)
}
