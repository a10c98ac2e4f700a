/** 32-bit words seen as page directory and page table entries (Intel SDM Vol. 3A, section
    4.3). The source overlays bit fields on a 32-bit value with a union; here the fields are
    the representation and the 32-bit value is recovered by Encode. */
module PageEntries {

  type Flags = n: nat | n < 512
  type FrameNumber = n: nat | n < 0x10_0000

  /** present, read_write and user_supervisor are bits 0 to 2, the flags bits 3 to 11 and the
      frame number bits 12 to 31. */
  datatype Word = Word(present: bool, writable: bool, user: bool, flags: Flags, frame: FrameNumber)

  const ZERO := Word(false, false, false, 0, 0)

  const ENTRIES := 1024

  type Page = p: seq<Word> | |p| == ENTRIES witness seq(ENTRIES, _ => ZERO)

  function Blank(): (p: Page)
    ensures forall j :: 0 <= j < ENTRIES ==> p[j] == ZERO
  {
    seq(ENTRIES, _ => ZERO)
  }

  function WithEntry(t: Page, j: int, w: Word): Page
    requires 0 <= j < ENTRIES
  {
    t[j := w]
  }

  function Bit(b: bool): nat { if b then 1 else 0 }

  function Encode(w: Word): (v: nat)
    ensures v < 0x1_0000_0000
  {
    Bit(w.present) + 2 * Bit(w.writable) + 4 * Bit(w.user) + 8 * w.flags + 4096 * w.frame
  }

  function Decode(v: nat): Word
    requires v < 0x1_0000_0000
  {
    Word(v % 2 == 1, v / 2 % 2 == 1, v / 4 % 2 == 1, v / 8 % 512, v / 4096)
  }

  lemma EncodeAfterDecode(v: nat)
    requires v < 0x1_0000_0000
    ensures Encode(Decode(v)) == v
  {
    assert v / 2 == v / 2 % 2 + 2 * (v / 4);
    assert v / 4 == v / 4 % 2 + 2 * (v / 8);
    assert v / 8 == v / 8 % 512 + 512 * (v / 4096);
  }

  lemma Below(d: nat, x: int, y: int)
    requires x < y
    ensures d * x + d <= d * y
  {
    assert d * y == d * x + d + d * (y - x - 1);
  }

  lemma Quotient(v: nat, low: nat, d: nat, high: nat)
    requires d > 0 && low < d && v == low + d * high
    ensures v / d == high && v % d == low
  {
    var q, r := v / d, v % d;
    assert v == d * q + r && 0 <= r < d;
    if q < high {
      Below(d, q, high);
    } else if q > high {
      Below(d, high, q);
    }
  }

  lemma DecodeAfterEncode(w: Word)
    ensures Decode(Encode(w)) == w
  {
    var p, q, u := Bit(w.present), Bit(w.writable), Bit(w.user);
    var v := Encode(w);
    Quotient(v, p, 2, q + 2 * u + 4 * w.flags + 2048 * w.frame);
    Quotient(v / 2, q, 2, u + 2 * w.flags + 1024 * w.frame);
    Quotient(v, p + 2 * q, 4, u + 2 * w.flags + 1024 * w.frame);
    Quotient(v / 4, u, 2, w.flags + 512 * w.frame);
    Quotient(v, p + 2 * q + 4 * u, 8, w.flags + 512 * w.frame);
    Quotient(v / 8, w.flags, 512, w.frame);
    Quotient(v, p + 2 * q + 4 * u + 8 * w.flags, 4096, w.frame);
  }

  /** Where the fields stand in the 32 bits. */
  lemma Layout(w: Word)
    ensures var v := Encode(w);
            && (w.present <==> v % 2 == 1) && (w.writable <==> v / 2 % 2 == 1) && (w.user <==> v / 4 % 2 == 1)
            && w.flags == v / 8 % 512 && w.frame == v / 0x1000
  {
    DecodeAfterEncode(w);
  }
}
