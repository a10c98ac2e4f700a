/** Pages as words and as bytes, little end first. */
module Bytes {
  import opened Machine
  import opened PageEntries

  function WordOf(a: Byte, b: Byte, c: Byte, d: Byte): Word {
    Decode(a + 0x100 * b + 0x1_0000 * c + 0x100_0000 * d)
  }

  function ByteOf(w: Word, k: nat): Byte
    requires k < 4
  {
    var v := Encode(w);
    if k == 0 then v % 0x100 else if k == 1 then v / 0x100 % 0x100 else if k == 2 then v / 0x1_0000 % 0x100 else v / 0x100_0000
  }

  lemma ByteOfWord(a: Byte, b: Byte, c: Byte, d: Byte, k: nat)
    requires k < 4
    ensures ByteOf(WordOf(a, b, c, d), k) == [a, b, c, d][k]
  {
    var v := a + 0x100 * b + 0x1_0000 * c + 0x100_0000 * d;
    EncodeAfterDecode(v);
    Quotient(v, a, 0x100, b + 0x100 * c + 0x1_0000 * d);
    Quotient(v / 0x100, b, 0x100, c + 0x100 * d);
    Quotient(v, a + 0x100 * b, 0x1_0000, c + 0x100 * d);
    Quotient(v / 0x1_0000, c, 0x100, d);
    Quotient(v, a + 0x100 * b + 0x1_0000 * c, 0x100_0000, d);
  }

  /** The words that a page of bytes is read as. */
  function Words(page: seq<Byte>): (r: Page)
    requires |page| == PAGE
    ensures forall j :: 0 <= j < ENTRIES ==> r[j] == WordOf(page[4 * j], page[4 * j + 1], page[4 * j + 2], page[4 * j + 3])
  {
    seq(ENTRIES, j requires 0 <= j < ENTRIES => WordOf(page[4 * j], page[4 * j + 1], page[4 * j + 2], page[4 * j + 3]))
  }

  function ReadByte(page: Page, x: nat): Byte
    requires x < PAGE
  {
    ByteOf(page[x / 4], x % 4)
  }

  /** Writing bytes and reading them back. */
  lemma ByteOfPage(page: seq<Byte>, x: nat)
    requires |page| == PAGE && x < PAGE
    ensures ReadByte(Words(page), x) == page[x]
  {
    var j := x / 4;
    ByteOfWord(page[4 * j], page[4 * j + 1], page[4 * j + 2], page[4 * j + 3], x % 4);
    assert x == 4 * j + x % 4;
    assert [page[4 * j], page[4 * j + 1], page[4 * j + 2], page[4 * j + 3]][x % 4] == page[x];
  }

  lemma EncodeOfBytes(w: Word)
    ensures var a: nat, b: nat, c: nat, d: nat := ByteOf(w, 0), ByteOf(w, 1), ByteOf(w, 2), ByteOf(w, 3);
            Encode(w) == a + 0x100 * b + 0x1_0000 * c + 0x100_0000 * d
  {
    var v := Encode(w);
    assert v / 0x100 == v / 0x100 % 0x100 + 0x100 * (v / 0x1_0000);
    assert v / 0x1_0000 == v / 0x1_0000 % 0x100 + 0x100 * (v / 0x100_0000);
  }

  /** A word is made of its bytes. */
  lemma WordOfBytes(w: Word)
    ensures WordOf(ByteOf(w, 0), ByteOf(w, 1), ByteOf(w, 2), ByteOf(w, 3)) == w
  {
    EncodeOfBytes(w);
    DecodeAfterEncode(w);
  }

  /** Storing a word replaces its four bytes. */
  lemma ReadAfterStore(page: Page, j: nat, w: Word, x: nat)
    requires j < ENTRIES && x < PAGE
    ensures ReadByte(WithEntry(page, j, w), x) == if x / 4 == j then ByteOf(w, x % 4) else ReadByte(page, x)
  {
  }
}
