/** The one-byte page table entry of the paging simulator.

    Page tables live in the same byte array as the data they map, so a byte of main memory is a
    union: seen as an `unsigned char` it is a value, seen as a `page_t` it is a table entry.
    Memory cells are modelled by the bit-field view; `Raw` and `Overlay` move between the views. */
module PageBits {

  type Byte = b: int | 0 <= b < 256
  type FrameId = f: int | 0 <= f < 16
  type ProcId = p: int | 0 <= p < 4

  /** valid:1, write:1, frame:4, procc:2, lowest bits first. */
  datatype Page = Page(valid: bool, write: bool, frame: FrameId, procc: ProcId)

  function Bit(b: bool): (n: int)
    ensures 0 <= n <= 1
  {
    if b then 1 else 0
  }

  function Raw(page: Page): Byte {
    Bit(page.valid) + 2 * Bit(page.write) + 4 * page.frame + 64 * page.procc
  }

  function Overlay(b: Byte): Page {
    Page(b % 2 == 1, b / 2 % 2 == 1, b / 4 % 16, b / 64)
  }

  /** Every byte is some entry and every entry is one byte: the two views lose nothing. */
  lemma RawOfOverlay(b: Byte)
    ensures Raw(Overlay(b)) == b
  {
    assert b == b % 2 + 2 * (b / 2);
    assert b / 2 == b / 2 % 2 + 2 * (b / 4);
    assert b / 4 == b / 4 % 16 + 16 * (b / 64);
  }

  lemma OverlayOfRaw(page: Page)
    ensures Overlay(Raw(page)) == page
  {
    var high := page.frame + 16 * page.procc;
    var b := Raw(page);
    assert b == Bit(page.valid) + 2 * (Bit(page.write) + 2 * high);
    assert b / 2 == Bit(page.write) + 2 * high;
    assert b / 4 == high;
  }
}
