/** The bytes of a page, least significant first in each word, and copies into them. */
module UserBytes {
  import opened Basics
  import opened PageTable

  /** 256 to the n. */
  ghost function Power(n: nat): (p: nat)
    ensures p > 0
  {
    if n == 0 then 1 else 256 * Power(n - 1)
  }

  /** Byte k of a word. */
  function Digit(w: nat, k: nat): (b: Byte) {
    if k == 0 then w % 256 else Digit(w / 256, k - 1)
  }

  /** w with byte k replaced. */
  function SetDigit(w: nat, k: nat, b: Byte): (x: nat) {
    if k == 0 then w / 256 * 256 + b else SetDigit(w / 256, k - 1, b) * 256 + w % 256
  }

  lemma {:induction false} DigitSet(w: nat, k: nat, b: Byte, j: nat)
    ensures Digit(SetDigit(w, k, b), j) == if j == k then b else Digit(w, j)
  {
    var x := SetDigit(w, k, b);
    if k == 0 {
      assert x % 256 == b && x / 256 == w / 256;
    } else {
      assert x % 256 == w % 256 && x / 256 == SetDigit(w / 256, k - 1, b);
      if j > 0 { DigitSet(w / 256, k - 1, b, j - 1); }
    }
  }

  lemma {:induction false} SetBound(w: nat, k: nat, b: Byte, n: nat)
    requires k < n && w < Power(n)
    ensures SetDigit(w, k, b) < Power(n)
  {
    var q := Power(n - 1);
    assert w / 256 < q;
    if k > 0 { SetBound(w / 256, k - 1, b, n - 1); }
  }

  lemma EightBytes()
    ensures Power(8) == 0x1_0000_0000_0000_0000
  {
    assert Power(4) == 0x1_0000_0000;
  }

  function PageByte(page: Page, o: nat): (b: Byte)
    requires o < PGSIZE
  {
    Digit(page[o / 8], o % 8)
  }

  /** A store of one byte. */
  function PutByte(page: Page, o: nat, b: Byte): (r: Page)
    requires o < PGSIZE
    ensures forall j: nat | j < PGSIZE :: PageByte(r, j) == if j == o then b else PageByte(page, j)
  {
    EightBytes();
    SetBound(page[o / 8], o % 8, b, 8);
    var r: Page := page[o / 8 := SetDigit(page[o / 8], o % 8, b)];
    assert forall j: nat | j < PGSIZE :: PageByte(r, j) == if j == o then b else PageByte(page, j) by {
      forall j: nat | j < PGSIZE ensures PageByte(r, j) == if j == o then b else PageByte(page, j) {
        if j / 8 == o / 8 { DigitSet(page[o / 8], o % 8, b, j % 8); }
      }
    }
    r
  }

  /** memmove into a page. */
  function PutBytes(page: Page, o: nat, data: seq<Byte>): (r: Page)
    requires o + |data| <= PGSIZE
    ensures forall j: nat | j < PGSIZE ::
              PageByte(r, j) == if o <= j < o + |data| then data[j - o] else PageByte(page, j)
    decreases |data|
  {
    if data == [] then page else PutBytes(PutByte(page, o, data[0]), o + 1, data[1..])
  }

  /** The bytes of a page from o on. */
  function GetBytes(page: Page, o: nat, n: nat): (data: seq<Byte>)
    requires o + n <= PGSIZE
    ensures |data| == n && forall k: nat | k < n :: data[k] == PageByte(page, o + k)
  {
    seq<Byte>(n, k requires 0 <= k < n => PageByte(page, o + k))
  }

  /** The n low bytes of a number. */
  function Bytes(w: nat, n: nat): (b: seq<Byte>)
    ensures |b| == n
  {
    if n == 0 then [] else [w % 256] + Bytes(w / 256, n - 1)
  }

  /** The number with the given bytes. */
  function Number(b: seq<Byte>): (w: nat) {
    if b == [] then 0 else b[0] + 256 * Number(b[1..])
  }

  lemma {:induction false} NumberBytes(w: nat, n: nat)
    requires w < Power(n)
    ensures Number(Bytes(w, n)) == w
  {
    if n > 0 {
      assert w / 256 < Power(n - 1);
      NumberBytes(w / 256, n - 1);
      assert Bytes(w, n)[1..] == Bytes(w / 256, n - 1);
    }
  }
}
