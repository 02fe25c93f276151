/** Machine words: unsigned arithmetic modulo 2^64 and the signed reading of a word. */
module Words {
  const WORD: int := 0x1_0000_0000_0000_0000
  const HALF: int := 0x8000_0000_0000_0000

  type Byte = x: int | 0 <= x < 256

  type Word = w: int | 0 <= w < WORD

  /** The word an integer is stored as. */
  function Wrap(x: int): (w: Word)
    ensures (x - w) % WORD == 0
  {
    x % WORD
  }

  /** The two's complement reading of a word. */
  function Signed(w: Word): (x: int)
    ensures -HALF <= x < HALF && Wrap(x) == w
  {
    if w < HALF then w else w - WORD
  }

  /** Subtracting words and reading the difference as signed gives the true difference if it is small. */
  lemma SignedDifference(x: int, y: int)
    requires -HALF <= x - y < HALF
    ensures Signed(Wrap(Wrap(x) - Wrap(y))) == x - y
  {
    var q, r := x / WORD, y / WORD;
    assert Wrap(x) == x - q * WORD && Wrap(y) == y - r * WORD;
    var d := x - y;
    assert Wrap(x) - Wrap(y) == d + (r - q) * WORD;
    WrapShift(d, r - q);
  }

  lemma {:induction false} WrapShift(d: int, k: int)
    ensures Wrap(d + k * WORD) == Wrap(d)
    decreases if k < 0 then -k else k
  {
    if k > 0 {
      WrapShift(d, k - 1);
      assert d + k * WORD == (d + (k - 1) * WORD) + WORD;
    } else if k < 0 {
      WrapShift(d, k + 1);
      assert d + (k + 1) * WORD == (d + k * WORD) + WORD;
    }
  }

  lemma WrapSum(x: int, y: int)
    ensures Wrap(Wrap(x) + y) == Wrap(x + y)
  {
    var q := x / WORD;
    assert Wrap(x) + y == (x + y) + (-q) * WORD;
    WrapShift(x + y, -q);
  }
}
