/** Bytes of text, and sequences put together from pieces. */
module Strings {
  import opened Words

  predicate IsDigit(ch: Byte) { 48 <= ch <= 57 }

  /** ch | 0x20 */
  function Lower(ch: Byte): Byte { if ch / 32 % 2 == 0 then ch + 32 else ch }

  lemma Regroup<T>(a: seq<T>, b: seq<T>, c: seq<T>)
    ensures a + (b + c) == a + b + c
  {
  }
}
