/**
 * The growable text buffer of the terminal windows (commctl/terminal.c
 * and process.h): `size` bytes of text, NUL-terminated, in a
 * block of `capacity` bytes that doubles when an append does not fit.
 * `data` below is the text up to the NUL, so `size` is `|data|`.
 */
module TextBuf {
  import opened Wrappers

  const DEFAULT_TEXT_BUFFER_SIZE: int := 4096

  /** The capacity an append settles on: c, doubled until it reaches need. */
  function Doubled(c: nat, need: nat): (r: nat)
    requires c > 0
    ensures r >= need && r >= c
    ensures r == c <==> c >= need
    ensures r != c ==> r % 2 == 0 && c <= r / 2 < need
    decreases if c < need then need - c else 0
  {
    if c >= need then c else Doubled(2 * c, need)
  }

  function Pow2(k: nat): (r: nat)
    ensures r >= 1
  {
    if k == 0 then 1 else 2 * Pow2(k - 1)
  }

  lemma Twice(c: nat, p: nat)
    ensures 2 * c * p == c * (2 * p)
  {
  }

  /** The grown capacity is the old one times a power of two: nothing but doublings. */
  lemma {:induction false} DoubledIsPower(c: nat, need: nat)
    requires c > 0
    ensures exists k: nat :: Doubled(c, need) == c * Pow2(k)
    decreases if c < need then need - c else 0
  {
    if c >= need {
      assert Doubled(c, need) == c * Pow2(0);
    } else {
      DoubledIsPower(2 * c, need);
      var k: nat :| Doubled(2 * c, need) == 2 * c * Pow2(k);
      var p := Pow2(k);
      assert Pow2(k + 1) == 2 * p;
      Twice(c, p);
      assert Doubled(c, need) == c * Pow2(k + 1);
    }
  }

  class Buffer {
    var data: string
    var capacity: nat

    /** Room for the text and its NUL. */
    ghost predicate Valid()
      reads this
    {
      |data| + 1 <= capacity
    }

    /** `init_text_buffer`: empty, 4096 bytes. */
    constructor ()
      ensures Valid() && data == "" && capacity == DEFAULT_TEXT_BUFFER_SIZE
    {
      data := "";
      capacity := DEFAULT_TEXT_BUFFER_SIZE;
    }

    /**
     * The append of process.h: the capacity doubles until the
     * text, s and the NUL fit, then s is copied after the text.
     */
    method Append(s: string)
      requires Valid()
      modifies this
      ensures Valid() && data == old(data) + s
      ensures capacity == Doubled(old(capacity), |old(data)| + |s| + 1)
    {
      var need := |data| + |s| + 1;
      if need > capacity {
        var c := capacity;
        while c < need
          invariant c > 0 && Doubled(c, need) == Doubled(capacity, need)
          decreases need - c
        {
          c := 2 * c;
        }
        capacity := c;
      }
      data := data + s;
    }
  }

  /**
   * The append of commctl/terminal.c: a null buffer or a null string
   * changes nothing, and neither does a failed reallocation (`reallocOk`
   * false) when the buffer has to grow.
   */
  method StrCat(b: Buffer?, s: Option<string>, reallocOk: bool)
    requires b != null ==> b.Valid()
    modifies b
    ensures b != null ==> b.Valid()
    ensures b != null && s.Some? && (|old(b.data)| + |s.value| + 1 <= old(b.capacity) || reallocOk) ==>
      b.data == old(b.data) + s.value && b.capacity == Doubled(old(b.capacity), |old(b.data)| + |s.value| + 1)
    ensures b != null && (s.None? || (|old(b.data)| + |s.value| + 1 > old(b.capacity) && !reallocOk)) ==>
      b.data == old(b.data) && b.capacity == old(b.capacity)
  {
    if b == null || s.None? {
      return;
    }
    if |b.data| + |s.value| + 1 > b.capacity && !reallocOk {
      return;
    }
    b.Append(s.value);
  }
}
