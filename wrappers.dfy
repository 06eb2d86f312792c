/** Small value types shared by every module of the model. */
module Wrappers {

  /** Python's `None` or a present value. */
  datatype Option<+T> = None | Some(value: T) {
    predicate IsFailure() {
      None?
    }

    function PropagateFailure<U>(): Option<U>
      requires None?
    {
      None
    }

    function Extract(): T
      requires Some?
    {
      value
    }
  }

  /**
   * The outcome of a call that may raise: `Err` stands for a Python exception
   * escaping the call, `Ok` for a normal return.
   */
  datatype Result<+T> = Ok(value: T) | Err(reason: string)

  /** The elements of a Python `bytearray` or `bytes` object. */
  type byte = x: int | 0 <= x < 256

  /**
   * Storing an integer into a MicroPython `bytearray` element keeps the low
   * eight bits of its two's-complement representation.
   */
  function StoreByte(v: int): (b: byte)
    ensures 0 <= v < 256 ==> b == v
    ensures (v - b) % 256 == 0
  {
    v % 256
  }

  /**
   * `b & (0x80 >> i)` is non-zero: bit `i` of a byte, counted from the most
   * significant bit, is set. Bit `i` is the top bit once the byte has been
   * shifted left `i` times, each shift dropping the top bit.
   */
  predicate BitSet(b: byte, i: nat)
    requires i < 8
    decreases i
  {
    if i == 0 then b >= 128 else BitSet(if b >= 128 then 2 * b - 256 else 2 * b, i - 1)
  }

  /** `BitSet` on the value of an 8-bit word `v` is the mask test `v & (0x80 >> i)`. */
  lemma {:induction false} BitSetMask(v: bv8, i: nat)
    requires i < 8
    ensures BitSet(v as int, i) <==> v & ((0x80 as bv8) >> (i as bv8)) != 0
    decreases i
  {
    if i == 0 {
      assert v as int >= 128 <==> v & 0x80 != 0;
    } else {
      ShiftValue(v);
      BitSetMask(v << 1, i - 1);
      ShiftMask(v, i);
    }
  }

  /** The value of a word shifted left by one: the top bit dropped, the rest doubled. */
  lemma ShiftValue(v: bv8)
    ensures (v << 1) as int == if v as int >= 128 then 2 * (v as int) - 256 else 2 * (v as int)
  {
  }

  /** Mask bit `i - 1` of the shifted word is mask bit `i` of the word. */
  lemma ShiftMask(v: bv8, i: nat)
    requires 0 < i < 8
    ensures (v << 1) & ((0x80 as bv8) >> ((i - 1) as bv8)) != 0 <==> v & ((0x80 as bv8) >> (i as bv8)) != 0
  {
  }

  lemma MulAtLeast(x: int, n: int)
    requires 1 <= x && 0 < n
    ensures x * n >= n
  {
    assert x * n == (x - 1) * n + n;
  }

  /** One more row of `m` adds `m` to the product. */
  lemma MulSucc(k: int, m: int)
    ensures (k + 1) * m == k * m + m
  {
  }

  /** Euclidean division is determined by its quotient and remainder. */
  lemma DivModUnique(a: int, n: int, q: int, r: int)
    requires 0 < n && 0 <= r < n && a == q * n + r
    ensures a / n == q && a % n == r
  {
    var q' := a / n;
    var r' := a % n;
    assert a == q' * n + r';
    assert (q - q') * n == r' - r;
    if q > q' {
      MulAtLeast(q - q', n);
    } else if q < q' {
      MulAtLeast(q' - q, n);
    }
  }

  /** Two numbers with the same quotient and remainder are equal. */
  lemma DivModInjective(a: int, b: int, n: int)
    requires 0 < n && a != b
    ensures a % n != b % n || a / n != b / n
  {
    assert a == (a / n) * n + a % n;
    assert b == (b / n) * n + b % n;
  }
}
