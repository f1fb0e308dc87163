/** Machine words of the emulated console: 8-bit and 16-bit unsigned values with explicit wrap-around
    (emu/util/unsigned.hpp and the `Reg16` union of emu/core/instrinfo.hpp). */
module Words {
  import opened Bits

  datatype Option<T> = None | Some(value: T)

  type Byte = b: int | 0 <= b < 0x100
  type Word = w: int | 0 <= w < 0x10000

  /** Truncation to `uint8` of a sum or difference of two bytes and a carry. */
  function ToByte(n: int): Byte
    requires -0x100 <= n < 0x200
  {
    if n < 0 then n + 0x100 else if n < 0x100 then n else n - 0x100
  }

  /** Truncation to `uint16` of a sum or difference that wraps at most once. */
  function ToWord(n: int): Word
    requires -0x10000 <= n < 0x20000
  {
    if n < 0 then n + 0x10000 else if n < 0x10000 then n else n - 0x10000
  }

  /** `uint16` increment. */
  function Next(w: Word): Word {
    ToWord(w + 1)
  }

  /** 8-bit stack pointer movement. */
  function Up(sp: Byte): Byte {
    ToByte(sp + 1)
  }

  function Down(sp: Byte): Byte {
    ToByte(sp - 1)
  }

  function Low(w: Word): Byte {
    w % 0x100
  }

  function High(w: Word): Byte {
    w / 0x100
  }

  function Join(low: Byte, high: Byte): Word {
    low + 0x100 * high
  }

  /** Zero-page indexing: the sum of two bytes, not wrapped to a byte. */
  function Offset(base: Byte, index: Byte): Word {
    base + index
  }

  /** The cast to `int8_t`. */
  function Signed(b: Byte): int {
    if b < 0x80 then b else b - 0x100
  }

  /** The test `b & 0x80`. */
  predicate Negative(b: Byte) {
    b >= 0x80
  }

  /** `&`, `|` and `^` on bytes. */
  function BitAnd(a: Byte, b: Byte): Byte {
    AndAtMost(a, b);
    And(a, b)
  }

  function BitOr(a: Byte, b: Byte): Byte {
    WordPowers();
    OrFits(8, a, b);
    Or(a, b)
  }

  function BitXor(a: Byte, b: Byte): Byte {
    WordPowers();
    XorFits(8, a, b);
    Xor(a, b)
  }
}
