/** 64 KiB of plain memory as a device. */
module FlatMemory {
  import opened Words
  import opened CpuModel

  type Flat = m: seq<Byte> | |m| == 0x10000 ghost witness seq(0x10000, _ => 0)

  function FlatPeek(m: Flat, a: Word): Byte {
    m[a]
  }

  function FlatTouch(m: Flat, a: Word): Flat {
    m
  }

  function FlatPoke(m: Flat, a: Word, v: Byte): Flat {
    m[a := v]
  }

  const FLAT: Device<Flat> := Device(FlatPeek, FlatTouch, FlatPoke)
}
