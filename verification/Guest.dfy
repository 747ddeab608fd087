/** The two RAM banks of the Mono-class CD-i player (runner/include/cdi_runtime.h), and the
    types everything else is made of. */
module Guest {

  datatype Option<T> = None | Some(value: T)

  type byte = x: int | 0 <= x < 256

  const BANK := 0x8_0000            // bytes per bank
  const RAM1 := 0x20_0000           // guest address of the second bank

  /** A span of guest RAM that stays inside one bank. */
  predicate InRam(address: nat, size: nat) {
    || (address < BANK && size <= BANK - address)
    || (RAM1 <= address < RAM1 + BANK && size <= RAM1 + BANK - address)
  }

  /** Where a RAM byte lives when the banks are laid end to end. */
  function Offset(address: nat): (o: nat)
    requires InRam(address, 1)
    ensures o < 2 * BANK
  {
    if address < BANK then address else BANK + (address - RAM1)
  }

  /** Both banks end to end. */
  type Memory = m: seq<byte> | |m| == 2 * BANK witness seq(2 * BANK, i => 0)

  function Slice(mem: Memory, base: nat, size: nat): (s: seq<byte>)
    requires InRam(base, size) && size > 0
    ensures |s| == size
  {
    mem[Offset(base)..Offset(base) + size]
  }

  function Be32(s: seq<byte>, at: nat): nat
    requires at + 4 <= |s|
  {
    (s[at] as int) * 0x100_0000 + (s[at + 1] as int) * 0x1_0000 + (s[at + 2] as int) * 0x100 + s[at + 3]
  }

  /** Only bytes of the written span may differ. */
  ghost predicate WrittenOnly(mem: Memory, mem': Memory, address: nat, size: nat)
    requires size > 0 && InRam(address, size)
  {
    forall i :: 0 <= i < 2 * BANK && !(Offset(address) <= i < Offset(address) + size) ==> mem'[i] == mem[i]
  }

  predicate LowByte(a: nat) { a < 0x8_0000 }

  predicate HighByte(a: nat) { 0x20_0000 <= a < 0x28_0000 }

  /** A span is in RAM when all its bytes are in the first half megabyte, or all in the half
      megabyte at 0x200000. */
  lemma InRamMeans(address: nat, size: nat)
    requires size > 0
    ensures InRam(address, size) <==>
      || (forall a :: address <= a < address + size ==> LowByte(a))
      || (forall a :: address <= a < address + size ==> HighByte(a))
  {
    var last := address + size - 1;
    assert LowByte(last) || !LowByte(last);
    assert HighByte(address) || !HighByte(address);
    assert HighByte(last) || !HighByte(last);
  }
}
