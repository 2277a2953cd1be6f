/** 64-bit machine words (`u64`, and `usize` on the machines in question) and bytes. */
module MachineWords {

  /** How many values a word has. */
  const WORD: nat := 0x1_0000_0000_0000_0000

  type u64 = n: int | 0 <= n < WORD

  type u16 = n: int | 0 <= n < 0x1_0000

  newtype byte = n: int | 0 <= n < 256

  /** `AtomicUsize::fetch_add`, which wraps. */
  function WrappingAdd(counter: nat, amount: nat): nat {
    (counter + amount) % WORD
  }

  /** `AtomicUsize::fetch_sub`, which wraps. */
  function WrappingSub(counter: nat, amount: nat): nat {
    (counter - amount) % WORD
  }

  /** `u64::saturating_add`. */
  function SaturatingAdd(a: nat, b: nat): u64 {
    if a + b < WORD then a + b else WORD - 1
  }
}
