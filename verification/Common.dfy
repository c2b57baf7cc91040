/** Bytes, 64-bit integers, accounts and optional values, shared by the other modules. */
module Common {

  type byte = x: int | 0 <= x < 256

  const U64_MAX: nat := 0xFFFF_FFFF_FFFF_FFFF

  type u64 = x: int | 0 <= x <= U64_MAX

  /** 64-bit arithmetic of the release build, which wraps around. */
  function Wrap(x: int): u64 {
    x % (U64_MAX + 1)
  }

  /** Values that fit stay, and 2 to the 64th makes no difference. */
  lemma WrapLaw(x: int)
    ensures 0 <= x < 0x1_0000_0000_0000_0000 ==> Wrap(x) == x
    ensures Wrap(x + 0x1_0000_0000_0000_0000) == Wrap(x)
  {
  }

  const ACCOUNT_LENGTH: nat := 32

  /** Account addresses since version six; legacy ones are half as long. */
  type Account = a: seq<byte> | |a| == ACCOUNT_LENGTH witness seq(ACCOUNT_LENGTH, _ => 0)

  /** The account of the core code, `0x1`. */
  const CORE_ADDRESS: Account :=
    [0, 0, 0, 0, 0, 0, 0, 0, 0, 0, 0, 0, 0, 0, 0, 0, 0, 0, 0, 0, 0, 0, 0, 0, 0, 0, 0, 0, 0, 0, 0, 1]

  datatype Option<+T> = None | Some(value: T) {
    predicate IsFailure() { None? }
    function PropagateFailure<U>(): Option<U> requires None? { None }
    function Extract(): T requires Some? { value }
  }

  lemma Assoc<T>(a: seq<T>, b: seq<T>, c: seq<T>)
    ensures a + b + c == a + (b + c)
  {
  }
}
