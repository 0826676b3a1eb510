/**
 * The entry data flags of core/wpk/class_types.py: an IntFlag whose
 * members are independent bits, combined with `|` and tested with `&`.
 */
module DataFlags {

  type Flags = bv8

  const NoFlags: Flags := 0
  const TextFlag: Flags := 1
  const Nxs3PackedFlag: Flags := 2
  const RotorPackedFlag: Flags := 4
  const EncryptedFlag: Flags := 8
  const ErrorFlag: Flags := 16

  /** The five named members other than NONE. */
  predicate IsFlag(bit: Flags) {
    bit == TextFlag || bit == Nxs3PackedFlag || bit == RotorPackedFlag
    || bit == EncryptedFlag || bit == ErrorFlag
  }

  /** `flags & bit` is truthy. */
  predicate HasFlag(flags: Flags, bit: Flags) {
    flags & bit != 0
  }

  /** `flags |= bit`: sets `bit` and leaves every other member as it was. */
  function WithFlag(flags: Flags, bit: Flags): (r: Flags)
    requires IsFlag(bit)
    ensures HasFlag(r, bit)
    ensures forall other :: IsFlag(other) && other != bit ==> (HasFlag(r, other) <==> HasFlag(flags, other))
  {
    flags | bit
  }

  /** The members are single, pairwise disjoint bits, and NONE has none of them. */
  lemma FlagsAreDistinctBits(a: Flags, b: Flags)
    requires IsFlag(a) && IsFlag(b)
    ensures a & (a - 1) == 0
    ensures a != b ==> a & b == 0
    ensures !HasFlag(NoFlags, a)
  {
  }
}
