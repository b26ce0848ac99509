/** Kernel ids, which every table of the gateway is keyed by. */
module Ids {

  type KernelId = string

  predicate IsHex(c: char) {
    '0' <= c <= '9' || 'a' <= c <= 'f'
  }

  /** The printed form of a UUID: what new kernels are named, by the gateway or by a client. */
  predicate IsUuid(s: string) {
    |s| == 36 && forall i :: 0 <= i < 36 ==> if i in {8, 13, 18, 23} then s[i] == '-' else IsHex(s[i])
  }

  type Uuid = s: KernelId | IsUuid(s) witness "00000000-0000-4000-8000-000000000000"
}
