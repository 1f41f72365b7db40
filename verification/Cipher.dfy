/** The packet cipher (AES-256-GCM in internal/crypto/crypto.go) seen from
    outside: sealing takes a fresh nonce, opening undoes it. */
module Cipher {
  import opened Bytes

  /** Nonce and tag. */
  const OVERHEAD: nat := 28

  datatype Cipher = Cipher(seal: (nat, seq<byte>) -> Option<seq<byte>>, open: seq<byte> -> Option<seq<byte>>)
  {
    /** The law: what was sealed, under whatever nonce, opens to itself. */
    ghost predicate Lawful() {
      forall n, p :: seal(n, p).Some? ==> open(seal(n, p).value) == Some(p) && |seal(n, p).value| == |p| + OVERHEAD
    }
  }
}
