/** Content digests and the errors of the authenticated index. A digest is the byte string a hash assigns to content. */
module ContentAddress {
  import opened KeyBits

  type Digest = Bytes

  /** `BudgetExhausted` is the store's `Malformed` for a spent node budget, kept apart so that it can be ruled out. */
  datatype PatriciaError =
    | Malformed
    | BudgetExhausted
    | MissingNode(digest: Digest)
    | PathMismatch(digest: Digest)
}
