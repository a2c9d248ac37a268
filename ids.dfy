/** Identifiers. Every table is keyed by a UUID; the model treats a UUID as an opaque
    natural number and the anonymous cart session id as a string. */
module Ids {

  type CartId = nat
  type ItemId = nat
  type ProductId = nat
  type VariantId = nat
  type CategoryId = nat
  type UserId = nat
  /** An anonymous cart session id; an empty one is falsy in the source and is modelled as absent. */
  type SessionId = s: string | s != "" witness "s"

}
