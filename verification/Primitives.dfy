/** Vocabulary shared by every component: keys, optional values and outcomes. */
module Primitives {

  datatype Option<+T> = None | Some(value: T)

  datatype Result<+T, +E> = Ok(value: T) | Err(error: E)

  /** A 32-byte address. `Curve` addresses have a private key. `Derived` addresses come out of
      the seeded derivation, which is collision free and always lands off the curve. `Program`
      stands for every other address without a private key. */
  datatype Pubkey =
    | Curve(id: nat)
    | Program(id: nat)
    | Derived(base: Pubkey, seeds: seq<Pubkey>)
  {
    predicate HasPrivateKey() {
      Curve?
    }

    function Derive(seeds: seq<Pubkey>): Pubkey {
      Derived(this, seeds)
    }
  }
}
