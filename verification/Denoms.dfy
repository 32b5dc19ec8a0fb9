/** Denoms that more than one module of the chain names. */
module Denoms {

  const ULUNA := "uluna"
  const USDR := "usdr"
}
