/** Chain objects: an identity, and the part of the fixed configuration the models use. */
module Chains {

  datatype ChainID = ChainID(text: string)

  /** `kind` is ChainConfig.Type, such as rollapp-dym or hub-dym. */
  datatype Chain = Chain(ref: nat, chainID: ChainID, name: string, kind: string)
}
