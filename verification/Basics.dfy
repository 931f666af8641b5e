/** What several of the models share. */
module Basics {

  type byte = b: nat | b < 256

  datatype Option<+T> = None | Some(value: T)

  /** What an alias analysis answers about two locations. */
  datatype Alias = NoAlias | MayAlias | PartialAlias | MustAlias

  function Min(a: nat, b: nat): nat { if a < b then a else b }
}
