/** Shared small types. */
module Wrappers {
  datatype Option<+T> = None | Some(value: T)
}

module Secrets {
  /** The secrets of others that the operator protects with a consumer finalizer
      while it consumes them. */
  datatype Secret = AppCred(name: string) | Transport(name: string)
}

module CellNames {
  /** The cell that every Nova has. */
  const CELL0 := "cell0"

  function CellCRName(nova: string, cell: string): string {
    nova + "-" + cell
  }
}
