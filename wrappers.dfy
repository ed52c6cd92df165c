/** The optional-value wrapper used for nullable state (`InventoryItem | null`) and for
    `parseInt` results that are `NaN`. */
module Wrappers {

  datatype Option<+T> = None | Some(value: T)
}
