/** The optional value used where the store keeps an empty string or an absent entry. */
module Wrappers {
  datatype Option<+T> = None | Some(value: T)
}
