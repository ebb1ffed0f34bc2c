/** An optional value: a missing DOM element, an unset stored setting, a missing table entry. */
module Wrappers {
  datatype Option<+T> = None | Some(value: T)
}
