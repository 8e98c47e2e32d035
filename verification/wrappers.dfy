/** The explicit "absent" result used in place of Java's null return. */
module Wrappers {

  /** Either a value or nothing; `None` is the registry's only failure outcome. */
  datatype Option<+T> = None | Some(value: T)
}
