/** The Option type used for the source's optional values (`undefined`,
    `null`, or an absent field). */
module Wrappers {

  datatype Option<+T> = None | Some(value: T)
}
