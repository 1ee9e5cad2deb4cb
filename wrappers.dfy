/** The optional value used wherever the Java code may produce nothing
    (a parse that throws, a `findFirst` that finds nothing). */
module Wrappers {
  datatype Option<+T> = None | Some(value: T)
}
