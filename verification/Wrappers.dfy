/** The Option type that stands for std::optional, boost::optional and nullable results. */
module Wrappers {
  datatype Option<+T> = None | Some(value: T)
}
