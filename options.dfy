/** The optional value used throughout the model: an absent argument, an absent
    previous class string, a class name that BEM gating declines to build. */
module Options {
  datatype Option<+T> = None | Some(value: T)
}
