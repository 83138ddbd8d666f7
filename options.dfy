/** Rust's `Option`, used for "no hit", "absorbed" and "panicked" outcomes. */
module Options {
  datatype Option<+T> = None | Some(value: T)
}
