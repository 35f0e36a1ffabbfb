/** The optional-value type used for parsed metadata, extracted boosts and displayed sums. */
module Wrappers {

  /** A value that may be absent: `None` stands for a skipped record, a decoding error or a hidden sum. */
  datatype Option<+T> = None | Some(value: T)
}
