/** Python's `None`-or-value results (a regular expression that did not match,
    a capture group that did not take part), as a datatype. */
module Options {

  datatype Option<+T> = None | Some(value: T)
}
