/** The optional value that the scraper's Python code writes as `None` or a value. */
module Options {

  datatype Option<+T> = None | Some(value: T)
}
