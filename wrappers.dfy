/** The optional value that the scraper returns where the original returns None. */
module Wrappers {

  datatype Option<+T> = None | Some(value: T)
}
