/** The optional value used wherever the scraper looks for an element or a
    match that may be absent. */
module Optional {

  datatype Option<+T> = None | Some(value: T)
}
