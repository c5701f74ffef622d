/** The optional value shared by the page model (an absent discounted price, a
    NaN parse) and the navigation bar model (no scroll event yet). */
module Wrappers {

  datatype Option<T> = None | Some(value: T)
}
