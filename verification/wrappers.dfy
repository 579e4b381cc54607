/** The optional value used for results the platform may not deliver
    (a placemark without a location, a placemark without an address). */
module Wrappers {

  datatype Option<+T> = None | Some(value: T)
}
