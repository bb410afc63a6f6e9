/** The optional value used for the scrapers' `None` results and failed fetches,
    and for a coordinate that falls outside the histogram's edges. */
module Wrappers {

  datatype Option<+T> = None | Some(value: T)
}
