/** The optional value used for the session-type tag of a timetable cell
    (None when the cell is free). */
module Wrappers {
  datatype Option<T> = None | Some(value: T)
}
