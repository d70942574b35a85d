/** Small result types shared by the other modules. */
module Wrappers {

  datatype Option<+T> = None | Some(value: T)

  /** The result of a Python call that may raise an exception nobody in
      decoder.py catches (TypeError, AttributeError): it returns a value,
      or it raises. */
  datatype Py<+T> = Returns(value: T) | Raises
}
