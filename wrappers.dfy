/** Outcome types shared by the model. Every way the Python code can raise
    (AttributeError on a missing key, IndexError on a malformed segment,
    ValueError from parse_person, a pydantic ValidationError on a None enum
    field) is collapsed into the single `Failure` outcome. */
module Wrappers {

  datatype Option<+T> = None | Some(value: T)

  datatype Result<+T> = Success(value: T) | Failure
}
