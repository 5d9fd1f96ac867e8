/** The failure-carrying datatypes shared by every module. */
module Wrappers {

  datatype Option<+T> = None | Some(value: T)

  /** leveldb::Status, reduced to whether the operation succeeded. */
  datatype Status = OK | IOError {
    predicate ok() { OK? }
  }
}
