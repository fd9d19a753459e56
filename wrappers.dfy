/** Option and Result values used where the program returns null or rejects a promise. */
module Wrappers {

  datatype Option<+T> = None | Some(value: T)

  /** `Err` carries the path the promise rejected on: a directory that could not be listed, or the folder that made `groupByArtist` throw. */
  datatype Result<+T> = Ok(value: T) | Err(path: string)
}
