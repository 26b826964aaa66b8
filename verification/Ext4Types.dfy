/** Errors and results of the ext4-fs crate (ext4-fs/src/error.rs). */
module Ext4Types {

  datatype Ext4Error = NotAFile | NotADirectory | InvalidInput | NameTooLong | AlreadyExists
                     | NotFound | NoSpace | Unsupported

  datatype Result<T> = Ok(value: T) | Err(error: Ext4Error)
}
