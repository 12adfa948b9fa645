/**
 The vocabulary shared by every storage backend: object metadata, the signed-URL
 access modes, the expiration duration and the two error kinds a backend reports.
 The backends raise these as exceptions; here they are the failure half of a Result.
 */
module Storage {

  /** An object's contents: arbitrary bytes. */
  type Bytes = seq<bv8>

  /** What listing reports for one stored object. */
  datatype ObjectMeta = ObjectMeta(key: string)

  /** The access mode a signed URL grants. */
  datatype SignedUrlMethod = GET | PUT

  /** A relative duration, counted like a timedelta in whole microseconds (it may be negative). */
  datatype Duration = Duration(microseconds: int)

  /** The default lifetime of a signed URL: one hour. */
  const OneHour: Duration := Duration(60 * 60 * 1_000_000)

  /**
   NoSuchKey is the common key-not-found error every backend translates its own
   "not found" signal into; it carries the key. NotImplemented is the error of an
   operation the backend does not offer, with its message.
   */
  datatype StorageError = NoSuchKey(key: string) | NotImplemented(message: string)

  /** The outcome of a storage operation: a value, or the error it raised. */
  datatype Result<T> = Ok(value: T) | Err(error: StorageError)
}
