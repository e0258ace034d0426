/** Optional values, results and the error conditions shared by the request
    builder and the certificate importer. */
module Wrappers {

  datatype Option<+T> = None | Some(value: T)

  /** The exceptions the two procedures can end with.
      - NotSupported: a key that is not RSA (.NET NotSupportedException);
      - ObjectNotFound: no unique private key to pair a certificate with;
      - TokenFailure: an error raised by the token layer and passed through
        unchanged (invalid handle, attribute that cannot be read or converted);
      - MalformedInput: the library could not parse a distinguished name string
        or the certificate bytes;
      - InvalidKey: the library refused RSA key material, read from the token
        or extracted from a certificate (.NET ArgumentException). */
  datatype Error = NotSupported | ObjectNotFound | TokenFailure | MalformedInput | InvalidKey

  datatype Result<+T> = Success(value: T) | Failure(error: Error)
}
