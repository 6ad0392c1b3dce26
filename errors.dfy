/** Error values shared by every package of the vault, and the Option/Result
    wrappers through which operations report them instead of Go's (value, error)
    pairs. */
module Errors {

  /** Causes reported by the operating system (os.PathError and friends). */
  datatype OsError = NotExist | Permission | IsDirectory | IoFailure(reason: string)

  datatype Error =
    // internal/cipher/cipher.go:16-22
    | ErrInvalidVaultData
    | ErrCiphertextTooShort
    | ErrEncryptionFailed
    | ErrDecryptionFailed
    | ErrVaultIntegrity
    // internal/storage/storage.go:11-15
    | ErrVaultNotFound
    | ErrVaultReadFailed
    | ErrVaultWriteFailed
    // internal/validator/validator.go:8-11
    | ErrEmptyKey
    | ErrInvalidKey
    // strconv.ErrSyntax and strconv.ErrRange
    | ErrSyntax
    | ErrRange
    /** An error returned by the operating system. */
    | Os(cause: OsError)
    /** fmt.Errorf("%w: %v", sentinel, detail): wraps the sentinel, only prints the detail. */
    | Wrapf(sentinel: Error, detail: Error)
    /** fmt.Errorf("message: %w", inner). */
    | Context(message: string, inner: Error)
    /** fmt.Errorf("message") or errors.New("message"): wraps nothing. */
    | Message(text: string)
    /** fmt.Errorf("message, got %d", got). */
    | OutOfRange(text: string, got: int)

  /** errors.Is: the error itself, or anything reachable through %w links. */
  predicate Is(e: Error, target: Error)
  {
    || e == target
    || (e.Wrapf? && Is(e.sentinel, target))
    || (e.Context? && Is(e.inner, target))
  }

  datatype Option<+T> = None | Some(value: T)

  datatype Result<+T> = Ok(value: T) | Err(error: Error)
}
