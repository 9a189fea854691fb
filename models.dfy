/**
 * The domain types of pkg/models: Product, ProductDigest, the sentinel
 * errors, and the integer widths the store and the wire format use.
 */
module Models {
  import opened Log

  /** PostgreSQL's SQLSTATE for a unique-constraint violation. */
  const UniqueErrCode: string := "23505"

  const Int32Min: int := -0x8000_0000
  const Int32Max: int := 0x7fff_ffff

  /** A Go int32: the store's price column and the wire format's price field. */
  type Int32 = x: int | -0x8000_0000 <= x <= 0x7fff_ffff

  predicate FitsInt32(x: int) {
    Int32Min <= x <= Int32Max
  }

  /**
   * Go's conversion `int32(x)`: keeps the low 32 bits of x, read as a signed
   * number. The result is the one int32 congruent to x modulo 2^32.
   */
  function ToInt32(x: int): (r: Int32)
    ensures (r - x) % 0x1_0000_0000 == 0
    ensures FitsInt32(x) ==> r == x
  {
    (x - Int32Min) % 0x1_0000_0000 + Int32Min
  }

  /** The conversion changes a value exactly when it does not fit in 32 bits. */
  lemma ToInt32Identity(x: int)
    ensures ToInt32(x) == x <==> FitsInt32(x)
  {
  }

  /** models.Product; Go's int price is taken as unbounded. */
  datatype Product = Product(name: string, price: int, description: string)

  /** The zero value `models.Product{}`. */
  const EmptyProduct: Product := Product("", 0, "")

  /** models.ProductDigest, one line of a listing. */
  datatype ProductDigest = ProductDigest(id: string, name: string, price: int)

  /**
   * The error values that flow through the core. The first three are the
   * sentinels of pkg/models; ErrNoRows is pgx.ErrNoRows; PgError is a
   * *pgconn.PgError; Opaque is any other error (a lost connection, a
   * cancelled context, a failed identifier generator) known only by its text;
   * Wrapped is log.ErrorLogData, an error carrying the LogData of the context
   * it was created in. Wrapped lives here because a Dafny datatype is closed.
   */
  datatype Error =
    | ErrNotFound
    | ErrInternal
    | ErrAlreadyExists
    | ErrNoRows
    | PgError(severity: string, message: string, code: string)
    | Opaque(text: string)
    | Wrapped(ld: LogData, err: Error)
  {
    /** The text `Error()` returns. */
    function Message(): string {
      match this
      case ErrNotFound => "no result found"
      case ErrInternal => "something goes wrong"
      case ErrAlreadyExists => "already exists"
      case ErrNoRows => "no rows in result set"
      case PgError(severity, message, code) => severity + ": " + message + " (SQLSTATE " + code + ")"
      case Opaque(text) => text
      case Wrapped(_, err) => err.Message()
    }
  }

  /** The errors a store query can return. */
  predicate IsStoreError(e: Error) {
    e.ErrNoRows? || e.PgError? || e.Opaque?
  }
}
