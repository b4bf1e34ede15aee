/** The small part of the BSON driver vocabulary the count harness touches:
    ordered documents (`bson.D`), 64-bit integers and command errors.
    Values inside documents are left abstract (type parameter `V`): the
    harness forwards them verbatim and never inspects them. */
module Bson {

  const MinInt64: int := -0x8000_0000_0000_0000
  const MaxInt64: int := 0x7fff_ffff_ffff_ffff

  /** Go's `int64`. */
  type Int64 = x: int | MinInt64 <= x <= MaxInt64

  /** One key/value element of an ordered document. */
  datatype Elem<V> = Elem(key: string, value: V)

  /** Go's `bson.D`: a slice of elements, which is either the nil slice or
      an ordered (possibly empty) list. The distinction matters: `bson.D{}`
      is an empty but non-nil document. */
  datatype D<V> = Nil | Doc(elems: seq<Elem<V>>)

  /** A command error as the driver reports it: numeric code, code name and
      a backend-specific human-readable message. */
  datatype CommandError = CommandError(code: int, name: string, message: string)

  /** The comparable part of a command error: everything but the message. */
  datatype ErrorClass = ErrorClass(code: int, name: string)

  function ClassOf(e: CommandError): ErrorClass {
    ErrorClass(e.code, e.name)
  }
}
