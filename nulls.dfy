/** Nullable column values and the way Spark's column comparisons treat null.

    In Spark SQL a comparison with a null operand yields null, and `filter` and
    `join` keep a row only when their condition is true, so a null never passes
    an equality or inequality test. */
module Nulls {

  /** A nullable column value. */
  datatype Option<+T> = None | Some(value: T)

  /** The filter condition `c != lit`: a null column is dropped. */
  predicate NotEqualsLiteral<T(==)>(c: Option<T>, lit: T) {
    c.Some? && c.value != lit
  }

  /** The filter condition `c == lit`: a null column is dropped. */
  predicate EqualsLiteral<T(==)>(c: Option<T>, lit: T) {
    c.Some? && c.value == lit
  }

  /** The join condition `a == b` between two columns: true only when both are non-null and equal. */
  predicate ColumnsEqual<T(==)>(a: Option<T>, b: Option<T>) {
    a.Some? && b.Some? && a.value == b.value
  }
}
