/** Shared helper datatypes. */
module Common {

  /** A value that may be absent: JavaScript's `undefined`/`null`, Python's `None`,
      or an I/O call that raised. */
  datatype Option<+T> = None | Some(value: T) {

    /** The carried value, or `default` when absent (`??` in TypeScript,
        `dict.get(k, default)` in Python). */
    function GetOr(default: T): T {
      match this
      case Some(v) => v
      case None => default
    }
  }

  /** No element occurs twice. */
  predicate NoDup<T(==)>(s: seq<T>) {
    forall i, j :: 0 <= i < j < |s| ==> s[i] != s[j]
  }
}
