/** Small shared vocabulary: optional values, results of operations that may
    throw, and the opaque part of a YAML mapping. */
module Common {

  /** A value that may be absent: a missing key, a missing file. */
  datatype Option<+T> = None | Some(value: T) {

    /** The carried value, or `default` when absent. */
    function GetOr(default: T): T {
      match this
      case Some(v) => v
      case None => default
    }
  }

  /** The outcome of an operation that either returns a value or throws. */
  datatype Result<+T, +E> = Ok(value: T) | Err(error: E)

  /** The keys of a YAML mapping that the installer never inspects, kept as an
      opaque key-to-value table so that "left as it was" can be stated. */
  type Fields = map<string, string>

  /** `s` ends with `suffix`, as JavaScript's `String.prototype.endsWith`. */
  predicate EndsWith(s: string, suffix: string) {
    |suffix| <= |s| && s[|s| - |suffix|..] == suffix
  }

  /** Concatenation is associative. */
  lemma AppendAssoc<T>(x: seq<T>, y: seq<T>, z: seq<T>)
    ensures x + (y + z) == (x + y) + z
  {
  }
}
