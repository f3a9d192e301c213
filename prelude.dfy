/** Small shared vocabulary: an optional value and a string-prefix test. */
module Prelude {

  /** A value that may be absent, as JavaScript's `undefined`/`null` results are. */
  datatype Option<+T> = None | Some(value: T)

  /** JavaScript's `s.startsWith(p)`. */
  predicate StartsWith(s: string, p: string)
  {
    |p| <= |s| && s[..|p|] == p
  }

  /** `lit` occurs in `s` starting at index `i`. */
  predicate HasAt(s: string, i: nat, lit: string)
  {
    i + |lit| <= |s| && s[i..i + |lit|] == lit
  }
}
