/**
 * The exceptions the partial-URL classes throw, as values.  Each constructor
 * names the Java exception it stands for.
 */
module Errors {

  datatype Error =
      /** IllegalArgumentException: a non-root context path ends in a slash. */
    | ContextPathEndsInSlash(contextPath: string)
      /** IllegalArgumentException: a prefix does not end in a slash. */
    | PrefixMissingSlash(prefix: string)
      /** IllegalStateException: more combinations than Integer.MAX_VALUE. */
    | TooManyCombinations(combinations: nat)
      /** NullPointerException: a field was needed from a null field source. */
    | MissingFieldSource
}
