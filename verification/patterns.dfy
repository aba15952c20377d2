/** Go's `regexp` package as the exporter uses it. Matching is not modelled:
    a compiled pattern is known by its source text, and the three calls the
    worker makes are functions supplied from outside. */
module Patterns {
  /** A compiled regular expression (`*regexp.Regexp`). */
  datatype Regexp = Regexp(source: string)

  /** `MatchString`, `FindString` and `ReplaceAllString`. `findString`
      returns "" when there is no match; `replaceAllString(re, src, template)`
      expands `$1`-style references in `template`. */
  datatype Engine = Engine(
    matchString: (Regexp, string) -> bool,
    findString: (Regexp, string) -> string,
    replaceAllString: (Regexp, string, string) -> string)
}
