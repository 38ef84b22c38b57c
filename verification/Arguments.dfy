/** Command-line arguments (internal/cli/app.go). */
module Arguments {
  type Arg = string

  /** A long flag: "--" and at least one more character. */
  predicate IsLong(a: Arg) { |a| > 2 && a[0] == '-' && a[1] == '-' }
}
