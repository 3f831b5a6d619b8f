/**
 Distributions and requirements, as far as resolution looks at them.

 A requirement is its equality class, the tuple that `Requirement.__eq__` compares.  The
 order of distributions (version first, then the other fields) is represented by an integer,
 which also decides whether two distributions are equal.
 */
module Packages {
  import opened Common

  datatype Requirement = Requirement(
    key: string, url: Option<string>, specifier: string, extras: set<string>, marker: Option<string>)

  datatype Distribution = Distribution(
    key: string, version: string, hashcmp: int, pyVersion: Option<string>, platform: Option<string>, hasVersion: bool)

  /** Whether a specifier admits a version. */
  type Specifiers = (string, string) -> bool

  /** `dist in req` */
  predicate Meets(d: Distribution, r: Requirement, specs: Specifiers) {
    d.key == r.key && specs(r.specifier, d.version)
  }
}
