/** The authority lattice shared by the registry, the firewall and the signed grants. */
module AuthorityLevels {

  datatype AuthorityLevel = Unknown | Low | Medium | High | Canonical

  function Rank(level: AuthorityLevel): nat
  {
    match level
    case Unknown => 0
    case Low => 1
    case Medium => 2
    case High => 3
    case Canonical => 4
  }

  /** `a <= b` in the derived Rust order. */
  predicate AtMost(a: AuthorityLevel, b: AuthorityLevel)
  {
    Rank(a) <= Rank(b)
  }

  function MaxLevel(a: AuthorityLevel, b: AuthorityLevel): AuthorityLevel
  {
    if AtMost(a, b) then b else a
  }

  /** The lowercase name a level is written and read back as. */
  function Name(level: AuthorityLevel): string
  {
    match level
    case Unknown => "unknown"
    case Low => "low"
    case Medium => "medium"
    case High => "high"
    case Canonical => "canonical"
  }
}
