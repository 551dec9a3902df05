/** Severity bands in the order the program compares them, unknown lowest
    (crates/core/src/severity.rs). */
module Severities {

  datatype Severity = Unknown | Low | Medium | High | Critical
  {
    function Rank(): nat {
      match this
      case Unknown => 0
      case Low => 1
      case Medium => 2
      case High => 3
      case Critical => 4
    }

    predicate AtLeast(floor: Severity) {
      Rank() >= floor.Rank()
    }
  }

  function Worse(a: Severity, b: Severity): Severity {
    if b.Rank() > a.Rank() then b else a
  }
}
