/** How a test stands: shared by the run of a test and the runner of a group. */
module Results {
  datatype TestResult = NoResult | Running | Correct | Incorrect | Abort | Skip

  /** The results a run of a test can end in. */
  predicate Ended(r: TestResult) {
    r == Correct || r == Incorrect || r == Abort
  }
}
