/** The settings of CandidEmotionsConfig that the name-resolution pipeline reads. */
module Configuration {

  datatype CandidEmotionsConfig = CandidEmotionsConfig(
    autocomplete: bool,           // prefix completion on or off
    autocorrect: bool,            // positional fuzzy correction on or off
    minimumCompleteLength: int,   // short-query guard for prefix completion
    autocompleteThreshold: real   // fraction of the target's length that must match
  )

  /** The defaults a freshly constructed CandidEmotionsConfig carries. */
  const Defaults := CandidEmotionsConfig(
    autocomplete := true,
    autocorrect := true,
    minimumCompleteLength := 3,
    autocompleteThreshold := 0.7
  )
}
