/** Rule exclusions as stored: which rule stops inspecting which variable, and where. */
module Exclusions {
  import opened Wrappers

  datatype TargetType =
    | REQUEST_URI | REQUEST_URI_RAW | REQUEST_FILENAME
    | ARGS | ARGS_NAMES
    | REQUEST_HEADERS | REQUEST_HEADERS_NAMES
    | REQUEST_COOKIES | REQUEST_COOKIES_NAMES
  {
    predicate TakesKey() {
      !REQUEST_URI? && !REQUEST_URI_RAW? && !REQUEST_FILENAME?
    }
  }

  /** What an exclusion or a suggestion is about. */
  datatype Key = Key(ruleId: int, targetType: TargetType, targetValue: Option<string>)

  datatype RuleExclusion = RuleExclusion(id: nat, policyId: nat, key: Key, scopePath: Option<string>)

  predicate TargetChar(c: char) {
    'a' <= c <= 'z' || 'A' <= c <= 'Z' || '0' <= c <= '9' || c in "_.:/@-"
  }

  /** Neither blank nor outside the characters that can be written verbatim. */
  predicate ValidTarget(targetType: TargetType, targetValue: Option<string>) {
    if targetType.TakesKey() then
      && targetValue.Some?
      && targetValue.value != ""
      && forall i :: 0 <= i < |targetValue.value| ==> TargetChar(targetValue.value[i])
    else targetValue.None?
  }
}
