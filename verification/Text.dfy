/** Searching in text, as JavaScript strings do. */
module Text {
  import opened Wrappers

  predicate At(text: string, needle: string, k: int) {
    0 <= k <= k + |needle| <= |text| && text[k..k + |needle|] == needle
  }

  /** Every occurrence, overlapping ones included. */
  function Occurrences(text: string, needle: string): set<int> {
    set k | 0 <= k <= |text| && At(text, needle, k)
  }

  /** String.prototype.indexOf with a start position. */
  function IndexOf(text: string, needle: string, from: nat): (index: Option<nat>)
    ensures index.Some? && needle != "" ==>
              from <= index.value && At(text, needle, index.value) && forall k :: from <= k < index.value ==> !At(text, needle, k)
    ensures index.None? ==> needle != "" && forall k :: from <= k ==> !At(text, needle, k)
    decreases |text| + |needle| + 1 - from
  {
    if from + |needle| > |text| then if needle == "" then Some(|text|) else None
    else if At(text, needle, from) then Some(from)
    else IndexOf(text, needle, from + 1)
  }
}
