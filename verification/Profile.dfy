/** The behaviour profile: collaboration counts per operator pair and operations per asset group. */
module Profile {
  import opened Text

  datatype Profile = Profile(pairCounts: map<string, nat>, operatorAssets: map<string, map<string, nat>>)

  /** The two names in order, joined by a bar. */
  function PairKey(a: string, b: string): string {
    if Less(a, b) then a + "|" + b else b + "|" + a
  }
}
