/** Facts about prefixes of sequences that the loops over input lines rely on. */
module Seqs {

  /** The prefix one element longer extends the shorter prefix by that element. */
  lemma PrefixStep<T>(s: seq<T>, i: nat)
    requires i < |s|
    ensures |s[..i + 1]| == i + 1 && s[..i + 1][..i] == s[..i] && s[..i + 1][i] == s[i]
  {
  }

  /** The prefix of full length is the whole sequence. */
  lemma PrefixWhole<T>(s: seq<T>)
    ensures s[..|s|] == s
  {
  }
}
