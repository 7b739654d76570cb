/** Two rules that must be one: the node id a seed carries (proto/seed.go) and the
    DNS label of tile ids and secret names (tileschema/validate.go). */
module Labels {
  import Seed
  import SecretTokens

  /** The two rules accept the same texts. */
  lemma NodeIDsAreLabels(s: string)
    ensures Seed.ValidNodeID(s) <==> SecretTokens.ValidSecretName(s)
  {
  }

  /** And it is this rule: letters and digits, joined by hyphens. */
  lemma LabelIff(s: string)
    ensures SecretTokens.ValidSecretName(s) <==>
            && 1 <= |s| <= 63 && s[0] != '-' && s[|s| - 1] != '-'
            && forall c :: c in s ==> 'a' <= c <= 'z' || '0' <= c <= '9' || c == '-'
  {
    if SecretTokens.ValidSecretName(s) {
      assert s[0] in s && s[|s| - 1] in s;
    } else if 1 <= |s| <= 63 {
      var i :| 0 <= i < |s| && !('a' <= s[i] <= 'z' || '0' <= s[i] <= '9' || (s[i] == '-' && 0 < i < |s| - 1));
      assert s[i] in s;
    }
  }
}
