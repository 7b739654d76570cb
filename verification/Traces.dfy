/** Runs of an arbitrary labelled step relation. */
module Traces {

  ghost predicate Chain<S(!new), L(!new)>(step: (S, L, S) -> bool, ss: seq<S>, ls: seq<L>) {
    |ss| == |ls| + 1 && forall i {:trigger ls[i]} :: 0 <= i < |ls| ==> step(ss[i], ls[i], ss[i + 1])
  }

  lemma ChainExtend<S(!new), L(!new)>(step: (S, L, S) -> bool, ss: seq<S>, ls: seq<L>, l: L, s: S)
    requires Chain(step, ss, ls) && step(ss[|ls|], l, s)
    ensures Chain(step, ss + [s], ls + [l])
  {
  }

  /** What a step keeps while its labels are `ok` holds from `i` on to `j`. */
  lemma {:induction false} ChainKeeps<S(!new), L(!new)>(
    step: (S, L, S) -> bool, ss: seq<S>, ls: seq<L>, i: nat, j: nat, inv: S -> bool, ok: L -> bool)
    requires Chain(step, ss, ls) && i <= j < |ss| && inv(ss[i])
    requires forall k :: i <= k < j ==> ok(ls[k])
    requires forall s, l, s' :: inv(s) && ok(l) && step(s, l, s') ==> inv(s')
    ensures inv(ss[j])
  {
    if i < j {
      ChainKeeps(step, ss, ls, i, j - 1, inv, ok);
      assert step(ss[j - 1], ls[j - 1], ss[j]);
    }
  }

  /** Whatever holds at `k` and not at the start came about at some step. */
  lemma {:induction false} ChainEntry<S(!new), L(!new)>(
    step: (S, L, S) -> bool, ss: seq<S>, ls: seq<L>, k: nat, p: S -> bool) returns (j: nat)
    requires Chain(step, ss, ls) && k < |ss| && !p(ss[0]) && p(ss[k])
    ensures j < k && !p(ss[j]) && p(ss[j + 1]) && step(ss[j], ls[j], ss[j + 1])
  {
    if p(ss[k - 1]) {
      j := ChainEntry(step, ss, ls, k - 1, p);
    } else {
      j := k - 1;
      assert step(ss[j], ls[j], ss[j + 1]);
    }
  }

  // ---------- reachability ----------

  /** Some sequence of steps leads from `s` to `t`. */
  ghost predicate Leads<S(!new), L(!new)>(step: (S, L, S) -> bool, s: S, t: S) {
    exists ss: seq<S>, ls: seq<L> :: Chain(step, ss, ls) && ss[0] == s && ss[|ls|] == t
  }

  lemma LeadsSelf<S(!new), L(!new)>(step: (S, L, S) -> bool, s: S)
    ensures Leads(step, s, s)
  {
    var ss: seq<S>, ls: seq<L> := [s], [];
    assert Chain(step, ss, ls) && ss[0] == s && ss[|ls|] == s;
  }

  lemma LeadsStep<S(!new), L(!new)>(step: (S, L, S) -> bool, s: S, t: S, l: L, t': S)
    requires Leads(step, s, t) && step(t, l, t')
    ensures Leads(step, s, t')
  {
    var ss: seq<S>, ls: seq<L> :| Chain(step, ss, ls) && ss[0] == s && ss[|ls|] == t;
    ChainExtend(step, ss, ls, l, t');
    assert (ss + [t'])[0] == s && (ss + [t'])[|ls + [l]|] == t';
  }

  lemma {:induction false} LeadsOn<S(!new), L(!new)>(
    step: (S, L, S) -> bool, also: (S, L, S) -> bool, o: S, ss: seq<S>, ls: seq<L>)
    requires Chain(step, ss, ls) && Leads(also, o, ss[0])
    requires forall s, l, s' :: step(s, l, s') ==> also(s, l, s')
    ensures Leads(also, o, ss[|ls|])
    decreases |ls|
  {
    if ls != [] {
      var n := |ls| - 1;
      assert Chain(step, ss[..n + 1], ls[..n]);
      LeadsOn(step, also, o, ss[..n + 1], ls[..n]);
      assert step(ss[n], ls[n], ss[n + 1]);
      LeadsStep(also, o, ss[n], ls[n], ss[n + 1]);
    }
  }

  /** Going on by steps of a stricter kind. */
  lemma LeadsThen<S(!new), L(!new)>(step: (S, L, S) -> bool, also: (S, L, S) -> bool, o: S, s: S, t: S)
    requires Leads(also, o, s) && Leads(step, s, t)
    requires forall s, l, s' :: step(s, l, s') ==> also(s, l, s')
    ensures Leads(also, o, t)
  {
    var ss: seq<S>, ls: seq<L> :| Chain(step, ss, ls) && ss[0] == s && ss[|ls|] == t;
    LeadsOn(step, also, o, ss, ls);
  }
}
