/** Rejection sampling from a stream: which candidates are kept, independently of how the stream is buffered. */
module Rejection {
  import opened MachineInts
  import opened ShakeStream

  datatype Candidate = Accept(value: int) | Reject

  type Candidates = nat -> Candidate

  /** The values accepted among the first n candidates. */
  function Selected(c: Candidates, n: nat): (r: seq<int>)
    ensures |r| <= n
  {
    if n == 0 then []
    else match c(n - 1)
      case Accept(v) => Selected(c, n - 1) + [v]
      case Reject => Selected(c, n - 1)
  }

  /** Looking at more candidates only adds values. */
  lemma {:induction false} SelectedPrefix(c: Candidates, m: nat, n: nat)
    requires m <= n
    ensures Selected(c, m) <= Selected(c, n)
    decreases n
  {
    if m < n {
      SelectedPrefix(c, m, n - 1);
    }
  }

  /** Entry number k of the selection is the candidate before which exactly k were accepted. */
  lemma {:induction false} SelectedRank(c: Candidates, n: nat, j: nat)
    requires j < n && c(j).Accept?
    ensures |Selected(c, j)| < |Selected(c, n)| && Selected(c, n)[|Selected(c, j)|] == c(j).value
  {
    SelectedPrefix(c, j + 1, n);
  }

  lemma {:induction false} SelectedSource(c: Candidates, n: nat, k: nat) returns (j: nat)
    requires k < |Selected(c, n)|
    ensures j < n && c(j).Accept? && |Selected(c, j)| == k && c(j).value == Selected(c, n)[k]
  {
    if k < |Selected(c, n - 1)| {
      j := SelectedSource(c, n - 1, k);
    } else {
      j := n - 1;
    }
  }

  /** The first 256 accepted values, where the first limit candidates contain so many. */
  function First256(c: Candidates, limit: nat): (r: seq<int>)
    requires |Selected(c, limit)| >= 256
    ensures |r| == 256
  {
    Selected(c, limit)[..256]
  }

  /** They do not depend on how far one looks. */
  lemma First256Unique(c: Candidates, m: nat, n: nat)
    requires |Selected(c, m)| >= 256 && |Selected(c, n)| >= 256
    ensures First256(c, m) == First256(c, n)
  {
    if m <= n {
      SelectedPrefix(c, m, n);
    } else {
      SelectedPrefix(c, n, m);
    }
  }

  /** The first ctr coefficients are what has been selected so far, up to 256. */
  ghost predicate Filled(p: seq<int>, ctr: nat, selected: seq<int>) {
    && |p| == 256 && ctr == (if |selected| < 256 then |selected| else 256)
    && p[..ctr] == selected[..ctr]
  }

  /** One candidate: stored if accepted and if there is room. */
  lemma FilledStep(p: seq<int>, q: seq<int>, ctr: nat, next: nat, c: Candidates, n: nat)
    requires Filled(p, ctr, Selected(c, n))
    requires if c(n).Accept? && ctr < 256 then q == p[ctr := c(n).value] && next == ctr + 1 else q == p && next == ctr
    ensures Filled(q, next, Selected(c, n + 1))
  {}

  lemma FilledStart(p: seq<int>, c: Candidates)
    requires |p| == 256
    ensures Filled(p, 0, Selected(c, 0))
  {}

  /** While fewer than 256 coefficients are filled, the 256th acceptance is still to come. */
  lemma NotYet(p: seq<int>, ctr: nat, c: Candidates, n: nat, limit: nat)
    requires |Selected(c, limit)| >= 256 && Filled(p, ctr, Selected(c, n)) && ctr < 256
    ensures n < limit && |Selected(c, n)| < 256
  {
    if limit <= n {
      SelectedPrefix(c, limit, n);
    }
  }

  lemma FilledEnd(p: seq<int>, c: Candidates, n: nat, limit: nat)
    requires |Selected(c, limit)| >= 256 && Filled(p, 256, Selected(c, n))
    ensures p == First256(c, limit) && |Selected(c, n)| >= 256
  {
    First256Unique(c, n, limit);
  }
}
