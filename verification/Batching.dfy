/** Greedy splitting of a list of sizes into consecutive batches below a limit, and
    why no other split into consecutive batches needs fewer. */
module Batching {
  function Sum(s: seq<nat>): nat {
    if s == [] then 0 else s[0] + Sum(s[1..])
  }

  function Concat<T>(parts: seq<seq<T>>): seq<T> {
    if parts == [] then [] else parts[0] + Concat(parts[1..])
  }

  predicate Fits(s: seq<nat>, limit: nat) {
    forall i :: 0 <= i < |s| ==> s[i] <= limit
  }

  predicate Within(parts: seq<seq<nat>>, limit: nat) {
    forall i :: 0 <= i < |parts| ==> Sum(parts[i]) <= limit
  }

  /** How many batches greedy splitting ends with, when `open` bytes are already in
      the current batch. */
  function Greedy(open: nat, s: seq<nat>, limit: nat): nat
    decreases |s|
  {
    if s == [] then 1
    else if open + s[0] <= limit then Greedy(open + s[0], s[1..], limit)
    else 1 + Greedy(s[0], s[1..], limit)
  }

  /** A fuller current batch costs more batches in the end, but at most one more. */
  lemma {:induction false} GreedyMonotone(a: nat, b: nat, s: seq<nat>, limit: nat)
    requires a <= b <= limit && Fits(s, limit)
    ensures Greedy(a, s, limit) <= Greedy(b, s, limit) <= 1 + Greedy(a, s, limit)
    decreases |s|
  {
    if s != [] {
      if b + s[0] <= limit {
        GreedyMonotone(a + s[0], b + s[0], s[1..], limit);
      } else if a + s[0] <= limit {
        GreedyMonotone(s[0], a + s[0], s[1..], limit);
      }
    }
  }

  lemma {:induction false} SumBounds(s: seq<nat>, i: nat)
    requires i < |s|
    ensures s[i] <= Sum(s)
  {
    if i > 0 {
      SumBounds(s[1..], i - 1);
    }
  }

  /** A prefix that fits into the current batch is taken whole. */
  lemma {:induction false} GreedyTakes(open: nat, p: seq<nat>, rest: seq<nat>, limit: nat)
    requires open + Sum(p) <= limit
    ensures Greedy(open, p + rest, limit) == Greedy(open + Sum(p), rest, limit)
    decreases |p|
  {
    if p == [] {
      assert p + rest == rest;
    } else {
      assert (p + rest)[1..] == p[1..] + rest;
      GreedyTakes(open + p[0], p[1..], rest, limit);
    }
  }

  /** Greedy splitting is optimal among all consecutive splits within the limit. */
  lemma {:induction false} GreedyOptimal(parts: seq<seq<nat>>, limit: nat)
    requires parts != [] && Within(parts, limit)
    ensures Greedy(0, Concat(parts), limit) <= |parts|
  {
    var p, rest := parts[0], parts[1..];
    GreedyTakes(0, p, Concat(rest), limit);
    if rest == [] {
      assert Concat(rest) == [];
    } else {
      GreedyOptimal(rest, limit);
      WithinFits(rest, limit);
      GreedyMonotone(0, Sum(p), Concat(rest), limit);
    }
  }

  lemma {:induction false} WithinFits(parts: seq<seq<nat>>, limit: nat)
    requires Within(parts, limit)
    ensures Fits(Concat(parts), limit)
  {
    if parts != [] {
      WithinFits(parts[1..], limit);
      forall i | 0 <= i < |parts[0]|
        ensures parts[0][i] <= limit
      {
        SumBounds(parts[0], i);
      }
    }
  }

  lemma {:induction false} SumAppend(s: seq<nat>, x: nat)
    ensures Sum(s + [x]) == Sum(s) + x
  {
    if s != [] {
      assert (s + [x])[1..] == s[1..] + [x];
      SumAppend(s[1..], x);
    }
  }

  lemma {:induction false} ConcatAppend<T>(parts: seq<seq<T>>, p: seq<T>)
    ensures Concat(parts + [p]) == Concat(parts) + p
  {
    if parts == [] {
      assert Concat([p]) == p + Concat<T>([]);
      assert parts + [p] == [p];
    } else {
      assert (parts + [p])[1..] == parts[1..] + [p];
      ConcatAppend(parts[1..], p);
    }
  }
}
