/** Bounded name resolution: each resolver may fail, decline (empty answer) or map a
    name to another; ResolveDestN follows answers up to a depth. Resolvers are
    deterministic functions here. */
module Resolver {
  import opened Wrappers

  datatype Error = ErrResolver | ErrResolveLimit | ErrInvalidDestination

  /** `None` is a failed request, the empty string a name that is not the resolver's. */
  type Resolver = string -> Option<string>

  datatype Answer = Failed | Mapped(to: string) | Unmapped

  /** The first resolver that fails or gives a non-empty answer decides. */
  function Lookup(rs: seq<Resolver>, dest: string): Answer {
    if rs == [] then Unmapped
    else match rs[0](dest)
      case None => Failed
      case Some(d) => if d == "" then Lookup(rs[1..], dest) else Mapped(d)
  }

  /** The k-th iterate of the mapping, as far as it is defined. */
  function Iterate(rs: seq<Resolver>, dest: string, k: nat): Option<string> {
    if k == 0 then Some(dest)
    else match Iterate(rs, dest, k - 1)
      case None => None
      case Some(d) => if Lookup(rs, d).Mapped? then Some(Lookup(rs, d).to) else None
  }

  method ResolveDest(rs: seq<Resolver>, dest: string) returns (d: string, resolved: bool, error: Option<Error>)
    ensures match Lookup(rs, dest)
      case Failed => d == "" && resolved && error == Some(ErrResolver)
      case Mapped(to) => d == to && resolved && error.None?
      case Unmapped => d == dest && !resolved && error.None?
  {
    for i := 0 to |rs|
      invariant Lookup(rs, dest) == Lookup(rs[i..], dest)
    {
      assert rs[i..][1..] == rs[i + 1..];
      var r := rs[i](dest);
      if r.None? {
        return "", true, Some(ErrResolver);
      }
      if r.value != "" {
        return r.value, true, None;
      }
    }
    return dest, false, None;
  }

  /** All of the first n iterates map on. */
  predicate KeepsMapping(rs: seq<Resolver>, dest: string, n: nat) {
    forall k: nat :: k < n ==> Iterate(rs, dest, k).Some? && Lookup(rs, Iterate(rs, dest, k).value).Mapped?
  }

  /** What ResolveDestN computes, stated through iterates: the first iterate that no
      resolver maps, the first failure, or the limit. */
  predicate Resolves(rs: seq<Resolver>, dest: string, depth: int, r: Result<string, Error>) {
    if KeepsMapping(rs, dest, if depth > 0 then depth else 0) then r == Err(ErrResolveLimit)
    else exists k: nat :: StopsAt(rs, dest, k) && k < depth
                          && r == Outcome(rs, Iterate(rs, dest, k).value)
  }

  function Outcome(rs: seq<Resolver>, d: string): Result<string, Error> {
    if Lookup(rs, d).Failed? then Err(ErrResolver) else Ok(d)
  }

  /** The first k iterates map on and the k-th does not. */
  predicate StopsAt(rs: seq<Resolver>, dest: string, k: nat) {
    KeepsMapping(rs, dest, k) && Iterate(rs, dest, k).Some? && !Lookup(rs, Iterate(rs, dest, k).value).Mapped?
  }

  method ResolveDestN(rs: seq<Resolver>, dest: string, depth: int) returns (r: Result<string, Error>)
    ensures Resolves(rs, dest, depth, r)
  {
    var cur := dest;
    var i := 0;
    while i < depth
      invariant 0 <= i && (depth <= 0 ==> i == 0) && (depth > 0 ==> i <= depth)
      invariant Iterate(rs, dest, i) == Some(cur) && KeepsMapping(rs, dest, i)
    {
      var d, resolved, error := ResolveDest(rs, cur);
      if error.Some? {
        assert StopsAt(rs, dest, i);
        return Err(error.value);
      }
      if !resolved {
        assert StopsAt(rs, dest, i);
        return Ok(cur);
      }
      cur := d;
      i := i + 1;
    }
    return Err(ErrResolveLimit);
  }

  /** The first resolver that does not decline decides, and a failure is not skipped. */
  lemma {:induction false} FirstAnswerDecides(rs: seq<Resolver>, dest: string, i: nat)
    requires i <= |rs| && forall k :: 0 <= k < i ==> rs[k](dest) == Some("")
    ensures i == |rs| ==> Lookup(rs, dest) == Unmapped
    ensures i < |rs| && rs[i](dest) == None ==> Lookup(rs, dest) == Failed
    ensures i < |rs| && rs[i](dest).Some? && rs[i](dest).value != "" ==> Lookup(rs, dest) == Mapped(rs[i](dest).value)
  {
    if i > 0 {
      FirstAnswerDecides(rs[1..], dest, i - 1);
    }
  }

  /** Which of the three outcomes it is, each exactly: the limit if the first `depth`
      iterates all map on, otherwise what the first one that does not says. */
  lemma LimitExactly(rs: seq<Resolver>, dest: string, depth: int, r: Result<string, Error>)
    requires Resolves(rs, dest, depth, r)
    ensures r == Err(ErrResolveLimit) <==> KeepsMapping(rs, dest, if depth > 0 then depth else 0)
    ensures r == Err(ErrResolver) <==>
      exists k: nat :: k < depth && StopsAt(rs, dest, k) && Lookup(rs, Iterate(rs, dest, k).value).Failed?
    ensures r.Ok? <==>
      exists k: nat :: k < depth && StopsAt(rs, dest, k) && Lookup(rs, Iterate(rs, dest, k).value).Unmapped?
    ensures r.Ok? ==> exists k: nat :: k < depth && StopsAt(rs, dest, k) && r.value == Iterate(rs, dest, k).value
  {
    forall k: nat, k': nat | StopsAt(rs, dest, k) && StopsAt(rs, dest, k')
      ensures k == k'
    {
      StopIsUnique(rs, dest, k, k');
    }
  }

  /** Iterating from the j-th iterate on. */
  lemma {:induction false} IterateFrom(rs: seq<Resolver>, dest: string, j: nat, m: nat)
    requires Iterate(rs, dest, j).Some?
    ensures Iterate(rs, dest, j + m) == Iterate(rs, Iterate(rs, dest, j).value, m)
  {
    if m > 0 {
      IterateFrom(rs, dest, j, m - 1);
    }
  }

  /** Names that come round again keep mapping for ever. */
  lemma {:induction false} CycleKeepsMapping(rs: seq<Resolver>, dest: string, j: nat, k: nat, n: nat)
    requires j < k && KeepsMapping(rs, dest, k) && Iterate(rs, dest, j) == Iterate(rs, dest, k)
    ensures KeepsMapping(rs, dest, n)
  {
    if n > k {
      CycleKeepsMapping(rs, dest, j, k, n - 1);
      var m := n - 1 - k;
      assert Iterate(rs, dest, j).Some?;
      IterateFrom(rs, dest, j, m);
      IterateFrom(rs, dest, k, m);
      assert Iterate(rs, dest, n - 1) == Iterate(rs, dest, j + m);
    }
  }

  /** A cycle of names is reported as the limit at every depth; so the names met before
      a successful answer are all different. */
  lemma CycleIsLimit(rs: seq<Resolver>, dest: string, j: nat, k: nat, depth: int, r: Result<string, Error>)
    requires j < k && KeepsMapping(rs, dest, k) && Iterate(rs, dest, j) == Iterate(rs, dest, k)
    requires Resolves(rs, dest, depth, r)
    ensures r == Err(ErrResolveLimit)
  {
    CycleKeepsMapping(rs, dest, j, k, if depth > 0 then depth else 0);
  }

  lemma {:induction false} StopIsUnique(rs: seq<Resolver>, dest: string, j: nat, k: nat)
    requires StopsAt(rs, dest, j) && StopsAt(rs, dest, k)
    ensures j == k
  {
    if j != k {
      assert false;
    }
  }

  /** The answer is determined, and a larger depth never changes a successful one. */
  lemma DepthOnlyExtends(rs: seq<Resolver>, dest: string, depth: int, depth': int,
                         r: Result<string, Error>, r': Result<string, Error>)
    requires depth <= depth' && Resolves(rs, dest, depth, r) && Resolves(rs, dest, depth', r')
    requires r.Ok? || depth == depth'
    ensures r' == r
  {
    if !KeepsMapping(rs, dest, if depth > 0 then depth else 0) {
      var k: nat :| StopsAt(rs, dest, k) && k < depth
                    && r == Outcome(rs, Iterate(rs, dest, k).value);
      if KeepsMapping(rs, dest, depth') {
        assert false;
      } else {
        var k': nat :| StopsAt(rs, dest, k') && k' < depth'
                       && r' == Outcome(rs, Iterate(rs, dest, k').value);
        StopIsUnique(rs, dest, k, k');
      }
    }
  }

  /** A resolved name resolves to itself at every positive depth. */
  lemma ResultIsFixpoint(rs: seq<Resolver>, dest: string, depth: int, r: Result<string, Error>,
                         depth': int, r': Result<string, Error>)
    requires Resolves(rs, dest, depth, r) && r.Ok? && depth' > 0
    requires Resolves(rs, r.value, depth', r')
    ensures r' == r
  {
    var k: nat :| StopsAt(rs, dest, k) && k < depth
                  && r == Outcome(rs, Iterate(rs, dest, k).value);
    assert Lookup(rs, r.value).Unmapped?;
    assert Iterate(rs, r.value, 0) == Some(r.value);
    assert StopsAt(rs, r.value, 0);
    assert !KeepsMapping(rs, r.value, depth');
    var k': nat :| StopsAt(rs, r.value, k') && k' < depth'
                   && r' == Outcome(rs, Iterate(rs, r.value, k').value);
    StopIsUnique(rs, r.value, 0, k');
  }

  // --------------------------------------------------------- many names

  /** The order-preserving filter of the successes. */
  function Successes(rs: seq<Result<string, Error>>): seq<string> {
    if rs == [] then []
    else Successes(rs[..|rs| - 1]) + if rs[|rs| - 1].Ok? then [rs[|rs| - 1].value] else []
  }

  method ResolveDests(rs: seq<Resolver>, dests: seq<string>, depth: int)
    returns (r: Result<seq<string>, Error>, each: seq<Result<string, Error>>)
    ensures |each| == |dests|
    ensures forall i :: 0 <= i < |dests| ==> Resolves(rs, dests[i], depth, each[i])
    ensures r == if dests == [] then Ok([])
                 else if Successes(each) == [] then Err(ErrInvalidDestination)
                 else Ok(Successes(each))
  {
    if dests == [] {
      return Ok([]), [];
    }
    var resolved: seq<string> := [];
    each := [];
    for i := 0 to |dests|
      invariant |each| == i && resolved == Successes(each)
      invariant forall k :: 0 <= k < i ==> Resolves(rs, dests[k], depth, each[k])
    {
      var one := ResolveDestN(rs, dests[i], depth);
      assert (each + [one])[..i] == each;
      each := each + [one];
      if one.Ok? {
        resolved := resolved + [one.value];
      }
    }
    r := if resolved == [] then Err(ErrInvalidDestination) else Ok(resolved);
  }

  function CountOk(rs: seq<Result<string, Error>>, n: nat): nat
    requires n <= |rs|
  {
    if n == 0 then 0 else CountOk(rs, n - 1) + if rs[n - 1].Ok? then 1 else 0
  }

  /** The filter keeps every success, in order, and nothing else. */
  lemma {:induction false} SuccessesAt(rs: seq<Result<string, Error>>, i: nat)
    requires i < |rs|
    ensures |Successes(rs)| == CountOk(rs, |rs|)
    ensures rs[i].Ok? ==> CountOk(rs, i) < |Successes(rs)| && Successes(rs)[CountOk(rs, i)] == rs[i].value
  {
    var n := |rs| - 1;
    CountPrefix(rs, n, n);
    CountPrefix(rs, n, i);
    if n > 0 {
      SuccessesAt(rs[..n], if i < n then i else 0);
    }
  }

  lemma {:induction false} CountPrefix(rs: seq<Result<string, Error>>, m: nat, n: nat)
    requires n <= m <= |rs|
    ensures CountOk(rs[..m], n) == CountOk(rs, n)
  {
    if n > 0 {
      CountPrefix(rs, m, n - 1);
    }
  }
}
