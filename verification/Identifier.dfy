/** Sub-client identifiers: "__3__.addr" is sub-client 3 of addr. Printing, parsing
    and the cross-send expansion of destinations. */
module Identifier {
  function DigitChar(d: nat): char
    requires d < 10
  {
    "0123456789"[d]
  }

  predicate IsDigit(c: char) {
    '0' <= c <= '9'
  }

  function Itoa(n: nat): string {
    if n < 10 then [DigitChar(n)] else Itoa(n / 10) + [DigitChar(n % 10)]
  }

  function AddIdentifierPrefix(base: string, prefix: string): string {
    if base == "" then prefix
    else if prefix == "" then base
    else prefix + "." + base
  }

  function Label(id: nat): string {
    "__" + Itoa(id) + "__"
  }

  function AddIdentifier(addr: string, id: int): string {
    if id < 0 then addr else AddIdentifierPrefix(addr, Label(id))
  }

  /** Position of the first dot, or the length. */
  function FirstDot(s: string): (n: nat)
    ensures n <= |s| && '.' !in s[..n] && (n < |s| ==> s[n] == '.')
  {
    if s == "" || s[0] == '.' then 0
    else
      var n := FirstDot(s[1..]);
      assert s[..n + 1] == [s[0]] + s[1..][..n];
      n + 1
  }

  /** Matches ^__\d+__$ */
  predicate IsLabel(s: string) {
    && |s| >= 5 && s[..2] == "__" && s[|s| - 2..] == "__"
    && forall i :: 2 <= i < |s| - 2 ==> IsDigit(s[i])
  }

  function RemoveIdentifier(src: string): (string, string) {
    var n := FirstDot(src);
    if n < |src| && IsLabel(src[..n]) then (src[n + 1..], src[..n]) else (src, "")
  }

  function Strip(src: string): string {
    RemoveIdentifier(src).0
  }

  // ----------------------------------------------------------- round trip

  function Atoi(s: string): int
  {
    if s == "" then 0 else 10 * Atoi(s[..|s| - 1]) + (s[|s| - 1] as int - '0' as int)
  }

  lemma {:induction false} ItoaDigits(n: nat)
    ensures Itoa(n) != "" && forall i :: 0 <= i < |Itoa(n)| ==> IsDigit(Itoa(n)[i])
  {
    if n >= 10 {
      ItoaDigits(n / 10);
    }
  }

  lemma {:induction false} AtoiItoa(n: nat)
    ensures Atoi(Itoa(n)) == n
  {
    if n < 10 {
      assert [DigitChar(n)][..0] == "";
    } else {
      AtoiItoa(n / 10);
      assert Itoa(n)[..|Itoa(n)| - 1] == Itoa(n / 10);
    }
  }

  lemma LabelShape(id: nat)
    ensures IsLabel(Label(id)) && '.' !in Label(id)
  {
    ItoaDigits(id);
    forall i | 2 <= i < |Label(id)| - 2
      ensures IsDigit(Label(id)[i])
    {
      assert Label(id)[i] == Itoa(id)[i - 2];
    }
    forall i | 0 <= i < |Label(id)|
      ensures Label(id)[i] != '.'
    {
      assert i < 2 || i >= |Label(id)| - 2 || IsDigit(Label(id)[i]);
    }
  }

  lemma LabelInjective(i: nat, j: nat)
    requires Label(i) == Label(j)
    ensures i == j
  {
    assert Label(i)[2..|Label(i)| - 2] == Itoa(i);
    assert Label(j)[2..|Label(j)| - 2] == Itoa(j);
    AtoiItoa(i);
    AtoiItoa(j);
  }

  lemma FirstDotOf(p: string, rest: string)
    requires '.' !in p
    ensures FirstDot(p + "." + rest) == |p|
  {
    var s := p + "." + rest;
    assert s[|p|] == '.';
    assert forall i :: 0 <= i < |p| ==> s[i] == p[i] != '.';
  }

  /** Parsing gives back what was printed, for every non-empty address and id; on an
      empty address the label stands alone and is not recognised. */
  lemma PrintParse(addr: string, id: nat)
    ensures RemoveIdentifier(AddIdentifier(addr, id)) == (addr, Label(id)) <==> addr != ""
  {
    LabelShape(id);
    if addr == "" {
      assert FirstDot(Label(id)) == |Label(id)|;
    } else {
      var s := AddIdentifier(addr, id);
      FirstDotOf(Label(id), addr);
      assert s[..|Label(id)|] == Label(id) && s[|Label(id)| + 1..] == addr;
    }
  }

  /** A prefix "__", digits, "__." in front of something. */
  predicate Prefixed(src: string, digits: string, rest: string) {
    && digits != "" && (forall i :: 0 <= i < |digits| ==> '0' <= digits[i] <= '9')
    && src == "__" + digits + "__." + rest
  }

  lemma PrefixedStrips(src: string, digits: string, rest: string)
    requires Prefixed(src, digits, rest)
    ensures RemoveIdentifier(src) == (rest, "__" + digits + "__")
  {
    var name := "__" + digits + "__";
    assert src == name + "." + rest;
    assert forall i :: 2 <= i < |name| - 2 ==> name[i] == digits[i - 2];
    assert '.' !in name;
    FirstDotOf(name, rest);
    assert src[..|name|] == name && src[|name| + 1..] == rest;
    assert name[..2] == "__" && name[|name| - 2..] == "__";
  }

  lemma StrippedWasPrefixed(src: string) returns (digits: string)
    requires RemoveIdentifier(src).1 != ""
    ensures Prefixed(src, digits, RemoveIdentifier(src).0)
  {
    var n := FirstDot(src);
    var name := src[..n];
    digits := name[2..n - 2];
    assert name == name[..2] + digits + name[n - 2..];
    assert src == name + "." + src[n + 1..];
  }

  /** Exactly which names are stripped: those with at least one digit, and only digits,
      between the double underscores before the first dot. Others are left as they are. */
  lemma StripsExactly(src: string)
    ensures RemoveIdentifier(src).1 != "" <==> exists digits, rest :: Prefixed(src, digits, rest)
    ensures RemoveIdentifier(src).1 == "" ==> RemoveIdentifier(src).0 == src
  {
    if RemoveIdentifier(src).1 != "" {
      var digits := StrippedWasPrefixed(src);
    }
    if digits, rest :| Prefixed(src, digits, rest) {
      PrefixedStrips(src, digits, rest);
    }
  }

  /** An address that carries no sub-client label of its own. */
  predicate Unprefixed(addr: string) {
    addr != "" && RemoveIdentifier(addr) == (addr, "")
  }

  lemma StripsToBase(addr: string, id: int)
    requires Unprefixed(addr)
    ensures Strip(AddIdentifier(addr, id)) == addr
  {
    if id >= 0 {
      PrintParse(addr, id);
    }
  }

  /** Distinct sub-clients of one address have distinct names, whatever the address, the
      original client included. */
  lemma AddIdentifierInjective(addr: string, i: int, j: int)
    requires i >= -1 && j >= -1
    requires AddIdentifier(addr, i) == AddIdentifier(addr, j)
    ensures i == j
  {
    if i >= 0 && j >= 0 {
      assert |Label(i)| == |Label(j)|;
      assert AddIdentifier(addr, i)[..|Label(i)|] == Label(i);
      assert AddIdentifier(addr, j)[..|Label(j)|] == Label(j);
      LabelInjective(i, j);
    }
  }

  /** A sub-client's name: its decimal number, without leading zeros, between double
      underscores, then a dot and the address. */
  lemma PrintedName(addr: string, id: int)
    ensures id < 0 ==> AddIdentifier(addr, id) == addr
    ensures id >= 0 ==> Atoi(Itoa(id)) == id && (forall i :: 0 <= i < |Itoa(id)| ==> '0' <= Itoa(id)[i] <= '9')
    ensures id >= 0 ==> Itoa(id) != "" && (Itoa(id)[0] == '0' ==> id == 0)
    ensures id >= 0 ==> AddIdentifier(addr, id) == "__" + Itoa(id) + "__" + (if addr == "" then "" else "." + addr)
  {
    if id >= 0 {
      AtoiItoa(id);
      ItoaDigits(id);
      NoLeadingZero(id);
      if addr != "" {
        assert Label(id) + "." + addr == "__" + Itoa(id) + "__" + ("." + addr);
      } else {
        assert Label(id) == "__" + Itoa(id) + "__" + "";
      }
    }
  }

  lemma {:induction false} NoLeadingZero(n: nat)
    ensures Itoa(n) != "" && (Itoa(n)[0] == '0' ==> n == 0)
  {
    if n >= 10 {
      NoLeadingZero(n / 10);
    }
  }

  // ------------------------------------------------------------ cross send

  function Block(addr: string, ids: seq<int>): (b: seq<string>)
    ensures |b| == |ids|
  {
    seq(|ids|, j requires 0 <= j < |ids| => AddIdentifier(addr, ids[j]))
  }

  function Expand(dests: seq<string>, ids: seq<int>): seq<string> {
    if dests == [] then [] else Expand(dests[..|dests| - 1], ids) + Block(dests[|dests| - 1], ids)
  }

  method AddMultiClientPrefix(dests: seq<string>, id: int) returns (r: seq<string>)
    ensures |r| == |dests| && forall i :: 0 <= i < |dests| ==> r[i] == AddIdentifier(dests[i], id)
  {
    r := [];
    for i := 0 to |dests|
      invariant |r| == i && forall k :: 0 <= k < i ==> r[k] == AddIdentifier(dests[k], id)
    {
      r := r + [AddIdentifier(dests[i], id)];
    }
  }

  method AddMultiClientPrefixForAllSubClients(dests: seq<string>, ids: seq<int>) returns (r: seq<string>)
    ensures r == if ids == [] then dests else Expand(dests, ids)
  {
    if ids == [] {
      return dests;
    }
    r := [];
    for i := 0 to |dests|
      invariant r == Expand(dests[..i], ids)
    {
      ghost var before := r;
      for j := 0 to |ids|
        invariant r == before + Block(dests[i], ids)[..j]
      {
        r := r + [AddIdentifier(dests[i], ids[j])];
      }
      assert dests[..i + 1][..i] == dests[..i];
    }
    assert dests[..|dests|] == dests;
  }

  predicate Distinct<T(==)>(s: seq<T>) {
    forall i, j :: 0 <= i < j < |s| ==> s[i] != s[j]
  }

  predicate Targets(dests: seq<string>, ids: seq<int>) {
    && Distinct(dests) && (forall i :: 0 <= i < |dests| ==> Unprefixed(dests[i]))
    && Distinct(ids) && (forall j :: 0 <= j < |ids| ==> ids[j] >= -1)
  }

  lemma BlockFacts(addr: string, ids: seq<int>)
    requires Targets([addr], ids)
    ensures Distinct(Block(addr, ids))
    ensures forall j :: 0 <= j < |ids| ==> Strip(Block(addr, ids)[j]) == addr
  {
    assert Unprefixed([addr][0]);
    forall j | 0 <= j < |ids|
      ensures Strip(Block(addr, ids)[j]) == addr
    {
      StripsToBase(addr, ids[j]);
    }
    forall i, j | 0 <= i < j < |ids|
      ensures Block(addr, ids)[i] != Block(addr, ids)[j]
    {
      if Block(addr, ids)[i] == Block(addr, ids)[j] {
        AddIdentifierInjective(addr, ids[i], ids[j]);
      }
    }
  }

  lemma AtLeastOnce(m: nat, x: int)
    ensures x >= 1 ==> m * x >= m
    ensures x <= -1 ==> m * x <= 0 - m
  {
    if x >= 1 {
      assert m * x == m * (x - 1) + m;
    } else if x <= -1 {
      assert m * x == m * (x + 1) - m;
    }
  }

  lemma BlockIndex(q: nat, m: nat, j: nat)
    requires j < m
    ensures (q * m + j) / m == q
  {
    var d, r := (q * m + j) / m, (q * m + j) % m;
    assert q * m + j == m * d + r;
    assert m * (q - d) == q * m - m * d;
    AtLeastOnce(m, q - d);
  }

  lemma {:induction false} ExpandLength(dests: seq<string>, ids: seq<int>)
    ensures |Expand(dests, ids)| == |dests| * |ids|
  {
    if dests != [] {
      var n, m := |dests| - 1, |ids|;
      ExpandLength(dests[..n], ids);
      assert (n + 1) * m == n * m + m;
    }
  }

  /** Entry p is sub-client j of destination q. */
  lemma {:induction false} ExpandOwner(dests: seq<string>, ids: seq<int>, p: nat) returns (q: nat, j: nat)
    requires Targets(dests, ids) && p < |Expand(dests, ids)|
    ensures q < |dests| && j < |ids| && p == q * |ids| + j
    ensures Strip(Expand(dests, ids)[p]) == dests[q]
  {
    q := |dests| - 1;
    ExpandLength(dests[..q], ids);
    if p < |Expand(dests[..q], ids)| {
      q, j := ExpandOwner(dests[..q], ids, p);
    } else {
      j := p - |Expand(dests[..q], ids)|;
      BlockFacts(dests[q], ids);
    }
  }

  /** Two lists without repetition stay so when joined if a key tells them apart. */
  lemma JoinDistinct<T, U>(a: seq<T>, b: seq<T>, key: T -> U, k: U)
    requires Distinct(a) && Distinct(b)
    requires (forall i :: 0 <= i < |a| ==> key(a[i]) != k) && (forall j :: 0 <= j < |b| ==> key(b[j]) == k)
    ensures Distinct(a + b)
  {
  }

  lemma {:induction false} ExpandDistinct(dests: seq<string>, ids: seq<int>)
    requires Targets(dests, ids)
    ensures Distinct(Expand(dests, ids))
  {
    if dests != [] {
      var n := |dests| - 1;
      var before := Expand(dests[..n], ids);
      ExpandDistinct(dests[..n], ids);
      forall i | 0 <= i < |before|
        ensures Strip(before[i]) != dests[n]
      {
        var q, j := ExpandOwner(dests[..n], ids, i);
      }
      BlockFacts(dests[n], ids);
      JoinDistinct(before, Block(dests[n], ids), Strip, dests[n]);
    }
  }

  predicate StripsBack(r: seq<string>, dests: seq<string>, m: nat)
    requires m > 0
  {
    forall p :: 0 <= p < |r| ==> p / m < |dests| && Strip(r[p]) == dests[p / m]
  }

  lemma {:induction false} ExpandStripsBack(dests: seq<string>, ids: seq<int>)
    requires Targets(dests, ids) && ids != []
    ensures StripsBack(Expand(dests, ids), dests, |ids|)
  {
    forall p | 0 <= p < |Expand(dests, ids)|
      ensures p / |ids| < |dests| && Strip(Expand(dests, ids)[p]) == dests[p / |ids|]
    {
      var q, j := ExpandOwner(dests, ids, p);
      BlockIndex(q, |ids|, j);
    }
  }

  /** Cross send addresses every sub-client of every destination exactly once: the
      expansion has |dests| * |ids| pairwise distinct entries, and entry p strips
      back to destination p / |ids|. */
  lemma {:induction false} CrossSend(dests: seq<string>, ids: seq<int>)
    requires Targets(dests, ids) && ids != []
    ensures |Expand(dests, ids)| == |dests| * |ids|
    ensures Distinct(Expand(dests, ids))
    ensures StripsBack(Expand(dests, ids), dests, |ids|)
  {
    ExpandLength(dests, ids);
    ExpandDistinct(dests, ids);
    ExpandStripsBack(dests, ids);
  }

  /** The ids used by sendWithClient: -1 for the original client, then 0, 1, ... */
  function SubClientIds(original: bool, n: nat): seq<int> {
    var offset := if original then 1 else 0;
    seq(n + offset, i => i - offset)
  }

  method FinalDests(cross: bool, original: bool, n: nat, clientId: int, dests: seq<string>) returns (r: seq<string>)
    ensures !cross ==> |r| == |dests| && forall i :: 0 <= i < |dests| ==> r[i] == AddIdentifier(dests[i], clientId)
    ensures cross ==> r == if SubClientIds(original, n) == [] then dests else Expand(dests, SubClientIds(original, n))
  {
    if cross {
      var offset := if original then 1 else 0;
      var ids := [];
      for i := -offset to n
        invariant ids == SubClientIds(original, n)[..i + offset]
      {
        ids := ids + [i];
      }
      assert ids == SubClientIds(original, n);
      r := AddMultiClientPrefixForAllSubClients(dests, ids);
    } else {
      r := AddMultiClientPrefix(dests, clientId);
    }
  }

  /** Entry q * |ids| + j is sub-client ids[j] of destination q. */
  lemma {:induction false} ExpandAt(dests: seq<string>, ids: seq<int>, q: nat, j: nat)
    requires q < |dests| && j < |ids|
    ensures q * |ids| + j < |Expand(dests, ids)|
    ensures Expand(dests, ids)[q * |ids| + j] == AddIdentifier(dests[q], ids[j])
  {
    var n := |dests| - 1;
    ExpandLength(dests[..n], ids);
    if q < n {
      ExpandAt(dests[..n], ids, q, j);
    }
  }

  lemma {:induction false} ExpandOnly(dests: seq<string>, ids: seq<int>, p: nat) returns (q: nat, j: nat)
    requires p < |Expand(dests, ids)|
    ensures q < |dests| && j < |ids| && Expand(dests, ids)[p] == AddIdentifier(dests[q], ids[j])
  {
    q := |dests| - 1;
    var before := |Expand(dests[..q], ids)|;
    if p < before {
      q, j := ExpandOnly(dests[..q], ids, p);
    } else {
      j := p - before;
    }
  }

  /** One of the sub-clients 0 to n - 1 of some destination, or the destination itself
      if there is an original client. */
  predicate IsTarget(dests: seq<string>, original: bool, n: nat, s: string) {
    || (original && s in dests)
    || exists q: nat, id: nat :: q < |dests| && id < n && s == AddIdentifier(dests[q], id)
  }

  lemma AddressedIsTarget(dests: seq<string>, original: bool, n: nat, p: nat)
    requires p < |Expand(dests, SubClientIds(original, n))|
    ensures IsTarget(dests, original, n, Expand(dests, SubClientIds(original, n))[p])
  {
    var ids := SubClientIds(original, n);
    var q, j := ExpandOnly(dests, ids, p);
    if ids[j] >= 0 {
      var id: nat := ids[j];
      assert q < |dests| && id < n && Expand(dests, ids)[p] == AddIdentifier(dests[q], id);
    }
  }

  lemma {:induction false} ExpandContains(dests: seq<string>, ids: seq<int>, q: nat, j: nat)
    requires q < |dests| && j < |ids|
    ensures AddIdentifier(dests[q], ids[j]) in Expand(dests, ids)
  {
    var n := |dests| - 1;
    if q < n {
      ExpandContains(dests[..n], ids, q, j);
    } else {
      assert Block(dests[n], ids)[j] in Block(dests[n], ids);
    }
  }

  lemma TargetIsAddressed(dests: seq<string>, original: bool, n: nat, s: string)
    requires IsTarget(dests, original, n, s)
    ensures s in Expand(dests, SubClientIds(original, n))
  {
    var ids := SubClientIds(original, n);
    if original && s in dests {
      var q: nat :| q < |dests| && dests[q] == s;
      ExpandContains(dests, ids, q, 0);
    } else {
      var q: nat, id: nat :| q < |dests| && id < n && s == AddIdentifier(dests[q], id);
      ExpandContains(dests, ids, q, if original then id + 1 else id);
    }
  }

  /** Cross send addresses exactly those, for any destinations. */
  lemma CrossSendExactly(dests: seq<string>, original: bool, n: nat, s: string)
    ensures s in Expand(dests, SubClientIds(original, n)) <==> IsTarget(dests, original, n, s)
  {
    if s in Expand(dests, SubClientIds(original, n)) {
      var p: nat :| p < |Expand(dests, SubClientIds(original, n))| && Expand(dests, SubClientIds(original, n))[p] == s;
      AddressedIsTarget(dests, original, n, p);
    }
    if IsTarget(dests, original, n, s) {
      TargetIsAddressed(dests, original, n, s);
    }
  }
}
