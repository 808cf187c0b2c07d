/** From payloads to websocket frames: sendTimeout's batches, the signed metadata of
    newOutboundMessage and the writes. Parsing an address and whether the node's
    keys decode are arguments; a signature is the metadata it was computed over. */
module Outbound {
  import opened Wrappers
  import opened Batching

  const MAX_CLIENT_MESSAGE_SIZE: nat := 4000000
  const SIGNATURE_SIZE: nat := 64

  datatype Error = ErrMessageOversize | ErrBuild | ErrMarshal | ErrWrite

  datatype Identity = Identity(id: Bytes, pubKey: Bytes)
  datatype Signature = Signature(dest: Identity, dataSize: int)

  datatype Keys = Keys(nodeOk: bool, parse: string -> Option<Identity>)

  datatype Message = Message(dests: seq<string>, plds: seq<Bytes>, signatures: seq<Signature>)

  predicate Buildable(keys: Keys, dests: seq<string>) {
    keys.nodeOk && forall i :: 0 <= i < |dests| ==> keys.parse(dests[i]).Some?
  }

  /** Which of the payloads is meant for destination i: its own, or the only one. */
  function Received(plds: seq<Bytes>, i: nat): Bytes
    requires plds != [] && (|plds| > 1 ==> i < |plds|)
  {
    if |plds| > 1 then plds[i] else plds[0]
  }

  /** One signature per destination, in order, over the size of what it receives. */
  predicate Signed(keys: Keys, m: Message) {
    && |m.signatures| == |m.dests|
    && m.plds != [] && (|m.plds| > 1 ==> |m.dests| == |m.plds|)
    && forall i :: 0 <= i < |m.dests| ==>
         && keys.parse(m.dests[i]).Some?
         && m.signatures[i] == Signature(keys.parse(m.dests[i]).value, |Received(m.plds, i)| % 0x1_0000_0000)
  }

  method NewOutboundMessage(keys: Keys, dests: seq<string>, plds: seq<Bytes>) returns (r: Result<Message, Error>)
    requires plds != [] && (|plds| > 1 ==> |dests| == |plds|)
    ensures r.Ok? <==> Buildable(keys, dests)
    ensures r.Err? ==> r.error == ErrBuild
    ensures r.Ok? ==> r.value.dests == dests && r.value.plds == plds && Signed(keys, r.value)
  {
    if !keys.nodeOk {
      return Err(ErrBuild);
    }
    var signatures := [];
    for i := 0 to |dests|
      invariant |signatures| == i
      invariant forall k :: 0 <= k < i ==>
        && keys.parse(dests[k]).Some?
        && signatures[k] == Signature(keys.parse(dests[k]).value, |Received(plds, k)| % 0x1_0000_0000)
    {
      var identity := keys.parse(dests[i]);
      if identity.None? {
        return Err(ErrBuild);
      }
      var dataSize := if |plds| > 1 then |plds[i]| else |plds[0]|;
      signatures := signatures + [Signature(identity.value, dataSize % 0x1_0000_0000)];
    }
    return Ok(Message(dests, plds, signatures));
  }

  // -------------------------------------------------------------- batches

  function SizeOf(dest: string, pld: Bytes): nat {
    |pld| + |dest| + SIGNATURE_SIZE
  }

  function Sizes(dests: seq<string>, plds: seq<Bytes>): (s: seq<nat>)
    requires |dests| == |plds|
    ensures |s| == |dests|
  {
    seq(|plds|, i requires 0 <= i < |plds| => SizeOf(dests[i], plds[i]))
  }

  function BatchSize(dests: seq<string>, plds: seq<Bytes>): nat
    requires |dests| == |plds|
  {
    if dests == [] then 0
    else var n := |dests| - 1; BatchSize(dests[..n], plds[..n]) + SizeOf(dests[n], plds[n])
  }

  function AllDests(ms: seq<Message>): seq<string> {
    if ms == [] then [] else AllDests(ms[..|ms| - 1]) + ms[|ms| - 1].dests
  }

  function AllPlds(ms: seq<Message>): seq<Bytes> {
    if ms == [] then [] else AllPlds(ms[..|ms| - 1]) + ms[|ms| - 1].plds
  }

  function AllSignatures(ms: seq<Message>): seq<Signature> {
    if ms == [] then [] else AllSignatures(ms[..|ms| - 1]) + ms[|ms| - 1].signatures
  }

  /** A batch of pairs: not empty, below the limit and signed. */
  predicate GoodBatch(keys: Keys, m: Message) {
    && m.dests != [] && |m.dests| == |m.plds|
    && BatchSize(m.dests, m.plds) <= MAX_CLIENT_MESSAGE_SIZE
    && Signed(keys, m)
  }

  /** The batches are the input, in order, cut into as few pieces as greedy cutting gives. */
  predicate SplitOf(keys: Keys, dests: seq<string>, plds: seq<Bytes>, ms: seq<Message>)
    requires |dests| == |plds|
  {
    && AllDests(ms) == dests && AllPlds(ms) == plds
    && (forall i :: 0 <= i < |ms| ==> GoodBatch(keys, ms[i]))
    && |ms| == Greedy(0, Sizes(dests, plds), MAX_CLIENT_MESSAGE_SIZE)
  }

  lemma BatchSizeAppend(dests: seq<string>, plds: seq<Bytes>, d: string, p: Bytes)
    requires |dests| == |plds|
    ensures BatchSize(dests + [d], plds + [p]) == BatchSize(dests, plds) + SizeOf(d, p)
  {
    assert (dests + [d])[..|dests|] == dests && (plds + [p])[..|plds|] == plds;
  }

  /** The size of a batch is the sum of its items' sizes. */
  lemma {:induction false} BatchSizeIsSum(dests: seq<string>, plds: seq<Bytes>)
    requires |dests| == |plds|
    ensures BatchSize(dests, plds) == Sum(Sizes(dests, plds))
  {
    if dests != [] {
      var n := |dests| - 1;
      BatchSizeIsSum(dests[..n], plds[..n]);
      SumAppend(Sizes(dests[..n], plds[..n]), SizeOf(dests[n], plds[n]));
      assert Sizes(dests, plds) == Sizes(dests[..n], plds[..n]) + [SizeOf(dests[n], plds[n])];
    }
  }

  /** After i items: the closed batches and the open one are the input so far, and
      greedy cutting of the rest leads to the same number of batches. */
  predicate Progress(keys: Keys, dests: seq<string>, plds: seq<Bytes>, i: nat, ms: seq<Message>,
                     destList: seq<string>, pldList: seq<Bytes>, totalSize: nat)
    requires |dests| == |plds|
  {
    && i <= |plds| && |destList| == |pldList|
    && AllDests(ms) + destList == dests[..i] && AllPlds(ms) + pldList == plds[..i]
    && (forall k :: 0 <= k < |ms| ==> GoodBatch(keys, ms[k]))
    && totalSize == BatchSize(destList, pldList) <= MAX_CLIENT_MESSAGE_SIZE
    && var sizes := Sizes(dests, plds);
       |ms| + Greedy(totalSize, sizes[i..], MAX_CLIENT_MESSAGE_SIZE) == Greedy(0, sizes, MAX_CLIENT_MESSAGE_SIZE)
  }

  lemma PushItem(keys: Keys, dests: seq<string>, plds: seq<Bytes>, i: nat, ms: seq<Message>,
                 destList: seq<string>, pldList: seq<Bytes>, totalSize: nat)
    requires |dests| == |plds| && i < |plds|
    requires Progress(keys, dests, plds, i, ms, destList, pldList, totalSize)
    requires totalSize + SizeOf(dests[i], plds[i]) <= MAX_CLIENT_MESSAGE_SIZE
    ensures Progress(keys, dests, plds, i + 1, ms, destList + [dests[i]], pldList + [plds[i]],
                     totalSize + SizeOf(dests[i], plds[i]))
  {
    var sizes := Sizes(dests, plds);
    assert sizes[i] == SizeOf(dests[i], plds[i]) && sizes[i..][1..] == sizes[i + 1..];
    BatchSizeAppend(destList, pldList, dests[i], plds[i]);
    assert dests[..i + 1] == dests[..i] + [dests[i]] && plds[..i + 1] == plds[..i] + [plds[i]];
  }

  lemma CutBatch(keys: Keys, dests: seq<string>, plds: seq<Bytes>, i: nat, ms: seq<Message>,
                 m: Message, totalSize: nat)
    requires |dests| == |plds| && i < |plds| && |m.dests| == |m.plds|
    requires Progress(keys, dests, plds, i, ms, m.dests, m.plds, totalSize) && GoodBatch(keys, m)
    requires SizeOf(dests[i], plds[i]) <= MAX_CLIENT_MESSAGE_SIZE < totalSize + SizeOf(dests[i], plds[i])
    ensures Progress(keys, dests, plds, i, ms + [m], [], [], 0)
  {
    var sizes := Sizes(dests, plds);
    assert sizes[i..][0] == SizeOf(dests[i], plds[i]);
    AppendMessage(ms, m);
    assert AllDests(ms + [m]) + [] == dests[..i] && AllPlds(ms + [m]) + [] == plds[..i];
  }

  lemma AppendMessage(ms: seq<Message>, m: Message)
    ensures AllDests(ms + [m]) == AllDests(ms) + m.dests
    ensures AllPlds(ms + [m]) == AllPlds(ms) + m.plds
    ensures AllSignatures(ms + [m]) == AllSignatures(ms) + m.signatures
  {
    assert (ms + [m])[..|ms|] == ms;
  }

  lemma {:induction false} DestsBuildable(keys: Keys, ms: seq<Message>)
    requires keys.nodeOk && forall k :: 0 <= k < |ms| ==> GoodBatch(keys, ms[k])
    ensures Buildable(keys, AllDests(ms))
  {
    if ms != [] {
      DestsBuildable(keys, ms[..|ms| - 1]);
    }
  }

  lemma SubBuildable(keys: Keys, dests: seq<string>, i: nat, before: seq<string>, part: seq<string>)
    requires Buildable(keys, dests) && i <= |dests| && before + part == dests[..i]
    ensures Buildable(keys, part)
  {
    assert forall k :: 0 <= k < |part| ==> part[k] == (before + part)[|before| + k] == dests[|before| + k];
  }

  lemma FinishSplit(keys: Keys, dests: seq<string>, plds: seq<Bytes>, ms: seq<Message>, m: Message, totalSize: nat)
    requires |dests| == |plds| && |m.dests| == |m.plds| && keys.nodeOk
    requires Progress(keys, dests, plds, |plds|, ms, m.dests, m.plds, totalSize) && GoodBatch(keys, m)
    ensures SplitOf(keys, dests, plds, ms + [m]) && Buildable(keys, dests)
  {
    AppendMessage(ms, m);
    assert dests[..|plds|] == dests && plds[..|plds|] == plds;
    assert Sizes(dests, plds)[|plds|..] == [];
    DestsBuildable(keys, ms + [m]);
  }

  /** One item of the loop: refused if it is too large by itself, put into a new batch
      if the open one would overflow, and otherwise added to the open one. */
  method AddItem(keys: Keys, dests: seq<string>, plds: seq<Bytes>, i: nat, ms: seq<Message>,
                 destList: seq<string>, pldList: seq<Bytes>, totalSize: nat)
    returns (error: Option<Error>, ms': seq<Message>, destList': seq<string>, pldList': seq<Bytes>, totalSize': nat)
    requires |dests| == |plds| && i < |plds| && (i > 0 ==> destList != [])
    requires Progress(keys, dests, plds, i, ms, destList, pldList, totalSize)
    ensures error.None? ==> Progress(keys, dests, plds, i + 1, ms', destList', pldList', totalSize') && destList' != []
    ensures error == Some(ErrMessageOversize) <==> |plds[i]| + |dests[i]| + 64 > 4000000
    ensures error.Some? ==> error.value == ErrMessageOversize || (error.value == ErrBuild && !Buildable(keys, dests))
  {
    error, ms', destList', pldList', totalSize' := None, ms, destList, pldList, totalSize;
    var size := SizeOf(dests[i], plds[i]);
    if size > MAX_CLIENT_MESSAGE_SIZE {
      error := Some(ErrMessageOversize);
      return;
    }
    if totalSize + size > MAX_CLIENT_MESSAGE_SIZE {
      var built := NewOutboundMessage(keys, destList, pldList);
      if built.Err? {
        NotBuildable(keys, dests, i, AllDests(ms), destList);
        error := Some(built.error);
        return;
      }
      CutBatch(keys, dests, plds, i, ms, built.value, totalSize);
      ms', destList', pldList', totalSize' := ms + [built.value], [], [], 0;
    }
    PushItem(keys, dests, plds, i, ms', destList', pldList', totalSize');
    destList' := destList' + [dests[i]];
    pldList' := pldList' + [plds[i]];
    totalSize' := totalSize' + size;
  }

  /** Signs the last open batch. */
  method CloseLast(keys: Keys, dests: seq<string>, plds: seq<Bytes>, ms: seq<Message>,
                   destList: seq<string>, pldList: seq<Bytes>, ghost totalSize: nat)
    returns (r: Result<seq<Message>, Error>)
    requires |dests| == |plds| && destList != []
    requires Progress(keys, dests, plds, |plds|, ms, destList, pldList, totalSize)
    ensures r.Ok? ==> SplitOf(keys, dests, plds, r.value) && Buildable(keys, dests)
    ensures r.Err? ==> r.error == ErrBuild && !Buildable(keys, dests)
  {
    var built := NewOutboundMessage(keys, destList, pldList);
    if built.Err? {
      NotBuildable(keys, dests, |plds|, AllDests(ms), destList);
      return Err(built.error);
    }
    FinishSplit(keys, dests, plds, ms, built.value, totalSize);
    return Ok(ms + [built.value]);
  }

  /** The branch for several payloads. It succeeds exactly if every address parses
      and no single item is too large; if all addresses parse, its only error is
      ErrMessageOversize. */
  method SplitPayloads(keys: Keys, dests: seq<string>, plds: seq<Bytes>) returns (r: Result<seq<Message>, Error>)
    requires |dests| == |plds| > 1
    ensures r.Ok? ==> SplitOf(keys, dests, plds, r.value) && Buildable(keys, dests)
    ensures r.Err? ==> r.error == ErrMessageOversize || (r.error == ErrBuild && !Buildable(keys, dests))
    ensures r == Err(ErrMessageOversize) ==> TooLarge(dests, plds)
    ensures TooLarge(dests, plds) ==> r.Err?
    ensures Buildable(keys, dests) ==> (r.Err? <==> exists i :: 0 <= i < |plds| && |plds[i]| + |dests[i]| + 64 > 4000000)
  {
    var ms: seq<Message> := [];
    var destList: seq<string>, pldList: seq<Bytes> := [], [];
    var totalSize: nat := 0;
    StartSplit(keys, dests, plds);
    for i := 0 to |plds|
      invariant Progress(keys, dests, plds, i, ms, destList, pldList, totalSize)
      invariant i > 0 ==> destList != []
      invariant forall k :: 0 <= k < i ==> SizeOf(dests[k], plds[k]) <= MAX_CLIENT_MESSAGE_SIZE
    {
      var error;
      error, ms, destList, pldList, totalSize := AddItem(keys, dests, plds, i, ms, destList, pldList, totalSize);
      if error.Some? {
        return Err(error.value);
      }
    }
    r := CloseLast(keys, dests, plds, ms, destList, pldList, totalSize);
  }

  predicate TooLarge(dests: seq<string>, plds: seq<Bytes>)
    requires |dests| == |plds|
  {
    exists i :: 0 <= i < |plds| && SizeOf(dests[i], plds[i]) > MAX_CLIENT_MESSAGE_SIZE
  }

  lemma StartSplit(keys: Keys, dests: seq<string>, plds: seq<Bytes>)
    requires |dests| == |plds|
    ensures Progress(keys, dests, plds, 0, [], [], [], 0)
  {
    assert Sizes(dests, plds)[0..] == Sizes(dests, plds);
  }

  lemma NotBuildable(keys: Keys, dests: seq<string>, i: nat, before: seq<string>, part: seq<string>)
    requires !Buildable(keys, part) && i <= |dests| && before + part == dests[..i]
    ensures !Buildable(keys, dests)
  {
    if Buildable(keys, dests) {
      SubBuildable(keys, dests, i, before, part);
      assert false;
    }
  }

  // ------------------------------------------------- one payload for all

  function SharedSize(dests: seq<string>): nat {
    if dests == [] then 0 else SharedSize(dests[..|dests| - 1]) + |dests[|dests| - 1]| + SIGNATURE_SIZE
  }

  predicate Oversize(dests: seq<string>, plds: seq<Bytes>)
    requires plds != [] && (|plds| > 1 ==> |dests| == |plds|)
  {
    if |plds| > 1 then TooLarge(dests, plds) else |plds[0]| + SharedSize(dests) > MAX_CLIENT_MESSAGE_SIZE
  }

  predicate Planned(keys: Keys, dests: seq<string>, plds: seq<Bytes>, ms: seq<Message>)
    requires plds != [] && (|plds| > 1 ==> |dests| == |plds|)
  {
    if |plds| > 1 then SplitOf(keys, dests, plds, ms)
    else |ms| == 1 && ms[0].dests == dests && ms[0].plds == plds && Signed(keys, ms[0])
  }

  /** All messages of one send, built before anything is written. If every address
      parses, it fails exactly when something is oversized. */
  method Plan(keys: Keys, dests: seq<string>, plds: seq<Bytes>) returns (r: Result<seq<Message>, Error>)
    requires plds != [] && (|plds| > 1 ==> |dests| == |plds|)
    ensures r.Ok? <==> Buildable(keys, dests) && !Oversize(dests, plds)
    ensures r.Ok? ==> Planned(keys, dests, plds, r.value)
    ensures r.Err? ==> r.error == ErrMessageOversize || (r.error == ErrBuild && !Buildable(keys, dests))
    ensures r == Err(ErrMessageOversize) ==> Oversize(dests, plds)
    ensures |plds| == 1 && Oversize(dests, plds) ==> r == Err(ErrMessageOversize)
  {
    if |plds| > 1 {
      r := SplitPayloads(keys, dests, plds);
      return;
    }
    var size := |plds[0]|;
    for i := 0 to |dests|
      invariant size == |plds[0]| + SharedSize(dests[..i])
    {
      assert dests[..i + 1][..i] == dests[..i];
      size := size + |dests[i]| + SIGNATURE_SIZE;
    }
    assert dests[..|dests|] == dests;
    if size > MAX_CLIENT_MESSAGE_SIZE {
      return Err(ErrMessageOversize);
    }
    var built := NewOutboundMessage(keys, dests, plds);
    if built.Err? {
      return Err(built.error);
    }
    return Ok([built.value]);
  }

  /** The websocket side of a client: frames written so far and failed writes. */
  class Connection {
    var frames: seq<Message>
    var sendFailures: nat

    /** The messages are marshalled and written one after the other. `k` of them get
        through before the send ends: at the end, at one that cannot be marshalled,
        or at a write that fails, which alone is counted. */
    method WriteAll(ms: seq<Message>, marshalOk: nat -> bool, writeOk: nat -> bool) returns (r: Option<Error>, k: nat)
      modifies this
      ensures k <= |ms| && frames == old(frames) + ms[..k]
      ensures forall i: nat :: i < k ==> marshalOk(i) && writeOk(i)
      ensures r == if k == |ms| then None
                   else if !marshalOk(k) then Some(ErrMarshal)
                   else Some(ErrWrite)
      ensures r == Some(ErrWrite) ==> !writeOk(k)
      ensures sendFailures == old(sendFailures) + if r == Some(ErrWrite) then 1 else 0
    {
      k := 0;
      while k < |ms|
        invariant k <= |ms| && frames == old(frames) + ms[..k] && sendFailures == old(sendFailures)
        invariant forall i: nat :: i < k ==> marshalOk(i) && writeOk(i)
      {
        if !marshalOk(k) {
          return Some(ErrMarshal), k;
        }
        if !writeOk(k) {
          sendFailures := sendFailures + 1;
          return Some(ErrWrite), k;
        }
        frames := frames + [ms[k]];
        k := k + 1;
      }
      r := None;
    }

    /** All batches are built, measured and signed before the first write, so an address
        that does not parse or an oversized message writes nothing; a message that
        cannot be marshalled, or a failed write, ends the send after the frames before it. */
    method SendTimeout(keys: Keys, dests: seq<string>, plds: seq<Bytes>, marshalOk: nat -> bool, writeOk: nat -> bool)
      returns (r: Result<nat, Error>, ms: seq<Message>, k: nat)
      requires dests != [] ==> plds != [] && (|plds| > 1 ==> |dests| == |plds|)
      modifies this
      ensures dests == [] ==> r.Ok? && ms == []
      ensures dests != [] ==> (ms != [] <==> Buildable(keys, dests) && !Oversize(dests, plds))
      ensures dests != [] && ms != [] ==> Planned(keys, dests, plds, ms)
      ensures dests != [] && ms == [] ==>
        r.Err? && (r.error == ErrMessageOversize || (r.error == ErrBuild && !Buildable(keys, dests)))
      ensures r == Err(ErrMessageOversize) ==> dests != [] && Oversize(dests, plds)
      ensures k <= |ms| && frames == old(frames) + ms[..k]
      ensures forall i: nat :: i < k ==> marshalOk(i) && writeOk(i)
      ensures ms != [] ==> r == if k == |ms| then Ok(k) else if !marshalOk(k) then Err(ErrMarshal) else Err(ErrWrite)
      ensures r == Err(ErrWrite) ==> !writeOk(k)
      ensures sendFailures == old(sendFailures) + if r == Err(ErrWrite) then 1 else 0
    {
      if dests == [] {
        return Ok(0), [], 0;
      }
      var planned := Plan(keys, dests, plds);
      if planned.Err? {
        return Err(planned.error), [], 0;
      }
      ms := planned.value;
      PlanNotEmpty(keys, dests, plds, ms);
      var failure: Option<Error>;
      failure, k := WriteAll(ms, marshalOk, writeOk);
      r := if failure.Some? then Err(failure.value) else Ok(k);
    }
  }

  lemma PlanNotEmpty(keys: Keys, dests: seq<string>, plds: seq<Bytes>, ms: seq<Message>)
    requires plds != [] && (|plds| > 1 ==> |dests| == |plds|) && Planned(keys, dests, plds, ms)
    ensures ms != []
  {
    if ms == [] {
      assert false;
    }
  }

  // --------------------------------------------------------- main results

  /** The item sizes of each batch. */
  function SizeLists(ms: seq<Message>): (parts: seq<seq<nat>>)
    requires forall i :: 0 <= i < |ms| ==> |ms[i].dests| == |ms[i].plds|
    ensures |parts| == |ms|
  {
    if ms == [] then []
    else SizeLists(ms[..|ms| - 1]) + [Sizes(ms[|ms| - 1].dests, ms[|ms| - 1].plds)]
  }

  lemma SizesConcat(dests: seq<string>, plds: seq<Bytes>, dests': seq<string>, plds': seq<Bytes>)
    requires |dests| == |plds| && |dests'| == |plds'|
    ensures Sizes(dests + dests', plds + plds') == Sizes(dests, plds) + Sizes(dests', plds')
  {
  }

  lemma {:induction false} BatchesAreSplit(keys: Keys, ms: seq<Message>)
    requires forall i :: 0 <= i < |ms| ==> GoodBatch(keys, ms[i])
    ensures forall i :: 0 <= i < |ms| ==> |ms[i].dests| == |ms[i].plds|
    ensures |AllDests(ms)| == |AllPlds(ms)|
    ensures Concat(SizeLists(ms)) == Sizes(AllDests(ms), AllPlds(ms))
    ensures Within(SizeLists(ms), MAX_CLIENT_MESSAGE_SIZE)
  {
    assert forall i :: 0 <= i < |ms| ==> GoodBatch(keys, ms[i]);
    if ms != [] {
      var init, m := ms[..|ms| - 1], ms[|ms| - 1];
      BatchesAreSplit(keys, init);
      ConcatAppend(SizeLists(init), Sizes(m.dests, m.plds));
      SizesConcat(AllDests(init), AllPlds(init), m.dests, m.plds);
      BatchSizeIsSum(m.dests, m.plds);
    }
  }

  /** The batches built are themselves a split of the input into consecutive batches
      below the limit, so their number is attained. */
  lemma MinimumIsAttained(keys: Keys, dests: seq<string>, plds: seq<Bytes>, ms: seq<Message>)
    requires |dests| == |plds| && SplitOf(keys, dests, plds, ms)
    ensures forall i :: 0 <= i < |ms| ==> |ms[i].dests| == |ms[i].plds|
    ensures Concat(SizeLists(ms)) == Sizes(dests, plds) && Within(SizeLists(ms), MAX_CLIENT_MESSAGE_SIZE)
    ensures |SizeLists(ms)| == |ms|
  {
    assert forall i :: 0 <= i < |ms| ==> GoodBatch(keys, ms[i]);
    BatchesAreSplit(keys, ms);
  }

  function TotalLength<T>(s: seq<seq<T>>): nat {
    if s == [] then 0 else TotalLength(s[..|s| - 1]) + |s[|s| - 1]|
  }

  /** What a message weighs: its payloads, its addresses and a signature of 64 bytes for
      each of them. */
  function Weight(m: Message): nat {
    TotalLength(m.plds) + TotalLength(m.dests) + 64 * |m.dests|
  }

  lemma {:induction false} BatchSizeMeans(dests: seq<string>, plds: seq<Bytes>)
    requires |dests| == |plds|
    ensures BatchSize(dests, plds) == TotalLength(plds) + TotalLength(dests) + 64 * |dests|
  {
    if dests != [] {
      BatchSizeMeans(dests[..|dests| - 1], plds[..|dests| - 1]);
    }
  }

  lemma {:induction false} SharedSizeMeans(dests: seq<string>)
    ensures SharedSize(dests) == TotalLength(dests) + 64 * |dests|
  {
    if dests != [] {
      SharedSizeMeans(dests[..|dests| - 1]);
    }
  }

  /** What is refused as oversized: one item by itself, or the one message for all. */
  lemma OversizeMeans(dests: seq<string>, plds: seq<Bytes>)
    requires plds != [] && (|plds| > 1 ==> |dests| == |plds|)
    ensures Oversize(dests, plds) <==>
      if |plds| > 1 then exists i :: 0 <= i < |plds| && |plds[i]| + |dests[i]| + 64 > 4000000
      else Weight(Message(dests, plds, [])) > 4000000
  {
    SharedSizeMeans(dests);
    assert plds[..0] == [] && TotalLength(plds[..0]) == 0;
    if |plds| > 1 && Oversize(dests, plds) {
      var i :| 0 <= i < |plds| && SizeOf(dests[i], plds[i]) > MAX_CLIENT_MESSAGE_SIZE;
      assert |plds[i]| + |dests[i]| + 64 > 4000000;
    }
  }

  /** No message of a send, batched or not, weighs more than 4000000 bytes. */
  lemma EveryMessageFits(keys: Keys, dests: seq<string>, plds: seq<Bytes>, ms: seq<Message>, k: nat)
    requires plds != [] && (|plds| > 1 ==> |dests| == |plds|)
    requires Planned(keys, dests, plds, ms) && !Oversize(dests, plds) && k < |ms|
    ensures Weight(ms[k]) <= 4000000
  {
    if |plds| > 1 {
      assert GoodBatch(keys, ms[k]);
      BatchSizeMeans(ms[k].dests, ms[k].plds);
    } else {
      OversizeMeans(dests, plds);
    }
  }

  /** No split of the input into consecutive batches below the limit is shorter. */
  lemma MinimalBatches(keys: Keys, dests: seq<string>, plds: seq<Bytes>, ms: seq<Message>, parts: seq<seq<nat>>)
    requires |dests| == |plds| > 1 && SplitOf(keys, dests, plds, ms)
    requires Concat(parts) == Sizes(dests, plds) && Within(parts, MAX_CLIENT_MESSAGE_SIZE)
    ensures |ms| <= |parts|
  {
    if parts == [] {
      assert false;
    }
    GreedyOptimal(parts, MAX_CLIENT_MESSAGE_SIZE);
  }

  /** Whatever the batching, destination j of the whole send is covered by exactly
      one signature, the j-th, over its identity and the true length of the
      payload made for it. */
  lemma {:induction false} SignaturesMatchRouting(keys: Keys, dests: seq<string>, plds: seq<Bytes>,
                                                  ms: seq<Message>, j: nat)
    requires plds != [] && (|plds| > 1 ==> |dests| == |plds|)
    requires Planned(keys, dests, plds, ms) && !Oversize(dests, plds) && j < |dests|
    ensures |AllSignatures(ms)| == |dests|
    ensures keys.parse(dests[j]).Some?
    ensures AllSignatures(ms)[j] == Signature(keys.parse(dests[j]).value, |Received(plds, j)|)
  {
    if |plds| > 1 {
      BatchSignatures(keys, ms);
      assert CoveredAt(keys, dests, plds, AllSignatures(ms), j);
      NotTruncated(dests[j], plds[j]);
    } else {
      SingleSignature(ms[0]);
      assert ms == [ms[0]];
      assert ms[0].signatures[j] == Signature(keys.parse(dests[j]).value, |Received(plds, j)| % 0x1_0000_0000);
    }
  }

  lemma NotTruncated(dest: string, pld: Bytes)
    requires SizeOf(dest, pld) <= MAX_CLIENT_MESSAGE_SIZE
    ensures |pld| % 0x1_0000_0000 == |pld|
  {
  }

  lemma SingleSignature(m: Message)
    ensures AllSignatures([m]) == m.signatures
  {
    AppendMessage([], m);
    assert [] + [m] == [m];
  }

  predicate CoveredAt(keys: Keys, dests: seq<string>, plds: seq<Bytes>, signatures: seq<Signature>, j: nat) {
    && j < |dests| && j < |plds| && j < |signatures| && keys.parse(dests[j]).Some?
    && signatures[j] == Signature(keys.parse(dests[j]).value, |plds[j]| % 0x1_0000_0000)
  }

  predicate Covered(keys: Keys, dests: seq<string>, plds: seq<Bytes>, signatures: seq<Signature>) {
    && |dests| == |plds| == |signatures|
    && forall j :: 0 <= j < |dests| ==> CoveredAt(keys, dests, plds, signatures, j)
  }

  lemma {:induction false} BatchSignatures(keys: Keys, ms: seq<Message>)
    requires forall k :: 0 <= k < |ms| ==> GoodBatch(keys, ms[k])
    ensures Covered(keys, AllDests(ms), AllPlds(ms), AllSignatures(ms))
  {
    if ms != [] {
      var init, m := ms[..|ms| - 1], ms[|ms| - 1];
      BatchSignatures(keys, init);
      var n := |AllDests(init)|;
      forall j | 0 <= j < |AllDests(ms)|
        ensures CoveredAt(keys, AllDests(ms), AllPlds(ms), AllSignatures(ms), j)
      {
        if j < n {
          assert CoveredAt(keys, AllDests(init), AllPlds(init), AllSignatures(init), j);
        } else {
          assert AllDests(ms)[j] == m.dests[j - n] && AllPlds(ms)[j] == m.plds[j - n];
          assert AllSignatures(ms)[j] == m.signatures[j - n];
          assert |Received(m.plds, j - n)| == |m.plds[j - n]|;
        }
      }
    }
  }
}
