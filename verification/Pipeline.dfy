/** The outbound pipeline end to end: payload construction, batching and what each
    destination of each written message can make of its payload. */
module Pipeline {
  import opened Wrappers
  import E = Encryption
  import O = Outbound

  /** newPayloads: one sealed message per destination, or one plain message for all. */
  function NewPayloads(c: E.Crypto, secret: Bytes, raw: Bytes, dests: seq<string>, encrypted: bool, draws: E.Draws)
    : Result<seq<Bytes>, E.Error>
    requires dests != []
  {
    if encrypted then E.EncryptPayload(c, secret, raw, dests, draws)
    else Ok([c.marshal(E.Envelope(raw, false, [], []))])
  }

  /** What a client makes of a received message. */
  function Read(c: E.Crypto, secret: Bytes, allowPlain: bool, message: Bytes, src: string): Result<Bytes, E.Error> {
    var e := c.unmarshal(message);
    if e.None? then Err(E.ErrParse)
    else if e.value.encrypted then E.DecryptPayload(c, secret, e.value, src)
    else if allowPlain then Ok(e.value.payload)
    else Err(E.ErrUnencryptedMessage)
  }

  /** The number of payloads is what the batching code relies on. */
  lemma PayloadCount(c: E.Crypto, secret: Bytes, raw: Bytes, dests: seq<string>, encrypted: bool, draws: E.Draws)
    requires dests != [] && NewPayloads(c, secret, raw, dests, encrypted, draws).Ok?
    ensures |NewPayloads(c, secret, raw, dests, encrypted, draws).value| == if encrypted then |dests| else 1
  {
    if encrypted && |dests| > 1 {
      var key, nonce := draws.key.value, draws.nonce.value;
      E.SealAllAt(c, secret, c.seal(raw, nonce, key), nonce, key, dests, draws.keyNonces, |dests|, 0);
    }
  }

  /** Position i of batch k is some position j of the whole send. */
  lemma {:induction false} Locate(ms: seq<O.Message>, k: nat, i: nat) returns (j: nat)
    requires forall m :: 0 <= m < |ms| ==> |ms[m].dests| == |ms[m].plds|
    requires k < |ms| && i < |ms[k].dests|
    ensures |O.AllDests(ms)| == |O.AllPlds(ms)| && j < |O.AllDests(ms)|
    ensures O.AllDests(ms)[j] == ms[k].dests[i] && O.AllPlds(ms)[j] == ms[k].plds[i]
  {
    var init := ms[..|ms| - 1];
    SameCount(init);
    if k == |ms| - 1 {
      j := |O.AllDests(init)| + i;
    } else {
      j := Locate(init, k, i);
    }
  }

  lemma {:induction false} SameCount(ms: seq<O.Message>)
    requires forall m :: 0 <= m < |ms| ==> |ms[m].dests| == |ms[m].plds|
    ensures |O.AllDests(ms)| == |O.AllPlds(ms)|
  {
    if ms != [] {
      SameCount(ms[..|ms| - 1]);
    }
  }

  lemma LocateInSplit(keys: O.Keys, dests: seq<string>, plds: seq<Bytes>, ms: seq<O.Message>, k: nat, i: nat)
    returns (j: nat)
    requires |dests| == |plds| && O.SplitOf(keys, dests, plds, ms) && k < |ms| && i < |ms[k].dests|
    ensures |ms[k].plds| == |ms[k].dests| && j < |dests|
    ensures dests[j] == ms[k].dests[i] && plds[j] == O.Received(ms[k].plds, i)
  {
    assert forall m :: 0 <= m < |ms| ==> O.GoodBatch(keys, ms[m]);
    j := Locate(ms, k, i);
  }

  predicate Owns(c: E.Crypto, addr: string, secret: Bytes) {
    c.parse(addr).Some? && c.pair(c.parse(addr).value, secret)
  }

  /** For every payload, every non-empty list of destinations, encrypted or not, and
      however it is batched: the payload that the node hands to destination i of
      message k is read by that destination as exactly what was sent, unless it
      is plain and the destination refuses plain messages. */
  lemma {:induction false} EveryDestinationReads(c: E.Crypto, secret: Bytes, src: string, raw: Bytes, dests: seq<string>,
                                                 encrypted: bool, draws: E.Draws, keys: O.Keys, ms: seq<O.Message>,
                                                 k: nat, i: nat, secret': Bytes, allowPlain: bool)
    requires E.Lawful(c) && dests != [] && Owns(c, src, secret)
    requires NewPayloads(c, secret, raw, dests, encrypted, draws).Ok?
    requires var plds := NewPayloads(c, secret, raw, dests, encrypted, draws).value;
      plds != [] && (|plds| > 1 ==> |dests| == |plds|) && O.Planned(keys, dests, plds, ms)
    requires k < |ms| && i < |ms[k].dests| && Owns(c, ms[k].dests[i], secret')
    ensures ms[k].plds != [] && (|ms[k].plds| > 1 ==> i < |ms[k].plds|)
    ensures Read(c, secret', allowPlain, O.Received(ms[k].plds, i), src)
            == if encrypted || allowPlain then Ok(raw) else Err(E.ErrUnencryptedMessage)
  {
    var plds := NewPayloads(c, secret, raw, dests, encrypted, draws).value;
    PayloadCount(c, secret, raw, dests, encrypted, draws);
    if |plds| > 1 {
      var j := LocateInSplit(keys, dests, plds, ms, k, i);
      E.RoundTrip(c, secret, src, raw, dests, draws, j, secret');
      ReadsSealed(c, secret', allowPlain, raw, plds[j], src);
    } else if encrypted {
      assert ms[k].dests == dests && ms[k].plds == plds;
      E.RoundTrip(c, secret, src, raw, dests, draws, 0, secret');
      ReadsSealed(c, secret', allowPlain, raw, plds[0], src);
    }
  }

  /** A message that decrypts to raw is read as raw: an envelope marked plain never
      comes out of encryption. */
  lemma ReadsSealed(c: E.Crypto, secret: Bytes, allowPlain: bool, raw: Bytes, message: Bytes, src: string)
    requires c.unmarshal(message).Some? && c.unmarshal(message).value.encrypted
    requires E.DecryptPayload(c, secret, c.unmarshal(message).value, src) == Ok(raw)
    ensures Read(c, secret, allowPlain, message, src) == Ok(raw)
  {
  }

  /** Signing and encryption parse addresses with the same ParseClientAddress. */
  ghost predicate SameParser(keys: O.Keys, c: E.Crypto) {
    forall addr ::
      && (keys.parse(addr).Some? <==> c.parse(addr).Some?)
      && (keys.parse(addr).Some? ==> keys.parse(addr).value.pubKey == c.parse(addr).value)
  }

  /** Encrypted payloads can always be put into a message: addresses that do not parse
      were refused before. */
  lemma SealedIsBuildable(c: E.Crypto, secret: Bytes, raw: Bytes, dests: seq<string>, draws: E.Draws, keys: O.Keys)
    requires dests != [] && SameParser(keys, c)
    requires NewPayloads(c, secret, raw, dests, true, draws).Ok?
    ensures O.Buildable(keys, dests) <==> keys.nodeOk
  {
    E.EncryptionSucceeds(c, secret, raw, dests, draws);
    forall i | 0 <= i < |dests|
      ensures keys.parse(dests[i]).Some?
    {
      assert E.SharedKeyOf(c, secret, dests[i]).Ok?;
    }
  }

  /** The public key that signature i of message k names is the reader's own. */
  lemma {:induction false} SignedForReader(c: E.Crypto, dests: seq<string>, plds: seq<Bytes>, keys: O.Keys,
                                           ms: seq<O.Message>, k: nat, i: nat, secret': Bytes)
    requires SameParser(keys, c)
    requires plds != [] && (|plds| > 1 ==> |dests| == |plds|) && O.Planned(keys, dests, plds, ms)
    requires k < |ms| && i < |ms[k].dests| && Owns(c, ms[k].dests[i], secret')
    ensures i < |ms[k].signatures| && c.pair(ms[k].signatures[i].dest.pubKey, secret')
  {
    if |plds| > 1 {
      assert O.GoodBatch(keys, ms[k]);
    }
    assert O.Signed(keys, ms[k]);
  }

  /** What a client reads, and from what: a plain message only if it allows those, an
      encrypted one only if it opens under the sender's key. */
  lemma ReadsExactly(c: E.Crypto, secret: Bytes, allowPlain: bool, message: Bytes, src: string, raw: Bytes)
    ensures Read(c, secret, allowPlain, message, src) == Ok(raw) <==>
      && c.unmarshal(message).Some?
      && var e := c.unmarshal(message).value;
         if e.encrypted then exists shared: E.Key :: E.HasKey(c, secret, src, shared) && E.Opens(c, e, shared, raw)
         else allowPlain && e.payload == raw
  {
    if c.unmarshal(message).Some? {
      E.DecryptsExactly(c, secret, c.unmarshal(message).value, src, raw);
    }
  }
}
