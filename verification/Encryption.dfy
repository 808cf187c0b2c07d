/** Payload encryption: the shared-key memo, the single-key and the hybrid format,
    and decryption. The cryptographic primitives, address parsing and message
    marshalling are functions given in `Crypto`; `Lawful` states what is taken
    from them. Random draws are arguments, `None` standing for a failed read. */
module Encryption {
  import opened Wrappers

  const NONCE_SIZE: nat := 24
  const SHARED_KEY_SIZE: nat := 32
  const PUBLIC_KEY_SIZE: nat := 32
  const OVERHEAD: nat := 16

  type Nonce = b: Bytes | |b| == NONCE_SIZE witness seq(24, _ => 0)
  type Key = b: Bytes | |b| == SHARED_KEY_SIZE witness seq(32, _ => 0)

  datatype Error = ErrParse | ErrInvalidPubkeySize | ErrInvalidPubkey | ErrRandom | ErrDecryptFailed | ErrUnencryptedMessage | Panic

  datatype Envelope = Envelope(payload: Bytes, encrypted: bool, nonce: Bytes, encryptedKey: Bytes)

  datatype Crypto = Crypto(
    seal: (Bytes, Nonce, Key) -> Bytes,
    open: (Bytes, Nonce, Key) -> Option<Bytes>,
    toCurve: Bytes -> Option<Bytes>,
    precompute: (Bytes, Bytes) -> Key,
    pair: (Bytes, Bytes) -> bool,
    parse: string -> Option<Bytes>,
    marshal: Envelope -> Bytes,
    unmarshal: Bytes -> Option<Envelope>)

  /** Open inverts seal, unmarshal inverts marshal, and the two ends of a pair of
      key pairs compute the same shared key. */
  ghost predicate Lawful(c: Crypto) {
    && (forall m: Bytes, n: Nonce, k: Key :: c.open(c.seal(m, n, k), n, k) == Some(m))
    && (forall m: Bytes, n: Nonce, k: Key :: |c.seal(m, n, k)| == |m| + OVERHEAD)
    && (forall e: Envelope :: c.unmarshal(c.marshal(e)) == Some(e))
    && (forall pk: Bytes, sk: Bytes :: c.pair(pk, sk) ==> |pk| == PUBLIC_KEY_SIZE && c.toCurve(pk).Some?)
    && (forall pk: Bytes, sk: Bytes, pk': Bytes, sk': Bytes :: c.pair(pk, sk) && c.pair(pk', sk') ==>
          c.precompute(c.toCurve(pk').value, sk) == c.precompute(c.toCurve(pk).value, sk'))
  }

  /** The shared key computed from scratch. */
  function SharedKey(c: Crypto, secret: Bytes, pk: Bytes): Result<Key, Error> {
    if |pk| != PUBLIC_KEY_SIZE then Err(ErrInvalidPubkeySize)
    else var curve := c.toCurve(pk);
         if curve.None? then Err(ErrInvalidPubkey) else Ok(c.precompute(curve.value, secret))
  }

  function SharedKeyOf(c: Crypto, secret: Bytes, addr: string): Result<Key, Error> {
    var pk := c.parse(addr);
    if pk.None? then Err(ErrParse) else SharedKey(c, secret, pk.value)
  }

  // ----------------------------------------------------------- encryption

  datatype Draws = Draws(key: Option<Key>, nonce: Option<Nonce>, keyNonces: nat -> Option<Nonce>)

  /** Copy into a fixed-size zeroed buffer. */
  function Fixed(n: nat, b: Bytes): (r: Bytes)
    ensures |r| == n && forall i :: 0 <= i < n ==> r[i] == if i < |b| then b[i] else 0
  {
    if |b| >= n then b[..n] else b + seq(n - |b|, _ => 0)
  }

  function SealFor(c: Crypto, secret: Bytes, sealed: Bytes, nonce: Nonce, key: Key, dest: string, keyNonce: Option<Nonce>)
    : Result<Bytes, Error>
  {
    var shared := SharedKeyOf(c, secret, dest);
    if shared.Err? then Err(shared.error)
    else if keyNonce.None? then Err(ErrRandom)
    else Ok(c.marshal(Envelope(sealed, true, keyNonce.value + nonce, c.seal(key, keyNonce.value, shared.value))))
  }

  /** The messages for the first n destinations in the hybrid format, or the first error. */
  function SealAll(c: Crypto, secret: Bytes, sealed: Bytes, nonce: Nonce, key: Key, dests: seq<string>,
                   keyNonces: nat -> Option<Nonce>, n: nat): Result<seq<Bytes>, Error>
    requires n <= |dests|
  {
    if n == 0 then Ok([])
    else
      var before := SealAll(c, secret, sealed, nonce, key, dests, keyNonces, n - 1);
      if before.Err? then before
      else
        var m := SealFor(c, secret, sealed, nonce, key, dests[n - 1], keyNonces(n - 1));
        if m.Err? then Err(m.error) else Ok(before.value + [m.value])
  }

  function EncryptPayload(c: Crypto, secret: Bytes, raw: Bytes, dests: seq<string>, draws: Draws): Result<seq<Bytes>, Error>
    requires dests != []
  {
    if |dests| > 1 then
      if draws.key.None? || draws.nonce.None? then Err(ErrRandom)
      else SealAll(c, secret, c.seal(raw, draws.nonce.value, draws.key.value), draws.nonce.value, draws.key.value,
                   dests, draws.keyNonces, |dests|)
    else
      var shared := SharedKeyOf(c, secret, dests[0]);
      if shared.Err? then Err(shared.error)
      else if draws.nonce.None? then Err(ErrRandom)
      else Ok([c.marshal(Envelope(c.seal(raw, draws.nonce.value, shared.value), true, draws.nonce.value, []))])
  }

  // ----------------------------------------------------------- decryption

  /** Allocating a buffer for a message shorter than the overhead is a panic. */
  function Decrypt(c: Crypto, message: Bytes, nonce: Nonce, key: Key): Result<Bytes, Error> {
    if |message| < OVERHEAD then Err(Panic)
    else var m := c.open(message, nonce, key);
         if m.None? then Err(ErrDecryptFailed) else Ok(m.value)
  }

  function DecryptHybrid(c: Crypto, e: Envelope, shared: Key): Result<Bytes, Error> {
    if |e.nonce| < NONCE_SIZE then Err(Panic)
    else
      var key := Decrypt(c, e.encryptedKey, e.nonce[..NONCE_SIZE], shared);
      if key.Err? then key
      else Decrypt(c, e.payload, Fixed(NONCE_SIZE, e.nonce[NONCE_SIZE..]), Fixed(SHARED_KEY_SIZE, key.value))
  }

  /** The nonce is sliced before the shared key is looked up, so a short nonce
      panics whatever the key. */
  function DecryptPayload(c: Crypto, secret: Bytes, e: Envelope, src: string): Result<Bytes, Error> {
    if c.parse(src).None? then Err(ErrParse)
    else if |e.encryptedKey| > 0 && |e.nonce| < NONCE_SIZE then Err(Panic)
    else
      var shared := SharedKeyOf(c, secret, src);
      if shared.Err? then Err(shared.error)
      else if |e.encryptedKey| > 0 then DecryptHybrid(c, e, shared.value)
      else Decrypt(c, e.payload, Fixed(NONCE_SIZE, e.nonce), shared.value)
  }

  // --------------------------------------------------------------- client

  class Client {
    const crypto: Crypto
    const curveSecretKey: Bytes
    var sharedKeys: map<Bytes, Key>

    /** The memo agrees with computing the key again. */
    ghost predicate MemoOk()
      reads this
    {
      forall pk :: pk in sharedKeys ==> SharedKey(crypto, curveSecretKey, pk) == Ok(sharedKeys[pk])
    }

    constructor (crypto: Crypto, curveSecretKey: Bytes)
      ensures this.crypto == crypto && this.curveSecretKey == curveSecretKey && MemoOk()
    {
      this.crypto := crypto;
      this.curveSecretKey := curveSecretKey;
      sharedKeys := map[];
    }

    /** The lookup comes before the size check; the answer is the same. */
    method GetOrComputeSharedKey(pk: Bytes) returns (r: Result<Key, Error>)
      requires MemoOk()
      modifies this
      ensures MemoOk()
      ensures r == SharedKey(crypto, curveSecretKey, pk)
      ensures sharedKeys == if r.Ok? then old(sharedKeys)[pk := r.value] else old(sharedKeys)
    {
      if pk in sharedKeys {
        assert sharedKeys == sharedKeys[pk := sharedKeys[pk]];
        return Ok(sharedKeys[pk]);
      }
      if |pk| != PUBLIC_KEY_SIZE {
        return Err(ErrInvalidPubkeySize);
      }
      var curve := crypto.toCurve(pk);
      if curve.None? {
        return Err(ErrInvalidPubkey);
      }
      var shared := crypto.precompute(curve.value, curveSecretKey);
      sharedKeys := sharedKeys[pk := shared];
      return Ok(shared);
    }

    method KeyFor(addr: string) returns (r: Result<Key, Error>)
      requires MemoOk()
      modifies this
      ensures MemoOk()
      ensures r == SharedKeyOf(crypto, curveSecretKey, addr)
    {
      var pk := crypto.parse(addr);
      if pk.None? {
        return Err(ErrParse);
      }
      r := GetOrComputeSharedKey(pk.value);
    }

    /** One payload key for all destinations, sealed for each of them. */
    method EncryptHybrid(sealed: Bytes, nonce: Nonce, key: Key, dests: seq<string>, keyNonces: nat -> Option<Nonce>)
      returns (r: Result<seq<Bytes>, Error>)
      requires MemoOk()
      modifies this
      ensures MemoOk()
      ensures r == SealAll(crypto, curveSecretKey, sealed, nonce, key, dests, keyNonces, |dests|)
    {
      var msgs: seq<Bytes> := [];
      for i := 0 to |dests|
        invariant MemoOk()
        invariant Ok(msgs) == SealAll(crypto, curveSecretKey, sealed, nonce, key, dests, keyNonces, i)
      {
        var one := SealOne(sealed, nonce, key, dests[i], keyNonces(i));
        SealNext(crypto, curveSecretKey, sealed, nonce, key, dests, keyNonces, i, msgs, one);
        if one.Err? {
          return Err(one.error);
        }
        msgs := msgs + [one.value];
      }
      return Ok(msgs);
    }

    method SealOne(sealed: Bytes, nonce: Nonce, key: Key, dest: string, keyNonce: Option<Nonce>)
      returns (r: Result<Bytes, Error>)
      requires MemoOk()
      modifies this
      ensures MemoOk()
      ensures r == SealFor(crypto, curveSecretKey, sealed, nonce, key, dest, keyNonce)
    {
      var shared := KeyFor(dest);
      if shared.Err? {
        return Err(shared.error);
      }
      if keyNonce.None? {
        return Err(ErrRandom);
      }
      var encryptedKey := crypto.seal(key, keyNonce.value, shared.value);
      var bothNonces: Bytes := keyNonce.value;
      bothNonces := bothNonces + nonce;
      return Ok(crypto.marshal(Envelope(sealed, true, bothNonces, encryptedKey)));
    }

    method Encrypt(raw: Bytes, dests: seq<string>, draws: Draws) returns (r: Result<seq<Bytes>, Error>)
      requires MemoOk() && dests != []
      modifies this
      ensures MemoOk()
      ensures r == EncryptPayload(crypto, curveSecretKey, raw, dests, draws)
    {
      if |dests| > 1 {
        if draws.key.None? || draws.nonce.None? {
          return Err(ErrRandom);
        }
        var sealed := crypto.seal(raw, draws.nonce.value, draws.key.value);
        r := EncryptHybrid(sealed, draws.nonce.value, draws.key.value, dests, draws.keyNonces);
        return;
      }
      var shared := KeyFor(dests[0]);
      if shared.Err? {
        return Err(shared.error);
      }
      if draws.nonce.None? {
        return Err(ErrRandom);
      }
      return Ok([crypto.marshal(Envelope(crypto.seal(raw, draws.nonce.value, shared.value), true, draws.nonce.value, []))]);
    }

    method DecryptFrom(e: Envelope, src: string) returns (r: Result<Bytes, Error>)
      requires MemoOk()
      modifies this
      ensures MemoOk()
      ensures r == DecryptPayload(crypto, curveSecretKey, e, src)
    {
      if crypto.parse(src).None? {
        return Err(ErrParse);
      }
      if |e.encryptedKey| > 0 && |e.nonce| < NONCE_SIZE {
        return Err(Panic);
      }
      var shared := KeyFor(src);
      if shared.Err? {
        return Err(shared.error);
      }
      if |e.encryptedKey| > 0 {
        var key := Decrypt(crypto, e.encryptedKey, e.nonce[..NONCE_SIZE], shared.value);
        if key.Err? {
          return key;
        }
        return Decrypt(crypto, e.payload, Fixed(NONCE_SIZE, e.nonce[NONCE_SIZE..]), Fixed(SHARED_KEY_SIZE, key.value));
      }
      return Decrypt(crypto, e.payload, Fixed(NONCE_SIZE, e.nonce), shared.value);
    }
  }

  lemma {:induction false} FirstErrorStays(c: Crypto, secret: Bytes, sealed: Bytes, nonce: Nonce, key: Key,
                                           dests: seq<string>, keyNonces: nat -> Option<Nonce>, i: nat, n: nat)
    requires i <= n <= |dests|
    requires SealAll(c, secret, sealed, nonce, key, dests, keyNonces, i).Err?
    ensures SealAll(c, secret, sealed, nonce, key, dests, keyNonces, n) == SealAll(c, secret, sealed, nonce, key, dests, keyNonces, i)
    decreases n
  {
    if i < n {
      FirstErrorStays(c, secret, sealed, nonce, key, dests, keyNonces, i, n - 1);
    }
  }

  /** What one more destination adds to the messages so far. */
  lemma SealNext(c: Crypto, secret: Bytes, sealed: Bytes, nonce: Nonce, key: Key, dests: seq<string>,
                 keyNonces: nat -> Option<Nonce>, i: nat, msgs: seq<Bytes>, one: Result<Bytes, Error>)
    requires i < |dests| && SealAll(c, secret, sealed, nonce, key, dests, keyNonces, i) == Ok(msgs)
    requires one == SealFor(c, secret, sealed, nonce, key, dests[i], keyNonces(i))
    ensures one.Ok? ==> SealAll(c, secret, sealed, nonce, key, dests, keyNonces, i + 1) == Ok(msgs + [one.value])
    ensures one.Err? ==> SealAll(c, secret, sealed, nonce, key, dests, keyNonces, |dests|) == Err(one.error)
  {
    if one.Err? {
      FirstErrorStays(c, secret, sealed, nonce, key, dests, keyNonces, i + 1, |dests|);
    }
  }

  // ----------------------------------------------------------- round trip

  /** Every destination gets its own message, in order. */
  lemma {:induction false} SealAllAt(c: Crypto, secret: Bytes, sealed: Bytes, nonce: Nonce, key: Key,
                                     dests: seq<string>, keyNonces: nat -> Option<Nonce>, n: nat, i: nat)
    requires i < n <= |dests|
    requires SealAll(c, secret, sealed, nonce, key, dests, keyNonces, n).Ok?
    ensures var ms := SealAll(c, secret, sealed, nonce, key, dests, keyNonces, n).value;
      |ms| == n && Ok(ms[i]) == SealFor(c, secret, sealed, nonce, key, dests[i], keyNonces(i))
  {
    if i < n - 1 {
      SealAllAt(c, secret, sealed, nonce, key, dests, keyNonces, n - 1, i);
    } else if n > 1 {
      SealAllAt(c, secret, sealed, nonce, key, dests, keyNonces, n - 1, 0);
    }
  }

  /** Both ends of a conversation derive the same key. */
  lemma KeysAgree(c: Crypto, secret: Bytes, src: string, secret': Bytes, dest: string)
    requires Lawful(c)
    requires c.parse(src).Some? && c.pair(c.parse(src).value, secret)
    requires c.parse(dest).Some? && c.pair(c.parse(dest).value, secret')
    ensures SharedKeyOf(c, secret, dest).Ok?
    ensures SharedKeyOf(c, secret, dest) == SharedKeyOf(c, secret', src)
  {
  }

  lemma SplitNonce(a: Nonce, b: Nonce)
    ensures (a + b)[..NONCE_SIZE] == a && Fixed(NONCE_SIZE, (a + b)[NONCE_SIZE..]) == b
  {
    assert (a + b)[NONCE_SIZE..] == b;
  }

  lemma OpensHybrid(c: Crypto, raw: Bytes, nonce: Nonce, key: Key, keyNonce: Nonce, shared: Key)
    requires Lawful(c)
    ensures var e := Envelope(c.seal(raw, nonce, key), true, keyNonce + nonce, c.seal(key, keyNonce, shared));
      |e.encryptedKey| > 0 && |e.nonce| >= NONCE_SIZE && DecryptHybrid(c, e, shared) == Ok(raw)
  {
    SplitNonce(keyNonce, nonce);
    assert Fixed(SHARED_KEY_SIZE, key) == key;
  }

  /** Any payload sent to any non-empty list of destinations is recovered by each
      destination from its own message and the sender's address, in the single-key
      and in the hybrid format alike. */
  lemma RoundTrip(c: Crypto, secret: Bytes, src: string, raw: Bytes, dests: seq<string>, draws: Draws,
                  i: nat, secret': Bytes)
    requires Lawful(c) && i < |dests|
    requires c.parse(src).Some? && c.pair(c.parse(src).value, secret)
    requires c.parse(dests[i]).Some? && c.pair(c.parse(dests[i]).value, secret')
    requires EncryptPayload(c, secret, raw, dests, draws).Ok?
    ensures var ms := EncryptPayload(c, secret, raw, dests, draws).value;
      |ms| == |dests|
      && c.unmarshal(ms[i]).Some? && c.unmarshal(ms[i]).value.encrypted
      && DecryptPayload(c, secret', c.unmarshal(ms[i]).value, src) == Ok(raw)
  {
    KeysAgree(c, secret, src, secret', dests[i]);
    var shared := SharedKeyOf(c, secret, dests[i]).value;
    if |dests| > 1 {
      var key, nonce := draws.key.value, draws.nonce.value;
      SealAllAt(c, secret, c.seal(raw, nonce, key), nonce, key, dests, draws.keyNonces, |dests|, i);
      OpensHybrid(c, raw, nonce, key, draws.keyNonces(i).value, shared);
    } else {
      assert Fixed(NONCE_SIZE, draws.nonce.value) == draws.nonce.value;
    }
  }

  /** Encryption fails only for a bad destination or a failed random read. */
  lemma EncryptionSucceeds(c: Crypto, secret: Bytes, raw: Bytes, dests: seq<string>, draws: Draws)
    requires dests != []
    ensures EncryptPayload(c, secret, raw, dests, draws).Ok? <==>
      && (forall i :: 0 <= i < |dests| ==> SharedKeyOf(c, secret, dests[i]).Ok?)
      && draws.nonce.Some?
      && (|dests| > 1 ==> draws.key.Some? && forall i: nat :: i < |dests| ==> draws.keyNonces(i).Some?)
  {
    if |dests| > 1 && draws.key.Some? && draws.nonce.Some? {
      SealAllSucceeds(c, secret, c.seal(raw, draws.nonce.value, draws.key.value), draws.nonce.value, draws.key.value,
                      dests, draws.keyNonces, |dests|);
    }
  }

  lemma {:induction false} SealAllSucceeds(c: Crypto, secret: Bytes, sealed: Bytes, nonce: Nonce, key: Key,
                                           dests: seq<string>, keyNonces: nat -> Option<Nonce>, n: nat)
    requires n <= |dests|
    ensures SealAll(c, secret, sealed, nonce, key, dests, keyNonces, n).Ok? <==>
      forall i: nat :: i < n ==> SharedKeyOf(c, secret, dests[i]).Ok? && keyNonces(i).Some?
  {
    if n > 0 {
      SealAllSucceeds(c, secret, sealed, nonce, key, dests, keyNonces, n - 1);
    }
  }

  // ------------------------------------------------- what is on the wire

  /** The shared key: of a 32-byte public key that lies on the curve. */
  predicate HasKey(c: Crypto, secret: Bytes, addr: string, shared: Key) {
    && c.parse(addr).Some? && |c.parse(addr).value| == 32 && c.toCurve(c.parse(addr).value).Some?
    && shared == c.precompute(c.toCurve(c.parse(addr).value).value, secret)
  }

  /** Message i: the payload sealed under the shared key itself, or under a key for all
      destinations that is in turn sealed for this one with a nonce of its own. */
  lemma WireFormat(c: Crypto, secret: Bytes, raw: Bytes, dests: seq<string>, draws: Draws, i: nat, shared: Key)
    requires Lawful(c) && i < |dests| && EncryptPayload(c, secret, raw, dests, draws).Ok?
    requires HasKey(c, secret, dests[i], shared)
    ensures |EncryptPayload(c, secret, raw, dests, draws).value| == |dests| && draws.nonce.Some?
    ensures var m := EncryptPayload(c, secret, raw, dests, draws).value[i]; var nonce := draws.nonce.value;
      if |dests| == 1 then c.unmarshal(m) == Some(Envelope(c.seal(raw, nonce, shared), true, nonce, []))
      else draws.key.Some? && draws.keyNonces(i).Some?
           && var key, own := draws.key.value, draws.keyNonces(i).value;
              c.unmarshal(m) == Some(Envelope(c.seal(raw, nonce, key), true, own + nonce, c.seal(key, own, shared)))
  {
    if |dests| > 1 {
      var key, nonce := draws.key.value, draws.nonce.value;
      SealAllAt(c, secret, c.seal(raw, nonce, key), nonce, key, dests, draws.keyNonces, |dests|, i);
    }
  }

  /** Before that: for one destination its key comes first and then the nonce, for
      several the shared random draws come before any key. */
  lemma EarlyErrors(c: Crypto, secret: Bytes, raw: Bytes, dests: seq<string>, draws: Draws)
    requires dests != []
    ensures |dests| > 1 && (draws.key.None? || draws.nonce.None?) ==>
      EncryptPayload(c, secret, raw, dests, draws) == Err(ErrRandom)
    ensures |dests| == 1 && SharedKeyOf(c, secret, dests[0]).Err? ==>
      EncryptPayload(c, secret, raw, dests, draws) == Err(SharedKeyOf(c, secret, dests[0]).error)
    ensures |dests| == 1 && SharedKeyOf(c, secret, dests[0]).Ok? && draws.nonce.None? ==>
      EncryptPayload(c, secret, raw, dests, draws) == Err(ErrRandom)
  {
  }

  /** The first destination that has no usable key, or no random nonce, decides the error. */
  lemma FirstBadDestination(c: Crypto, secret: Bytes, raw: Bytes, dests: seq<string>, draws: Draws, i: nat)
    requires |dests| > 1 && draws.key.Some? && draws.nonce.Some? && i < |dests|
    requires forall j: nat :: j < i ==> SharedKeyOf(c, secret, dests[j]).Ok? && draws.keyNonces(j).Some?
    requires SharedKeyOf(c, secret, dests[i]).Err? || draws.keyNonces(i).None?
    ensures EncryptPayload(c, secret, raw, dests, draws) ==
      Err(if SharedKeyOf(c, secret, dests[i]).Err? then SharedKeyOf(c, secret, dests[i]).error else ErrRandom)
  {
    var key, nonce := draws.key.value, draws.nonce.value;
    var sealed := c.seal(raw, nonce, key);
    SealAllSucceeds(c, secret, sealed, nonce, key, dests, draws.keyNonces, i);
    FirstErrorStays(c, secret, sealed, nonce, key, dests, draws.keyNonces, i + 1, |dests|);
  }

  /** The message opens to raw under some key for this pair: directly, or through the
      wrapped key, whose nonce comes first. Short keys and nonces are filled up with zeros. */
  predicate Opens(c: Crypto, e: Envelope, shared: Key, raw: Bytes) {
    if |e.encryptedKey| == 0
    then |e.payload| >= 16 && c.open(e.payload, Fixed(24, e.nonce), shared) == Some(raw)
    else
      && |e.nonce| >= 24 && |e.encryptedKey| >= 16 && |e.payload| >= 16
      && var key := c.open(e.encryptedKey, e.nonce[..24], shared);
         key.Some? && c.open(e.payload, Fixed(24, e.nonce[24..]), Fixed(32, key.value)) == Some(raw)
  }

  /** Decryption gives raw if and only if the sender's address has a usable key and the
      message opens to raw under it. */
  lemma DecryptsExactly(c: Crypto, secret: Bytes, e: Envelope, src: string, raw: Bytes)
    ensures DecryptPayload(c, secret, e, src) == Ok(raw) <==>
      exists shared: Key :: HasKey(c, secret, src, shared) && Opens(c, e, shared, raw)
  {
    if SharedKeyOf(c, secret, src).Ok? {
      assert HasKey(c, secret, src, SharedKeyOf(c, secret, src).value);
    }
  }

  /** In particular a message that no nonce and key open, such as one that was tampered
      with, is refused, and nothing but an opened payload is ever returned. */
  lemma OnlyWhatOpens(c: Crypto, secret: Bytes, e: Envelope, src: string)
    ensures DecryptPayload(c, secret, e, src).Ok? ==>
      exists n: Nonce, k: Key :: c.open(e.payload, n, k) == Some(DecryptPayload(c, secret, e, src).value)
    ensures (forall n: Nonce, k: Key :: c.open(e.payload, n, k).None?) ==> DecryptPayload(c, secret, e, src).Err?
  {
    if DecryptPayload(c, secret, e, src).Ok? {
      var raw := DecryptPayload(c, secret, e, src).value;
      DecryptsExactly(c, secret, e, src, raw);
      var shared: Key :| HasKey(c, secret, src, shared) && Opens(c, e, shared, raw);
      if |e.encryptedKey| == 0 {
        var n: Nonce := Fixed(24, e.nonce);
        assert c.open(e.payload, n, shared) == Some(raw);
      } else {
        var n: Nonce, k: Key := Fixed(24, e.nonce[24..]), Fixed(32, c.open(e.encryptedKey, e.nonce[..24], shared).value);
        assert c.open(e.payload, n, k) == Some(raw);
      }
    }
  }

  /** How decryption fails: the address, the size or form of its key, a panic on a
      message or nonce that is too short to be cut up, or a message that does not open. */
  lemma DecryptionErrors(c: Crypto, secret: Bytes, e: Envelope, src: string, shared: Key)
    requires HasKey(c, secret, src, shared)
    ensures var r, hybrid := DecryptPayload(c, secret, e, src), |e.encryptedKey| > 0;
      && (r == Err(Panic) <==>
            || (hybrid && (|e.nonce| < 24 || |e.encryptedKey| < 16
                           || (c.open(e.encryptedKey, e.nonce[..24], shared).Some? && |e.payload| < 16)))
            || (!hybrid && |e.payload| < 16))
      && (r.Err? ==> r.error == Panic || r.error == ErrDecryptFailed)
  {
  }

  lemma NoKeyErrors(c: Crypto, secret: Bytes, e: Envelope, src: string)
    ensures var r, pk := DecryptPayload(c, secret, e, src), c.parse(src);
      && (r == Err(ErrParse) <==> pk.None?)
      && (pk.Some? && (|e.encryptedKey| == 0 || |e.nonce| >= 24) ==>
            && (r == Err(ErrInvalidPubkeySize) <==> |pk.value| != 32)
            && (r == Err(ErrInvalidPubkey) <==> |pk.value| == 32 && c.toCurve(pk.value).None?))
  {
  }

  /** A lawful system in which the holder of address a can encrypt for any destinations. */
  ghost predicate Usable(c: Crypto, a: string, secret: Bytes, draws: Draws) {
    && Lawful(c) && c.parse(a).Some? && c.pair(c.parse(a).value, secret)
    && forall raw: Bytes, dests: seq<string> :: dests != [] ==> EncryptPayload(c, secret, raw, dests, draws).Ok?
  }

  // ------------------------------------------------ the laws can be met

  /** A byte string written so that its end can be told: 1 before each byte, 0 at the end. */
  function Frame(b: Bytes): Bytes {
    if b == [] then [0] else [1, b[0]] + Frame(b[1..])
  }

  function Unframe(s: Bytes): Option<(Bytes, Bytes)> {
    if s == [] then None
    else if s[0] == 0 then Some(([], s[1..]))
    else if |s| < 2 then None
    else match Unframe(s[2..])
      case None => None
      case Some((b, rest)) => Some(([s[1]] + b, rest))
  }

  lemma {:induction false} FrameRoundTrip(b: Bytes, rest: Bytes)
    ensures Unframe(Frame(b) + rest) == Some((b, rest))
  {
    var s := Frame(b) + rest;
    if b == [] {
      assert s[1..] == rest;
    } else {
      FrameRoundTrip(b[1..], rest);
      assert s[2..] == Frame(b[1..]) + rest;
      assert [b[0]] + b[1..] == b;
    }
  }

  function ToyMarshal(e: Envelope): Bytes {
    [if e.encrypted then 1 else 0] + (Frame(e.payload) + (Frame(e.nonce) + Frame(e.encryptedKey)))
  }

  function ToyUnmarshal(s: Bytes): Option<Envelope> {
    if s == [] then None
    else match Unframe(s[1..])
      case None => None
      case Some((payload, more)) =>
        match Unframe(more)
        case None => None
        case Some((nonce, last)) =>
          match Unframe(last)
          case None => None
          case Some((key, _)) => Some(Envelope(payload, s[0] == 1, nonce, key))
  }

  lemma ToyRoundTrip(e: Envelope)
    ensures ToyUnmarshal(ToyMarshal(e)) == Some(e)
  {
    FrameRoundTrip(e.payload, Frame(e.nonce) + Frame(e.encryptedKey));
    FrameRoundTrip(e.nonce, Frame(e.encryptedKey));
    FrameRoundTrip(e.encryptedKey, []);
    assert Frame(e.encryptedKey) + [] == Frame(e.encryptedKey);
    assert ToyMarshal(e)[1..] == Frame(e.payload) + (Frame(e.nonce) + Frame(e.encryptedKey));
  }

  /** What the round trip assumes can be met: a toy system whose seal appends a constant
      tag and in which every address has a key. */
  lemma LawsAreSatisfiable()
    ensures exists c: Crypto, a: string, secret: Bytes, draws: Draws :: Usable(c, a, secret, draws)
  {
    var tag: Bytes, pk: Bytes := seq(16, _ => 0), seq(32, _ => 0);
    var nonce: Nonce, key: Key := seq(24, _ => 0), seq(32, _ => 0);
    var c := Crypto((m: Bytes, n: Nonce, k: Key) => m + tag,
                    (m: Bytes, n: Nonce, k: Key) => if |m| < 16 then None else Some(m[..|m| - 16]),
                    (p: Bytes) => Some(p), (p: Bytes, s: Bytes) => key,
                    (p: Bytes, s: Bytes) => |p| == 32, (a: string) => Some(pk), ToyMarshal, ToyUnmarshal);
    assert forall m: Bytes :: (m + tag)[..|m + tag| - 16] == m;
    forall e: Envelope
      ensures c.unmarshal(c.marshal(e)) == Some(e)
    {
      ToyRoundTrip(e);
    }
    assert Lawful(c);
    var draws := Draws(Some(key), Some(nonce), (i: nat) => Some(nonce));
    forall raw: Bytes, dests: seq<string> | dests != []
      ensures EncryptPayload(c, [], raw, dests, draws).Ok?
    {
      EncryptionSucceeds(c, [], raw, dests, draws);
    }
    assert Usable(c, "", [], draws);
  }
}
