/** ZRTP key agreement in DH mode (uvgrtp-2.0.0/src/zrtp.cc; RFC 6189, sections
    4.4.1.4, 4.5.1 and 4.5.3), for any hash and HMAC functions. */
module ZrtpKeys {
  import opened Arithmetic
  import opened Bits
  import opened HostApi
  import opened ZrtpRoles

  // ---------------------------------------------------------------------
  // Diffie-Hellman
  // ---------------------------------------------------------------------

  function Power(b: nat, e: nat): nat {
    if e == 0 then 1 else b * Power(b, e - 1)
  }

  function PowerMod(b: nat, e: nat, p: nat): nat
    requires p > 0
  {
    Power(b, e) % p
  }

  lemma {:induction false} PowerAdd(b: nat, m: nat, n: nat)
    ensures Power(b, m + n) == Power(b, m) * Power(b, n)
    decreases m
  {
    if m > 0 {
      PowerAdd(b, m - 1, n);
      var x, y := Power(b, m - 1), Power(b, n);
      assert b * (x * y) == (b * x) * y;
    }
  }

  lemma {:induction false} PowerTimes(b: nat, m: nat, n: nat)
    ensures Power(Power(b, m), n) == Power(b, m * n)
    decreases n
  {
    if n > 0 {
      PowerTimes(b, m, n - 1);
      assert m * n == m + m * (n - 1);
      PowerAdd(b, m, m * (n - 1));
    } else {
      assert m * 0 == 0;
    }
  }

  lemma Divide(n: nat, p: nat) returns (q: nat, r: nat)
    requires p > 0
    ensures n == q * p + r && r == n % p < p
  {
    q, r := n / p, n % p;
  }

  lemma TimesRemainder(x: nat, y: nat, p: nat, q: nat, r: nat, s: nat, t: nat, u: nat, v: nat)
    requires x == q * p + r && y == s * p + t && r * t == u * p + v && v < p
    ensures x * y % p == v
  {
    var k := q * s * p + q * t + s * r;
    assert x * y == k * p + r * t by {
      Product(q, r, s, t, p);
    }
    Regroup(x * y, k, p, r * t, u, v);
  }

  lemma Regroup(n: nat, k: nat, p: nat, w: nat, u: nat, v: nat)
    requires n == k * p + w && w == u * p + v && v < p
    ensures n % p == v
  {
    var m := k + u;
    assert m * p == k * p + u * p;
    ModUnique(m, p, v);
  }

  /** Remainders may be taken before a product. */
  lemma ModTimes(x: nat, y: nat, p: nat)
    requires p > 0
    ensures (x % p) * (y % p) % p == x * y % p
  {
    var q, r := Divide(x, p);
    var s, t := Divide(y, p);
    var u, v := Divide(r * t, p);
    TimesRemainder(x, y, p, q, r, s, t, u, v);
  }

  lemma Product(q: nat, r: nat, s: nat, t: nat, p: nat)
    ensures (q * p + r) * (s * p + t) == (q * s * p + q * t + s * r) * p + r * t
  {
    assert (q * p + r) * (s * p + t) == (q * p) * (s * p) + (q * p) * t + r * (s * p) + r * t;
    assert (q * p) * (s * p) == (q * s * p) * p;
    assert (q * p) * t == (q * t) * p;
    assert r * (s * p) == (s * r) * p;
    assert (q * s * p + q * t + s * r) * p == (q * s * p) * p + (q * t) * p + (s * r) * p;
  }

  lemma {:induction false} PowerOfMod(b: nat, e: nat, p: nat)
    requires p > 0
    ensures PowerMod(b % p, e, p) == PowerMod(b, e, p)
    decreases e
  {
    if e > 0 {
      PowerOfMod(b, e - 1, p);
      var x, y := Power(b % p, e - 1), Power(b, e - 1);
      ModTimes(b % p, x, p);
      ModTimes(b, y, p);
      ModMod(b, p);
    }
  }

  lemma ModMod(b: nat, p: nat)
    requires p > 0
    ensures b % p % p == b % p
  {
    ModUnique(0, p, b % p);
  }

  /** (g^a mod p)^b and (g^b mod p)^a agree modulo p. */
  lemma SharedSecret(g: nat, a: nat, b: nat, p: nat)
    requires p > 0
    ensures PowerMod(PowerMod(g, a, p), b, p) == PowerMod(PowerMod(g, b, p), a, p)
  {
    PowerOfMod(Power(g, a), b, p);
    PowerOfMod(Power(g, b), a, p);
    PowerTimes(g, a, b);
    PowerTimes(g, b, a);
    assert a * b == b * a;
  }

  // ---------------------------------------------------------------------
  // Hashes
  // ---------------------------------------------------------------------

  type Bytes = seq<byte>

  /** The primitives, and the group of the key exchange. `encode` writes a number
      of the group as 384 bytes. */
  datatype Crypto = Crypto(sha256: Bytes -> Bytes, hmac: (Bytes, Bytes) -> Bytes, encode: nat -> Bytes,
                           generator: nat, prime: nat)

  ghost predicate CryptoOk(c: Crypto) {
    && c.prime > 0
    && (forall m :: |c.sha256(m)| == 32)
    && (forall k, m :: |c.hmac(k, m)| == 32)
  }

  function Ascii(s: string): (r: Bytes)
    ensures |r| == |s|
  {
    seq<byte>(|s|, i requires 0 <= i < |s| => s[i] as int % 256)
  }

  /** htonl. */
  function BigEndian(n: nat): Bytes
    requires n < 0x1_0000_0000
  {
    [n / 0x100_0000, n / 0x1_0000 % 256, n / 256 % 256, n % 256]
  }

  /** The four messages the total hash covers. */
  datatype Transcript = Transcript(helloR: Bytes, commitI: Bytes, dh1R: Bytes, dh2I: Bytes)

  /** The identities of initiator and responder. */
  datatype Zids = Zids(i: Bytes, r: Bytes)

  /** RFC 6189, section 4.4.1.4: the responder's Hello, then Commit and the two DH
      parts. */
  function TotalHash(c: Crypto, t: Transcript): Bytes {
    c.sha256(t.helloR + t.commitI + t.dh1R + t.dh2I)
  }

  /** s0, without any retained secret. */
  function S0(c: Crypto, dhResult: Bytes, z: Zids, totalHash: Bytes): Bytes {
    c.sha256(BigEndian(1) + dhResult + Ascii("ZRTP-HMAC-KDF") + z.i + z.r + totalHash
             + BigEndian(0) + BigEndian(0) + BigEndian(0))
  }

  const DIGEST_BYTES := 32

  /** A length in bits as the uint32_t that the key derivation takes. */
  function Narrow(length: nat): (bits: nat)
    ensures bits < 0x1_0000_0000
  {
    length % 0x1_0000_0000
  }

  /** The digest has enough bytes. */
  predicate Fits(length: nat) {
    Narrow(length) / 8 <= DIGEST_BYTES
  }

  lemma FitsDigest(bits: nat)
    requires bits <= 256
    ensures Fits(bits) && Narrow(bits) == bits
  {
  }

  /** The key derivation; its counter is in the byte order of a little-endian
      machine, unlike the length. */
  function Kdf(c: Crypto, s0: Bytes, purpose: string, z: Zids, totalHash: Bytes, bits: nat): Bytes
    requires CryptoOk(c) && bits / 8 <= DIGEST_BYTES
  {
    c.hmac(s0, [1, 0, 0, 0] + Ascii(purpose) + z.i + z.r + totalHash + [0] + BigEndian(bits))[..bits / 8]
  }

  /** A hash object: updates, then one digest, after which it starts again. */
  class Sha256 {
    const c: Crypto
    var buf: Bytes

    constructor (c: Crypto)
      ensures this.c == c && buf == []
    {
      this.c, buf := c, [];
    }

    method Update(data: Bytes)
      modifies `buf
      ensures buf == old(buf) + data
    {
      buf := buf + data;
    }

    method Final() returns (digest: Bytes)
      modifies `buf
      ensures digest == c.sha256(old(buf)) && buf == []
    {
      digest := c.sha256(buf);
      buf := [];
    }
  }

  class HmacSha256 {
    const c: Crypto
    const key: Bytes
    var buf: Bytes

    constructor (c: Crypto, key: Bytes)
      ensures this.c == c && this.key == key && buf == []
    {
      this.c, this.key, buf := c, key, [];
    }

    method Update(data: Bytes)
      modifies `buf
      ensures buf == old(buf) + data
    {
      buf := buf + data;
    }

    method Final() returns (digest: Bytes)
      modifies `buf
      ensures digest == c.hmac(key, old(buf))
    {
      digest := c.hmac(key, buf);
    }
  }

  // ---------------------------------------------------------------------
  // The session
  // ---------------------------------------------------------------------

  /** What a party has sent and received, and its exponent. */
  datatype Material = Material(role: Role, ourZid: Bytes, theirZid: Bytes,
                               ourHello: Bytes, theirHello: Bytes, ourCommit: Bytes, theirCommit: Bytes,
                               ourDh: Bytes, theirDh: Bytes, secret: nat, theirPublic: nat)

  function TranscriptOf(m: Material): Transcript {
    if m.role == Initiator then Transcript(m.theirHello, m.ourCommit, m.theirDh, m.ourDh)
    else Transcript(m.ourHello, m.theirCommit, m.ourDh, m.theirDh)
  }

  function ZidsOf(m: Material): Zids {
    if m.role == Initiator then Zids(m.ourZid, m.theirZid) else Zids(m.theirZid, m.ourZid)
  }

  function DhResult(c: Crypto, m: Material): Bytes
    requires c.prime > 0
  {
    c.encode(PowerMod(m.theirPublic, m.secret, c.prime))
  }

  /** total_hash and s0. */
  datatype Secrets = Secrets(totalHash: Bytes, s0: Bytes)

  function SecretsOf(c: Crypto, m: Material): Secrets
    requires CryptoOk(c)
  {
    var h := TotalHash(c, TranscriptOf(m));
    Secrets(h, S0(c, DhResult(c, m), ZidsOf(m), h))
  }

  function Derived(c: Crypto, m: Material, s: Secrets, purpose: string, bits: nat): Bytes
    requires CryptoOk(c) && bits / 8 <= DIGEST_BYTES
  {
    Kdf(c, s.s0, purpose, ZidsOf(m), s.totalHash, bits)
  }

  /** The keys of the Confirm messages, the session key and the SAS hash. */
  datatype ConfirmKeys = ConfirmKeys(session: Bytes, sas: Bytes, keyI: Bytes, keyR: Bytes, hmacI: Bytes, hmacR: Bytes)

  function ConfirmKeysOf(c: Crypto, m: Material, s: Secrets): ConfirmKeys
    requires CryptoOk(c)
  {
    ConfirmKeys(Derived(c, m, s, "ZRTP Session Key", 256), Derived(c, m, s, "SAS", 256),
                Derived(c, m, s, "Initiator ZRTP key", 128), Derived(c, m, s, "Responder ZRTP key", 128),
                Derived(c, m, s, "Initiator HMAC key", 256), Derived(c, m, s, "Responder HMAC key", 256))
  }

  /** The lengths in bits that a caller of get_srtp_keys asks for. */
  datatype Lengths = Lengths(ourKey: nat, theirKey: nat, ourSalt: nat, theirSalt: nat)

  /** No length that is used asks for more than a digest. */
  predicate LengthsOk(role: Role, n: Lengths) {
    Fits(n.ourKey) && Fits(n.theirKey) && Fits(n.theirSalt) && (role == Initiator ==> Fits(n.ourSalt))
  }

  datatype SrtpKeys = SrtpKeys(ourKey: Bytes, theirKey: Bytes, ourSalt: Bytes, theirSalt: Bytes)

  /** Undefined: memory behind a digest is read. */
  datatype Answer = Keys(keys: SrtpKeys) | InvalidValue | NotInitialized | Undefined

  /** What get_srtp_keys gives: a responder's own salt gets the length asked for
      the other one. */
  function SrtpKeysOf(c: Crypto, m: Material, s: Secrets, n: Lengths): SrtpKeys
    requires CryptoOk(c) && LengthsOk(m.role, n)
  {
    if m.role == Initiator then
      SrtpKeys(Derived(c, m, s, "Initiator SRTP master key", Narrow(n.ourKey)),
               Derived(c, m, s, "Responder SRTP master key", Narrow(n.theirKey)),
               Derived(c, m, s, "Initiator SRTP master salt", Narrow(n.ourSalt)),
               Derived(c, m, s, "Responder SRTP master salt", Narrow(n.theirSalt)))
    else
      SrtpKeys(Derived(c, m, s, "Responder SRTP master key", Narrow(n.ourKey)),
               Derived(c, m, s, "Initiator SRTP master key", Narrow(n.theirKey)),
               Derived(c, m, s, "Responder SRTP master salt", Narrow(n.theirSalt)),
               Derived(c, m, s, "Initiator SRTP master salt", Narrow(n.theirSalt)))
  }

  class Session {
    const c: Crypto
    const sha: Sha256
    const m: Material
    var dhResult: Bytes
    var secrets: Secrets
    var keys: ConfirmKeys
    var initialized: bool

    ghost predicate Valid()
      reads this, sha
    {
      CryptoOk(c) && sha.c == c && sha.buf == []
    }

    constructor (c: Crypto, m: Material)
      requires CryptoOk(c)
      ensures Valid() && fresh(sha) && this.c == c && this.m == m && !initialized
    {
      this.c, this.m := c, m;
      sha := new Sha256(c);
      dhResult, secrets, keys := [], Secrets([], []), ConfirmKeys([], [], [], [], [], []);
      initialized := false;
    }

    /** The initiator's identity first. */
    method ZidsInOrder() returns (z: Zids)
      ensures z == ZidsOf(m)
    {
      if m.role == Initiator {
        z := Zids(m.ourZid, m.theirZid);
      } else {
        z := Zids(m.theirZid, m.ourZid);
      }
    }

    /** derive_key; None: more bytes than the digest has are copied. */
    method DeriveKey(purpose: string, length: nat) returns (key: Option<Bytes>)
      requires Valid()
      ensures key == if Fits(length) then Some(Derived(c, m, secrets, purpose, Narrow(length))) else None
    {
      var bits := Narrow(length);
      var mac := new HmacSha256(c, secrets.s0);
      var counter: Bytes := [1, 0, 0, 0];
      mac.Update(counter);
      assert mac.buf == counter;
      mac.Update(Ascii(purpose));
      var z := ZidsInOrder();
      mac.Update(z.i);
      mac.Update(z.r);
      mac.Update(secrets.totalHash);
      mac.Update([0]);
      mac.Update(BigEndian(bits));
      var digest := mac.Final();
      assert digest[..DIGEST_BYTES] == digest;
      if bits != 256 {
        if bits / 8 > DIGEST_BYTES {
          return None;
        }
        key := Some(digest[..bits / 8]);
      } else {
        key := Some(digest);
      }
    }

    method HashTranscript() returns (h: Bytes)
      requires Valid()
      modifies sha
      ensures Valid() && h == TotalHash(c, TranscriptOf(m))
    {
      if m.role == Initiator {
        sha.Update(m.theirHello);
        sha.Update(m.ourCommit);
        sha.Update(m.theirDh);
        sha.Update(m.ourDh);
      } else {
        sha.Update(m.ourHello);
        sha.Update(m.theirCommit);
        sha.Update(m.ourDh);
        sha.Update(m.theirDh);
      }
      ghost var t := TranscriptOf(m);
      assert sha.buf == t.helloR + t.commitI + t.dh1R + t.dh2I;
      h := sha.Final();
    }

    method HashS0(totalHash: Bytes) returns (s0: Bytes)
      requires Valid()
      modifies sha
      ensures Valid() && s0 == S0(c, dhResult, ZidsOf(m), totalHash)
    {
      var one, zero := BigEndian(1), BigEndian(0);
      sha.Update(one);
      assert sha.buf == one;
      sha.Update(dhResult);
      sha.Update(Ascii("ZRTP-HMAC-KDF"));
      var z := ZidsInOrder();
      sha.Update(z.i);
      sha.Update(z.r);
      sha.Update(totalHash);
      sha.Update(zero);
      sha.Update(zero);
      sha.Update(zero);
      s0 := sha.Final();
    }

    /** The keys of the Confirm messages. */
    method DeriveConfirmKeys() returns (keys: ConfirmKeys)
      requires Valid()
      ensures keys == ConfirmKeysOf(c, m, secrets)
    {
      FitsDigest(256);
      FitsDigest(128);
      hide Derived, Fits, Narrow;
      var session := DeriveKey("ZRTP Session Key", 256);
      var sas := DeriveKey("SAS", 256);
      var keyI := DeriveKey("Initiator ZRTP key", 128);
      var keyR := DeriveKey("Responder ZRTP key", 128);
      var hmacI := DeriveKey("Initiator HMAC key", 256);
      var hmacR := DeriveKey("Responder HMAC key", 256);
      keys := ConfirmKeys(session.value, sas.value, keyI.value, keyR.value, hmacI.value, hmacR.value);
    }

    /** The DH result is erased once it is used. */
    method GenerateSharedSecretsDh()
      requires Valid()
      modifies `dhResult, `secrets, `keys, sha
      ensures Valid() && dhResult == []
      ensures secrets == SecretsOf(c, m) && keys == ConfirmKeysOf(c, m, secrets)
    {
      dhResult := DhResult(c, m);
      var h := HashTranscript();
      var s0 := HashS0(h);
      secrets := Secrets(h, s0);
      dhResult := [];
      keys := DeriveConfirmKeys();
    }

    method GetSrtpKeys(n: Lengths) returns (r: Answer)
      requires Valid()
      ensures r == if n.ourKey == 0 || n.theirKey == 0 || n.ourSalt == 0 || n.theirSalt == 0 then InvalidValue
                   else if !initialized then NotInitialized
                   else if !LengthsOk(m.role, n) then Undefined
                   else Keys(SrtpKeysOf(c, m, secrets, n))
    {
      if n.ourKey == 0 || n.theirKey == 0 || n.ourSalt == 0 || n.theirSalt == 0 {
        return InvalidValue;
      }
      if !initialized {
        return NotInitialized;
      }
      var ourKey, ourSalt, theirKey, theirSalt;
      if m.role == Initiator {
        ourKey := DeriveKey("Initiator SRTP master key", n.ourKey);
        ourSalt := DeriveKey("Initiator SRTP master salt", n.ourSalt);
        theirKey := DeriveKey("Responder SRTP master key", n.theirKey);
        theirSalt := DeriveKey("Responder SRTP master salt", n.theirSalt);
      } else {
        ourKey := DeriveKey("Responder SRTP master key", n.ourKey);
        ourSalt := DeriveKey("Responder SRTP master salt", n.theirSalt);
        theirKey := DeriveKey("Initiator SRTP master key", n.theirKey);
        theirSalt := DeriveKey("Initiator SRTP master salt", n.theirSalt);
      }
      if ourKey.None? || theirKey.None? || ourSalt.None? || theirSalt.None? {
        return Undefined;
      }
      r := Keys(SrtpKeys(ourKey.value, theirKey.value, ourSalt.value, theirSalt.value));
    }
  }

  // ---------------------------------------------------------------------
  // Agreement
  // ---------------------------------------------------------------------

  /** Two parties in opposite roles that have received what the other sent. */
  ghost predicate Matched(c: Crypto, i: Material, r: Material) {
    && i.role == Initiator && r.role == Responder && c.prime > 0
    && i.ourZid == r.theirZid && r.ourZid == i.theirZid
    && r.ourHello == i.theirHello && i.ourCommit == r.theirCommit
    && r.ourDh == i.theirDh && i.ourDh == r.theirDh
    && r.theirPublic == PowerMod(c.generator, i.secret, c.prime)
    && i.theirPublic == PowerMod(c.generator, r.secret, c.prime)
  }

  lemma SameSecrets(c: Crypto, i: Material, r: Material)
    requires CryptoOk(c) && Matched(c, i, r)
    ensures SecretsOf(c, i) == SecretsOf(c, r) && ZidsOf(i) == ZidsOf(r)
    ensures ConfirmKeysOf(c, i, SecretsOf(c, i)) == ConfirmKeysOf(c, r, SecretsOf(c, r))
  {
    SharedSecret(c.generator, r.secret, i.secret, c.prime);
  }

  /** Both compute the same total hash and s0, and with the same key length and the
      same salt length on all sides each one's own key and salt is what the other
      takes for its peer's. */
  lemma KeysAgree(c: Crypto, i: Material, r: Material, key: nat, salt: nat)
    requires CryptoOk(c) && Matched(c, i, r) && Fits(key) && Fits(salt)
    ensures SecretsOf(c, i) == SecretsOf(c, r)
    ensures var n := Lengths(key, key, salt, salt);
            var x, y := SrtpKeysOf(c, i, SecretsOf(c, i), n), SrtpKeysOf(c, r, SecretsOf(c, r), n);
            && x.ourKey == y.theirKey && x.ourSalt == y.theirSalt
            && y.ourKey == x.theirKey && y.ourSalt == x.theirSalt
  {
    SameSecrets(c, i, r);
  }

  /** Every key and salt has the length asked for, but a responder's own salt only
      if as many bytes were asked for its peer's. */
  lemma OwnSaltLength(c: Crypto, m: Material, s: Secrets, n: Lengths)
    requires CryptoOk(c) && LengthsOk(m.role, n)
    ensures var k := SrtpKeysOf(c, m, s, n);
            && |k.ourKey| == Narrow(n.ourKey) / 8 && |k.theirKey| == Narrow(n.theirKey) / 8
            && |k.theirSalt| == Narrow(n.theirSalt) / 8
            && (|k.ourSalt| == Narrow(n.ourSalt) / 8
                <==> m.role == Initiator || Narrow(n.ourSalt) / 8 == Narrow(n.theirSalt) / 8)
  {
    hide Derived, Narrow;
    if m.role == Initiator {
      DerivedLength(c, m, s, "Initiator SRTP master key", Narrow(n.ourKey));
      DerivedLength(c, m, s, "Responder SRTP master key", Narrow(n.theirKey));
      DerivedLength(c, m, s, "Initiator SRTP master salt", Narrow(n.ourSalt));
      DerivedLength(c, m, s, "Responder SRTP master salt", Narrow(n.theirSalt));
    } else {
      DerivedLength(c, m, s, "Responder SRTP master key", Narrow(n.ourKey));
      DerivedLength(c, m, s, "Initiator SRTP master key", Narrow(n.theirKey));
      DerivedLength(c, m, s, "Responder SRTP master salt", Narrow(n.theirSalt));
      DerivedLength(c, m, s, "Initiator SRTP master salt", Narrow(n.theirSalt));
    }
  }

  /** A responder that asks for a salt of 14 bytes, and one of 12 for its peer, gets
      12 bytes. */
  lemma ShortSalt(c: Crypto, m: Material, s: Secrets)
    requires CryptoOk(c) && m.role == Responder
    ensures |SrtpKeysOf(c, m, s, Lengths(128, 128, 112, 96)).ourSalt| == 12
  {
    FitsDigest(96);
    FitsDigest(112);
    FitsDigest(128);
    hide Derived, Fits, Narrow;
    DerivedLength(c, m, s, "Responder SRTP master salt", 96);
  }

  lemma DerivedLength(c: Crypto, m: Material, s: Secrets, purpose: string, bits: nat)
    requires CryptoOk(c) && bits / 8 <= DIGEST_BYTES
    ensures |Derived(c, m, s, purpose, bits)| == bits / 8
  {
  }
}
