/** What the secrets and keys of a ZRTP session depend on
    (uvgrtp-2.0.0/src/zrtp.cc:69-196, 761-792; RFC 6189, sections 4.4.1.4, 4.5.1 and
    4.5.3). Two values depend on an input if some hash and HMAC functions tell them
    apart when it differs. */
module ZrtpInputs {
  import opened Bits
  import opened ZrtpKeys
  import opened ZrtpRoles

  // ---------------------------------------------------------------------
  // Functions that tell inputs apart
  // ---------------------------------------------------------------------

  function Fill(b: byte, n: nat): (r: Bytes)
    ensures |r| == n && forall i :: 0 <= i < n ==> r[i] == b
  {
    seq(n, i => b)
  }

  /** All zeros for the one input, and all ones for any other. */
  function Telling(x: Bytes): Bytes -> Bytes {
    (m: Bytes) => Fill(if m == x then 0 else 1, 32)
  }

  function TellingHmac(key: Bytes, x: Bytes): (Bytes, Bytes) -> Bytes {
    (k: Bytes, m: Bytes) => Fill(if k == key && m == x then 0 else 1, 32)
  }

  function NoHmac(): (Bytes, Bytes) -> Bytes {
    (k: Bytes, m: Bytes) => Fill(0, 32)
  }

  function NoEncoding(): nat -> Bytes {
    (n: nat) => Fill(0, 384)
  }

  /** Parts of known length can be taken apart. */
  lemma Apart(a: Bytes, b: Bytes, a': Bytes, b': Bytes)
    requires |a| == |a'| && a + b == a' + b'
    ensures a == a' && b == b'
  {
    assert a == (a + b)[..|a|] && a' == (a' + b')[..|a|];
    assert b == (a + b)[|a|..] && b' == (a' + b')[|a|..];
  }

  lemma ApartFromEnd(a: Bytes, b: Bytes, a': Bytes, b': Bytes)
    requires |b| == |b'| && a + b == a' + b'
    ensures a == a' && b == b'
  {
    assert |a + b| == |a' + b'|;
    Apart(a, b, a', b');
  }

  // ---------------------------------------------------------------------
  // total_hash and s0
  // ---------------------------------------------------------------------

  /** Messages of the same lengths. */
  predicate SameLengths(t: Transcript, u: Transcript) {
    && |t.helloR| == |u.helloR| && |t.commitI| == |u.commitI|
    && |t.dh1R| == |u.dh1R| && |t.dh2I| == |u.dh2I|
  }

  /** total_hash depends on each of the four messages. */
  lemma TotalHashDepends(t: Transcript, u: Transcript) returns (c: Crypto)
    requires SameLengths(t, u) && t != u
    ensures CryptoOk(c) && TotalHash(c, t) != TotalHash(c, u)
  {
    var x, y := t.helloR + t.commitI + t.dh1R + t.dh2I, u.helloR + u.commitI + u.dh1R + u.dh2I;
    if x == y {
      Apart(t.helloR + t.commitI + t.dh1R, t.dh2I, u.helloR + u.commitI + u.dh1R, u.dh2I);
      Apart(t.helloR + t.commitI, t.dh1R, u.helloR + u.commitI, u.dh1R);
      Apart(t.helloR, t.commitI, u.helloR, u.commitI);
      assert false;
    }
    c := Crypto(Telling(x), NoHmac(), NoEncoding(), 2, 3);
    assert TotalHash(c, t)[0] == 0 && TotalHash(c, u)[0] == 1;
  }

  /** What the code and RFC 6189 hash for s0. */
  predicate S0Sizes(d: Bytes, z: Zids, h: Bytes) {
    |d| == 384 && |z.i| == 12 && |z.r| == 12 && |h| == 32
  }

  /** s0 depends on the DH result, both identities and the total hash. */
  lemma S0Depends(d: Bytes, z: Zids, h: Bytes, d': Bytes, z': Zids, h': Bytes) returns (c: Crypto)
    requires S0Sizes(d, z, h) && S0Sizes(d', z', h') && (d != d' || z != z' || h != h')
    ensures CryptoOk(c) && S0(c, d, z, h) != S0(c, d', z', h')
  {
    var front, name, back := BigEndian(1), Ascii("ZRTP-HMAC-KDF"), BigEndian(0);
    var x := front + d + name + z.i + z.r + h + back + back + back;
    var y := front + d' + name + z'.i + z'.r + h' + back + back + back;
    if x == y {
      SameParts(front, d, name, z, h, back, d', z', h');
      assert false;
    }
    c := Crypto(Telling(x), NoHmac(), NoEncoding(), 2, 3);
    assert S0(c, d, z, h)[0] == 0 && S0(c, d', z', h')[0] == 1;
  }

  lemma SameParts(front: Bytes, d: Bytes, name: Bytes, z: Zids, h: Bytes, back: Bytes, d': Bytes, z': Zids, h': Bytes)
    requires S0Sizes(d, z, h) && S0Sizes(d', z', h')
    requires front + d + name + z.i + z.r + h + back + back + back
             == front + d' + name + z'.i + z'.r + h' + back + back + back
    ensures d == d' && z == z' && h == h'
  {
    var a, a' := front + d + name + z.i + z.r + h, front + d' + name + z'.i + z'.r + h';
    ApartFromEnd(a + back + back, back, a' + back + back, back);
    ApartFromEnd(a + back, back, a' + back, back);
    ApartFromEnd(a, back, a', back);
    ApartFromEnd(front + d + name + z.i + z.r, h, front + d' + name + z'.i + z'.r, h');
    ApartFromEnd(front + d + name + z.i, z.r, front + d' + name + z'.i, z'.r);
    ApartFromEnd(front + d + name, z.i, front + d' + name, z'.i);
    ApartFromEnd(front + d, name, front + d', name);
    Apart(front, d, front, d');
  }

  // ---------------------------------------------------------------------
  // Keys
  // ---------------------------------------------------------------------

  predicate IsAscii(s: string) {
    forall i :: 0 <= i < |s| ==> s[i] as int < 256
  }

  lemma AsciiDiffers(s: string, t: string)
    requires IsAscii(s) && IsAscii(t) && Ascii(s) == Ascii(t)
    ensures s == t
  {
    forall i | 0 <= i < |s|
      ensures s[i] == t[i]
    {
      assert Ascii(s)[i] == Ascii(t)[i];
    }
  }

  lemma BigEndianDiffers(m: nat, n: nat)
    requires m < 0x1_0000_0000 && n < 0x1_0000_0000 && BigEndian(m) == BigEndian(n)
    ensures m == n
  {
    assert BigEndian(m)[0] == BigEndian(n)[0] && BigEndian(m)[1] == BigEndian(n)[1];
    assert BigEndian(m)[2] == BigEndian(n)[2] && BigEndian(m)[3] == BigEndian(n)[3];
    BigEndianValue(m);
    BigEndianValue(n);
  }

  lemma BigEndianValue(n: nat)
    requires n < 0x1_0000_0000
    ensures var b := BigEndian(n);
            n == b[0] as nat * 0x100_0000 + b[1] as nat * 0x1_0000 + b[2] as nat * 256 + b[3] as nat
  {
    var x := n / 256;
    var y := x / 256;
    assert n / 0x1_0000 == y && n / 0x100_0000 == y / 256;
  }

  /** All that a derived key is made from. */
  datatype Derivation = Derivation(s0: Bytes, purpose: string, z: Zids, totalHash: Bytes, bits: nat)

  /** A key of at least one byte and no more than the digest has. */
  predicate Derives(x: Derivation) {
    && IsAscii(x.purpose) && |x.z.i| == 12 && |x.z.r| == 12 && |x.totalHash| == 32
    && 1 <= x.bits / 8 <= DIGEST_BYTES
  }

  function KeyOf(c: Crypto, x: Derivation): Bytes
    requires CryptoOk(c) && Derives(x)
  {
    Kdf(c, x.s0, x.purpose, x.z, x.totalHash, x.bits)
  }

  function Message(x: Derivation): Bytes
    requires Derives(x)
  {
    [1, 0, 0, 0] + Ascii(x.purpose) + x.z.i + x.z.r + x.totalHash + [0] + BigEndian(x.bits)
  }

  lemma SameMessage(x: Derivation, y: Derivation)
    requires Derives(x) && Derives(y) && Message(x) == Message(y)
    ensures y == x.(s0 := y.s0)
  {
    var front, delim: Bytes := [1, 0, 0, 0], [0];
    hide BigEndian, Ascii;
    BigEndianLength(x.bits);
    BigEndianLength(y.bits);
    var a, b := front + Ascii(x.purpose) + x.z.i + x.z.r, front + Ascii(y.purpose) + y.z.i + y.z.r;
    ApartFromEnd(a + x.totalHash + delim, BigEndian(x.bits), b + y.totalHash + delim, BigEndian(y.bits));
    ApartFromEnd(a + x.totalHash, delim, b + y.totalHash, delim);
    ApartFromEnd(a, x.totalHash, b, y.totalHash);
    ApartFromEnd(front + Ascii(x.purpose) + x.z.i, x.z.r, front + Ascii(y.purpose) + y.z.i, y.z.r);
    ApartFromEnd(front + Ascii(x.purpose), x.z.i, front + Ascii(y.purpose), y.z.i);
    Apart(front, Ascii(x.purpose), front, Ascii(y.purpose));
    AsciiDiffers(x.purpose, y.purpose);
    BigEndianDiffers(x.bits, y.bits);
  }

  lemma BigEndianLength(n: nat)
    requires n < 0x1_0000_0000
    ensures |BigEndian(n)| == 4
  {
  }

  /** A derived key depends on s0, its purpose, both identities, the total hash and its
      length. */
  lemma KeyDepends(x: Derivation, y: Derivation) returns (c: Crypto)
    requires Derives(x) && Derives(y) && x != y
    ensures CryptoOk(c) && KeyOf(c, x) != KeyOf(c, y)
  {
    if Message(x) == Message(y) {
      SameMessage(x, y);
    }
    c := Crypto(Telling([]), TellingHmac(x.s0, Message(x)), NoEncoding(), 2, 3);
    assert KeyOf(c, x)[0] == 0 && KeyOf(c, y)[0] == 1;
  }

  // ---------------------------------------------------------------------
  // Sessions
  // ---------------------------------------------------------------------

  /** The number that a party computes in the key exchange. */
  function DhNumber(g: nat, p: nat, m: Material): nat
    requires p > 0
  {
    PowerMod(m.theirPublic, m.secret, p)
  }

  function EncodeAs(number: nat): nat -> Bytes {
    (n: nat) => Fill(if n == number then 0 else 1, 384)
  }

  /** Tells the digests of s0 apart by the DH result that it starts with. */
  function TellingDh(): Bytes -> Bytes {
    (m: Bytes) => Fill(if |m| > 4 then m[4] else 0, 32)
  }

  /** The key itself, for a key of 32 bytes. */
  function KeyAsHmac(): (Bytes, Bytes) -> Bytes {
    (k: Bytes, m: Bytes) => if |k| == 32 then k else Fill(0, 32)
  }

  lemma S0IsDh(c: Crypto, m: Material, b: byte)
    requires CryptoOk(c) && c.sha256 == TellingDh() && DhResult(c, m) == Fill(b, 384)
    ensures SecretsOf(c, m).s0 == Fill(b, 32)
  {
    var z, h := ZidsOf(m), TotalHash(c, TranscriptOf(m));
    var x := BigEndian(1) + DhResult(c, m) + Ascii("ZRTP-HMAC-KDF") + z.i + z.r + h + BigEndian(0) + BigEndian(0)
             + BigEndian(0);
    assert x[4] == b;
  }

  lemma KeyStarts(c: Crypto, m: Material, s: Secrets, purpose: string, bits: nat, b: byte)
    requires CryptoOk(c) && c.hmac == KeyAsHmac() && s.s0 == Fill(b, 32) && 1 <= bits / 8 <= DIGEST_BYTES
    ensures var key := Derived(c, m, s, purpose, bits); key != [] && key[0] == b
  {
  }

  /** Whatever two sessions have sent and received: if they compute different numbers
      in the key exchange, then none of their keys needs to be the same, for some hash
      and HMAC functions, whatever the purposes and lengths. */
  lemma KeysNeedTheDhResult(g: nat, p: nat, m: Material, n: Material) returns (c: Crypto)
    requires p > 0 && DhNumber(g, p, m) != DhNumber(g, p, n)
    ensures CryptoOk(c) && c.generator == g && c.prime == p && |DhResult(c, m)| == |DhResult(c, n)| == 384
    ensures SecretsOf(c, m).s0 != SecretsOf(c, n).s0
    ensures forall a: string, b: string, i: nat, j: nat :: 1 <= i / 8 <= DIGEST_BYTES && 1 <= j / 8 <= DIGEST_BYTES ==>
              Derived(c, m, SecretsOf(c, m), a, i) != Derived(c, n, SecretsOf(c, n), b, j)
  {
    c := Crypto(TellingDh(), KeyAsHmac(), EncodeAs(DhNumber(g, p, m)), g, p);
    S0IsDh(c, m, 0);
    S0IsDh(c, n, 1);
    hide SecretsOf, Derived;
    assert Fill(0, 32)[0] == 0 && Fill(1, 32)[0] == 1;
    forall a: string, b: string, i: nat, j: nat | 1 <= i / 8 <= DIGEST_BYTES && 1 <= j / 8 <= DIGEST_BYTES
      ensures Derived(c, m, SecretsOf(c, m), a, i) != Derived(c, n, SecretsOf(c, n), b, j)
    {
      KeyStarts(c, m, SecretsOf(c, m), a, i, 0);
      KeyStarts(c, n, SecretsOf(c, n), b, j, 1);
    }
  }

  // ---------------------------------------------------------------------
  // Purposes
  // ---------------------------------------------------------------------

  function RoleName(role: Role): string
    requires role != Unset
  {
    if role == Initiator then "Initiator" else "Responder"
  }

  function Peer(role: Role): Role
    requires role != Unset
  {
    if role == Initiator then Responder else Initiator
  }

  /** A party's own key and salt have the purposes that section 4.5.3 of RFC 6189 gives
      its role, and the other key and salt those of its peer's. */
  lemma PurposesFitRoles(c: Crypto, m: Material, s: Secrets, n: Lengths)
    requires CryptoOk(c) && m.role != Unset && LengthsOk(m.role, n)
    ensures var k, own, other := SrtpKeysOf(c, m, s, n), RoleName(m.role), RoleName(Peer(m.role));
            && k.ourKey == Derived(c, m, s, own + " SRTP master key", Narrow(n.ourKey))
            && k.theirKey == Derived(c, m, s, other + " SRTP master key", Narrow(n.theirKey))
            && k.theirSalt == Derived(c, m, s, other + " SRTP master salt", Narrow(n.theirSalt))
            && k.ourSalt == Derived(c, m, s, own + " SRTP master salt",
                                    Narrow(if m.role == Initiator then n.ourSalt else n.theirSalt))
  {
    hide Derived, Fits, Narrow;
    assert RoleName(Initiator) + " SRTP master key" == "Initiator SRTP master key";
    assert RoleName(Responder) + " SRTP master key" == "Responder SRTP master key";
    assert RoleName(Initiator) + " SRTP master salt" == "Initiator SRTP master salt";
    assert RoleName(Responder) + " SRTP master salt" == "Responder SRTP master salt";
  }

  /** A byte made of a length, and of what two letters are. */
  function TagOf(length: nat, r: bool, h: bool): byte {
    (4 * length + (if r then 2 else 0) + (if h then 1 else 0)) % 256
  }

  /** It tells the ten purposes apart in a message of the key derivation. */
  function Tag(m: Bytes): byte {
    TagOf(|m|, |m| > 75 && m[4] == 'R' as int, |m| > 75 && m[14] == 'H' as int)
  }

  function TaggingHmac(): (Bytes, Bytes) -> Bytes {
    (k: Bytes, m: Bytes) => Fill(Tag(m), 32)
  }

  /** The tag of a message with this purpose, which has 65 bytes more. */
  function PurposeTag(purpose: string): byte {
    var p := Ascii(purpose);
    TagOf(|p| + 65, |p| > 10 && p[0] == 'R' as int, |p| > 10 && p[10] == 'H' as int)
  }

  /** Identities and total hash of a session. */
  predicate SessionSizes(m: Material, s: Secrets) {
    |m.ourZid| == 12 && |m.theirZid| == 12 && |s.totalHash| == 32
  }

  lemma MessageTag(front: Bytes, p: Bytes, rest: Bytes, m: Bytes)
    requires |front| == 4 && |rest| == 61 && m == front + p + rest
    ensures Tag(m) == TagOf(|p| + 65, |p| > 10 && p[0] == 'R' as int, |p| > 10 && p[10] == 'H' as int)
  {
    assert |p| > 10 ==> m[4] == p[0] && m[14] == p[10];
  }

  lemma DerivedTag(c: Crypto, m: Material, s: Secrets, purpose: string, bits: nat)
    requires CryptoOk(c) && c.hmac == TaggingHmac() && SessionSizes(m, s) && 1 <= bits / 8 <= DIGEST_BYTES
    ensures var key := Derived(c, m, s, purpose, bits); key != [] && key[0] == PurposeTag(purpose)
  {
    var z, front: Bytes := ZidsOf(m), [1, 0, 0, 0];
    BigEndianLength(bits);
    hide BigEndian, Ascii, Tag;
    var rest := z.i + z.r + s.totalHash + [0] + BigEndian(bits);
    var message := front + Ascii(purpose) + z.i + z.r + s.totalHash + [0] + BigEndian(bits);
    assert message == front + Ascii(purpose) + rest;
    MessageTag(front, Ascii(purpose), rest, message);
  }

  /** A key's first byte in terms of two letters of its purpose. */
  lemma KeyTag(c: Crypto, m: Material, s: Secrets, purpose: string, bits: nat, tag: byte)
    requires CryptoOk(c) && c.hmac == TaggingHmac() && SessionSizes(m, s) && 1 <= bits / 8 <= DIGEST_BYTES
    requires |purpose| > 10
    requires tag == TagOf(|purpose| + 65, purpose[0] as int % 256 == 'R' as int, purpose[10] as int % 256 == 'H' as int)
    ensures var key := Derived(c, m, s, purpose, bits); key != [] && key[0] == tag
  {
    hide Derived;
    DerivedTag(c, m, s, purpose, bits);
  }

  predicate AllDifferent(keys: seq<Bytes>) {
    forall i, j :: 0 <= i < j < |keys| ==> keys[i] != keys[j]
  }

  /** Keys whose first bytes are these. */
  predicate Tagged(keys: seq<Bytes>, tags: seq<byte>) {
    |keys| == |tags| && forall i :: 0 <= i < |keys| ==> keys[i] != [] && keys[i][0] == tags[i]
  }

  lemma TagsDiffer(keys: seq<Bytes>, tags: seq<byte>)
    requires Tagged(keys, tags) && forall i, j :: 0 <= i < j < |tags| ==> tags[i] != tags[j]
    ensures AllDifferent(keys)
  {
    forall i, j | 0 <= i < j < |keys|
      ensures keys[i] != keys[j]
    {
      assert keys[i][0] == tags[i] && keys[j][0] == tags[j];
    }
  }

  lemma TagsJoin(a: seq<Bytes>, b: seq<Bytes>, s: seq<byte>, t: seq<byte>)
    requires Tagged(a, s) && Tagged(b, t) && AllDifferent(a) && AllDifferent(b)
    requires forall i, j :: 0 <= i < |s| && 0 <= j < |t| ==> s[i] != t[j]
    ensures AllDifferent(a + b)
  {
    var keys := a + b;
    forall i, j | 0 <= i < j < |keys|
      ensures keys[i] != keys[j]
    {
      if i < |a| && j >= |a| {
        assert keys[i][0] == s[i] && keys[j][0] == t[j - |a|];
      }
    }
  }

  /** The keys of both kinds. */
  function SrtpList(k: SrtpKeys): seq<Bytes> {
    [k.ourKey, k.theirKey, k.ourSalt, k.theirSalt]
  }

  function ConfirmList(k: ConfirmKeys): seq<Bytes> {
    [k.session, k.sas, k.keyI, k.keyR, k.hmacI, k.hmacR]
  }

  /** Every length asked for is at least a byte. */
  predicate SomeBytes(n: Lengths) {
    && Narrow(n.ourKey) >= 8 && Narrow(n.theirKey) >= 8
    && Narrow(n.ourSalt) >= 8 && Narrow(n.theirSalt) >= 8
  }

  lemma RoleTags(c: Crypto, m: Material, s: Secrets, keyI: nat, keyR: nat, saltI: nat, saltR: nat)
    requires CryptoOk(c) && c.hmac == TaggingHmac() && SessionSizes(m, s)
    requires 1 <= keyI / 8 <= DIGEST_BYTES && 1 <= keyR / 8 <= DIGEST_BYTES
    requires 1 <= saltI / 8 <= DIGEST_BYTES && 1 <= saltR / 8 <= DIGEST_BYTES
    ensures Tagged([Derived(c, m, s, "Initiator SRTP master key", keyI),
                    Derived(c, m, s, "Responder SRTP master key", keyR),
                    Derived(c, m, s, "Initiator SRTP master salt", saltI),
                    Derived(c, m, s, "Responder SRTP master salt", saltR)], [104, 106, 108, 110])
  {
    hide Derived, TaggingHmac, CryptoOk, SessionSizes;
    KeyTag(c, m, s, "Initiator SRTP master key", keyI, 104);
    KeyTag(c, m, s, "Responder SRTP master key", keyR, 106);
    KeyTag(c, m, s, "Initiator SRTP master salt", saltI, 108);
    KeyTag(c, m, s, "Responder SRTP master salt", saltR, 110);
  }

  lemma SrtpTags(c: Crypto, m: Material, s: Secrets, n: Lengths) returns (tags: seq<byte>)
    requires CryptoOk(c) && c.hmac == TaggingHmac() && SessionSizes(m, s) && LengthsOk(m.role, n) && SomeBytes(n)
    ensures tags == if m.role == Initiator then [104, 106, 108, 110] else [106, 104, 110, 108]
    ensures Tagged(SrtpList(SrtpKeysOf(c, m, s, n)), tags)
  {
    hide Derived, Narrow, TaggingHmac, CryptoOk, SessionSizes;
    var key, other := Narrow(n.ourKey), Narrow(n.theirKey);
    if m.role == Initiator {
      RoleTags(c, m, s, key, other, Narrow(n.ourSalt), Narrow(n.theirSalt));
      tags := [104, 106, 108, 110];
    } else {
      RoleTags(c, m, s, other, key, Narrow(n.theirSalt), Narrow(n.theirSalt));
      tags := [106, 104, 110, 108];
      Swapped(Derived(c, m, s, "Initiator SRTP master key", other), Derived(c, m, s, "Responder SRTP master key", key),
              Derived(c, m, s, "Initiator SRTP master salt", Narrow(n.theirSalt)),
              Derived(c, m, s, "Responder SRTP master salt", Narrow(n.theirSalt)));
    }
  }

  lemma Swapped(a: Bytes, b: Bytes, c: Bytes, d: Bytes)
    ensures Tagged([a, b, c, d], [104, 106, 108, 110]) ==> Tagged([b, a, d, c], [106, 104, 110, 108])
  {
    var keys, tags: seq<byte> := [a, b, c, d], [104, 106, 108, 110];
    if Tagged(keys, tags) {
      assert keys[0][0] == tags[0] && keys[1][0] == tags[1] && keys[2][0] == tags[2] && keys[3][0] == tags[3];
    }
  }

  lemma ConfirmKeyTags(c: Crypto, m: Material, s: Secrets, long: nat, short: nat)
    requires CryptoOk(c) && c.hmac == TaggingHmac() && SessionSizes(m, s)
    requires 1 <= long / 8 <= DIGEST_BYTES && 1 <= short / 8 <= DIGEST_BYTES
    ensures Tagged([Derived(c, m, s, "Initiator ZRTP key", short), Derived(c, m, s, "Responder ZRTP key", short),
                    Derived(c, m, s, "Initiator HMAC key", long), Derived(c, m, s, "Responder HMAC key", long)],
                   [76, 78, 77, 79])
  {
    hide Derived, TaggingHmac, CryptoOk, SessionSizes;
    KeyTag(c, m, s, "Initiator ZRTP key", short, 76);
    KeyTag(c, m, s, "Responder ZRTP key", short, 78);
    KeyTag(c, m, s, "Initiator HMAC key", long, 77);
    KeyTag(c, m, s, "Responder HMAC key", long, 79);
  }

  lemma SasTag()
    ensures PurposeTag("SAS") == 16
  {
  }

  lemma SessionKeyTags(c: Crypto, m: Material, s: Secrets, long: nat)
    requires CryptoOk(c) && c.hmac == TaggingHmac() && SessionSizes(m, s) && 1 <= long / 8 <= DIGEST_BYTES
    ensures Tagged([Derived(c, m, s, "ZRTP Session Key", long), Derived(c, m, s, "SAS", long)], [68, 16])
  {
    hide Derived, TaggingHmac, CryptoOk, SessionSizes, PurposeTag;
    DerivedTag(c, m, s, "SAS", long);
    SasTag();
    KeyTag(c, m, s, "ZRTP Session Key", long, 68);
  }

  lemma ConfirmTags(c: Crypto, m: Material, s: Secrets) returns (tags: seq<byte>)
    requires CryptoOk(c) && c.hmac == TaggingHmac() && SessionSizes(m, s)
    ensures tags == [68, 16, 76, 78, 77, 79] && Tagged(ConfirmList(ConfirmKeysOf(c, m, s)), tags)
  {
    hide Derived, TaggingHmac, CryptoOk, SessionSizes, Tagged;
    var k := ConfirmKeysOf(c, m, s);
    SessionKeyTags(c, m, s, 256);
    ConfirmKeyTags(c, m, s, 256, 128);
    tags := [68, 16, 76, 78, 77, 79];
    assert tags == [68, 16] + [76, 78, 77, 79];
    assert ConfirmList(k) == [k.session, k.sas] + [k.keyI, k.keyR, k.hmacI, k.hmacR];
    TaggedConcat([k.session, k.sas], [k.keyI, k.keyR, k.hmacI, k.hmacR], [68, 16], [76, 78, 77, 79]);
  }

  lemma TaggedConcat(a: seq<Bytes>, b: seq<Bytes>, s: seq<byte>, t: seq<byte>)
    requires Tagged(a, s) && Tagged(b, t)
    ensures Tagged(a + b, s + t)
  {
  }

  lemma TaggingCrypto() returns (c: Crypto)
    ensures CryptoOk(c) && c.hmac == TaggingHmac()
  {
    c := Crypto(Telling([]), TaggingHmac(), NoEncoding(), 2, 3);
  }

  /** No two of a session's four SRTP and six other keys need to be the same. */
  lemma KeysDiffer(m: Material, s: Secrets, n: Lengths) returns (c: Crypto)
    requires SessionSizes(m, s) && LengthsOk(m.role, n) && SomeBytes(n)
    ensures CryptoOk(c) && AllDifferent(SrtpList(SrtpKeysOf(c, m, s, n)) + ConfirmList(ConfirmKeysOf(c, m, s)))
  {
    c := TaggingCrypto();
    hide CryptoOk, SrtpKeysOf, ConfirmKeysOf, AllDifferent, SrtpList, ConfirmList, Tagged, SessionSizes, LengthsOk,
      SomeBytes, TaggingHmac;
    var srtp := SrtpTags(c, m, s, n);
    var confirm := ConfirmTags(c, m, s);
    var a, b := SrtpList(SrtpKeysOf(c, m, s, n)), ConfirmList(ConfirmKeysOf(c, m, s));
    TagsDiffer(a, srtp);
    TagsDiffer(b, confirm);
    TagsJoin(a, b, srtp, confirm);
  }

  // ---------------------------------------------------------------------
  // The key derivation of RFC 6189
  // ---------------------------------------------------------------------

  /** Section 4.5.1: a counter in network byte order, the label, a zero byte, the
      context and the length. */
  function RfcKdf(c: Crypto, s0: Bytes, name: string, z: Zids, totalHash: Bytes, bits: nat): Bytes
    requires CryptoOk(c) && bits / 8 <= DIGEST_BYTES
  {
    c.hmac(s0, BigEndian(1) + Ascii(name) + [0] + (z.i + z.r + totalHash) + BigEndian(bits))[..bits / 8]
  }

  /** The code has the counter in the other byte order, and the zero byte behind the
      context: no key needs to be the one of RFC 6189. */
  lemma NotTheRfcs(x: Derivation) returns (c: Crypto)
    requires Derives(x)
    ensures CryptoOk(c) && KeyOf(c, x) != RfcKdf(c, x.s0, x.purpose, x.z, x.totalHash, x.bits)
  {
    c := Crypto(Telling([]), TellingHmac(x.s0, Message(x)), NoEncoding(), 2, 3);
    var rfc := BigEndian(1) + Ascii(x.purpose) + [0] + (x.z.i + x.z.r + x.totalHash) + BigEndian(x.bits);
    assert Message(x)[0] == 1 && rfc[0] == 0;
    assert KeyOf(c, x)[0] == 0;
    assert RfcKdf(c, x.s0, x.purpose, x.z, x.totalHash, x.bits)[0] == 1;
  }
}
