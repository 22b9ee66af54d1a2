/**
  BIP 32 extended keys: internal/bitcoin/bip32.go, key_export.go, addr.go and ParseXPriv of
  service.go. The curve, HMAC-SHA512 and the hashes are a record of functions; Laws lists the
  algebra the proofs use.
 */
module ExtendedKeys {
  import opened Common
  import opened Radix
  import opened Text
  import Base58
  import Bech32

  const HARDENED: nat := 0x8000_0000

  datatype Network = Mainnet | Testnet | Signet | Regtest

  datatype ExtendedKey = ExtendedKey(
    version: seq<byte>,
    depth: byte,
    fingerprint: seq<byte>,
    childNum: nat,
    chainCode: seq<byte>,
    key: seq<byte>,
    isPrivate: bool,
    network: Network)

  datatype KeyError =
    | InvalidXPub
    | NotXPriv
    | HardenedFromPub
    | NeedsPrivate
    | IndexInvalid
    | ChildInvalid
    | PointInvalid
    | AddressFailed(cause: Bech32.AddressError)

  datatype Crypto<!P> = Crypto(
    order: nat,
    mulG: nat -> P,
    add: (P, P) -> P,
    compress: P -> seq<byte>,
    decompress: seq<byte> -> Option<P>,
    hmac: (seq<byte>, seq<byte>) -> seq<byte>,
    hash160: seq<byte> -> seq<byte>,
    dsha256: seq<byte> -> seq<byte>)

  ghost predicate Sized<P(!new)>(c: Crypto<P>) {
    && (forall p :: |c.compress(p)| == 33)
    && (forall x, y :: |c.hmac(x, y)| == 64)
    && (forall x :: |c.hash160(x)| == 20)
    && (forall x :: |c.dsha256(x)| == 32)
  }

  // mulG is a homomorphism from the scalars modulo the order, ...
  ghost predicate Additive<P(!new)>(c: Crypto<P>) {
    forall a: nat, b: nat :: c.add(c.mulG(a), c.mulG(b)) == c.mulG(a + b)
  }

  ghost predicate Periodic<P(!new)>(c: Crypto<P>)
    requires c.order > 0
  {
    forall a: nat :: c.mulG(a % c.order) == c.mulG(a)
  }

  // ... and compression can be undone except at the point at infinity.
  ghost predicate Invertible<P(!new)>(c: Crypto<P>)
    requires c.order > 0
  {
    forall a: nat :: a % c.order != 0 ==> c.decompress(c.compress(c.mulG(a))) == Some(c.mulG(a))
  }

  ghost predicate Prefixed<P(!new)>(c: Crypto<P>)
    requires Sized(c)
  {
    forall p :: c.compress(p)[0] == 2 || c.compress(p)[0] == 3
  }

  ghost predicate Laws<P(!new)>(c: Crypto<P>) {
    2 <= c.order <= Pow(256, 32) && Additive(c) && Periodic(c) && Invertible(c) && Sized(c) && Prefixed(c)
  }

  ghost predicate WellFormed(k: ExtendedKey) {
    && |k.version| == 4 && |k.fingerprint| == 4 && |k.chainCode| == 32 && |k.key| == 33
    && k.childNum < Pow(256, 4)
  }

  // ---- serialisation ----

  function PubNetwork(version: seq<byte>): Option<Network> {
    if version == [0x04, 0x88, 0xB2, 0x1E] then Some(Mainnet)
    else if version == [0x04, 0xB2, 0x47, 0x46] then Some(Mainnet)
    else if version == [0x04, 0x35, 0x87, 0xCF] then Some(Testnet)
    else if version == [0x04, 0x5F, 0x1C, 0xF6] then Some(Testnet)
    else None
  }

  function PrivNetwork(version: seq<byte>): Option<Network> {
    if version == [0x04, 0x88, 0xAD, 0xE4] then Some(Mainnet)
    else if version == [0x04, 0x35, 0x83, 0x94] then Some(Testnet)
    else None
  }

  function PubVersion(network: Network): seq<byte> {
    if network.Mainnet? then [0x04, 0x88, 0xB2, 0x1E] else [0x04, 0x35, 0x87, 0xCF]
  }

  function Serialize(k: ExtendedKey): seq<byte> {
    k.version + [k.depth] + k.fingerprint + Fixed(k.childNum, 256, 4) + k.chainCode + k.key
  }

  function Fields(payload: seq<byte>, isPrivate: bool, network: Network): (k: ExtendedKey)
    requires |payload| == 78
  {
    ValueRange(payload[9..13], 256);
    ExtendedKey(payload[..4], payload[4], payload[5..9], Value(payload[9..13], 256), payload[13..45], payload[45..78],
                isPrivate, network)
  }

  function String<P(!new)>(c: Crypto<P>, k: ExtendedKey): string
    requires Sized(c)
  {
    Base58.CheckEncode(c.dsha256, Serialize(k))
  }

  function ParseXPub<P(!new)>(c: Crypto<P>, xpub: string): Result<ExtendedKey, KeyError>
    requires Sized(c)
  {
    var payload := Base58.CheckDecode(c.dsha256, xpub);
    if payload.Err? || |payload.value| != 78 then Err(InvalidXPub)
    else
      var network := PubNetwork(payload.value[..4]);
      if network.None? then Err(InvalidXPub)
      else Ok(Fields(payload.value, payload.value[45] == 0x00, network.value))
  }

  function ParseXPriv<P(!new)>(c: Crypto<P>, xpriv: string): Result<ExtendedKey, KeyError>
    requires Sized(c)
  {
    var payload := Base58.CheckDecode(c.dsha256, xpriv);
    if payload.Err? || |payload.value| != 78 then Err(InvalidXPub)
    else
      var network := PrivNetwork(payload.value[..4]);
      if network.None? then Err(InvalidXPub)
      else if payload.value[45] != 0x00 then Err(NotXPriv)
      else Ok(Fields(payload.value, true, network.value))
  }

  lemma SerializeFields(k: ExtendedKey, isPrivate: bool, network: Network)
    requires WellFormed(k)
    ensures |Serialize(k)| == 78 && Serialize(k)[..4] == k.version && Serialize(k)[45] == k.key[0]
    ensures Fields(Serialize(k), isPrivate, network) == k.(isPrivate := isPrivate, network := network)
  {
    hide Fixed, Value;
    var s := Serialize(k);
    FixedValue(k.childNum, 256, 4);
    assert s[9..13] == Fixed(k.childNum, 256, 4);
    assert s[5..9] == k.fingerprint;
    assert s[13..45] == k.chainCode;
    assert s[45..78] == k.key;
  }

  lemma FieldsSerialize(payload: seq<byte>, isPrivate: bool, network: Network)
    requires |payload| == 78
    ensures WellFormed(Fields(payload, isPrivate, network))
    ensures Serialize(Fields(payload, isPrivate, network)) == payload
  {
    hide Fixed, Value;
    ValueRange(payload[9..13], 256);
    FixedOfValue(payload[9..13], 256);
  }

  // Parsing a serialised key recovers every field it holds; the network and the kind of key are
  // read off the version and the first key byte.
  lemma XPubRoundTrip<P(!new)>(c: Crypto<P>, k: ExtendedKey)
    requires Sized(c) && WellFormed(k)
    ensures ParseXPub(c, String(c, k)) ==
            if PubNetwork(k.version).None? then Err(InvalidXPub)
            else Ok(k.(isPrivate := k.key[0] == 0, network := PubNetwork(k.version).value))
    ensures ParseXPub(c, String(c, k)) == Ok(k) <==>
            PubNetwork(k.version) == Some(k.network) && k.isPrivate == (k.key[0] == 0)
  {
    hide Serialize, Fields, Base58.CheckEncode, Base58.CheckDecode;
    Base58.CheckDecodeEncode(c.dsha256, Serialize(k));
    SerializeFields(k, k.key[0] == 0, PubNetwork(k.version).GetOr(k.network));
  }

  lemma XPrivRoundTrip<P(!new)>(c: Crypto<P>, k: ExtendedKey)
    requires Sized(c) && WellFormed(k)
    ensures ParseXPriv(c, String(c, k)) ==
            if PrivNetwork(k.version).None? then Err(InvalidXPub)
            else if k.key[0] != 0 then Err(NotXPriv)
            else Ok(k.(isPrivate := true, network := PrivNetwork(k.version).value))
    ensures ParseXPriv(c, String(c, k)) == Ok(k) <==>
            PrivNetwork(k.version) == Some(k.network) && k.isPrivate && k.key[0] == 0
  {
    hide Serialize, Fields, Base58.CheckEncode, Base58.CheckDecode;
    Base58.CheckDecodeEncode(c.dsha256, Serialize(k));
    SerializeFields(k, true, PrivNetwork(k.version).GetOr(k.network));
  }

  // The versions the two parsers accept, and the networks they stand for.
  lemma AcceptedVersions<P(!new)>(c: Crypto<P>, k: ExtendedKey)
    requires Sized(c) && WellFormed(k)
    ensures var r := ParseXPub(c, String(c, k));
            && (r.Ok? <==> k.version in {[0x04, 0x88, 0xB2, 0x1E], [0x04, 0xB2, 0x47, 0x46],
                                         [0x04, 0x35, 0x87, 0xCF], [0x04, 0x5F, 0x1C, 0xF6]})
            && (r.Ok? ==> r.value.network == if k.version[1] in {0x88, 0xB2} then Mainnet else Testnet)
    ensures var r := ParseXPriv(c, String(c, k));
            && (r.Ok? <==> k.version in {[0x04, 0x88, 0xAD, 0xE4], [0x04, 0x35, 0x83, 0x94]} && k.key[0] == 0)
            && (r.Ok? ==> r.value.network == if k.version[1] == 0x88 then Mainnet else Testnet)
  {
    hide ParseXPub, ParseXPriv, String;
    XPubRoundTrip(c, k);
    XPrivRoundTrip(c, k);
  }

  // Accepted strings are exactly the serialisations of what they parse to.
  lemma ParsedStringsCanonical<P(!new)>(c: Crypto<P>, s: string)
    requires Sized(c)
    ensures ParseXPub(c, s).Ok? ==> WellFormed(ParseXPub(c, s).value) && String(c, ParseXPub(c, s).value) == s
    ensures ParseXPriv(c, s).Ok? ==> WellFormed(ParseXPriv(c, s).value) && String(c, ParseXPriv(c, s).value) == s
  {
    hide Serialize, Fields, Base58.CheckEncode, Base58.CheckDecode;
    var d := Base58.CheckDecode(c.dsha256, s);
    if d.Ok? && |d.value| == 78 {
      Base58.CheckEncodeDecode(c.dsha256, s);
      FieldsSerialize(d.value, d.value[45] == 0, PubNetwork(d.value[..4]).GetOr(Mainnet));
      FieldsSerialize(d.value, true, PrivNetwork(d.value[..4]).GetOr(Mainnet));
    }
  }

  // ExtendedKey.String: the 78-byte buffer is filled field by field.
  method Render<P(!new)>(c: Crypto<P>, k: ExtendedKey) returns (s: string)
    requires Sized(c) && WellFormed(k)
    ensures s == String(c, k)
  {
    hide Fixed, Base58.CheckEncode, Pow;
    var payload := new byte[78](i => 0);
    forall i | 0 <= i < 4 {
      payload[i] := k.version[i];
    }
    payload[4] := k.depth;
    forall i | 0 <= i < 4 {
      payload[5 + i] := k.fingerprint[i];
    }
    var childNum := Fixed(k.childNum, 256, 4);
    forall i | 0 <= i < 4 {
      payload[9 + i] := childNum[i];
    }
    forall i | 0 <= i < 32 {
      payload[13 + i] := k.chainCode[i];
    }
    forall i | 0 <= i < 33 {
      payload[45 + i] := k.key[i];
    }
    assert payload[..] == Serialize(k);
    s := Base58.CheckEncode(c.dsha256, payload[..]);
  }

  // ---- derivation ----

  function Scalar(k: ExtendedKey): nat
    requires |k.key| == 33
  {
    ValueRange(k.key[1..], 256);
    Value(k.key[1..], 256)
  }

  function CompressedPubKey<P(!new)>(c: Crypto<P>, k: ExtendedKey): seq<byte>
    requires |k.key| == 33
  {
    if k.isPrivate then c.compress(c.mulG(Scalar(k))) else k.key
  }

  // The 32-byte halves of the derivation hash.
  function Half<P(!new)>(c: Crypto<P>, chainCode: seq<byte>, data: seq<byte>, i: nat): (h: (nat, seq<byte>))
    requires Sized(c)
    ensures |h.1| == 32
  {
    var mac := c.hmac(chainCode, data + Fixed(i, 256, 4));
    ValueRange(mac[..32], 256);
    (Value(mac[..32], 256), mac[32..])
  }

  function PublicChild<P(!new)>(c: Crypto<P>, k: ExtendedKey, i: nat): (r: Result<ExtendedKey, KeyError>)
    requires Sized(c) && |k.key| == 33
    ensures r.Ok? ==> |r.value.key| == 33
  {
    if i >= HARDENED then Err(HardenedFromPub) else
    var parentPub := CompressedPubKey(c, k);
    var (il, ir) := Half(c, k.chainCode, parentPub, i);
    if il >= c.order then Err(IndexInvalid) else
    var point := c.decompress(parentPub);
    if point.None? then Err(PointInvalid) else
    Ok(ExtendedKey(k.version, (k.depth + 1) % 256, c.hash160(parentPub)[..4], i, ir,
                   c.compress(c.add(c.mulG(il), point.value)), false, k.network))
  }

  function PadTo32(b: seq<byte>): (r: seq<byte>)
    ensures |r| == 32
  {
    if |b| >= 32 then b[|b| - 32..] else Repeat(0, 32 - |b|) + b
  }

  function PrivateChild<P(!new)>(c: Crypto<P>, k: ExtendedKey, i: nat): (r: Result<ExtendedKey, KeyError>)
    requires Sized(c) && |k.key| == 33 && c.order > 0
    ensures r.Ok? ==> |r.value.key| == 33
  {
    if !k.isPrivate then Err(NeedsPrivate) else
    var pub := c.compress(c.mulG(Scalar(k)));
    var data := if i >= HARDENED then [0x00] + k.key[1..] else pub;
    var (il, ir) := Half(c, k.chainCode, data, i);
    if il >= c.order then Err(IndexInvalid) else
    var child := (il + Scalar(k)) % c.order;
    if child == 0 then Err(ChildInvalid) else
    Ok(ExtendedKey(k.version, (k.depth + 1) % 256, c.hash160(pub)[..4], i, ir,
                   [0x00] + PadTo32(Minimal(child)), true, k.network))
  }

  function Neuter<P(!new)>(c: Crypto<P>, k: ExtendedKey): ExtendedKey
    requires |k.key| == 33
  {
    k.(isPrivate := false, version := PubVersion(k.network), key := CompressedPubKey(c, k))
  }

  lemma Padded(n: nat)
    requires n < Pow(256, 32)
    ensures |PadTo32(Minimal(n))| == 32 && Value(PadTo32(Minimal(n)), 256) == n
  {
    hide Digits, Value, Fixed, Pow;
    PaddedDigits(n, 256, 32);
    FixedValue(n, 256, 32);
    var b := Minimal(n);
    if |b| >= 32 {
      assert b[|b| - 32..] == b;
    }
    assert PadTo32(b) == Fixed(n, 256, 32);
  }

  function ChildScalar<P(!new)>(c: Crypto<P>, k: ExtendedKey, i: nat): nat
    requires Sized(c) && |k.key| == 33 && c.order > 0
  {
    var pub := c.compress(c.mulG(Scalar(k)));
    var data := if i >= HARDENED then [0x00] + k.key[1..] else pub;
    (Half(c, k.chainCode, data, i).0 + Scalar(k)) % c.order
  }

  lemma ChildScalarHeld<P(!new)>(c: Crypto<P>, k: ExtendedKey, i: nat)
    requires Sized(c) && 0 < c.order <= Pow(256, 32) && WellFormed(k) && i < Pow(256, 4) && PrivateChild(c, k, i).Ok?
    ensures var d := PrivateChild(c, k, i).value;
            && WellFormed(d) && d.isPrivate && d.key[0] == 0 && d.network == k.network
            && Scalar(d) == ChildScalar(c, k, i) && 0 < Scalar(d) < c.order
  {
    hide Value, Pow, Minimal, PadTo32, Half;
    var d := PrivateChild(c, k, i).value;
    var child := ChildScalar(c, k, i);
    Padded(child);
    assert d.key[1..] == PadTo32(Minimal(child));
  }

  // The message m that is hashed for a child: 33 bytes and then the index, most significant byte first.
  ghost predicate Hashes(m: seq<byte>, head: seq<byte>, i: nat) {
    |m| == 37 && m[..33] == head && Value(m[33..], 256) == i
  }

  lemma HalfHashes<P(!new)>(c: Crypto<P>, chainCode: seq<byte>, head: seq<byte>, i: nat) returns (m: seq<byte>)
    requires Sized(c) && |head| == 33 && i < Pow(256, 4)
    ensures Hashes(m, head, i)
    ensures Half(c, chainCode, head, i) == (Value(c.hmac(chainCode, m)[..32], 256), c.hmac(chainCode, m)[32..])
  {
    hide Value, Fixed, Pow, Sized;
    FixedValue(i, 256, 4);
    m := head + Fixed(i, 256, 4);
    assert m[33..] == Fixed(i, 256, 4) && m[..33] == head;
  }

  lemma HmacParts<P(!new)>(c: Crypto<P>, chainCode: seq<byte>, m: seq<byte>)
    requires Sized(c)
    ensures |c.hmac(chainCode, m)| == 64 && Value(c.hmac(chainCode, m)[..32], 256) >= 0
  {
    ValueRange(c.hmac(chainCode, m)[..32], 256);
    hide Value;
  }

  lemma ScalarIs(k: ExtendedKey)
    requires |k.key| == 33
    ensures Scalar(k) == Value(k.key[1..], 256)
  {
  }

  // Private derivation: the child adds the left half of the hash of parent and index to the parent's
  // scalar, and its chain code is the right half. A hardened index hashes the private key instead of
  // the public one.
  lemma PrivateChildScalar<P(!new)>(c: Crypto<P>, k: ExtendedKey, i: nat) returns (m: seq<byte>)
    requires Sized(c) && 0 < c.order <= Pow(256, 32) && WellFormed(k) && i < Pow(256, 4) && PrivateChild(c, k, i).Ok?
    ensures Value(k.key[1..], 256) >= 0
    ensures var d := PrivateChild(c, k, i).value;
            var pub := c.compress(c.mulG(Value(k.key[1..], 256)));
            var mac := c.hmac(k.chainCode, m);
            && k.isPrivate && Hashes(m, if i >= 0x8000_0000 then [0x00] + k.key[1..] else pub, i)
            && |mac| == 64 && |pub| == 33
            && 0 <= Value(mac[..32], 256) < c.order
            && |d.key| == 33 && d.key[0] == 0
            && 0 != Value(d.key[1..], 256) == (Value(mac[..32], 256) + Value(k.key[1..], 256)) % c.order
            && d.chainCode == mac[32..] && d.fingerprint == c.hash160(pub)[..4] && d.childNum == i
            && d.depth == (k.depth + 1) % 256 && d.version == k.version && d.isPrivate && d.network == k.network
  {
    hide Value, Pow, Half, Minimal, PadTo32, Hashes, Sized, Scalar;
    var pub := c.compress(c.mulG(Scalar(k)));
    CompressedSize(c, Scalar(k));
    ScalarIs(k);
    ChildScalarHeld(c, k, i);
    ScalarIs(PrivateChild(c, k, i).value);
    m := HalfHashes(c, k.chainCode, if i >= HARDENED then [0x00] + k.key[1..] else pub, i);
    HmacParts(c, k.chainCode, m);
  }

  // Public derivation: the child is the parent's point plus the left half of the hash times the
  // generator, and its chain code is the right half.
  lemma PublicChildPoint<P(!new)>(c: Crypto<P>, k: ExtendedKey, i: nat) returns (m: seq<byte>)
    requires Sized(c) && WellFormed(k) && PublicChild(c, k, i).Ok?
    ensures Value(k.key[1..], 256) >= 0
    ensures var d := PublicChild(c, k, i).value;
            var pub := if k.isPrivate then c.compress(c.mulG(Value(k.key[1..], 256))) else k.key;
            var mac := c.hmac(k.chainCode, m);
            && i < 0x8000_0000 && Hashes(m, pub, i) && |mac| == 64
            && 0 <= Value(mac[..32], 256) < c.order
            && c.decompress(pub).Some?
            && d.key == c.compress(c.add(c.mulG(Value(mac[..32], 256)), c.decompress(pub).value))
            && d.chainCode == mac[32..] && d.fingerprint == c.hash160(pub)[..4] && d.childNum == i
            && d.depth == (k.depth + 1) % 256 && d.version == k.version && !d.isPrivate && d.network == k.network
  {
    hide Value, Pow, Half, Hashes, Sized, Scalar;
    SmallIndex(i);
    CompressedSize(c, Scalar(k));
    ScalarIs(k);
    m := HalfHashes(c, k.chainCode, CompressedPubKey(c, k), i);
    HmacParts(c, k.chainCode, m);
  }

  // A parent whose hash tells messages of one head apart never gives two indices the same chain code.
  lemma ChildrenDiffer<P(!new)>(c: Crypto<P>, k: ExtendedKey, i: nat, j: nat)
    requires Sized(c) && WellFormed(k) && PublicChild(c, k, i).Ok? && PublicChild(c, k, j).Ok?
    requires forall x, y :: |x| == |y| == 37 && x[..33] == y[..33] && c.hmac(k.chainCode, x)[32..] == c.hmac(k.chainCode, y)[32..] ==> x == y
    requires PublicChild(c, k, i).value.chainCode == PublicChild(c, k, j).value.chainCode
    ensures i == j
  {
    var m := PublicChildPoint(c, k, i);
    var n := PublicChildPoint(c, k, j);
    assert m == n;
    hide PublicChild, Value;
  }

  lemma AddScalars<P(!new)>(c: Crypto<P>, a: nat, b: nat)
    requires Laws(c)
    ensures (a + b) % c.order >= 0
    ensures c.add(c.mulG(a), c.mulG(b)) == c.mulG((a + b) % c.order)
  {
  }

  lemma Decompresses<P(!new)>(c: Crypto<P>, a: nat)
    requires Laws(c) && a % c.order != 0
    ensures c.decompress(c.compress(c.mulG(a))) == Some(c.mulG(a))
  {
  }

  // The square for every parent whose scalar is not zero modulo the order.
  lemma NonzeroParent<P(!new)>(c: Crypto<P>, k: ExtendedKey, i: nat)
    requires Laws(c) && WellFormed(k) && k.isPrivate && i < HARDENED && Scalar(k) % c.order != 0
    ensures PrivateChild(c, k, i).Ok? ==>
              |PrivateChild(c, k, i).value.key| == 33
              && PublicChild(c, Neuter(c, k), i) == Ok(Neuter(c, PrivateChild(c, k, i).value))
  {
    hide Value, Pow, Half, Minimal, PadTo32, Scalar, Laws, Sized;
    SmallIndex(i);
    LawsBounds(c);
    var s := Scalar(k);
    var pub := c.compress(c.mulG(s));
    var il := Half(c, k.chainCode, pub, i).0;
    Decompresses(c, s);
    AddScalars(c, il, s);
    assert Neuter(c, k).key == pub;
    if PrivateChild(c, k, i).Ok? {
      ChildScalarHeld(c, k, i);
    }
  }

  // Reading back the encoded point at infinity gives something that adds nothing to il times the
  // generator.
  ghost predicate ActsNeutral<P(!new)>(c: Crypto<P>, il: nat) {
    var q := c.decompress(c.compress(c.mulG(0)));
    q.Some? && c.compress(c.add(c.mulG(il), q.value)) == c.compress(c.mulG(il))
  }

  // For a scalar that is zero modulo the order the square commutes exactly when the point at infinity
  // survives compression for this index.
  lemma ZeroParent<P(!new)>(c: Crypto<P>, k: ExtendedKey, i: nat)
    requires Laws(c) && WellFormed(k) && k.isPrivate && i < HARDENED && Scalar(k) % c.order == 0
    requires PrivateChild(c, k, i).Ok?
    ensures |PrivateChild(c, k, i).value.key| == 33 && Sized(c)
    ensures PublicChild(c, Neuter(c, k), i) == Ok(Neuter(c, PrivateChild(c, k, i).value)) <==>
            ActsNeutral(c, Half(c, k.chainCode, c.compress(c.mulG(0)), i).0)
  {
    hide Value, Pow, Half, Minimal, PadTo32, Scalar, Laws, Sized;
    SmallIndex(i);
    LawsBounds(c);
    var s := Scalar(k);
    SameMultiple(c, s, 0);
    var il := Half(c, k.chainCode, c.compress(c.mulG(0)), i).0;
    AddScalars(c, il, s);
    AddZero(c, il, s);
    ChildScalarHeld(c, k, i);
  }

  // What a caller can check of a parent key: its scalar, or how infinity is read back.
  ghost predicate Commutes<P(!new)>(c: Crypto<P>, k: ExtendedKey, i: nat)
    requires Sized(c) && |k.key| == 33 && c.order > 0
  {
    Scalar(k) % c.order != 0 || ActsNeutral(c, Half(c, k.chainCode, c.compress(c.mulG(0)), i).0)
  }

  // BIP 32's commuting square, for every private parent: when private derivation succeeds, neutering
  // its result is deriving publicly from the neutered parent, in every field, if and only if the
  // parent commutes. Private derivation fails in one more case, a zero child.
  lemma CommutingSquare<P(!new)>(c: Crypto<P>, k: ExtendedKey, i: nat)
    requires Laws(c) && WellFormed(k) && k.isPrivate && i < HARDENED
    ensures Sized(c) && c.order > 0 && |Neuter(c, k).key| == 33
    ensures PrivateChild(c, k, i).Ok? ==>
              |PrivateChild(c, k, i).value.key| == 33
              && (PublicChild(c, Neuter(c, k), i) == Ok(Neuter(c, PrivateChild(c, k, i).value)) <==> Commutes(c, k, i))
    ensures PrivateChild(c, k, i).Err? ==>
              PrivateChild(c, k, i).error.ChildInvalid? || PublicChild(c, Neuter(c, k), i) == Err(IndexInvalid)
  {
    hide Value, Pow, Half, Minimal, PadTo32, Scalar, Laws, Sized, ActsNeutral;
    LawsBounds(c);
    CompressedSize(c, Scalar(k));
    if PrivateChild(c, k, i).Ok? {
      hide PrivateChild, PublicChild;
      if Scalar(k) % c.order != 0 {
        NonzeroParent(c, k, i);
      } else {
        ZeroParent(c, k, i);
      }
    }
  }

  lemma CompressedSize<P(!new)>(c: Crypto<P>, a: nat)
    requires Sized(c)
    ensures |c.compress(c.mulG(a))| == 33
  {
  }

  lemma SameMultiple<P(!new)>(c: Crypto<P>, a: nat, b: nat)
    requires Laws(c) && a % c.order == b % c.order
    ensures c.mulG(a) == c.mulG(b)
  {
    assert c.mulG(a % c.order) == c.mulG(a) && c.mulG(b % c.order) == c.mulG(b);
  }

  lemma AddZero<P(!new)>(c: Crypto<P>, il: nat, s: nat)
    requires Laws(c) && s % c.order == 0
    ensures (il + s) % c.order >= 0 && c.mulG((il + s) % c.order) == c.mulG(il)
  {
    AddScalars(c, il, s);
    SameMultiple(c, s, 0);
    assert c.add(c.mulG(il), c.mulG(0)) == c.mulG(il + 0);
  }

  lemma LawsBounds<P(!new)>(c: Crypto<P>)
    requires Laws(c)
    ensures Sized(c) && 2 <= c.order <= Pow(256, 32)
  {
  }

  lemma SmallIndex(i: nat)
    requires i < HARDENED
    ensures i < Pow(256, 4)
  {
    assert Pow(256, 4) == 0x1_0000_0000;
  }

  // Deriving publicly from a private key differs from going through Neuter only in the version,
  // which keeps naming a private key.
  lemma PublicChildOfPrivate<P(!new)>(c: Crypto<P>, k: ExtendedKey, i: nat)
    requires Sized(c) && WellFormed(k)
    ensures |Neuter(c, k).key| == 33
    ensures PublicChild(c, k, i).Ok? == PublicChild(c, Neuter(c, k), i).Ok?
    ensures PublicChild(c, k, i).Ok? ==>
              PublicChild(c, Neuter(c, k), i).value == PublicChild(c, k, i).value.(version := PubVersion(k.network))
  {
    hide Value, Half, Scalar;
  }

  // ---- receive addresses and signing keys ----

  function DeriveReceiveAddress<P(!new)>(c: Crypto<P>, xpub: string, hrp: string, index: nat)
    : Result<(string, seq<byte>), KeyError>
    requires Sized(c) && Ascii(hrp)
  {
    hide Bech32.P2wpkhAddress, Half;
    var account := ParseXPub(c, xpub);
    if account.Err? then Err(account.error) else
    ParsedStringsCanonical(c, xpub);
    var external := PublicChild(c, account.value, 0);
    if external.Err? then Err(external.error) else
    var child := PublicChild(c, external.value, index);
    if child.Err? then Err(child.error) else
    var pubKey := CompressedPubKey(c, child.value);
    var address := Bech32.P2wpkhAddress(c.hash160, pubKey, hrp);
    if address.Err? then Err(AddressFailed(address.error)) else Ok((address.value, pubKey))
  }

  function DerivePrivKeyAtIndex<P(!new)>(c: Crypto<P>, account: ExtendedKey, index: nat)
    : Result<(seq<byte>, seq<byte>), KeyError>
    requires Sized(c) && |account.key| == 33 && c.order > 0
  {
    hide PrivateChild;
    var external := PrivateChild(c, account, 0);
    if external.Err? then Err(external.error) else
    var child := PrivateChild(c, external.value, index);
    if child.Err? then Err(child.error) else
    Ok((child.value.key[1..], CompressedPubKey(c, child.value)))
  }

  // Neutering gives a key that parses back, with Testnet standing for all test networks.
  lemma NeuterParses<P(!new)>(c: Crypto<P>, k: ExtendedKey)
    requires Laws(c) && WellFormed(k) && k.isPrivate
    ensures Sized(c) && WellFormed(Neuter(c, k))
    ensures var net := if k.network.Mainnet? then Mainnet else Testnet;
            ParseXPub(c, String(c, Neuter(c, k))) == Ok(Neuter(c, k).(network := net))
  {
    var n := Neuter(c, k);
    assert n.key[0] == 2 || n.key[0] == 3;
    hide Laws, ParseXPub, String, Scalar;
    XPubRoundTrip(c, n);
  }

  // Public derivation only passes the network along.
  lemma PublicChildNetwork<P(!new)>(c: Crypto<P>, k: ExtendedKey, net: Network, i: nat)
    requires Sized(c) && |k.key| == 33
    ensures PublicChild(c, k.(network := net), i) ==
            match PublicChild(c, k, i)
            case Ok(d) => Ok(d.(network := net))
            case Err(e) => Err(e)
  {
    hide Half, Value;
  }

  lemma PrivateChildKeeps<P(!new)>(c: Crypto<P>, k: ExtendedKey, i: nat)
    requires Laws(c) && WellFormed(k) && i < HARDENED && PrivateChild(c, k, i).Ok?
    ensures var d := PrivateChild(c, k, i).value;
            WellFormed(d) && d.isPrivate && Scalar(d) % c.order != 0
  {
    hide Laws, Pow, Value, Half, PrivateChild, Scalar;
    SmallIndex(i);
    LawsBounds(c);
    ChildScalarHeld(c, k, i);
    QuotientRemainder(0, c.order, Scalar(PrivateChild(c, k, i).value));
  }

  // Receiving needs only the public string, spending only the private key, and they agree: the
  // key that signs for an index is the key behind the address handed out for that index.
  lemma SigningKeyMatchesAddress<P(!new)>(c: Crypto<P>, account: ExtendedKey, hrp: string, index: nat)
    requires Laws(c) && WellFormed(account) && account.isPrivate && Commutes(c, account, 0)
    requires Ascii(hrp) && |hrp| >= 1 && index < HARDENED
    requires DerivePrivKeyAtIndex(c, account, index).Ok?
    ensures var (priv, pub) := DerivePrivKeyAtIndex(c, account, index).value;
            var received := DeriveReceiveAddress(c, String(c, Neuter(c, account)), hrp, index);
            && received.Ok? && received.value.1 == pub && Ascii(received.value.0)
            && Bech32.Hash160FromAddress(received.value.0, hrp) == Ok(c.hash160(pub))
            && Value(priv, 256) >= 0 && pub == c.compress(c.mulG(Value(priv, 256)))
  {
    hide Laws, PublicChild, PrivateChild, String, ParseXPub, Bech32.P2wpkhAddress, Bech32.Hash160FromAddress, Value;
    LawsBounds(c);
    var external := PrivateChild(c, account, 0).value;
    PrivateChildKeeps(c, account, 0);
    PrivateChildKeeps(c, external, index);
    var child := PrivateChild(c, external, index).value;
    CommutingSquare(c, account, 0);
    CommutingSquare(c, external, index);
    NeuterParses(c, account);
    var net := if account.network.Mainnet? then Mainnet else Testnet;
    PublicChildNetwork(c, Neuter(c, account), net, 0);
    PublicChildNetwork(c, Neuter(c, external), net, index);
    ValueRange(child.key[1..], 256);
    Bech32.AddressScript(c.hash160, CompressedPubKey(c, child), hrp);
  }

  // ---- the laws are consistent, and the square can fail ----

  function ToyMul(a: nat): bool {
    a % 2 == 1
  }

  function ToyAdd(p: bool, q: bool): bool {
    p != q
  }

  function ToyCompress(p: bool): seq<byte> {
    [if p then 3 else 2] + Repeat(0, 32)
  }

  function ToyHmac(): seq<byte> {
    Repeat(0, 31) + [1] + Repeat(0, 32)
  }

  // A group of two points, false being infinity; reading back the encoding of infinity gives whatever
  // one likes.
  function Toy(infinity: Option<bool>): Crypto<bool> {
    Crypto(2, ToyMul, ToyAdd, ToyCompress,
           (b: seq<byte>) => if |b| == 33 && b[0] == 3 then Some(true) else infinity,
           (x: seq<byte>, y: seq<byte>) => ToyHmac(), (x: seq<byte>) => Repeat(0, 20), (x: seq<byte>) => Repeat(0, 32))
  }

  lemma ToyLaws(infinity: Option<bool>)
    ensures Laws(Toy(infinity))
  {
    ToyAdditive(infinity);
    ToyRest(infinity);
    PowPositive(256, 31);
    hide Additive, Periodic, Invertible, Sized, Prefixed;
  }

  lemma ToyAdditive(infinity: Option<bool>)
    ensures Additive(Toy(infinity))
  {
    hide ToyMul, ToyAdd;
    var c := Toy(infinity);
    forall a: nat, b: nat
      ensures c.add(c.mulG(a), c.mulG(b)) == c.mulG(a + b)
    {
      Parity(a, b);
    }
  }

  lemma Parity(a: nat, b: nat)
    ensures ToyAdd(ToyMul(a), ToyMul(b)) == ToyMul(a + b)
  {
  }

  lemma ToyRest(infinity: Option<bool>)
    ensures Periodic(Toy(infinity)) && Invertible(Toy(infinity)) && Sized(Toy(infinity)) && Prefixed(Toy(infinity))
  {
  }

  const ZERO_KEY: ExtendedKey :=
    ExtendedKey([0x04, 0x88, 0xAD, 0xE4], 0, Repeat(0, 4), 0, Repeat(0, 32), Repeat(0, 33), true, Mainnet)

  lemma {:induction false} ZerosValue(n: nat)
    ensures Value(Repeat(0, n), 256) == 0
  {
    if n > 0 {
      ZerosValue(n - 1);
      assert Repeat(0, n)[..n - 1] == Repeat(0, n - 1);
    }
  }

  lemma ToyHalf(infinity: Option<bool>, chainCode: seq<byte>, data: seq<byte>, i: nat)
    ensures Sized(Toy(infinity)) && Half(Toy(infinity), chainCode, data, i).0 == 1
  {
    ToyRest(infinity);
    var left := ToyHmac()[..32];
    assert left == Repeat(0, 31) + [1];
    assert left[..31] == Repeat(0, 31);
    ZerosValue(31);
    hide Sized;
  }

  lemma ZeroScalar()
    ensures WellFormed(ZERO_KEY) && Scalar(ZERO_KEY) == 0
  {
    assert ZERO_KEY.key[1..] == Repeat(0, 32);
    ZerosValue(32);
    PowPositive(256, 4);
    hide Value;
  }

  lemma ToyPrivate(infinity: Option<bool>, i: nat)
    requires i < HARDENED
    ensures Sized(Toy(infinity)) && PrivateChild(Toy(infinity), ZERO_KEY, i).Ok?
  {
    ZeroScalar();
    ToyHalf(infinity, ZERO_KEY.chainCode, ToyCompress(false), i);
    hide Half, Scalar, Sized, PadTo32, Minimal;
  }

  lemma ToyPublic(infinity: Option<bool>, i: nat)
    requires i < HARDENED
    ensures var c := Toy(infinity);
            && Sized(c) && |Neuter(c, ZERO_KEY).key| == 33
            && var public := PublicChild(c, Neuter(c, ZERO_KEY), i);
               (infinity.None? ==> public == Err(PointInvalid)) && (infinity.Some? ==> public.Ok?)
  {
    ZeroScalar();
    ToyHalf(infinity, ZERO_KEY.chainCode, ToyCompress(false), i);
    hide Half, Scalar, Sized;
  }

  lemma ToyCommutes(infinity: Option<bool>, i: nat)
    ensures Sized(Toy(infinity)) && (Commutes(Toy(infinity), ZERO_KEY, i) <==> infinity == Some(false))
  {
    ZeroScalar();
    ToyHalf(infinity, ZERO_KEY.chainCode, ToyCompress(false), i);
    hide Half, Scalar, Sized;
    assert ToyCompress(true)[0] == 3 && ToyCompress(false)[0] == 2;
  }

  // With the zero key as parent, private derivation succeeds and the public one is refused, gives
  // another key, or agrees, according to how infinity is read back.
  lemma ZeroParentDisagrees(infinity: Option<bool>, i: nat)
    requires i < HARDENED
    ensures var c := Toy(infinity);
            && Laws(c) && Sized(c) && WellFormed(ZERO_KEY) && |Neuter(c, ZERO_KEY).key| == 33
            && PrivateChild(c, ZERO_KEY, i).Ok?
            && var public := PublicChild(c, Neuter(c, ZERO_KEY), i);
               && (infinity.None? ==> public == Err(PointInvalid))
               && (infinity.Some? ==> public.Ok?)
               && (public == Ok(Neuter(c, PrivateChild(c, ZERO_KEY, i).value)) <==> infinity == Some(false))
  {
    var c := Toy(infinity);
    ToyLaws(infinity);
    LawsBounds(c);
    ZeroScalar();
    ToyPrivate(infinity, i);
    ToyPublic(infinity, i);
    ToyCommutes(infinity, i);
    CommutingSquare(c, ZERO_KEY, i);
    hide *;
  }
}
