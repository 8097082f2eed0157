/** Base58 with a checksum, and what is stored in it: addresses and secret keys. */
module Base58Check {
  import opened Options
  import opened Numerals
  import opened BigNum
  import opened Base58
  import opened Base58Ops

  /** The hash that checksums are taken from, as a number. */
  type Hash = seq<byte> -> nat

  /** The first four bytes of the hash in memory: its lowest four, least significant first. */
  function Checksum(hash: Hash, b: seq<byte>): (c: seq<byte>)
    ensures |c| == 4
  {
    var h := hash(b);
    [h % 256, h / 256 % 256, h / 0x1_0000 % 256, h / 0x100_0000 % 256]
  }

  /** The four bytes are the hash modulo 2^32, the lowest first. */
  lemma ChecksumMeans(hash: Hash, b: seq<byte>)
    ensures var c := Checksum(hash, b); Value(256, [c[3], c[2], c[1], c[0]]) == hash(b) % 0x1_0000_0000
  {
    hide Value;
    var c := Checksum(hash, b);
    ValueOfFour(c[3], c[2], c[1], c[0]);
    LowFour(hash(b));
  }

  function EncodeCheck(hash: Hash, b: seq<byte>): string {
    Encode(b + Checksum(hash, b))
  }

  function DecodeCheck(hash: Hash, s: string): Option<seq<byte>> {
    match Decode(s)
    case None => None
    case Some(b) =>
      var n := |b| - 4;
      if |b| < 4 || b[n..] != Checksum(hash, b[..n]) then None else Some(b[..n])
  }

  /** A checked text yields `b` exactly when it is Base58 for `b` and the checksum of `b`. */
  lemma DecodeCheckMeans(hash: Hash, s: string, b: seq<byte>)
    ensures DecodeCheck(hash, s) == Some(b) <==> Decode(s) == Some(b + Checksum(hash, b))
  {
    hide Decode, Checksum;
    if Decode(s) == Some(b + Checksum(hash, b)) {
      var all := Decode(s).value;
      assert all[..|all| - 4] == b && all[|all| - 4..] == Checksum(hash, b);
    }
    if Decode(s).Some? && |Decode(s).value| >= 4 {
      var all := Decode(s).value;
      assert all == all[..|all| - 4] + all[|all| - 4..];
    }
  }

  /** Whatever the hash, checking and decoding gives back what was encoded, exactly for
      the byte strings that fit together with their checksum. */
  lemma CheckRoundTrip(hash: Hash, b: seq<byte>)
    ensures DecodeCheck(hash, EncodeCheck(hash, b)) == Some(b) <==> Fits(b + Checksum(hash, b))
  {
    hide Decode, Encode, Fits, Checksum, DecodeCheck;
    DecodeInvertsEncode(b + Checksum(hash, b));
    DecodeCheckMeans(hash, EncodeCheck(hash, b), b);
  }

  method EncodeBase58Check(hash: Hash, vchIn: seq<byte>) returns (str: string)
    ensures str == EncodeCheck(hash, vchIn)
  {
    hide Encode;
    var vch := vchIn;
    vch := vch + Checksum(hash, vch);
    str := EncodeBase58(vch);
  }

  method DecodeBase58Check(hash: Hash, psz: string) returns (ok: bool, vchRet: seq<byte>)
    ensures ok <==> DecodeCheck(hash, psz).Some?
    ensures vchRet == if ok then DecodeCheck(hash, psz).value else []
  {
    hide Decode;
    ok, vchRet := DecodeBase58(psz);
    if !ok {
      return false, vchRet;
    }
    if |vchRet| < 4 {
      return false, [];
    }
    var n := |vchRet| - 4;
    if Checksum(hash, vchRet[..n]) != vchRet[n..] {
      return false, [];
    }
    return true, vchRet[..n];
  }

  // ----- CBase58Data -----

  datatype Data = Data(version: byte, data: seq<byte>)

  const NOTHING := Data(0, [])

  function ToText58(hash: Hash, d: Data): string {
    EncodeCheck(hash, [d.version] + d.data)
  }

  function FromText58(hash: Hash, s: string): Option<Data> {
    match DecodeCheck(hash, s)
    case None => None
    case Some(b) => if b == [] then None else Some(Data(b[0], b[1..]))
  }

  /** What ToString writes, SetString reads back: version and data, exactly when they fit. */
  lemma TextRoundTrip(hash: Hash, d: Data)
    ensures FromText58(hash, ToText58(hash, d)) == Some(d)
      <==> var b := [d.version] + d.data; Fits(b + Checksum(hash, b))
  {
    hide DecodeCheck, EncodeCheck, Fits, Checksum;
    var b := [d.version] + d.data;
    CheckRoundTrip(hash, b);
    assert b[1..] == d.data;
    var r := DecodeCheck(hash, ToText58(hash, d));
    if FromText58(hash, ToText58(hash, d)) == Some(d) {
      assert r.value == [r.value[0]] + r.value[1..];
    }
  }

  lemma ShortFits(hash: Hash, d: Data)
    requires |d.data| < INT_LIMIT - 10
    ensures FromText58(hash, ToText58(hash, d)) == Some(d)
  {
    hide FromText58, ToText58;
    TextRoundTrip(hash, d);
  }

  /** Different data never have the same text, whatever the hash. */
  lemma TextDetermines(hash: Hash, a: Data, b: Data)
    requires |a.data| < INT_LIMIT - 10 && |b.data| < INT_LIMIT - 10 && ToText58(hash, a) == ToText58(hash, b)
    ensures a == b
  {
    hide FromText58, ToText58;
    ShortFits(hash, a);
    ShortFits(hash, b);
  }

  class CBase58Data {
    var nVersion: byte
    var vchData: seq<byte>

    function Contents(): Data
      reads this
    {
      Data(nVersion, vchData)
    }

    constructor ()
      ensures Contents() == NOTHING
    {
      nVersion, vchData := 0, [];
    }

    method SetData(nVersionIn: byte, pdata: seq<byte>)
      modifies this
      ensures Contents() == Data(nVersionIn, pdata)
    {
      nVersion := nVersionIn;
      vchData := pdata;
    }

    method SetString(hash: Hash, psz: string) returns (ok: bool)
      modifies this
      ensures ok <==> FromText58(hash, psz).Some?
      ensures Contents() == if ok then FromText58(hash, psz).value else NOTHING
    {
      hide DecodeCheck;
      var decoded, vchTemp := DecodeBase58Check(hash, psz);
      if vchTemp == [] {
        vchData := [];
        nVersion := 0;
        return false;
      }
      nVersion := vchTemp[0];
      vchData := vchTemp[1..];
      return true;
    }

    method ToString(hash: Hash) returns (str: string)
      ensures str == ToText58(hash, Contents())
    {
      hide EncodeCheck;
      var vch := [nVersion];
      vch := vch + vchData;
      str := EncodeBase58Check(hash, vch);
    }
  }

  // ----- CBitcoinAddress -----

  const PUBKEY_ADDRESS: byte := 0
  const SCRIPT_ADDRESS: byte := 9
  const PUBKEY_ADDRESS_TEST: byte := 111
  const SCRIPT_ADDRESS_TEST: byte := 199

  datatype TxDestination = CNoDestination | CKeyID(id: seq<byte>) | CScriptID(id: seq<byte>) {
    predicate Valid() {
      CNoDestination? || |id| == 20
    }
  }

  /** What Set stores for a destination on a network. */
  function ForDestination(dest: TxDestination, testNet: bool): Data
    requires !dest.CNoDestination?
  {
    match dest
    case CKeyID(id) => Data(if testNet then PUBKEY_ADDRESS_TEST else PUBKEY_ADDRESS, id)
    case CScriptID(id) => Data(if testNet then SCRIPT_ADDRESS_TEST else SCRIPT_ADDRESS, id)
  }

  class CBitcoinAddress {
    const base: CBase58Data

    constructor ()
      ensures fresh(base) && base.Contents() == NOTHING
    {
      base := new CBase58Data();
    }

    /** Set, through the visitor: a missing destination changes nothing. */
    method Set(dest: TxDestination, fTestNet: bool) returns (ok: bool)
      requires dest.Valid()
      modifies base
      ensures ok <==> !dest.CNoDestination?
      ensures base.Contents() == if ok then ForDestination(dest, fTestNet) else old(base.Contents())
    {
      match dest
      case CKeyID(id) =>
        base.SetData(if fTestNet then PUBKEY_ADDRESS_TEST else PUBKEY_ADDRESS, id);
        ok := true;
      case CScriptID(id) =>
        base.SetData(if fTestNet then SCRIPT_ADDRESS_TEST else SCRIPT_ADDRESS, id);
        ok := true;
      case CNoDestination =>
        ok := false;
    }

    /** Valid means: what Set would store for some destination on this network. */
    method IsValid(fTestNet: bool) returns (r: bool)
      ensures r <==> StoresSome(fTestNet, base.Contents())
    {
      var nExpectedSize := 20;
      var fExpectTestNet := false;
      StoredIds(fTestNet, base.Contents());
      if base.nVersion == PUBKEY_ADDRESS {
        nExpectedSize, fExpectTestNet := 20, false;
      } else if base.nVersion == SCRIPT_ADDRESS {
        nExpectedSize, fExpectTestNet := 20, false;
      } else if base.nVersion == PUBKEY_ADDRESS_TEST {
        nExpectedSize, fExpectTestNet := 20, true;
      } else if base.nVersion == SCRIPT_ADDRESS_TEST {
        nExpectedSize, fExpectTestNet := 20, true;
      } else {
        return false;
      }
      return fExpectTestNet == fTestNet && |base.vchData| == nExpectedSize;
    }

    /** Get undoes Set: the destination that is stored here, if there is one. */
    method Get(fTestNet: bool) returns (dest: TxDestination)
      ensures dest.CNoDestination? ==> forall d: TxDestination :: !Stores(d, fTestNet, base.Contents())
      ensures !dest.CNoDestination? ==> Stores(dest, fTestNet, base.Contents())
    {
      var valid := IsValid(fTestNet);
      if !valid {
        return CNoDestination;
      }
      StoredIds(fTestNet, base.Contents());
      if base.nVersion == PUBKEY_ADDRESS || base.nVersion == PUBKEY_ADDRESS_TEST {
        return CKeyID(base.vchData);
      } else if base.nVersion == SCRIPT_ADDRESS || base.nVersion == SCRIPT_ADDRESS_TEST {
        return CScriptID(base.vchData);
      }
      return CNoDestination;
    }

    /** GetKeyID: the key stored here; false leaves the caller's key as it was. */
    method GetKeyID(fTestNet: bool, keyID0: seq<byte>) returns (ok: bool, keyID: seq<byte>)
      ensures ok ==> Stores(CKeyID(keyID), fTestNet, base.Contents())
      ensures !ok ==> keyID == keyID0 && forall id :: !Stores(CKeyID(id), fTestNet, base.Contents())
    {
      var valid := IsValid(fTestNet);
      if !valid {
        return false, keyID0;
      }
      StoredIds(fTestNet, base.Contents());
      if base.nVersion == PUBKEY_ADDRESS || base.nVersion == PUBKEY_ADDRESS_TEST {
        return true, base.vchData;
      }
      return false, keyID0;
    }

    method IsScript(fTestNet: bool) returns (r: bool)
      ensures r <==> exists id :: Stores(CScriptID(id), fTestNet, base.Contents())
    {
      var valid := IsValid(fTestNet);
      if !valid {
        return false;
      }
      StoredIds(fTestNet, base.Contents());
      return base.nVersion == SCRIPT_ADDRESS || base.nVersion == SCRIPT_ADDRESS_TEST;
    }
  }

  /** `d` is what Set stores for some destination. */
  ghost predicate StoresSome(testNet: bool, d: Data) {
    exists dest: TxDestination :: Stores(dest, testNet, d)
  }

  /** `d` is what Set stores for `dest`. */
  predicate Stores(dest: TxDestination, testNet: bool, d: Data) {
    !dest.CNoDestination? && dest.Valid() && d == ForDestination(dest, testNet)
  }

  lemma StoredIds(testNet: bool, d: Data)
    ensures Stores(CKeyID(d.data), testNet, d) <==>
      d.version == (if testNet then PUBKEY_ADDRESS_TEST else PUBKEY_ADDRESS) && |d.data| == 20
    ensures Stores(CScriptID(d.data), testNet, d) <==>
      d.version == (if testNet then SCRIPT_ADDRESS_TEST else SCRIPT_ADDRESS) && |d.data| == 20
  {
  }

  /** At most one destination is stored, and on at most one network. */
  lemma StoredOnce(a: TxDestination, b: TxDestination, testNet: bool, testNet': bool, d: Data)
    requires Stores(a, testNet, d) && Stores(b, testNet', d)
    ensures a == b && testNet == testNet'
  {
  }

  /** Through the text of an address and back: still the same destination on the same network. */
  lemma AddressRoundTrip(hash: Hash, dest: TxDestination, testNet: bool)
    requires dest.Valid() && !dest.CNoDestination?
    ensures var text := ToText58(hash, ForDestination(dest, testNet));
      && FromText58(hash, text).Some?
      && Stores(dest, testNet, FromText58(hash, text).value)
  {
    hide ToText58, FromText58;
    ShortFits(hash, ForDestination(dest, testNet));
  }

  /** What the text of an address stands for: one byte for the kind and the network, the twenty
      bytes of the destination, and the checksum. */
  lemma AddressBytes(hash: Hash, dest: TxDestination, testNet: bool)
    requires dest.Valid() && !dest.CNoDestination?
    ensures var version := if dest.CKeyID? then (if testNet then 111 else 0) else (if testNet then 199 else 9);
      var b := [version] + dest.id;
      Decode(ToText58(hash, ForDestination(dest, testNet))) == Some(b + Checksum(hash, b))
  {
    hide Decode, Encode, Checksum;
    DecodedBytes(hash, ForDestination(dest, testNet));
  }

  lemma DecodedBytes(hash: Hash, d: Data)
    requires |d.data| < INT_LIMIT - 10
    ensures var b := [d.version] + d.data; Decode(ToText58(hash, d)) == Some(b + Checksum(hash, b))
  {
    hide Decode, Encode, Checksum;
    var b := [d.version] + d.data;
    DecodeInvertsEncode(b + Checksum(hash, b));
  }

  // ----- CBitcoinSecret -----

  /** What SetSecret stores for a 32-byte secret on a network. */
  function ForSecret(secret: seq<byte>, compressed: bool, testNet: bool): Data {
    Data(if testNet then 239 else 128, secret + if compressed then [1] else [])
  }

  /** `d` is what SetSecret stores for a secret. */
  predicate Keeps(secret: seq<byte>, compressed: bool, testNet: bool, d: Data) {
    |secret| == 32 && d == ForSecret(secret, compressed, testNet)
  }

  lemma KeptSecret(testNet: bool, d: Data)
    requires |d.data| >= 32
    ensures Keeps(d.data[..32], |d.data| == 33, testNet, d) <==>
      d.version == (if testNet then 239 else 128) && (|d.data| == 32 || (|d.data| == 33 && d.data[32] == 1))
  {
    assert d.data == d.data[..32] + d.data[32..];
    if |d.data| == 33 {
      assert d.data[32..] == [d.data[32]];
    } else if |d.data| == 32 {
      assert d.data[32..] == [];
    }
  }

  /** At most one secret is kept, compressed or not, and on at most one network. */
  lemma KeptOnce(a: seq<byte>, compressed: bool, testNet: bool, b: seq<byte>, compressed': bool, testNet': bool, d: Data)
    requires Keeps(a, compressed, testNet, d) && Keeps(b, compressed', testNet', d)
    ensures a == b && compressed == compressed' && testNet == testNet'
  {
    assert a == d.data[..32] && b == d.data[..32];
  }

  /** `d` is what SetSecret stores for some secret. */
  ghost predicate KeepsSecret(testNet: bool, d: Data) {
    exists secret, compressed :: Keeps(secret, compressed, testNet, d)
  }

  class CBitcoinSecret {
    const base: CBase58Data

    constructor ()
      ensures fresh(base) && base.Contents() == NOTHING
    {
      base := new CBase58Data();
    }

    method SetSecret(vchSecret: seq<byte>, fCompressed: bool, fTestNet: bool)
      requires |vchSecret| == 32
      modifies base
      ensures Keeps(vchSecret, fCompressed, fTestNet, base.Contents())
    {
      base.SetData(if fTestNet then 239 else 128, vchSecret);
      if fCompressed {
        base.vchData := base.vchData + [1];
      }
    }

    /** GetSecret undoes SetSecret; it reads 32 bytes, so it needs that many. */
    method GetSecret() returns (vchSecret: seq<byte>, fCompressed: bool)
      requires |base.vchData| >= 32
      ensures forall secret, compressed, testNet :: Keeps(secret, compressed, testNet, base.Contents()) ==>
        secret == vchSecret && compressed == fCompressed
    {
      vchSecret := base.vchData[..32];
      fCompressed := |base.vchData| == 33;
      forall secret, compressed, testNet | Keeps(secret, compressed, testNet, base.Contents())
        ensures secret == vchSecret && compressed == fCompressed
      {
        KeptSecret(testNet, base.Contents());
        assert secret == base.vchData[..32];
      }
    }

    /** Valid means: what SetSecret would store for some secret on this network. */
    method IsValid(fTestNet: bool) returns (r: bool)
      ensures r <==> KeepsSecret(fTestNet, base.Contents())
    {
      var fExpectTestNet := false;
      if |base.vchData| >= 32 {
        KeptSecret(fTestNet, base.Contents());
      }
      if base.nVersion == 128 {
      } else if base.nVersion == 239 {
        fExpectTestNet := true;
      } else {
        return false;
      }
      r := fExpectTestNet == fTestNet && (|base.vchData| == 32 || (|base.vchData| == 33 && base.vchData[32] == 1));
      forall secret, compressed | Keeps(secret, compressed, fTestNet, base.Contents()) ensures r {
        assert base.vchData[..32] == secret;
      }
    }

    method SetString(hash: Hash, pszSecret: string, fTestNet: bool) returns (ok: bool)
      modifies base
      ensures ok <==> FromText58(hash, pszSecret).Some? && KeepsSecret(fTestNet, FromText58(hash, pszSecret).value)
      ensures base.Contents() == if FromText58(hash, pszSecret).Some? then FromText58(hash, pszSecret).value else NOTHING
    {
      hide FromText58, KeepsSecret;
      ok := base.SetString(hash, pszSecret);
      if ok {
        ok := IsValid(fTestNet);
      }
    }
  }

  /** Through the text of a secret and back: the same secret, flag and network. */
  lemma SecretRoundTrip(hash: Hash, secret: seq<byte>, compressed: bool, testNet: bool)
    requires |secret| == 32
    ensures var text := ToText58(hash, ForSecret(secret, compressed, testNet));
      && FromText58(hash, text).Some?
      && Keeps(secret, compressed, testNet, FromText58(hash, text).value)
  {
    hide ToText58, FromText58;
    ShortFits(hash, ForSecret(secret, compressed, testNet));
  }

  /** What the text of a secret stands for: a byte for the network, the secret, a one if the public
      key is compressed, and the checksum. */
  lemma SecretBytes(hash: Hash, secret: seq<byte>, compressed: bool, testNet: bool)
    requires |secret| == 32
    ensures var b := [if testNet then 239 else 128] + secret + (if compressed then [1] else []);
      Decode(ToText58(hash, ForSecret(secret, compressed, testNet))) == Some(b + Checksum(hash, b))
  {
    hide Decode, Encode, Checksum;
    var d := ForSecret(secret, compressed, testNet);
    DecodedBytes(hash, d);
    assert [d.version] + d.data == [if testNet then 239 else 128] + secret + (if compressed then [1] else []);
  }
}
