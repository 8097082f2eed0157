/** EncodeBase58 and DecodeBase58: the loops over a bignum, a string and a byte vector. */
module Base58Ops {
  import opened Options
  import opened Numerals
  import opened BigNum
  import opened BigNumClass
  import opened Text
  import opened Base58
  import Base58Size

  /** The extra zero byte makes setvch read a positive number. */
  lemma ReadsNumber(b: seq<byte>)
    ensures (match FromVch(Reverse(b) + [0]) case None => 0 case Some(x) => x) == Number(b)
  {
    hide Value, BodyValue, Reverse;
    ReversedBack(b);
    var r := BytesRead(|b| + 1);
    if r.Some? {
      PrefixOfPadded(b, r.value);
      PositiveBody(([0] + b)[..r.value]);
    }
  }

  lemma ReversedBack(b: seq<byte>)
    ensures Reverse(Reverse(b) + [0]) == [0] + b
  {
    hide Reverse;
    ReverseSnoc(Reverse(b), 0);
    ReverseTwice(b);
  }

  lemma PrefixOfPadded(b: seq<byte>, r: nat)
    requires r <= |b| + 1
    ensures r > 0 ==> ([0] + b)[..r] != [] && ([0] + b)[..r][0] == 0 && ([0] + b)[..r][1..] == b[..r - 1]
  {
  }

  lemma PositiveBody(body: seq<byte>)
    requires body != [] ==> body[0] == 0
    ensures BodyValue(body) == if body == [] then 0 else Value(256, body[1..])
  {
    hide Value;
    if body == [] {
      EmptyValue(256);
    } else {
      assert Magnitude(body) == Zeros(1) + body[1..];
      LeadingZeros(256, 1, body[1..]);
    }
  }

  lemma OneDigit(v: nat)
    requires v > 0
    ensures var (q, d) := BnDiv(v, 58);
      q < v && d < 58 && Chars58(Digits(58, v)) == Chars58(Digits(58, q)) + [ALPHABET[d]]
  {
    DivSmaller(v, 58);
  }

  method EncodeBase58(b: seq<byte>) returns (str: string)
    ensures str == Encode(b)
    ensures |str| <= |b| * 138 / 100 + 1
  {
    hide Digits, Value, BodyValue, Chars58, LeadingCount, Reverse, BytesRead, Number, Ones, BnDiv;
    var vchTmp: seq<byte> := Reverse(b) + [0];
    var bn := new CBigNum(0);
    bn.SetVch(vchTmp);
    ReadsNumber(b);
    ghost var chars := Chars58(Digits(58, bn.value));
    NoDigitsOfZero();
    str := "";
    while bn.value > 0
      invariant bn.value >= 0
      invariant Chars58(Digits(58, bn.value)) + Reverse(str) == chars
      decreases bn.value
    {
      WriteDigit(bn.value, str, chars);
      var (dv, rem) := BnDiv(bn.value, 58);
      bn.value := dv;
      str := str + [ALPHABET[rem]];
    }
    assert Reverse(str) == chars;
    var p := 0;
    OnesBefore(0, chars);
    while p < |b| && b[p] == 0
      invariant 0 <= p <= |b| && (forall i :: 0 <= i < p ==> b[i] == 0)
      invariant Reverse(str) == Ones(p) + chars
    {
      WriteOne(p, str, chars);
      str := str + [ALPHABET[0]];
      p := p + 1;
    }
    LeadingIs(b, p);
    str := Reverse(str);
    Base58Size.EncodedLength(b);
  }

  /** A digit written at the end of `str` comes before the digits written so far. */
  lemma WriteDigit(v: nat, str: string, chars: string)
    requires v > 0 && Chars58(Digits(58, v)) + Reverse(str) == chars
    ensures var (q, d) := BnDiv(v, 58);
      q < v && d < 58 && Chars58(Digits(58, q)) + Reverse(str + [ALPHABET[d]]) == chars
  {
    hide Digits, Chars58, Reverse, BnDiv;
    OneDigit(v);
    var (q, d) := BnDiv(v, 58);
    ReverseSnoc(str, ALPHABET[d]);
    SnocAsCons(Chars58(Digits(58, q)), ALPHABET[d], Reverse(str));
  }

  lemma WriteOne(p: nat, str: string, chars: string)
    requires Reverse(str) == Ones(p) + chars
    ensures Reverse(str + [ALPHABET[0]]) == Ones(p + 1) + chars
  {
    hide Reverse, Ones;
    OnesBefore(p, chars);
    ReverseSnoc(str, '1');
  }

  lemma OnesBefore(p: nat, chars: string)
    ensures Ones(0) + chars == chars && ['1'] + (Ones(p) + chars) == Ones(p + 1) + chars && ALPHABET[0] == '1'
  {
  }

  lemma NoDigitsOfZero()
    ensures Digits(58, 0) == [] && Chars58([]) == "" && Reverse<char>("") == ""
    ensures forall s: string :: Chars58([]) + s == s
  {
  }

  lemma LeadingIs(b: seq<byte>, p: nat)
    requires p <= |b| && (forall i :: 0 <= i < p ==> b[i] == 0) && (p < |b| ==> b[p] != 0)
    ensures LeadingCount(b) == p
  {
    hide LeadingCount;
  }

  /** The sign byte getvch adds to a positive number is the one the trim takes off. */
  lemma TrimmedSign(v: nat, vchTmp: seq<byte>)
    requires vchTmp == ToVch(v)
    ensures var n := |vchTmp|;
      Reverse(if n >= 2 && vchTmp[n - 1] == 0 && vchTmp[n - 2] >= 0x80 then vchTmp[..n - 1] else vchTmp) == Bytes(v)
  {
    hide Digits, Reverse;
    var m := Bytes(v);
    ReverseTwice(m);
    if m != [] && m[0] >= 0x80 {
      assert Signed(false, m) == [0] + m;
      assert vchTmp == Reverse(m) + [0];
      assert vchTmp[..|vchTmp| - 1] == Reverse(m);
    }
  }

  /** The end of DecodeBase58: a zero byte for every leading '1', then the bytes, big-endian. */
  method RestoreZeros(s: string, psz: nat, vchTmp: seq<byte>) returns (vchRet: seq<byte>)
    ensures vchRet == ZeroBytes(OnesFrom(s, psz)) + Reverse(vchTmp)
  {
    hide OnesFrom, ZeroBytes, Reverse;
    var nLeadingZeros: nat := 0;
    var p := psz;
    while At(s, p) == ALPHABET[0]
      invariant nLeadingZeros + OnesFrom(s, p) == OnesFrom(s, psz)
      decreases if p < |s| then |s| - p else 0
    {
      OneMore(s, p);
      nLeadingZeros, p := nLeadingZeros + 1, p + 1;
    }
    NoMoreOnes(s, p);
    vchRet := ZeroBytes(nLeadingZeros + |vchTmp|);
    ZerosKept(vchRet, nLeadingZeros);
    vchRet := vchRet[..|vchRet| - |vchTmp|] + Reverse(vchTmp);
  }

  method DecodeBase58(psz0: string) returns (ok: bool, vchRet: seq<byte>)
    ensures ok <==> Decode(psz0).Some?
    ensures vchRet == if ok then Decode(psz0).value else []
  {
    hide SkipSpaces, Digits, ToVch, Index58, Reverse, OnesFrom, ParseFrom, Decode, ZeroBytes;
    vchRet := [];
    var bn := new CBigNum(0);
    var psz := PastSpaces(psz0, 0);
    var p := psz;
    while At(psz0, p) != '\0'
      invariant bn.value >= 0 && ParseFrom(psz0, p, bn.value) == ParseFrom(psz0, psz, 0)
      decreases if p < |psz0| then |psz0| - p else 0
    {
      ParseStep(psz0, p, bn.value);
      var p1 := Index58(At(psz0, p));
      if p1 < 0 {
        p := PastSpaces(psz0, p);
        if At(psz0, p) != '\0' {
          DecodeIs(psz0);
          return false, [];
        }
        break;
      }
      bn.value := bn.value * 58;
      bn.value := bn.value + p1;
      p := p + 1;
    }
    ParseStep(psz0, p, bn.value);
    assert ParseFrom(psz0, psz, 0) == Some(bn.value);
    var v: nat := bn.value;
    var vchTmp := bn.GetVch();
    TrimmedSign(v, vchTmp);
    var n := |vchTmp|;
    if n >= 2 && vchTmp[n - 1] == 0 && vchTmp[n - 2] >= 0x80 {
      vchTmp := vchTmp[..n - 1];
    }
    vchRet := RestoreZeros(psz0, psz, vchTmp);
    DecodeIs(psz0);
    ok := true;
  }

  lemma ZerosKept(all: seq<byte>, z: nat)
    requires all == ZeroBytes(|all|) && z <= |all|
    ensures all[..z] == ZeroBytes(z)
  {
  }

  lemma DecodeIs(s: string)
    ensures var psz := SkipSpaces(s, 0); var v := ParseFrom(s, psz, 0);
      Decode(s) == if v.Some? then Some(ZeroBytes(OnesFrom(s, psz)) + Bytes(v.value)) else None
  {
  }

  lemma ParseStep(s: string, p: nat, v: nat)
    ensures ParseFrom(s, p, v) ==
      if At(s, p) == '\0' then Some(v)
      else if Index58(At(s, p)) >= 0 then ParseFrom(s, p + 1, v * 58 + Index58(At(s, p)))
      else if At(s, SkipSpaces(s, p)) == '\0' then Some(v) else None
  {
    hide FindFrom, SkipSpaces;
  }

  lemma OneMore(s: string, i: nat)
    requires At(s, i) == '1'
    ensures OnesFrom(s, i) == OnesFrom(s, i + 1) + 1
  {
  }

  lemma NoMoreOnes(s: string, i: nat)
    requires At(s, i) != '1'
    ensures OnesFrom(s, i) == 0
  {
  }
}
