/** The setters and getters of CBigNum, over their byte buffers. */
module BigNumClass {
  import opened Numerals
  import opened BigNum
  import opened Compact
  import opened Text

  class CBigNum {
    var value: int

    constructor (n: int)
      ensures value == n
    {
      value := n;
    }

    /** One round of the loops of setint64, setuint64 and setuint256. */
    method PutByte(pch: array<byte>, p: nat, fLeadingZeroes: bool, fNegative: bool, c0: byte, ghost ds: seq<byte>)
      returns (p': nat, fLeadingZeroes': bool)
      requires 4 <= p <= pch.Length - 2 && pch[4..p] == Written(fNegative, ds) && (fLeadingZeroes <==> StripBytes(ds) == [])
      modifies pch
      ensures 4 <= p' <= p + 2 && pch[4..p'] == Written(fNegative, ds + [c0])
      ensures fLeadingZeroes' <==> StripBytes(ds + [c0]) == []
    {
      hide Written, StripBytes;
      WrittenStep(fNegative, ds, c0);
      ghost var before := pch[4..p];
      var c := c0;
      p', fLeadingZeroes' := p, fLeadingZeroes;
      if fLeadingZeroes {
        if c == 0 {
          return;
        }
        if c >= 0x80 {
          pch[p'] := if fNegative then 0x80 else 0;
          p' := p' + 1;
        } else if fNegative {
          c := c + 0x80;
        }
        fLeadingZeroes' := false;
      }
      pch[p'] := c;
      p' := p' + 1;
      assert pch[4..p'] == before + pch[p..p'];
    }

    /** The length field, and the call that reads the finished string. */
    method FromMpi(pch: array<byte>, p: nat)
      requires 4 <= p <= pch.Length && p < INT_LIMIT
      modifies this, pch
      ensures value == BodyValue(old(pch[4..p]))
    {
      hide BodyValue, Value, Be32, Mpi2Bn;
      ghost var body := pch[4..p];
      var nSize := p - 4;
      var h := Be32(nSize);
      pch[0], pch[1], pch[2], pch[3] := h[0], h[1], h[2], h[3];
      var d := pch[..p];
      MpiOfBytes(body);
      assert d == h + body && body[..nSize] == body;
      var bn := Mpi2Bn(d);
      if bn.Some? {
        value := bn.value;
      }
    }

    /** setint64: any 64-bit signed integer, the smallest included. */
    method SetInt64(sn: int)
      requires -0x8000_0000_0000_0000 <= sn < 0x8000_0000_0000_0000
      modifies this
      ensures value == sn
    {
      hide Written, StripBytes, Value, Pow, Strip, Signed, BodyValue, Abs, Shifted, ShiftOut;
      var pch := new byte[14](_ => 0);
      var p: nat := 4;
      var fNegative: bool;
      var n: nat;
      if sn < 0 {
        n := -(sn + 1);
        n := n + 1;
        fNegative := true;
      } else {
        n := sn;
        fNegative := false;
      }
      Pow256();
      ghost var ds := Padded(n, 8);
      var fLeadingZeroes := true;
      var i: nat := 0;
      NothingYet(fNegative, ds);
      while i < 8
        invariant i <= 8 && fresh(pch) && n == Shifted(ds, i) && 4 <= p
        invariant p <= pch.Length && pch[4..p] == Written(fNegative, ds[..i])
        invariant fLeadingZeroes <==> StripBytes(ds[..i]) == []
      {
        ShiftedStep(ds, i);
        WrittenStep(fNegative, ds[..i], 0);
        var (top, rest) := ShiftOut(n);
        var c: byte := top;
        n := rest;
        p, fLeadingZeroes := PutByte(pch, p, fLeadingZeroes, fNegative, c, ds[..i]);
        i := i + 1;
      }
      assert ds[..8] == ds;
      assert Value(256, ds) == Abs(sn) by { AbsIs(sn); }
      SetsTo(sn, ds);
      FromMpi(pch, p);
    }

    /** setuint64 */
    method SetUInt64(n0: nat)
      requires n0 < WORD64
      modifies this
      ensures value == n0
    {
      hide Written, StripBytes, Value, Pow, Strip, Signed, BodyValue, Abs, Shifted, ShiftOut;
      var pch := new byte[14](_ => 0);
      var p: nat := 4;
      var n := n0;
      Pow256();
      ghost var ds := Padded(n, 8);
      var fLeadingZeroes := true;
      var i: nat := 0;
      NothingYet(false, ds);
      while i < 8
        invariant i <= 8 && fresh(pch) && n == Shifted(ds, i) && 4 <= p
        invariant p <= pch.Length && pch[4..p] == Written(false, ds[..i])
        invariant fLeadingZeroes <==> StripBytes(ds[..i]) == []
      {
        ShiftedStep(ds, i);
        WrittenStep(false, ds[..i], 0);
        var (top, rest) := ShiftOut(n);
        var c: byte := top;
        n := rest;
        p, fLeadingZeroes := PutByte(pch, p, fLeadingZeroes, false, c, ds[..i]);
        i := i + 1;
      }
      assert ds[..8] == ds;
      SetsToNat(n0, ds);
      FromMpi(pch, p);
    }

    /** setuint256, from the 32 bytes of a uint256 in memory, least significant first. */
    method SetUInt256(n: seq<byte>)
      requires |n| == 32
      modifies this
      ensures value == Value(256, Reverse(n))
    {
      hide Written, StripBytes, Value, Reverse, Strip, Signed, BodyValue;
      var pch := new byte[38](_ => 0);
      var p: nat := 4;
      var fLeadingZeroes := true;
      ghost var ds := Reverse(n);
      var psrc: nat := 32;
      ghost var k: nat := 0;
      NothingYet(false, ds);
      while psrc != 0
        invariant k + psrc == 32 && fresh(pch) && 4 <= p
        invariant p <= pch.Length && pch[4..p] == Written(false, ds[..k])
        invariant fLeadingZeroes <==> StripBytes(ds[..k]) == []
        decreases psrc
      {
        WrittenStep(false, ds[..k], 0);
        psrc := psrc - 1;
        NextReversed(n, ds, k, psrc);
        p, fLeadingZeroes := PutByte(pch, p, fLeadingZeroes, false, n[psrc], ds[..k]);
        k := k + 1;
      }
      assert ds[..k] == ds;
      SetsToNat(Value(256, ds), ds);
      FromMpi(pch, p);
    }

    /** getuint256: the 32 low bytes of the magnitude, least significant first. */
    method GetUInt256() returns (n: array<byte>)
      ensures fresh(n) && n.Length == 32
      ensures Value(256, Reverse(n[..])) == Abs(value) % Pow(256, 32)
    {
      hide Value, Pow, Signed, Be32, Reverse, Mpi, MpiMagnitude;
      n := new byte[32](_ => 0);
      var vch := Mpi(value);
      ghost var m := MpiMagnitude(value);
      ClearedSign(vch);
      if |vch| > 4 {
        vch := vch[4 := vch[4] % 0x80];
      }
      assert forall k :: 0 <= k < |m| ==> m[k] == vch[k + 4];
      var i, j := 0, |vch| - 1;
      while i < 32 && j >= 4
        invariant 0 <= i <= 32 && j == |vch| - 1 - i && 3 <= j
        invariant forall k :: 0 <= k < i ==> n[k] == m[|m| - 1 - k]
        invariant forall k :: i <= k < 32 ==> n[k] == 0
      {
        n[i] := vch[j];
        i, j := i + 1, j - 1;
      }
      LowWord(m, n[..]);
    }

    /** setvch: little-endian bytes with a sign bit, as many of the most significant ones as
        the narrowed length lets through; when it lets none through nothing changes. */
    method SetVch(vch: seq<byte>)
      modifies this
      ensures value == match FromVch(vch) { case None => old(value) case Some(x) => x }
    {
      hide BodyValue, Value, Be32, Mpi2Bn;
      MpiOfBytes(Reverse(vch));
      var h := Be32(|vch|);
      var d := h + Reverse(vch);
      var bn := Mpi2Bn(d);
      if bn.Some? {
        value := bn.value;
      }
    }

    /** getvch */
    method GetVch() returns (vch: seq<byte>)
      ensures vch == ToVch(value)
    {
      hide Be32, Signed;
      var d := Mpi(value);
      if |d| <= 4 {
        return [];
      }
      d := d[4..];
      return Reverse(d);
    }

    // ----- the compact format -----

    method SetCompact(nCompact: nat)
      requires nCompact < WORD
      modifies this
      ensures value == FromCompact(nCompact)
    {
      hide Pow;
      var nSize := nCompact / EXPONENT;
      var fNegative := nCompact / SIGN % 2 == 1;
      var nWord := nCompact % SIGN;
      if nSize <= 3 {
        nWord := nWord / Pow(256, 3 - nSize);
        value := nWord;
      } else {
        value := nWord;
        value := value * Pow(256, nSize - 3);
      }
      value := WithSign(fNegative, value);
    }

    method GetCompact() returns (nCompact: nat)
      ensures nCompact == ToCompact(value)
      ensures nCompact < WORD
    {
      hide Pow, NumBytes;
      var nSize := NumBytes(Abs(value));
      LeadingBounds(Abs(value));
      if nSize <= 3 {
        nCompact := Abs(value) * Pow(256, 3 - nSize);
      } else {
        nCompact := Abs(value) / Pow(256, nSize - 3);
      }
      assert nCompact == Leading(Abs(value));
      if nCompact >= SIGN {
        nCompact := nCompact / 256;
        nSize := nSize + 1;
      }
      FromToCompact(value);
      nCompact := nCompact + nSize * EXPONENT % WORD;
      nCompact := nCompact + if value < 0 then SIGN else 0;
    }

    // ----- text -----

    method ToString(nBase: nat) returns (str: string)
      requires 2 <= nBase <= 16
      ensures str == ToText(value, nBase)
    {
      hide Digits, Chars, Reverse, BnDiv;
      var bn: nat := Abs(value);
      if bn == 0 {
        return "0";
      }
      DigitsIn16(nBase, Digits(nBase, bn));
      ghost var all := Chars(Digits(nBase, bn));
      NoCharsLeft(nBase);
      str := "";
      while bn > 0
        invariant DigitsIn(16, Digits(nBase, bn))
        invariant all == Chars(Digits(nBase, bn)) + Reverse(str)
        decreases bn
      {
        CharsStep(nBase, bn);
        var (q, c) := BnDiv(bn, nBase);
        ReverseSnoc(str, HEX[c]);
        SnocAsCons(Chars(Digits(nBase, q)), HEX[c], Reverse(str));
        bn := q;
        str := str + [HEX[c]];
      }
      assert all == Reverse(str);
      if value < 0 {
        ReverseSnoc(str, '-');
        str := str + "-";
      }
      str := Reverse(str);
    }

    method SetHex(str: string)
      modifies this
      ensures value == ReadHex(str)
    {
      hide SkipSpaces, HexFrom;
      var psz := PastSpaces(str, 0);
      var fNegative := false;
      if At(str, psz) == '-' {
        fNegative := true;
        psz := psz + 1;
      }
      if At(str, psz) == '0' && (At(str, psz + 1) == 'x' || At(str, psz + 1) == 'X') {
        psz := psz + 2;
      }
      psz := PastSpaces(str, psz);
      value := 0;
      ghost var start := psz;
      while IsHexDigit(At(str, psz))
        invariant value >= 0 && HexFrom(str, psz, value) == HexFrom(str, start, 0)
        decreases if psz < |str| then |str| - psz else 0
      {
        HexFromStep(str, psz, value);
        value := value * 16;
        var n := HexDigit(At(str, psz));
        psz := psz + 1;
        value := value + n;
      }
      HexFromEnd(str, psz, value);
      if fNegative {
        value := 0 - value;
      }
    }
  }
}
