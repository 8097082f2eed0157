/** CBloomFilter: a set of bits that only grows, and what transactions it lets through. */
module Bloom {
  import opened Options
  import opened Numerals
  import opened BigNum

  type Bytes = seq<byte>

  /** MurmurHash3 with a seed, as a number. */
  type Murmur = (nat, Bytes) -> nat

  // ----- bits -----

  function BitMask(k: nat): bv8
    requires k < 8
  {
    match k
    case 0 => 0x01 case 1 => 0x02 case 2 => 0x04 case 3 => 0x08
    case 4 => 0x10 case 5 => 0x20 case 6 => 0x40 case _ => 0x80
  }

  predicate BitAt(v: seq<bv8>, n: nat)
    requires n < |v| * 8
  {
    v[n / 8] & BitMask(n % 8) != 0
  }

  function SetBit(v: seq<bv8>, n: nat): (w: seq<bv8>)
    requires n < |v| * 8
    ensures |w| == |v|
  {
    v[n / 8 := v[n / 8] | BitMask(n % 8)]
  }

  /** The bits that are set. */
  ghost function Bits(v: seq<bv8>): (s: set<nat>)
    ensures forall n: nat :: n in s <==> n < |v| * 8 && BitAt(v, n)
  {
    set n: nat | n < |v| * 8 && BitAt(v, n)
  }

  lemma MaskedBits(x: bv8, i: nat, j: nat)
    requires i < 8 && j < 8
    ensures (x | BitMask(i)) & BitMask(j) != 0 <==> x & BitMask(j) != 0 || i == j
  {
  }

  lemma SetBitAt(v: seq<bv8>, n: nat, m: nat)
    requires n < |v| * 8 && m < |v| * 8
    ensures BitAt(SetBit(v, n), m) <==> BitAt(v, m) || m == n
  {
    hide BitMask, BitAt, SetBit;
    var p, i := Place(n);
    var q, j := Place(m);
    BitInByte(v, n, p, i);
    BitInByte(v, m, q, j);
    BitInByte(SetBit(v, n), m, q, j);
    SetBitIn(v, p, i, q, j);
    SameBit(n, m, p, i, q, j);
  }

  lemma Place(n: nat) returns (p: nat, i: nat)
    ensures n == p * 8 + i && i < 8
  {
    p, i := n / 8, n % 8;
  }

  lemma BitInByte(v: seq<bv8>, n: nat, p: nat, i: nat)
    requires n == p * 8 + i && i < 8 && n < |v| * 8
    ensures p < |v| && (BitAt(v, n) <==> v[p] & BitMask(i) != 0) && SetBit(v, n) == v[p := v[p] | BitMask(i)]
  {
    hide BitMask;
    assert n / 8 == p && n % 8 == i;
  }

  lemma SameBit(n: nat, m: nat, p: nat, i: nat, q: nat, j: nat)
    requires n == p * 8 + i && m == q * 8 + j && i < 8 && j < 8
    ensures n == m <==> p == q && i == j
  {
  }

  lemma SetBitIn(v: seq<bv8>, p: nat, i: nat, q: nat, j: nat)
    requires p < |v| && q < |v| && i < 8 && j < 8
    ensures v[p := v[p] | BitMask(i)][q] & BitMask(j) != 0 <==> v[q] & BitMask(j) != 0 || (p == q && i == j)
  {
    hide BitMask;
    MaskedBits(v[p], i, j);
  }

  lemma SetBitSets(v: seq<bv8>, n: nat)
    requires n < |v| * 8
    ensures Bits(SetBit(v, n)) == Bits(v) + {n}
  {
    hide BitAt, SetBit;
    forall m: nat | m < |v| * 8 ensures BitAt(SetBit(v, n), m) <==> BitAt(v, m) || m == n {
      SetBitAt(v, n, m);
    }
  }

  /** A filter of one byte with every bit set. */
  predicate Saturated(v: seq<bv8>) {
    |v| == 1 && v[0] == 0xff
  }

  lemma AllBitsSet(v: seq<bv8>, n: nat)
    requires Saturated(v) && n < 8
    ensures n in Bits(v)
  {
    assert 0xff & BitMask(n) != 0;
  }

  // ----- the filter -----

  datatype Filter = Filter(vData: seq<bv8>, nHashFuncs: nat, nTweak: nat, nFlags: nat) {
    /** A filter without bytes can only be used without hash functions. */
    predicate Usable() {
      |vData| > 0 || nHashFuncs == 0
    }
  }

  function Index(murmur: Murmur, f: Filter, i: nat, key: Bytes): (n: nat)
    requires |f.vData| > 0
    ensures n < |f.vData| * 8
  {
    murmur((i * 0xFBA4C795 + f.nTweak) % WORD, key) % (|f.vData| * 8)
  }

  /** The bits of the first `k` hash functions for a key. */
  ghost function KeyBits(murmur: Murmur, f: Filter, k: nat, key: Bytes): (s: set<nat>)
    requires |f.vData| > 0
    ensures forall n: nat :: n in s <==> exists i: nat :: i < k && Index(murmur, f, i, key) == n
    ensures forall i: nat :: i < k ==> Index(murmur, f, i, key) in s
  {
    set i: nat | i < k :: Index(murmur, f, i, key)
  }

  /** Every hash of the key hits a bit that is set. */
  predicate Contains(murmur: Murmur, f: Filter, key: Bytes)
    requires f.Usable()
  {
    forall i: nat :: i < f.nHashFuncs ==> BitAt(f.vData, Index(murmur, f, i, key))
  }

  function SetFrom(murmur: Murmur, f: Filter, i: nat, key: Bytes): (g: Filter)
    requires f.Usable()
    ensures |g.vData| == |f.vData| && g == f.(vData := g.vData)
    decreases if i < f.nHashFuncs then f.nHashFuncs - i else 0
  {
    if i >= f.nHashFuncs then f
    else SetFrom(murmur, f.(vData := SetBit(f.vData, Index(murmur, f, i, key))), i + 1, key)
  }

  function Insert(murmur: Murmur, f: Filter, key: Bytes): (g: Filter)
    requires f.Usable()
    ensures |g.vData| == |f.vData| && g == f.(vData := g.vData)
  {
    if Saturated(f.vData) then f else SetFrom(murmur, f, 0, key)
  }

  ghost function FilterBits(f: Filter): set<nat> {
    Bits(f.vData)
  }

  /** All the bits a key needs. */
  ghost function Needs(murmur: Murmur, f: Filter, key: Bytes): set<nat>
    requires f.Usable()
  {
    if |f.vData| == 0 then {} else KeyBits(murmur, f, f.nHashFuncs, key)
  }

  /** A key is contained exactly when all its bits are set. */
  lemma ContainsMeans(murmur: Murmur, f: Filter, key: Bytes)
    requires f.Usable()
    ensures Contains(murmur, f, key) <==> Needs(murmur, f, key) <= FilterBits(f)
  {
    hide BitAt, Index;
  }

  lemma {:induction false} SetFromBits(murmur: Murmur, f: Filter, i: nat, key: Bytes)
    requires |f.vData| > 0
    ensures FilterBits(SetFrom(murmur, f, i, key))
      == FilterBits(f) + set j: nat | i <= j < f.nHashFuncs :: Index(murmur, f, j, key)
    decreases if i < f.nHashFuncs then f.nHashFuncs - i else 0
  {
    hide SetBit, Bits, Index;
    if i < f.nHashFuncs {
      var n := Index(murmur, f, i, key);
      var g := f.(vData := SetBit(f.vData, n));
      SetBitSets(f.vData, n);
      SetFromBits(murmur, g, i + 1, key);
      SameIndex(murmur, f, g, key);
      FirstIndex(murmur, f, g, i, key);
    }
  }

  lemma SameIndex(murmur: Murmur, f: Filter, g: Filter, key: Bytes)
    requires |f.vData| == |g.vData| > 0 && g == f.(vData := g.vData)
    ensures forall j: nat :: Index(murmur, g, j, key) == Index(murmur, f, j, key)
  {
  }

  lemma FirstIndex(murmur: Murmur, f: Filter, g: Filter, i: nat, key: Bytes)
    requires |f.vData| == |g.vData| > 0 && i < f.nHashFuncs == g.nHashFuncs
    requires forall j: nat :: Index(murmur, g, j, key) == Index(murmur, f, j, key)
    ensures (set j: nat | i <= j < f.nHashFuncs :: Index(murmur, f, j, key))
         == {Index(murmur, f, i, key)} + set j: nat | i + 1 <= j < g.nHashFuncs :: Index(murmur, g, j, key)
  {
    hide Index;
  }

  /** Inserting a key sets its bits and no others; a saturated filter has them all already. */
  lemma InsertSets(murmur: Murmur, f: Filter, key: Bytes)
    requires f.Usable()
    ensures FilterBits(Insert(murmur, f, key)) == FilterBits(f) + Needs(murmur, f, key)
  {
    hide Bits, SetFrom, Index;
    if |f.vData| > 0 {
      if Saturated(f.vData) {
        forall i: nat | i < f.nHashFuncs ensures Index(murmur, f, i, key) in FilterBits(f) {
          AllBitsSet(f.vData, Index(murmur, f, i, key));
        }
      } else {
        SetFromBits(murmur, f, 0, key);
      }
    }
  }

  // ----- scripts and transactions -----

  const OP_PUSHDATA1 := 0x4c
  const OP_PUSHDATA2 := 0x4d
  const OP_PUSHDATA4 := 0x4e

  /** A number stored least significant byte first. */
  function LittleEndian(b: Bytes): nat {
    if b == [] then 0 else b[0] + LittleEndian(b[1..]) * 256
  }

  /** GetOp at `pc`: the data of the instruction there, and where the next one starts. */
  function GetOp(script: Bytes, pc: nat): (r: Option<(Bytes, nat)>)
    ensures r.Some? ==> pc < r.value.1 <= |script|
  {
    if pc >= |script| then None else
    var opcode := script[pc];
    if opcode > OP_PUSHDATA4 then Some(([], pc + 1)) else
    var width := if opcode < OP_PUSHDATA1 then 0 else if opcode == OP_PUSHDATA1 then 1
      else if opcode == OP_PUSHDATA2 then 2 else 4;
    var start := pc + 1 + width;
    if start > |script| then None else
    var size := if width == 0 then opcode else LittleEndian(script[pc + 1..start]);
    if start + size > |script| then None else Some((script[start..start + size], start + size))
  }

  /** The bytes of one instruction, and the data it pushes: after its own length, after a length
      of one, two or four bytes, or none for an opcode that pushes nothing. */
  ghost predicate Instruction(bs: Bytes, data: Bytes) {
    var n := |data|;
    || (n == 0 && |bs| == 1 && bs[0] > OP_PUSHDATA4)
    || (n < OP_PUSHDATA1 && bs == [n] + data)
    || (n < 0x100 && bs == [OP_PUSHDATA1, n] + data)
    || (|bs| == n + 3 && bs[0] == OP_PUSHDATA2 && LittleEndian(bs[1..3]) == n && bs[3..] == data)
    || (|bs| == n + 5 && bs[0] == OP_PUSHDATA4 && LittleEndian(bs[1..5]) == n && bs[5..] == data)
  }

  /** GetOp reads an instruction exactly where one is written. */
  lemma GetOpMeans(script: Bytes, pc: nat, data: Bytes, next: nat)
    ensures GetOp(script, pc) == Some((data, next)) <==> pc < next <= |script| && Instruction(script[pc..next], data)
  {
    hide LittleEndian;
    if pc < next <= |script| {
      ReadInstruction(script, pc, data, next);
    }
  }

  lemma SliceOfSlice(s: Bytes, a: nat, b: nat, i: nat, j: nat)
    requires a <= b <= |s| && i <= j <= b - a
    ensures s[a..b][i..j] == s[a + i..a + j]
  {
    forall k | 0 <= k < j - i ensures s[a..b][i..j][k] == s[a + i..a + j][k] {
      assert s[a..b][i + k] == s[a + (i + k)];
    }
  }

  lemma ReadInstruction(script: Bytes, pc: nat, data: Bytes, next: nat)
    requires pc < next <= |script|
    ensures GetOp(script, pc) == Some((data, next)) <==> Instruction(script[pc..next], data)
  {
    hide LittleEndian, GetOp, Instruction;
    var bs, n := script[pc..next], next - pc;
    if script[pc] > OP_PUSHDATA4 {
      NoPush(script, pc, data, next);
    } else {
      var w := LengthBytes(script[pc]);
      GetOpIs(script, pc, data, next, w);
      InstructionIs(bs, data, w);
      if n >= 1 + w {
        SliceOfSlice(script, pc, next, 1, 1 + w);
        SliceOfSlice(script, pc, next, 1 + w, n);
        assert bs[1 + w..n] == bs[1 + w..];
      }
    }
  }

  /** The number of bytes an opcode's length takes after it. */
  function LengthBytes(opcode: byte): nat {
    if opcode < OP_PUSHDATA1 then 0 else if opcode == OP_PUSHDATA1 then 1 else if opcode == OP_PUSHDATA2 then 2 else 4
  }

  lemma NoPush(script: Bytes, pc: nat, data: Bytes, next: nat)
    requires pc < next <= |script| && script[pc] > OP_PUSHDATA4
    ensures GetOp(script, pc) == Some((data, next)) <==> next == pc + 1 && data == []
    ensures Instruction(script[pc..next], data) <==> next == pc + 1 && data == []
  {
    hide LittleEndian;
    assert script[pc..next][0] == script[pc];
  }

  lemma GetOpIs(script: Bytes, pc: nat, data: Bytes, next: nat, w: nat)
    requires pc < next <= |script| && script[pc] <= OP_PUSHDATA4 && w == LengthBytes(script[pc])
    ensures GetOp(script, pc) == Some((data, next)) <==>
      (pc + 1 + w <= next && script[pc + 1 + w..next] == data
       && |data| == if w == 0 then script[pc] else LittleEndian(script[pc + 1..pc + 1 + w]))
  {
    hide LittleEndian;
  }

  lemma InstructionIs(bs: Bytes, data: Bytes, w: nat)
    requires bs != [] && bs[0] <= OP_PUSHDATA4 && w == LengthBytes(bs[0])
    ensures Instruction(bs, data) <==>
      (1 + w <= |bs| && bs[1 + w..] == data && |data| == if w == 0 then bs[0] else LittleEndian(bs[1..1 + w]))
  {
    hide LittleEndian;
    if w == 0 {
      assert bs == [bs[0]] + bs[1..];
      assert ([|data|] + data)[1..] == data;
    } else if w == 1 && |bs| >= 2 {
      OneByte(bs, 1);
      assert bs == [bs[0], bs[1]] + bs[2..];
      assert ([bs[0], |data|] + data)[2..] == data;
    }
  }

  lemma OneByte(script: Bytes, i: nat)
    requires i < |script|
    ensures LittleEndian(script[i..i + 1]) == script[i]
  {
    assert script[i..i + 1][1..] == [];
  }

  /** `data` is what an instruction of the script pushes, before the first that cannot be read. */
  predicate Pushes(script: Bytes, pc: nat, data: Bytes)
    decreases if pc < |script| then |script| - pc else 0
  {
    match GetOp(script, pc)
    case None => false
    case Some((d, next)) => d == data || Pushes(script, next, data)
  }

  datatype OutPoint = OutPoint(hash: Bytes, n: nat)

  /** An outpoint as it lies in memory. */
  function Serialized(o: OutPoint): Bytes {
    o.hash + [o.n % 256, o.n / 256 % 256, o.n / 0x1_0000 % 256, o.n / 0x100_0000 % 256]
  }

  datatype TxIn = TxIn(prevout: OutPoint, scriptSig: Bytes)

  datatype Tx = Tx(vin: seq<TxIn>, vout: seq<Bytes>)

  const BLOOM_UPDATE_ALL := 1
  const BLOOM_UPDATE_P2PUBKEY_ONLY := 2

  /** What is not modelled: the hash, and which scripts Solver takes for pay-to-pubkey or multisig. */
  datatype Env = Env(murmur: Murmur, paysPubKey: Bytes -> bool)

  // ----- relevance -----

  /** Some instruction from `pc` on pushes data that the filter contains. */
  predicate MatchesFrom(e: Env, f: Filter, script: Bytes, pc: nat)
    requires f.Usable()
    decreases if pc < |script| then |script| - pc else 0
  {
    match GetOp(script, pc)
    case None => false
    case Some((d, next)) => (d != [] && Contains(e.murmur, f, d)) || MatchesFrom(e, f, script, next)
  }

  predicate Matches(e: Env, f: Filter, script: Bytes)
    requires f.Usable()
  {
    MatchesFrom(e, f, script, 0)
  }

  lemma {:induction false} MatchesMeans(e: Env, f: Filter, script: Bytes, pc: nat)
    requires f.Usable()
    ensures MatchesFrom(e, f, script, pc) <==> exists d :: Pushes(script, pc, d) && d != [] && Contains(e.murmur, f, d)
    decreases if pc < |script| then |script| - pc else 0
  {
    hide Contains, GetOp;
    match GetOp(script, pc)
    case None =>
    case Some((d, next)) =>
      MatchesMeans(e, f, script, next);
      if MatchesFrom(e, f, script, next) {
        var d' :| Pushes(script, next, d') && d' != [] && Contains(e.murmur, f, d');
        assert Pushes(script, pc, d');
      }
      assert Pushes(script, pc, d);
  }

  /** Whether a matched output's outpoint is added. */
  predicate Updates(e: Env, f: Filter, script: Bytes) {
    f.nFlags % 4 == BLOOM_UPDATE_ALL || (f.nFlags % 4 == BLOOM_UPDATE_P2PUBKEY_ONLY && e.paysPubKey(script))
  }

  /** The filter after the outputs before `k`. */
  function AfterOutputs(e: Env, f: Filter, tx: Tx, hash: Bytes, k: nat): (g: Filter)
    requires f.Usable() && k <= |tx.vout|
    ensures g == f.(vData := g.vData) && g.Usable() && |g.vData| == |f.vData|
  {
    if k == 0 then f else
    var g := AfterOutputs(e, f, tx, hash, k - 1);
    var script := tx.vout[k - 1];
    if Matches(e, g, script) && Updates(e, f, script)
    then Insert(e.murmur, g, Serialized(OutPoint(hash, k - 1))) else g
  }

  predicate InputMatches(e: Env, f: Filter, txin: TxIn)
    requires f.Usable()
  {
    Contains(e.murmur, f, Serialized(txin.prevout)) || Matches(e, f, txin.scriptSig)
  }

  /** A transaction is relevant when the filter contains its hash, data pushed by one of its
      outputs, an outpoint it spends, or data pushed by one of its inputs. */
  predicate Relevant(e: Env, f: Filter, tx: Tx, hash: Bytes)
    requires f.Usable()
  {
    || Contains(e.murmur, f, hash)
    || (exists k :: 0 <= k < |tx.vout| && Matches(e, f, tx.vout[k]))
    || (exists k :: 0 <= k < |tx.vin| && InputMatches(e, f, tx.vin[k]))
  }

  // ----- bits are never cleared -----

  /** `g` is `f` with perhaps more bits. */
  ghost predicate Grows(f: Filter, g: Filter) {
    g == f.(vData := g.vData) && |g.vData| == |f.vData| && FilterBits(f) <= FilterBits(g)
  }

  lemma ContainsGrows(e: Env, f: Filter, g: Filter, key: Bytes)
    requires f.Usable() && Grows(f, g) && Contains(e.murmur, f, key)
    ensures Contains(e.murmur, g, key)
  {
    hide Contains, FilterBits;
    ContainsMeans(e.murmur, f, key);
    ContainsMeans(e.murmur, g, key);
    SameNeeds(e.murmur, f, g, key);
  }

  lemma SameNeeds(murmur: Murmur, f: Filter, g: Filter, key: Bytes)
    requires f.Usable() && g == f.(vData := g.vData) && |g.vData| == |f.vData|
    ensures Needs(murmur, f, key) == Needs(murmur, g, key)
  {
    if |f.vData| > 0 {
      assert forall i: nat :: Index(murmur, f, i, key) == Index(murmur, g, i, key);
    }
  }

  lemma InsertGrows(e: Env, f: Filter, key: Bytes)
    requires f.Usable()
    ensures Grows(f, Insert(e.murmur, f, key)) && Contains(e.murmur, Insert(e.murmur, f, key), key)
  {
    hide Contains, FilterBits, Insert;
    var g := Insert(e.murmur, f, key);
    InsertSets(e.murmur, f, key);
    SameNeeds(e.murmur, f, g, key);
    ContainsMeans(e.murmur, g, key);
  }

  lemma {:induction false} MatchesGrows(e: Env, f: Filter, g: Filter, script: Bytes, pc: nat)
    requires f.Usable() && Grows(f, g) && MatchesFrom(e, f, script, pc)
    ensures MatchesFrom(e, g, script, pc)
    decreases if pc < |script| then |script| - pc else 0
  {
    hide Contains, GetOp;
    var (d, next) := GetOp(script, pc).value;
    if d != [] && Contains(e.murmur, f, d) {
      ContainsGrows(e, f, g, d);
    } else {
      MatchesGrows(e, f, g, script, next);
    }
  }

  lemma {:induction false} OutputsGrow(e: Env, f: Filter, tx: Tx, hash: Bytes, j: nat, k: nat)
    requires f.Usable() && j <= k <= |tx.vout|
    ensures Grows(AfterOutputs(e, f, tx, hash, j), AfterOutputs(e, f, tx, hash, k))
    decreases k - j
  {
    hide Insert, FilterBits, Matches, Updates;
    if j < k {
      OutputsGrow(e, f, tx, hash, j, k - 1);
      var g := AfterOutputs(e, f, tx, hash, k - 1);
      InsertGrows(e, g, Serialized(OutPoint(hash, k - 1)));
    }
  }

  /** The outpoints added along the way never make an output match that did not match before. */
  lemma {:induction false} NothingMatchesYet(e: Env, f: Filter, tx: Tx, hash: Bytes, k: nat)
    requires f.Usable() && k <= |tx.vout|
    requires forall i :: 0 <= i < k ==> !Matches(e, f, tx.vout[i])
    ensures AfterOutputs(e, f, tx, hash, k) == f
  {
    if k > 0 {
      NothingMatchesYet(e, f, tx, hash, k - 1);
    }
  }

  // ----- runs -----

  datatype Op = InsertOp(key: Bytes) | TxOp(tx: Tx, hash: Bytes)

  function Step(e: Env, f: Filter, op: Op): (g: Filter)
    requires f.Usable()
    ensures g.Usable()
  {
    match op
    case InsertOp(key) => Insert(e.murmur, f, key)
    case TxOp(tx, hash) => AfterOutputs(e, f, tx, hash, |tx.vout|)
  }

  function Run(e: Env, f: Filter, ops: seq<Op>): (g: Filter)
    requires f.Usable()
    ensures g.Usable()
    decreases |ops|
  {
    if ops == [] then f else Run(e, Step(e, f, ops[0]), ops[1..])
  }

  lemma {:induction false} RunGrows(e: Env, f: Filter, ops: seq<Op>)
    requires f.Usable()
    ensures Grows(f, Run(e, f, ops))
    decreases |ops|
  {
    hide FilterBits, AfterOutputs, Insert;
    if ops != [] {
      var op := ops[0];
      match op {
        case InsertOp(key) => InsertGrows(e, f, key);
        case TxOp(tx, hash) =>
          OutputsGrow(e, f, tx, hash, 0, |tx.vout|);
          NoOutputs(e, f, tx, hash);
      }
      RunGrows(e, Step(e, f, op), ops[1..]);
    }
  }

  lemma NoOutputs(e: Env, f: Filter, tx: Tx, hash: Bytes)
    requires f.Usable()
    ensures AfterOutputs(e, f, tx, hash, 0) == f
  {
  }

  /** No false negatives: what was inserted is contained for ever. */
  lemma InsertedForEver(e: Env, f: Filter, key: Bytes, ops: seq<Op>)
    requires f.Usable()
    ensures Contains(e.murmur, Run(e, Insert(e.murmur, f, key), ops), key)
  {
    hide Contains, Insert, Run, FilterBits;
    var g := Insert(e.murmur, f, key);
    InsertGrows(e, f, key);
    RunGrows(e, g, ops);
    ContainsGrows(e, g, Run(e, g, ops), key);
  }

  lemma AddedIsSpent(e: Env, f: Filter, tx: Tx, hash: Bytes, k: nat, ops: seq<Op>, tx': Tx, hash': Bytes, i: nat)
    requires f.Usable() && k < |tx.vout| && i < |tx'.vin| && tx'.vin[i].prevout == OutPoint(hash, k)
    requires Updates(e, f, tx.vout[k])
    requires Matches(e, f, tx.vout[k]) || Matches(e, AfterOutputs(e, f, tx, hash, k), tx.vout[k])
    ensures Relevant(e, Run(e, f, [TxOp(tx, hash)] + ops), tx', hash')
  {
    hide Contains, Insert, FilterBits, Updates, MatchesFrom;
    var g, out := AfterOutputs(e, f, tx, hash, k), Serialized(OutPoint(hash, k));
    OutputsGrow(e, f, tx, hash, 0, k);
    if Matches(e, f, tx.vout[k]) {
      MatchesGrows(e, f, g, tx.vout[k], 0);
    }
    InsertGrows(e, g, out);
    var g1, g2 := AfterOutputs(e, f, tx, hash, k + 1), AfterOutputs(e, f, tx, hash, |tx.vout|);
    OutputsGrow(e, f, tx, hash, k + 1, |tx.vout|);
    ContainsGrows(e, g1, g2, out);
    RunGrows(e, g2, ops);
    ContainsGrows(e, g2, Run(e, g2, ops), out);
    var all := [TxOp(tx, hash)] + ops;
    assert all[0] == TxOp(tx, hash) && all[1..] == ops;
    assert InputMatches(e, Run(e, g2, ops), tx'.vin[i]);
  }

  /** Once an output has matched and is one to be added, every later transaction that spends
      it is relevant, whatever came in between. */
  lemma SpendingIsRelevant(e: Env, f: Filter, tx: Tx, hash: Bytes, k: nat, ops: seq<Op>, tx': Tx, hash': Bytes, i: nat)
    requires f.Usable() && k < |tx.vout| && i < |tx'.vin| && tx'.vin[i].prevout == OutPoint(hash, k)
    requires f.nFlags % 4 == 1 || (f.nFlags % 4 == 2 && e.paysPubKey(tx.vout[k]))
    requires Matches(e, f, tx.vout[k]) || Matches(e, AfterOutputs(e, f, tx, hash, k), tx.vout[k])
    ensures Relevant(e, Run(e, f, [TxOp(tx, hash)] + ops), tx', hash')
  {
    hide Relevant, Run, Matches, AfterOutputs, Updates;
    UpdatesMeans(e, f, tx.vout[k]);
    AddedIsSpent(e, f, tx, hash, k, ops, tx', hash', i);
  }

  lemma UpdatesMeans(e: Env, f: Filter, script: Bytes)
    ensures Updates(e, f, script) <==> f.nFlags % 4 == 1 || (f.nFlags % 4 == 2 && e.paysPubKey(script))
  {
  }

  /** The filter only changes with a flag that lets it: 1 for any output that matches, 2 for
      those that pay to a key. */
  lemma {:induction false} NoUpdates(e: Env, f: Filter, tx: Tx, hash: Bytes, k: nat)
    requires f.Usable() && k <= |tx.vout|
    requires f.nFlags % 4 != 1 && (f.nFlags % 4 == 2 ==> forall i :: 0 <= i < k ==> !e.paysPubKey(tx.vout[i]))
    ensures AfterOutputs(e, f, tx, hash, k) == f
  {
    if k > 0 {
      NoUpdates(e, f, tx, hash, k - 1);
    }
  }

  /** An outpoint's bytes: the hash, then the number of the output in four bytes, lowest first. */
  ghost predicate Locates(key: Bytes, hash: Bytes, n: nat) {
    |key| == |hash| + 4 && key[..|hash|] == hash && LittleEndian(key[|hash|..]) == n % 0x1_0000_0000
  }

  lemma SerializedLocates(o: OutPoint)
    ensures Locates(Serialized(o), o.hash, o.n)
  {
    var a, b, c, d := o.n % 256, o.n / 256 % 256, o.n / 0x1_0000 % 256, o.n / 0x100_0000 % 256;
    hide LittleEndian;
    assert Serialized(o)[|o.hash|..] == [a, b, c, d];
    FourBytes(a, b, c, d);
    LowFour(o.n);
  }

  lemma FourBytes(a: byte, b: byte, c: byte, d: byte)
    ensures LittleEndian([a, b, c, d]) == a + b * 256 + c * 0x1_0000 + d * 0x100_0000
  {
    assert [a, b, c, d][1..] == [b, c, d] && [b, c, d][1..] == [c, d] && [c, d][1..] == [d] && [d][1..] == [];
    assert LittleEndian([d]) == d;
    assert LittleEndian([c, d]) == c + d * 256;
    assert LittleEndian([b, c, d]) == b + (c + d * 256) * 256;
  }

  /** What looking at output `k` adds: the bits of its outpoint, if it matches and the flags are 1,
      or 2 and it pays to a key. */
  lemma OutputAdds(e: Env, f: Filter, tx: Tx, hash: Bytes, k: nat) returns (key: Bytes)
    requires f.Usable() && k < |tx.vout|
    ensures Locates(key, hash, k)
    ensures var g, g' := AfterOutputs(e, f, tx, hash, k), AfterOutputs(e, f, tx, hash, k + 1); var script := tx.vout[k];
      FilterBits(g') == FilterBits(g)
        + if Matches(e, g, script) && (f.nFlags % 4 == 1 || (f.nFlags % 4 == 2 && e.paysPubKey(script)))
          then Needs(e.murmur, f, key) else {}
  {
    hide Insert, Matches, FilterBits, Needs, Locates, Serialized;
    key := Serialized(OutPoint(hash, k));
    SerializedLocates(OutPoint(hash, k));
    var g := AfterOutputs(e, f, tx, hash, k);
    InsertSets(e.murmur, g, key);
    SameNeeds(e.murmur, f, g, key);
  }

  /** The bit that hash function `i` gives: the seeds are 0xFBA4C795 apart. */
  function NthBit(murmur: Murmur, f: Filter, i: nat, key: Bytes): nat
    requires |f.vData| > 0
  {
    murmur((f.nTweak + i * 4221880213) % 0x1_0000_0000, key) % (8 * |f.vData|)
  }

  /** The bits a key needs: one for each hash function. */
  lemma NeedsMeans(murmur: Murmur, f: Filter, key: Bytes)
    requires f.Usable() && |f.vData| > 0
    ensures Needs(murmur, f, key) == set i: nat | i < f.nHashFuncs :: NthBit(murmur, f, i, key)
  {
    hide KeyBits, Index, NthBit;
    forall i: nat ensures Index(murmur, f, i, key) == NthBit(murmur, f, i, key) {
      IndexMeans(murmur, f, i, key);
    }
  }

  lemma IndexMeans(murmur: Murmur, f: Filter, i: nat, key: Bytes)
    requires |f.vData| > 0
    ensures Index(murmur, f, i, key) == NthBit(murmur, f, i, key)
  {
  }

  /** The bits of a byte from the lowest on. */
  predicate Bit(x: bv8, k: nat)
    requires k < 8
  {
    (x >> k) & 1 == 1
  }

  /** The bits of a filter, the lowest of each byte first. */
  lemma BitsMeans(f: Filter, n: nat)
    ensures n in FilterBits(f) <==> n / 8 < |f.vData| && Bit(f.vData[n / 8], n % 8)
  {
    hide Bit, BitMask;
    if n < |f.vData| * 8 {
      MaskIsBit(f.vData[n / 8], n % 8);
    }
  }

  lemma MaskIsBit(x: bv8, k: nat)
    requires k < 8
    ensures x & BitMask(k) != 0 <==> Bit(x, k)
  {
    match k
    case 0 => case 1 => case 2 => case 3 => case 4 => case 5 => case 6 => case _ =>
  }

  /** A script pushes data that the filter contains. */
  ghost predicate PushesContained(e: Env, f: Filter, script: Bytes)
    requires f.Usable()
  {
    exists d :: Pushes(script, 0, d) && d != [] && Contains(e.murmur, f, d)
  }

  /** A transaction is relevant in four cases, and no others. */
  lemma RelevantMeans(e: Env, f: Filter, tx: Tx, hash: Bytes)
    requires f.Usable()
    ensures Relevant(e, f, tx, hash) <==>
      || Contains(e.murmur, f, hash)
      || (exists k :: 0 <= k < |tx.vout| && PushesContained(e, f, tx.vout[k]))
      || (exists k, key :: 0 <= k < |tx.vin| && Locates(key, tx.vin[k].prevout.hash, tx.vin[k].prevout.n) && Contains(e.murmur, f, key))
      || (exists k :: 0 <= k < |tx.vin| && PushesContained(e, f, tx.vin[k].scriptSig))
  {
    hide Contains, Pushes, Locates, Serialized, MatchesFrom;
    forall k | 0 <= k < |tx.vout| ensures Matches(e, f, tx.vout[k]) <==> PushesContained(e, f, tx.vout[k]) {
      MatchesMeans(e, f, tx.vout[k], 0);
    }
    forall k | 0 <= k < |tx.vin|
      ensures Matches(e, f, tx.vin[k].scriptSig) <==> PushesContained(e, f, tx.vin[k].scriptSig)
      ensures Locates(Serialized(tx.vin[k].prevout), tx.vin[k].prevout.hash, tx.vin[k].prevout.n)
      ensures forall key :: Locates(key, tx.vin[k].prevout.hash, tx.vin[k].prevout.n) ==> key == Serialized(tx.vin[k].prevout)
    {
      MatchesMeans(e, f, tx.vin[k].scriptSig, 0);
      SerializedLocates(tx.vin[k].prevout);
      forall key | Locates(key, tx.vin[k].prevout.hash, tx.vin[k].prevout.n) ensures key == Serialized(tx.vin[k].prevout) {
        OneLocation(key, Serialized(tx.vin[k].prevout), tx.vin[k].prevout.hash, tx.vin[k].prevout.n);
      }
    }
  }

  lemma OneLocation(key: Bytes, key': Bytes, hash: Bytes, n: nat)
    requires Locates(key, hash, n) && Locates(key', hash, n)
    ensures key == key'
  {
    hide LittleEndian;
    var t, t' := key[|hash|..], key'[|hash|..];
    LittleEndianDetermines(t, t');
    assert key == key[..|hash|] + t && key' == key'[..|hash|] + t';
  }

  lemma {:induction false} LittleEndianDetermines(a: Bytes, b: Bytes)
    requires |a| == |b| && LittleEndian(a) == LittleEndian(b)
    ensures a == b
  {
    if a != [] {
      assert LittleEndian(a) % 256 == a[0] && LittleEndian(b) % 256 == b[0];
      LittleEndianDetermines(a[1..], b[1..]);
      assert a == [a[0]] + a[1..] && b == [b[0]] + b[1..];
    }
  }

  // ----- the class -----

  class CBloomFilter {
    var vData: seq<bv8>
    const nHashFuncs: nat
    const nTweak: nat
    const nFlags: nat

    function Contents(): Filter
      reads this
    {
      Filter(vData, nHashFuncs, nTweak, nFlags)
    }

    constructor (vData: seq<bv8>, nHashFuncs: nat, nTweak: nat, nFlags: nat)
      ensures Contents() == Filter(vData, nHashFuncs, nTweak, nFlags)
    {
      this.vData, this.nHashFuncs, this.nTweak, this.nFlags := vData, nHashFuncs, nTweak, nFlags;
    }

    method InsertKey(murmur: Murmur, vKey: Bytes)
      requires Contents().Usable()
      modifies this
      ensures Contents() == Insert(murmur, old(Contents()), vKey)
    {
      hide SetBit, Index;
      if |vData| == 1 && vData[0] == 0xff {
        return;
      }
      var i: nat := 0;
      while i < nHashFuncs
        invariant Contents().Usable()
        invariant SetFrom(murmur, Contents(), i, vKey) == SetFrom(murmur, old(Contents()), 0, vKey)
      {
        var nIndex := Index(murmur, Contents(), i, vKey);
        vData := SetBit(vData, nIndex);
        i := i + 1;
      }
    }

    method ContainsKey(murmur: Murmur, vKey: Bytes) returns (r: bool)
      requires Contents().Usable()
      ensures r <==> Contains(murmur, Contents(), vKey)
    {
      hide BitAt, Index;
      if |vData| == 1 && vData[0] == 0xff {
        forall i: nat | i < nHashFuncs ensures BitAt(vData, Index(murmur, Contents(), i, vKey)) {
          AllBitsSet(vData, Index(murmur, Contents(), i, vKey));
        }
        return true;
      }
      var i: nat := 0;
      while i < nHashFuncs
        invariant i <= nHashFuncs
        invariant forall j: nat :: j < i ==> BitAt(vData, Index(murmur, Contents(), j, vKey))
      {
        var nIndex := Index(murmur, Contents(), i, vKey);
        if !BitAt(vData, nIndex) {
          return false;
        }
        i := i + 1;
      }
      return true;
    }

    /** The loop over one output's script; the outpoint is added at the first match, if at all. */
    method ScanOutput(e: Env, script: Bytes, outpoint: OutPoint) returns (found: bool)
      requires Contents().Usable()
      modifies this
      ensures found <==> Matches(e, old(Contents()), script)
      ensures Contents() == if found && (nFlags % 4 == 1 || (nFlags % 4 == 2 && e.paysPubKey(script)))
        then Insert(e.murmur, old(Contents()), Serialized(outpoint)) else old(Contents())
    {
      hide GetOp, Contains, Insert, Serialized;
      var pc: nat := 0;
      while pc < |script|
        invariant Contents() == old(Contents())
        invariant MatchesFrom(e, Contents(), script, pc) == Matches(e, old(Contents()), script)
        decreases |script| - pc
      {
        var op := GetOp(script, pc);
        if op.None? {
          return false;
        }
        var data := op.value.0;
        pc := op.value.1;
        if data != [] {
          var hit := ContainsKey(e.murmur, data);
          if hit {
            if nFlags % 4 == BLOOM_UPDATE_ALL {
              InsertKey(e.murmur, Serialized(outpoint));
            } else if nFlags % 4 == BLOOM_UPDATE_P2PUBKEY_ONLY {
              if e.paysPubKey(script) {
                InsertKey(e.murmur, Serialized(outpoint));
              }
            }
            return true;
          }
        }
      }
      PastTheEnd(e, Contents(), script, pc);
      return false;
    }

    method IsRelevantAndUpdate(e: Env, tx: Tx, hash: Bytes) returns (r: bool)
      requires Contents().Usable()
      modifies this
      ensures r <==> Relevant(e, old(Contents()), tx, hash)
      ensures Contents() == AfterOutputs(e, old(Contents()), tx, hash, |tx.vout|)
    {
      hide Contains, Insert, Serialized, GetOp, MatchesFrom;
      ghost var f := Contents();
      var fFound := ContainsKey(e.murmur, hash);
      var i: nat := 0;
      while i < |tx.vout|
        invariant i <= |tx.vout| && Contents() == AfterOutputs(e, f, tx, hash, i)
        invariant fFound <==> Contains(e.murmur, f, hash) || exists k :: 0 <= k < i && Matches(e, f, tx.vout[k])
        invariant !fFound ==> Contents() == f
      {
        ghost var g := Contents();
        OutputsGrow(e, f, tx, hash, 0, i);
        var hit := ScanOutput(e, tx.vout[i], OutPoint(hash, i));
        if hit {
          fFound := true;
        }
        i := i + 1;
      }
      if fFound {
        return true;
      }
      i := 0;
      while i < |tx.vin|
        invariant i <= |tx.vin| && Contents() == f
        invariant forall k :: 0 <= k < i ==> !InputMatches(e, f, tx.vin[k])
      {
        var txin := tx.vin[i];
        var spends := ContainsKey(e.murmur, Serialized(txin.prevout));
        if spends {
          return true;
        }
        var hit := ScanInput(e, txin.scriptSig);
        if hit {
          return true;
        }
        i := i + 1;
      }
      return false;
    }

    /** The loop over one input's script. */
    method ScanInput(e: Env, script: Bytes) returns (found: bool)
      requires Contents().Usable()
      ensures found <==> Matches(e, Contents(), script)
    {
      hide GetOp, Contains;
      var pc: nat := 0;
      while pc < |script|
        invariant MatchesFrom(e, Contents(), script, pc) == Matches(e, Contents(), script)
        decreases |script| - pc
      {
        var op := GetOp(script, pc);
        if op.None? {
          return false;
        }
        var data := op.value.0;
        pc := op.value.1;
        if data != [] {
          var hit := ContainsKey(e.murmur, data);
          if hit {
            return true;
          }
        }
      }
      PastTheEnd(e, Contents(), script, pc);
      return false;
    }
  }

  lemma PastTheEnd(e: Env, f: Filter, script: Bytes, pc: nat)
    requires f.Usable() && pc >= |script|
    ensures !MatchesFrom(e, f, script, pc)
  {
  }
}
