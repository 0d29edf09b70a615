/** The block index: block_index records in memory, the hash table over them, and the
    genesis-rooted labels (height, cumulative work, cumulative transactions) as values. */
module BlockIndexModel {
  import opened Ancestry
  import opened Bytes
  import opened Common

  /** A uint256 block hash, as its 32 bytes. */
  type Hash = seq<Byte>

  const COUNT_MODULUS: int := 0x1_0000_0000
  const WORK_MODULUS: int := 0x1_00000000_00000000_00000000_00000000_00000000_00000000_00000000_00000000

  /** unsigned int */
  type Count = c: int | 0 <= c < COUNT_MODULUS

  /** struct arith_uint256 */
  type Work = w: int | 0 <= w < WORK_MODULUS

  /** GetBlockProof, a function of nBits. It may be zero: nBits 0 gives no work. */
  type Proof = Count -> Work

  datatype Node = Node(
    hash: Hash,
    pprev: Ptr,
    height: int,
    work: Work,
    chainTx: Count,
    nTx: Count,
    version: int,
    time: Count,
    bits: Count,
    haveData: bool,
    failed: bool,
    file: int,
    dataPos: Count)

  type Memory = map<Ptr, Node>

  function Add32(a: Count, b: Count): Count {
    (a + b) % COUNT_MODULUS
  }

  function Add256(a: Work, b: Work): Work {
    (a + b) % WORK_MODULUS
  }

  /** Transactions a block counts for: a block with no recorded count holds one. */
  function TxOf(n: Node): Count {
    if n.nTx > 0 then n.nTx else 1
  }

  function LinksOf(m: Memory, es: set<Ptr>): Links
    requires es <= m.Keys
  {
    map p | p in es :: m[p].pprev
  }

  /** Cumulative work of the entry p at distance k from genesis, modulo 2^256. */
  function WorkSum(m: Memory, pow: Proof, l: Links, g: Ptr, p: Ptr, k: nat): Work
    requires p in m && l.Keys <= m.Keys && 0 !in l
    requires Iter(l, g, p, k) == g && g in l
    decreases k
  {
    if k == 0 then pow(m[p].bits)
    else Chained(l, g, p, k); Add256(WorkSum(m, pow, l, g, Up(l, g, p), k - 1), pow(m[p].bits))
  }

  /** Genesis keeps a transaction count it already has. */
  function GenesisTx(n: Node): Count {
    if n.chainTx == 0 then TxOf(n) else n.chainTx
  }

  /** Cumulative transaction count of the entry p at distance k from genesis, modulo 2^32. */
  function TxSum(m: Memory, l: Links, g: Ptr, p: Ptr, k: nat): Count
    requires p in m && l.Keys <= m.Keys && 0 !in l
    requires Iter(l, g, p, k) == g && g in l
    decreases k
  {
    if k == 0 then GenesisTx(m[p])
    else Chained(l, g, p, k); Add32(TxSum(m, l, g, Up(l, g, p), k - 1), TxOf(m[p]))
  }

  /** The transactions of the k blocks from p upwards, as a natural number: a block counts for at least
      one. */
  function TxAlong(m: Memory, p: Ptr, k: nat): nat
    decreases k
  {
    if k == 0 || p !in m then 0
    else (if m[p].nTx > 0 then m[p].nTx else 1) + TxAlong(m, m[p].pprev, k - 1)
  }

  /** The proofs of the k blocks from p upwards, as a natural number. */
  function ProofAlong(m: Memory, pow: Proof, p: Ptr, k: nat): nat
    decreases k
  {
    if k == 0 || p !in m then 0 else pow(m[p].bits) + ProofAlong(m, pow, m[p].pprev, k - 1)
  }

  lemma CutTwice32(a: nat, b: nat)
    ensures (a % COUNT_MODULUS + b) % COUNT_MODULUS == (a + b) % COUNT_MODULUS
  {
  }

  lemma CutTwice256(a: nat, b: nat)
    ensures (a % WORK_MODULUS + b) % WORK_MODULUS == (a + b) % WORK_MODULUS
  {
  }

  /** The cumulative count is the plain sum along the path, cut to 32 bits once. */
  lemma {:induction false} TxSumIs(m: Memory, l: Links, g: Ptr, p: Ptr, k: nat)
    requires p in m && l.Keys <= m.Keys && 0 !in l && Iter(l, g, p, k) == g && g in l
    requires forall q :: q in l ==> m[q].pprev == l[q]
    ensures TxSum(m, l, g, p, k) ==
              ((if m[g].chainTx != 0 then m[g].chainTx else if m[g].nTx > 0 then m[g].nTx else 1) + TxAlong(m, p, k))
              % 0x1_0000_0000
    decreases k
  {
    if k == 0 {
    } else {
      Chained(l, g, p, k);
      TxSumIs(m, l, g, l[p], k - 1);
      CutTwice32(GenesisTx(m[g]) + TxAlong(m, l[p], k - 1), TxOf(m[p]));
    }
  }

  /** The cumulative work is the plain sum of the proofs along the path, genesis included, cut to 256
      bits once. */
  lemma {:induction false} WorkSumIs(m: Memory, pow: Proof, l: Links, g: Ptr, p: Ptr, k: nat)
    requires p in m && l.Keys <= m.Keys && 0 !in l && Iter(l, g, p, k) == g && g in l
    requires forall q :: q in l ==> m[q].pprev == l[q]
    ensures WorkSum(m, pow, l, g, p, k) == ProofAlong(m, pow, p, k + 1) % WORK_MODULUS
    decreases k
  {
    if k == 0 {
      assert ProofAlong(m, pow, m[p].pprev, 0) == 0;
    } else {
      Chained(l, g, p, k);
      WorkSumIs(m, pow, l, g, l[p], k - 1);
      CutTwice256(ProofAlong(m, pow, l[p], k), pow(m[p].bits));
    }
  }

  /** The moduli are those of four and of thirty-two bytes. */
  lemma Widths()
    ensures COUNT_MODULUS == Limit(4) && WORK_MODULUS == Limit(32)
  {
    assert Limit(8) == 0x1_00000000_00000000;
    assert Limit(16) == 0x1_00000000_00000000_00000000_00000000;
    assert Limit(24) == 0x1_00000000_00000000_00000000_00000000_00000000_00000000;
  }

  /** Above genesis, the hop lands on an indexed entry one closer. */
  lemma Chained(l: Links, g: Ptr, p: Ptr, k: nat)
    requires g in l && 0 !in l && k > 0 && Iter(l, g, p, k) == g
    ensures p in l && Up(l, g, p) == l[p] && l[p] in l && Iter(l, g, l[p], k - 1) == g
  {
    if Up(l, g, p) == 0 {
      IterNull(l, g, k - 1);
    }
  }

  function Labelled(m: Memory, pow: Proof, l: Links, g: Ptr, p: Ptr, k: nat): Node
    requires p in m && l.Keys <= m.Keys && 0 !in l
    requires Iter(l, g, p, k) == g && g in l
  {
    m[p].(height := k, work := WorkSum(m, pow, l, g, p, k), chainTx := TxSum(m, l, g, p, k))
  }

  ghost function Distance(l: Links, g: Ptr, p: Ptr): nat
    requires Rooted(l, g, p)
  {
    var k: nat :| Iter(l, g, p, k) == g; k
  }

  /** The index a genesis recompute must leave: every rooted entry carries its distance and
      its sums, everything else is as it was. */
  ghost function Recomputed(m: Memory, pow: Proof, es: set<Ptr>, g: Ptr): Memory
    requires es <= m.Keys && 0 !in es && g in es
  {
    var l := LinksOf(m, es);
    map p | p in m :: if p in es && Rooted(l, g, p) then Labelled(m, pow, l, g, p, Distance(l, g, p)) else m[p]
  }

  ghost predicate ValidIndex(mem: Memory, table: map<Hash, Ptr>) {
    && 0 !in mem
    && (forall p :: p in mem && mem[p].pprev != 0 ==> mem[p].pprev in mem)
    && (forall h :: h in table ==> table[h] in mem && mem[table[h]].hash == h)
  }

  /** struct main_state's map_block_index, with the memory its entries live in. */
  class BlockIndex {
    var mem: Memory
    var table: map<Hash, Ptr>
    const pow: Proof

    ghost predicate Valid()
      reads this
    {
      ValidIndex(mem, table)
    }

    constructor (pow: Proof)
      ensures Valid() && mem == map[] && table == map[] && this.pow == pow
    {
      this.mem, this.table, this.pow := map[], map[], pow;
    }
  }
}
