/**
 IPv4 subnet selection for sandbox networks: CIDR blocks (section 3.1 of
 RFC 4632), the lowest free block of a pool, and the create loop that retries
 when another process has taken the block in the meantime.
 */
module SubnetPool {
  import opened Prelude

  const ADDRESS_BITS := 32
  const MAX_SUBNET_PREFIX := 29
  const DEFAULT_SUBNET_PREFIX := 28

  const ADDRESSES := 0x1_0000_0000

  // ------------------------------------------------------------ shifts

  function Pow2(n: nat): (r: nat)
    ensures r > 0
  {
    if n == 0 then 1 else 2 * Pow2(n - 1)
  }

  /** x with its n lowest bits dropped. */
  function Shr(x: nat, n: nat): nat {
    if n == 0 then x else Shr(x, n - 1) / 2
  }

  /** c followed by n zero bits. */
  function Shl(c: nat, n: nat): nat {
    if n == 0 then c else 2 * Shl(c, n - 1)
  }

  lemma {:induction false} ShlNext(c: nat, n: nat)
    ensures Shl(c + 1, n) == Shl(c, n) + Pow2(n)
    ensures Shl(2 * c, n) == Shl(c, n + 1)
  {
    if n > 0 {
      ShlNext(c, n - 1);
    }
  }

  lemma {:induction false} ShlOrder(c: nat, d: nat, n: nat)
    requires c < d
    ensures Shl(c, n) + Pow2(n) <= Shl(d, n)
  {
    if n > 0 {
      ShlOrder(c, d, n - 1);
    }
  }

  /** Every address lies in the block of size 2^n that its upper bits name. */
  lemma {:induction false} Bracket(x: nat, n: nat)
    ensures Shl(Shr(x, n), n) <= x < Shl(Shr(x, n), n) + Pow2(n)
  {
    if n > 0 {
      Bracket(x, n - 1);
      var y := Shr(x, n - 1);
      ShlNext(y / 2, n - 1);
      ShlNext(2 * (y / 2), n - 1);
    }
  }

  lemma {:induction false} BracketUnique(x: nat, n: nat, c: nat)
    requires Shl(c, n) <= x < Shl(c, n) + Pow2(n)
    ensures Shr(x, n) == c
  {
    Bracket(x, n);
    var y := Shr(x, n);
    if y < c {
      ShlOrder(y, c, n);
    } else if c < y {
      ShlOrder(c, y, n);
    }
  }

  lemma {:induction false} ShiftsCompose(x: nat, a: nat, b: nat)
    ensures Shr(Shr(x, a), b) == Shr(x, a + b)
    ensures Shl(Shl(x, a), b) == Shl(x, a + b)
  {
    if b > 0 {
      ShiftsCompose(x, a, b - 1);
    }
  }

  /** A cell of size 2^(d + h) is a run of 2^d cells of size 2^h. */
  lemma {:induction false} CellSplits(c: nat, d: nat, h: nat)
    ensures Shl(Shl(c, d), h) == Shl(c, d + h)
    ensures Shl(Shl(c, d) + Pow2(d), h) == Shl(c, d + h) + Pow2(d + h)
    ensures Shr(Shl(c, d + h), h) == Shl(c, d)
  {
    ShiftsCompose(c, d, h);
    ShiftsCompose(c + 1, d, h);
    ShlNext(c, d);
    ShlNext(c, d + h);
    BracketUnique(Shl(c, d + h), h, Shl(c, d));
  }

  // ------------------------------------------------------------ CIDR blocks

  function HostBits(prefix: nat): nat {
    if prefix <= ADDRESS_BITS then ADDRESS_BITS - prefix else 0
  }

  function Size(prefix: nat): (r: nat)
    ensures r > 0
  {
    Pow2(HostBits(prefix))
  }

  function Cell(address: nat, prefix: nat): nat {
    Shr(address, HostBits(prefix))
  }

  function CellBase(cell: nat, prefix: nat): nat {
    Shl(cell, HostBits(prefix))
  }

  datatype Net = Net(base: nat, prefix: nat)

  /** A network address has no host bits set. */
  predicate ValidNet(n: Net) {
    n.prefix <= ADDRESS_BITS && n.base + Size(n.prefix) <= ADDRESSES &&
      n.base == CellBase(Cell(n.base, n.prefix), n.prefix)
  }


  function Last(n: Net): int { n.base + Size(n.prefix) - 1 }

  predicate Contains(n: Net, address: int) {
    n.base <= address <= Last(n)
  }

  /** As the standard library tests it: an end of one lies in the other. */
  predicate Overlaps(a: Net, b: Net) {
    Contains(a, b.base) || Contains(a, Last(b)) || Contains(b, a.base) || Contains(b, Last(a))
  }

  predicate Inside(n: Net, pool: Net) {
    pool.base <= n.base && Last(n) <= Last(pool)
  }

  /** Membership is agreement on the prefix bits. */
  lemma ContainsIffSameCell(n: Net, address: nat)
    requires ValidNet(n)
    ensures Contains(n, address) <==> Cell(address, n.prefix) == Cell(n.base, n.prefix)
  {
    Bracket(address, HostBits(n.prefix));
    if Contains(n, address) {
      BracketUnique(address, HostBits(n.prefix), Cell(n.base, n.prefix));
    }
  }

  lemma OverlapsIffShareAddress(a: Net, b: Net)
    ensures Overlaps(a, b) <==> exists x :: Contains(a, x) && Contains(b, x)
  {
    assert Contains(a, a.base) && Contains(a, Last(a)) && Contains(b, b.base) && Contains(b, Last(b));
  }

  /** Two CIDR blocks are disjoint, or the longer prefix extends the shorter and lies inside it. */
  lemma NestedOrDisjoint(a: Net, b: Net)
    requires ValidNet(a) && ValidNet(b) && Overlaps(a, b) && a.prefix <= b.prefix
    ensures Inside(b, a) && Cell(b.base, a.prefix) == Cell(a.base, a.prefix)
  {
    OverlapsIffShareAddress(a, b);
    var x: int :| Contains(a, x) && Contains(b, x);
    ContainsIffSameCell(a, x);
    ContainsIffSameCell(b, x);
    var h, d := HostBits(b.prefix), b.prefix - a.prefix;
    ShiftsCompose(x, h, d);
    ShiftsCompose(b.base, h, d);
    ShiftsCompose(Last(b), h, d);
    ContainsIffSameCell(b, Last(b));
    ContainsIffSameCell(a, b.base);
    ContainsIffSameCell(a, Last(b));
  }

  // ------------------------------------------------------------ the blocks of a pool

  predicate PoolOk(pool: Net, q: nat) {
    ValidNet(pool) && pool.prefix <= q <= MAX_SUBNET_PREFIX
  }

  function BlockCount(pool: Net, q: nat): nat
    requires PoolOk(pool, q)
  {
    Pow2(q - pool.prefix)
  }

  /** The pool is a run of BlockCount cells of the subnet grid. */
  lemma PoolGrid(pool: Net, q: nat)
    requires PoolOk(pool, q)
    ensures pool.base == CellBase(Cell(pool.base, q), q)
    ensures Last(pool) + 1 == CellBase(Cell(pool.base, q) + BlockCount(pool, q), q)
  {
    assert q - pool.prefix + HostBits(q) == HostBits(pool.prefix);
    CellSplits(Cell(pool.base, pool.prefix), q - pool.prefix, HostBits(q));
  }

  /** The k-th candidate of the pool, lowest address first. */
  function Block(pool: Net, q: nat, k: nat): (b: Net)
    requires PoolOk(pool, q) && k < BlockCount(pool, q)
    ensures ValidNet(b) && b.prefix == q && Inside(b, pool) && Cell(b.base, q) == Cell(pool.base, q) + k
  {
    BlockIsNetwork(pool, q, k);
    Net(CellBase(Cell(pool.base, q) + k, q), q)
  }

  lemma BlockIsNetwork(pool: Net, q: nat, k: nat)
    requires PoolOk(pool, q) && k < BlockCount(pool, q)
    ensures ValidNet(Net(CellBase(Cell(pool.base, q) + k, q), q))
    ensures var b: Net := Net(CellBase(Cell(pool.base, q) + k, q), q);
            Inside(b, pool) && Cell(b.base, q) == Cell(pool.base, q) + k
  {
    PoolGrid(pool, q);
    var c, h := Cell(pool.base, q), HostBits(q);
    ShlOrder(c + k, c + BlockCount(pool, q), h);
    if k > 0 {
      ShlOrder(c, c + k, h);
    }
    BracketUnique(Shl(c + k, h), h, c + k);
  }

  /** The blocks are all the networks of that prefix in the pool. */
  lemma EveryNetworkIsBlock(pool: Net, q: nat, n: Net) returns (k: nat)
    requires PoolOk(pool, q) && ValidNet(n) && n.prefix == q && Inside(n, pool)
    ensures k < BlockCount(pool, q) && Block(pool, q, k) == n
  {
    PoolGrid(pool, q);
    var c, j, h := Cell(pool.base, q), Cell(n.base, q), HostBits(q);
    if j < c {
      ShlOrder(j, c, h);
    }
    if j > c + BlockCount(pool, q) {
      ShlOrder(c + BlockCount(pool, q), j, h);
    }
    k := j - c;
  }

  /** Candidates are tried in address order and never share an address. */
  lemma BlocksOrdered(pool: Net, q: nat, j: nat, k: nat)
    requires PoolOk(pool, q) && j < k < BlockCount(pool, q)
    ensures Last(Block(pool, q, j)) < Block(pool, q, k).base
    ensures !Overlaps(Block(pool, q, j), Block(pool, q, k))
  {
    ShlOrder(Cell(pool.base, q) + j, Cell(pool.base, q) + k, HostBits(q));
  }

  // ------------------------------------------------------------ choosing a subnet

  /** One IPAM entry of an existing Docker network: an IPv4 address and mask, or something else. */
  datatype Config = Ipv4(address: nat, prefix: nat) | OtherConfig

  /** Entries that do not parse as an IPv4 network are skipped. */
  predicate Parses(c: Config) {
    c.Ipv4? && c.prefix <= ADDRESS_BITS && c.address < ADDRESSES
  }

  lemma MaskedIsNetwork(address: nat, prefix: nat)
    requires prefix <= ADDRESS_BITS && address < ADDRESSES
    ensures ValidNet(Net(CellBase(Cell(address, prefix), prefix), prefix))
  {
    var h, c := HostBits(prefix), Cell(address, prefix);
    Bracket(address, h);
    BracketUnique(Shl(c, h), h, c);
    AddressSpace();
    ShlNext(0, prefix);
    ShiftsCompose(1, prefix, h);
    if c >= Shl(1, prefix) {
      if c > Shl(1, prefix) { ShlOrder(Shl(1, prefix), c, h); }
      assert false;
    }
    ShlOrder(c, Shl(1, prefix), h);
  }

  lemma AddressSpace()
    ensures Shl(1, 32) == ADDRESSES
  {
    assert Shl(1, 8) == 256;
    ShiftsCompose(1, 8, 8);
    assert Shl(256, 8) == 65536;
    ShiftsCompose(1, 16, 8);
    assert Shl(65536, 8) == 0x100_0000;
    ShiftsCompose(1, 24, 8);
    assert Shl(0x100_0000, 8) == ADDRESSES;
  }

  /** Non-strict parsing: host bits are cleared. */
  function Masked(c: Config): (n: Net)
    requires Parses(c)
    ensures ValidNet(n)
  {
    MaskedIsNetwork(c.address, c.prefix);
    Net(CellBase(Cell(c.address, c.prefix), c.prefix), c.prefix)
  }

  ghost function Existing(networks: seq<seq<Config>>): set<Net> {
    set i, j | 0 <= i < |networks| && 0 <= j < |networks[i]| && Parses(networks[i][j]) :: Masked(networks[i][j])
  }

  lemma {:induction false} ShrDivides(x: nat, n: nat)
    ensures Shr(x, n) == x / Pow2(n) && Shl(x, n) == x * Pow2(n)
  {
    if n > 0 {
      ShrDivides(x, n - 1);
      Halves(x, Pow2(n - 1));
    }
  }

  lemma Halves(x: nat, d: nat)
    requires d > 0
    ensures x / d / 2 == x / (2 * d)
  {
    var q, r := x / d, x % d;
    var h, o := q / 2, q % 2;
    assert x == q * d + r && q == 2 * h + o;
    HalfProduct(h, o, d);
    assert o * d <= d by {
      assert o == 0 || o == 1;
    }
    QuotientUnique(x, 2 * d, h, o * d + r);
  }

  lemma HalfProduct(h: nat, o: nat, d: nat)
    ensures (2 * h + o) * d == h * (2 * d) + o * d
  {
  }

  lemma QuotientUnique(x: nat, d: nat, q: nat, r: nat)
    requires d > 0 && x == q * d + r && r < d
    ensures x / d == q
  {
    var p := x / d;
    assert x == p * d + x % d;
    Products(p + 1, q, d);
    Products(q + 1, p, d);
    Products(p, q, d);
    Products(q, p, d);
  }

  lemma Products(a: int, b: int, d: nat)
    ensures a <= b ==> a * d <= b * d
    ensures (a + 1) * d == a * d + d
  {
  }

  /** Two addresses agree on their first prefix bits: their quotients by the size of such a block are equal. */
  predicate SamePrefix(x: int, y: int, prefix: nat)
    requires prefix <= 32
  {
    x / Pow2(32 - prefix) == y / Pow2(32 - prefix)
  }

  /** An entry covers the addresses that agree with its own on its prefix bits; one out of range covers none. */
  predicate Covers(c: Config, x: int) {
    c.Ipv4? && c.address < 0x1_0000_0000 && c.prefix <= 32 && SamePrefix(x, c.address, c.prefix)
  }

  /** A network block starts at a multiple of its size, below the end of the address space. */
  lemma ValidNetMeans(n: Net)
    ensures ValidNet(n) <==> n.prefix <= 32 && n.base < 0x1_0000_0000 && n.base % Pow2(32 - n.prefix) == 0
  {
    if n.prefix <= 32 {
      var size := Pow2(32 - n.prefix);
      ShrDivides(n.base, 32 - n.prefix);
      ShrDivides(n.base / size, 32 - n.prefix);
      assert n.base == (n.base / size) * size + n.base % size;
      if n.base < 0x1_0000_0000 && n.base % size == 0 {
        MaskedIsNetwork(n.base, n.prefix);
      }
    }
  }

  /** What is read from an entry is the block of the addresses it covers, nothing less and nothing more. */
  lemma MaskedCovers(c: Config, x: nat)
    ensures Parses(c) <==> c.Ipv4? && c.address < 0x1_0000_0000 && c.prefix <= 32
    ensures if Parses(c) then Masked(c).prefix == c.prefix && (Contains(Masked(c), x) <==> Covers(c, x))
            else !Covers(c, x)
  {
    if Parses(c) {
      var h := HostBits(c.prefix);
      ContainsIffSameCell(Masked(c), x);
      Bracket(c.address, h);
      BracketUnique(Masked(c).base, h, Cell(c.address, c.prefix));
      ShrDivides(x, h);
      ShrDivides(c.address, h);
    }
  }

  /** Some entry of the listed networks covers the address. */
  ghost predicate Listed(networks: seq<seq<Config>>, x: int) {
    exists i, j :: 0 <= i < |networks| && 0 <= j < |networks[i]| && Covers(networks[i][j], x)
  }

  ghost predicate NoneListed(n: Net, networks: seq<seq<Config>>) {
    forall x :: Contains(n, x) ==> !Listed(networks, x)
  }

  /** Overlapping nothing that exists is having no address that a listed entry covers. */
  lemma {:induction false} FreeIsUnlisted(n: Net, networks: seq<seq<Config>>)
    ensures Free(n, Existing(networks)) <==> NoneListed(n, networks)
  {
    if Free(n, Existing(networks)) {
      forall x | Contains(n, x) && Listed(networks, x) ensures false {
        var i, j :| 0 <= i < |networks| && 0 <= j < |networks[i]| && Covers(networks[i][j], x);
        MaskedCovers(networks[i][j], x);
        OverlapsIffShareAddress(n, Masked(networks[i][j]));
      }
    } else {
      var u :| u in Existing(networks) && Overlaps(n, u);
      var i, j :| 0 <= i < |networks| && 0 <= j < |networks[i]| && Parses(networks[i][j]) &&
        Masked(networks[i][j]) == u;
      OverlapsIffShareAddress(n, u);
      var x :| Contains(n, x) && Contains(u, x);
      MaskedCovers(networks[i][j], x);
      assert Listed(networks, x);
    }
  }

  method NetworkIpv4Subnets(configs: seq<Config>) returns (subnets: set<Net>)
    ensures subnets == set j | 0 <= j < |configs| && Parses(configs[j]) :: Masked(configs[j])
    ensures forall x: nat :: InSome(subnets, x) <==> exists j :: 0 <= j < |configs| && Covers(configs[j], x)
  {
    subnets := {};
    for i := 0 to |configs|
      invariant subnets == set j | 0 <= j < i && Parses(configs[j]) :: Masked(configs[j])
    {
      if Parses(configs[i]) {
        subnets := subnets + {Masked(configs[i])};
      }
    }
    SubnetsCover(configs, subnets);
  }

  ghost predicate InSome(subnets: set<Net>, x: int) {
    exists n :: n in subnets && Contains(n, x)
  }

  lemma SubnetsCover(configs: seq<Config>, subnets: set<Net>)
    requires subnets == set j | 0 <= j < |configs| && Parses(configs[j]) :: Masked(configs[j])
    ensures forall x: nat :: InSome(subnets, x) <==> exists j :: 0 <= j < |configs| && Covers(configs[j], x)
  {
    forall x: nat ensures InSome(subnets, x) <==> exists j :: 0 <= j < |configs| && Covers(configs[j], x) {
      forall j | 0 <= j < |configs|
        ensures Parses(configs[j]) ==> (Contains(Masked(configs[j]), x) <==> Covers(configs[j], x))
        ensures !Parses(configs[j]) ==> !Covers(configs[j], x)
      {
        MaskedCovers(configs[j], x);
      }
      if InSome(subnets, x) {
        var n :| n in subnets && Contains(n, x);
        var j :| 0 <= j < |configs| && Parses(configs[j]) && Masked(configs[j]) == n;
        assert Covers(configs[j], x);
      }
    }
  }

  ghost predicate Free(n: Net, unavailable: set<Net>) {
    forall u :: u in unavailable ==> !Overlaps(n, u)
  }

  /** The lowest network of prefix q in the pool that overlaps nothing unavailable. */
  ghost predicate LowestFree(r: Net, pool: Net, q: nat, unavailable: set<Net>) {
    && ValidNet(r) && r.prefix == q && Inside(r, pool) && Free(r, unavailable)
    && forall n: Net :: ValidNet(n) && n.prefix == q && Inside(n, pool) && Free(n, unavailable) ==> r.base <= n.base
  }

  ghost predicate Exhausted(pool: Net, q: nat, unavailable: set<Net>) {
    forall n: Net :: ValidNet(n) && n.prefix == q && Inside(n, pool) ==> !Free(n, unavailable)
  }

  method OverlapsAny(candidate: Net, unavailable: set<Net>) returns (any: bool)
    ensures any <==> !Free(candidate, unavailable)
  {
    var rest := unavailable;
    while rest != {}
      invariant rest <= unavailable
      invariant forall u :: u in unavailable && u !in rest ==> !Overlaps(candidate, u)
      decreases rest
    {
      var u :| u in rest;
      if Overlaps(candidate, u) {
        return true;
      }
      rest := rest - {u};
    }
    return false;
  }

  /** Every network of the prefix in the pool that overlaps nothing excluded has an address that is taken. */
  ghost predicate AllListed(pool: Net, q: nat, excluded: set<Net>, networks: seq<seq<Config>>) {
    forall n: Net :: ValidNet(n) && n.prefix == q && Inside(n, pool) && Free(n, excluded) ==> !NoneListed(n, networks)
  }

  lemma LowestFreeIsUnlisted(r: Net, pool: Net, q: nat, excluded: set<Net>, networks: seq<seq<Config>>)
    requires LowestFree(r, pool, q, excluded + Existing(networks))
    ensures NoneListed(r, networks)
  {
    FreeOfUnion(r, excluded, Existing(networks));
    FreeIsUnlisted(r, networks);
  }

  lemma ExhaustedIsListed(pool: Net, q: nat, excluded: set<Net>, networks: seq<seq<Config>>)
    requires Exhausted(pool, q, excluded + Existing(networks))
    ensures AllListed(pool, q, excluded, networks)
  {
    forall n: Net | ValidNet(n) && n.prefix == q && Inside(n, pool) && Free(n, excluded)
      ensures !NoneListed(n, networks)
    {
      FreeIsUnlisted(n, networks);
    }
  }

  method NextNetworkSubnet(pool: Net, q: nat, excluded: set<Net>, networks: seq<seq<Config>>)
    returns (r: Result<Net, string>)
    requires PoolOk(pool, q)
    ensures r.Ok? ==> LowestFree(r.value, pool, q, excluded + Existing(networks))
    ensures r.Err? ==> Exhausted(pool, q, excluded + Existing(networks))
    ensures r.Ok? ==> NoneListed(r.value, networks)
    ensures r.Err? ==> AllListed(pool, q, excluded, networks)
  {
    var unavailable := excluded;
    for i := 0 to |networks|
      invariant unavailable == excluded + Existing(networks[..i])
    {
      var subnets := NetworkIpv4Subnets(networks[i]);
      unavailable := unavailable + subnets;
      assert networks[..i + 1] == networks[..i] + [networks[i]];
      ExistingSnoc(networks[..i], networks[i]);
    }
    assert networks[..|networks|] == networks;
    for k := 0 to BlockCount(pool, q)
      invariant forall j: nat :: j < k ==> !Free(Block(pool, q, j), unavailable)
    {
      var candidate := Block(pool, q, k);
      var taken := OverlapsAny(candidate, unavailable);
      if candidate !in unavailable && !taken {
        forall n: Net | ValidNet(n) && n.prefix == q && Inside(n, pool) && Free(n, unavailable)
          ensures candidate.base <= n.base {
          var j := EveryNetworkIsBlock(pool, q, n);
          if j > k {
            BlocksOrdered(pool, q, k, j);
          }
        }
        LowestFreeIsUnlisted(candidate, pool, q, excluded, networks);
        return Ok(candidate);
      }
      assert candidate in unavailable ==> Overlaps(candidate, candidate);
    }
    forall n: Net | ValidNet(n) && n.prefix == q && Inside(n, pool) ensures !Free(n, unavailable) {
      var j := EveryNetworkIsBlock(pool, q, n);
    }
    ExhaustedIsListed(pool, q, excluded, networks);
    return Err("the pool has no available subnet");
  }

  lemma ExistingSnoc(networks: seq<seq<Config>>, last: seq<Config>)
    ensures Existing(networks + [last]) == Existing(networks) +
            set j | 0 <= j < |last| && Parses(last[j]) :: Masked(last[j])
  {
    var more := networks + [last];
    forall n | n in Existing(networks) ensures n in Existing(more) {
      var i, j :| 0 <= i < |networks| && 0 <= j < |networks[i]| && Parses(networks[i][j]) &&
        Masked(networks[i][j]) == n;
      assert more[i] == networks[i];
    }
    forall j | 0 <= j < |last| && Parses(last[j]) ensures Masked(last[j]) in Existing(more) {
      assert more[|networks|][j] == last[j];
    }
  }

  // ------------------------------------------------------------ when a subnet must exist

  /** k blocks that all overlap small networks need k different networks. */
  lemma {:induction false} TakenBlocksNeedNetworks(pool: Net, q: nat, unavailable: set<Net>, k: nat)
    requires PoolOk(pool, q) && k <= BlockCount(pool, q)
    requires forall u :: u in unavailable ==> ValidNet(u) && u.prefix >= q
    requires forall j: nat :: j < k ==> !Free(Block(pool, q, j), unavailable)
    ensures |unavailable| >= k
    decreases k
  {
    if k > 0 {
      var last := Block(pool, q, k - 1);
      var u :| u in unavailable && Overlaps(last, u);
      NestedOrDisjoint(last, u);
      forall j: nat | j < k - 1 ensures !Free(Block(pool, q, j), unavailable - {u}) {
        var v :| v in unavailable && Overlaps(Block(pool, q, j), v);
        NestedOrDisjoint(Block(pool, q, j), v);
        assert v in unavailable - {u};
      }
      TakenBlocksNeedNetworks(pool, q, unavailable - {u}, k - 1);
    }
  }

  /** Fewer networks than blocks, none larger than a block: a subnet is left. */
  lemma FewSmallNetworksLeaveRoom(pool: Net, q: nat, unavailable: set<Net>)
    requires PoolOk(pool, q) && |unavailable| < BlockCount(pool, q)
    requires forall u :: u in unavailable ==> ValidNet(u) && u.prefix >= q
    ensures !Exhausted(pool, q, unavailable)
  {
    if Exhausted(pool, q, unavailable) {
      TakenBlocksNeedNetworks(pool, q, unavailable, BlockCount(pool, q));
    }
  }

  // ------------------------------------------------------------ creating the network

  /** What the daemon answers to one create request. */
  datatype Answer = Accepted | Conflict | Rejected

  datatype Creation = Created(subnet: Net) | NoCapacity | DaemonError

  ghost predicate PairwiseDisjoint(nets: seq<Net>) {
    forall i, j :: 0 <= i < j < |nets| ==> !Overlaps(nets[i], nets[j])
  }

  ghost predicate FromPool(nets: set<Net>, pool: Net, q: nat) {
    forall n :: n in nets ==> ValidNet(n) && n.prefix == q && Inside(n, pool)
  }

  lemma {:induction false} BlocksBelow(pool: Net, q: nat, nets: set<Net>, k: nat)
    requires PoolOk(pool, q) && k <= BlockCount(pool, q)
    requires forall n :: n in nets ==> exists j: nat :: j < k && n == Block(pool, q, j)
    ensures |nets| <= k
  {
    if k == 0 {
      assert nets == {};
    } else {
      var last := Block(pool, q, k - 1);
      forall n | n in nets - {last} ensures exists j: nat :: j < k - 1 && n == Block(pool, q, j) {
        var j: nat :| j < k && n == Block(pool, q, j);
        assert j < k - 1;
      }
      BlocksBelow(pool, q, nets - {last}, k - 1);
    }
  }

  lemma AttemptsBounded(pool: Net, q: nat, attempted: set<Net>)
    requires PoolOk(pool, q) && FromPool(attempted, pool, q)
    ensures |attempted| <= BlockCount(pool, q)
  {
    forall n | n in attempted ensures exists j: nat :: j < BlockCount(pool, q) && n == Block(pool, q, j) {
      var j := EveryNetworkIsBlock(pool, q, n);
    }
    BlocksBelow(pool, q, attempted, BlockCount(pool, q));
  }

  ghost function Elements(nets: seq<Net>): set<Net> {
    set n | n in nets
  }

  /** Every attempt was a free network of the pool when it was chosen. */
  ghost predicate FreeWhenTried(tried: seq<Net>, pool: Net, q: nat, lists: nat -> seq<seq<Config>>) {
    forall i :: 0 <= i < |tried| ==>
      ValidNet(tried[i]) && tried[i].prefix == q && Inside(tried[i], pool) && Free(tried[i], Existing(lists(i)))
  }

  lemma DisjointSnoc(tried: seq<Net>, subnet: Net)
    requires PairwiseDisjoint(tried) && Free(subnet, Elements(tried))
    ensures PairwiseDisjoint(tried + [subnet]) && subnet !in tried
    ensures Elements(tried + [subnet]) == Elements(tried) + {subnet}
  {
    var more := tried + [subnet];
    forall i, j | 0 <= i < j < |more| ensures !Overlaps(more[i], more[j]) {
      assert i < |tried| ==> tried[i] in Elements(tried);
    }
    assert subnet in Elements(tried) ==> Overlaps(subnet, subnet);
  }

  /** The loop's state: the attempts so far, all of them refused as conflicts. */
  ghost predicate Trial(tried: seq<Net>, attempted: set<Net>, pool: Net, q: nat,
                        lists: nat -> seq<seq<Config>>, answers: nat -> Answer)
    requires PoolOk(pool, q)
  {
    && attempted == Elements(tried) && |attempted| == |tried| <= BlockCount(pool, q)
    && PairwiseDisjoint(tried) && FreeWhenTried(tried, pool, q, lists)
    && AllConflicts(answers, |tried|)
  }

  ghost predicate AllConflicts(answers: nat -> Answer, n: nat) {
    forall i: nat :: i < n ==> answers(i) == Conflict
  }

  lemma TriedSnoc(tried: seq<Net>, pool: Net, q: nat, lists: nat -> seq<seq<Config>>, subnet: Net)
    requires FreeWhenTried(tried, pool, q, lists)
    requires ValidNet(subnet) && subnet.prefix == q && Inside(subnet, pool) && Free(subnet, Existing(lists(|tried|)))
    ensures FreeWhenTried(tried + [subnet], pool, q, lists)
  {
    var more := tried + [subnet];
    forall i | 0 <= i < |more|
      ensures ValidNet(more[i]) && more[i].prefix == q && Inside(more[i], pool) && Free(more[i], Existing(lists(i)))
    {
      assert more[i] == if i < |tried| then tried[i] else subnet;
    }
  }

  lemma TriedFromPool(tried: seq<Net>, pool: Net, q: nat, lists: nat -> seq<seq<Config>>)
    requires FreeWhenTried(tried, pool, q, lists)
    ensures FromPool(Elements(tried), pool, q)
  {
  }

  lemma FreeOfUnion(n: Net, a: set<Net>, b: set<Net>)
    requires Free(n, a + b)
    ensures Free(n, a) && Free(n, b)
  {
    forall u | u in a || u in b ensures !Overlaps(n, u) {
      assert u in a + b;
    }
  }

  lemma TrialSnoc(tried: seq<Net>, attempted: set<Net>, pool: Net, q: nat,
                  lists: nat -> seq<seq<Config>>, answers: nat -> Answer, subnet: Net)
    requires PoolOk(pool, q) && Trial(tried, attempted, pool, q, lists, answers)
    requires LowestFree(subnet, pool, q, attempted + Existing(lists(|tried|)))
    ensures attempted + {subnet} == Elements(tried + [subnet]) &&
            |attempted + {subnet}| == |tried| + 1 <= BlockCount(pool, q)
    ensures PairwiseDisjoint(tried + [subnet]) && FreeWhenTried(tried + [subnet], pool, q, lists)
  {
    FreeOfUnion(subnet, attempted, Existing(lists(|tried|)));
    DisjointSnoc(tried, subnet);
    TriedSnoc(tried, pool, q, lists, subnet);
    TriedFromPool(tried + [subnet], pool, q, lists);
    AttemptsBounded(pool, q, attempted + {subnet});
  }

  /** What a finished creation promises about its attempts and its last answer. */
  ghost predicate CreationOk(r: Creation, tried: seq<Net>, pool: Net, q: nat,
                             lists: nat -> seq<seq<Config>>, answers: nat -> Answer)
    requires PoolOk(pool, q)
  {
    && |tried| <= BlockCount(pool, q) && PairwiseDisjoint(tried) && FreeWhenTried(tried, pool, q, lists)
    && (forall i :: 0 <= i < |tried| ==> NoneListed(tried[i], lists(i)))
    && match r
       case Created(subnet) =>
         tried != [] && subnet == tried[|tried| - 1] && answers(|tried| - 1) == Accepted &&
           AllConflicts(answers, |tried| - 1)
       case DaemonError =>
         tried != [] && answers(|tried| - 1) == Rejected && AllConflicts(answers, |tried| - 1)
       case NoCapacity =>
         && AllConflicts(answers, |tried|) && Exhausted(pool, q, Elements(tried) + Existing(lists(|tried|)))
         && AllListed(pool, q, Elements(tried), lists(|tried|))
  }

  lemma TriedAreUnlisted(tried: seq<Net>, pool: Net, q: nat, lists: nat -> seq<seq<Config>>)
    requires FreeWhenTried(tried, pool, q, lists)
    ensures forall i :: 0 <= i < |tried| ==> NoneListed(tried[i], lists(i))
  {
    forall i | 0 <= i < |tried| ensures NoneListed(tried[i], lists(i)) {
      FreeIsUnlisted(tried[i], lists(i));
    }
  }

  lemma ConflictsSnoc(answers: nat -> Answer, n: nat)
    requires AllConflicts(answers, n) && answers(n) == Conflict
    ensures AllConflicts(answers, n + 1)
  {
  }

  lemma TrialStep(tried: seq<Net>, attempted: set<Net>, pool: Net, q: nat,
                  lists: nat -> seq<seq<Config>>, answers: nat -> Answer, subnet: Net)
    requires PoolOk(pool, q) && Trial(tried, attempted, pool, q, lists, answers)
    requires LowestFree(subnet, pool, q, attempted + Existing(lists(|tried|)))
    ensures |tried| < BlockCount(pool, q)
    ensures match answers(|tried|)
            case Accepted => CreationOk(Created(subnet), tried + [subnet], pool, q, lists, answers)
            case Rejected => CreationOk(DaemonError, tried + [subnet], pool, q, lists, answers)
            case Conflict => Trial(tried + [subnet], attempted + {subnet}, pool, q, lists, answers)
  {
    TrialSnoc(tried, attempted, pool, q, lists, answers, subnet);
    TriedAreUnlisted(tried + [subnet], pool, q, lists);
    var more := tried + [subnet];
    assert more[|more| - 1] == subnet && |more| - 1 == |tried|;
    if answers(|tried|) == Conflict {
      ConflictsSnoc(answers, |tried|);
      assert AllConflicts(answers, |more|);
    }
  }

  /**
   The retry loop, against a daemon whose network list and answers may change at
   every attempt. It always ends: each conflict uses up a block of the pool.
   */
  method CreateNetwork(pool: Net, q: nat, lists: nat -> seq<seq<Config>>, answers: nat -> Answer)
    returns (r: Creation, tried: seq<Net>)
    requires PoolOk(pool, q)
    ensures CreationOk(r, tried, pool, q, lists, answers)
  {
    tried := [];
    var attempted: set<Net> := {};
    while true
      invariant Trial(tried, attempted, pool, q, lists, answers)
      decreases BlockCount(pool, q) - |tried|
    {
      var next := NextNetworkSubnet(pool, q, attempted, lists(|tried|));
      if next.Err? {
        TriedAreUnlisted(tried, pool, q, lists);
        return NoCapacity, tried;
      }
      var answer := answers(|tried|);
      TrialStep(tried, attempted, pool, q, lists, answers, next.value);
      tried := tried + [next.value];
      if answer == Accepted {
        return Created(next.value), tried;
      } else if answer == Rejected {
        return DaemonError, tried;
      }
      attempted := attempted + {next.value};
    }
  }

  // ------------------------------------------------------------ configuration

  datatype PoolSetting = Unset | Malformed | Ipv6 | Ipv4Pool(address: nat, prefix: nat)

  datatype PrefixSetting = Default | NotANumber | Number(value: int)

  datatype NetworkPool = NetworkPool(pool: Net, subnetPrefix: nat)

  /** The prefix asked for, or the default one. */
  function PrefixAsked(prefix: PrefixSetting): int
    requires !prefix.NotANumber?
  {
    if prefix.Default? then DEFAULT_SUBNET_PREFIX else prefix.value
  }

  /** The configured pool and subnet prefix; strict parsing rejects host bits in the pool. */
  function DockerNetworkPool(address: PoolSetting, prefix: PrefixSetting): (r: Result<Option<NetworkPool>, string>)
    ensures r == Ok(None) <==> address.Unset? && prefix.Default?
    ensures r.Ok? && r.value.Some? <==>
      && address.Ipv4Pool? && ValidNet(Net(address.address, address.prefix)) && !prefix.NotANumber?
      && address.prefix <= PrefixAsked(prefix) <= MAX_SUBNET_PREFIX
    ensures r.Ok? && r.value.Some? ==>
      && PoolOk(r.value.value.pool, r.value.value.subnetPrefix)
      && r.value.value.pool == Net(address.address, address.prefix) && r.value.value.subnetPrefix == PrefixAsked(prefix)
  {
    match address
    case Unset => if prefix.Default? then Ok(None) else Err("DOCKER_SUBNET_PREFIX requires DOCKER_ADDRESS_POOL")
    case Malformed => Err("invalid DOCKER_ADDRESS_POOL")
    case Ipv6 => Err("DOCKER_ADDRESS_POOL must be an IPv4 network")
    case Ipv4Pool(base, length) =>
      if !ValidNet(Net(base, length)) then Err("invalid DOCKER_ADDRESS_POOL")
      else if prefix.NotANumber? then Err("DOCKER_SUBNET_PREFIX must be an integer")
      else
        var q := if prefix.Default? then DEFAULT_SUBNET_PREFIX else prefix.value;
        if q < length || q > MAX_SUBNET_PREFIX then Err("DOCKER_SUBNET_PREFIX is out of range")
        else Ok(Some(NetworkPool(Net(base, length), q)))
  }
}
