/**
 * Set elements: how one element is classified, and the canonical form nft stores it in.
 * Reading and writing addresses as text is a parameter (`Spelling`); everything here works on
 * the form a text reads as.
 */
module SetElements {
  import opened Prefixes

  datatype Version = V4 | V6 {
    function Bits(): nat {
      if V4? then 32 else 128
    }

    function Number(): nat {
      if V4? then 4 else 6
    }
  }

  /** What a text reads as: a number, a port range, an address range, a network (a host has a full prefix), ... */
  datatype Form =
    | Numeric(n: nat)
    | Ports(first: nat, last: nat)
    | Range(version: Version, low: nat, high: nat)
    | Network(version: Version, addr: nat, prefix: nat)
    | Protocol(number: nat)
    | Quoted
    | Unparsable

  predicate WellFormed(f: Form) {
    match f
    case Range(v, low, high) => low < Pow2(v.Bits()) && high < Pow2(v.Bits())
    case Network(v, addr, prefix) => prefix <= v.Bits() && addr < Pow2(v.Bits())
    case _ => true
  }

  /** Addresses of one version from `lo` to `hi`. */
  datatype Interval = Interval(version: Version, lo: nat, hi: nat)

  function BlockSize(v: Version, prefix: nat): (size: nat)
    requires prefix <= v.Bits()
    ensures size > 0
  {
    Pow2(v.Bits() - prefix)
  }

  /** Hosts, CIDRs (host bits or not) and ranges that are not reversed. */
  predicate IsAddress(f: Form) {
    WellFormed(f) && (f.Network? || (f.Range? && f.low <= f.high))
  }

  /** The addresses an element stands for. */
  function Denotes(f: Form): Interval
    requires IsAddress(f)
  {
    if f.Range? then Interval(f.version, f.low, f.high)
    else
      var size := BlockSize(f.version, f.prefix);
      Interval(f.version, Mask(f.addr, size), Mask(f.addr, size) + size - 1)
  }

  /** The empty prefix stands for the whole family, a full one for one address. */
  lemma PrefixExtremes(v: Version, addr: nat)
    requires addr < Pow2(v.Bits())
    ensures Pow2(v.Bits()) == if v.V4? then 0x1_0000_0000 else 0x1_0000_0000_0000_0000_0000_0000_0000_0000
    ensures Denotes(Network(v, addr, 0)) == Interval(v, 0, Pow2(v.Bits()) - 1)
    ensures Denotes(Network(v, addr, v.Bits())) == Interval(v, addr, addr)
  {
    Pow2Values();
    assert Pow2(0) == 1;
    SmallMask(addr, Pow2(v.Bits()));
  }

  /** The test for a range that is one aligned power-of-two block. */
  predicate AlignedBlock(low: nat, high: nat)
    requires low <= high
  {
    var size := high - low + 1;
    BitAnd(size, size - 1) == 0 && low % size == 0
  }

  function CollapseRange(v: Version, low: nat, high: nat): Form
    requires low <= high < Pow2(v.Bits())
  {
    if !AlignedBlock(low, high) then Range(v, low, high)
    else
      BlockFits(v, low, high);
      Network(v, low, v.Bits() - (BitLength(high - low + 1) - 1))
  }

  /** The form an address element is stored in: a block becomes a masked network, other ranges keep their ends. */
  function Canonical(f: Form): Form
    requires IsAddress(f)
  {
    if f.Range? then CollapseRange(f.version, f.low, f.high)
    else Network(f.version, Mask(f.addr, BlockSize(f.version, f.prefix)), f.prefix)
  }

  lemma BlockFits(v: Version, low: nat, high: nat)
    requires low <= high < Pow2(v.Bits()) && AlignedBlock(low, high)
    ensures 0 < BitLength(high - low + 1) <= v.Bits() + 1
    ensures high - low + 1 == Pow2(BitLength(high - low + 1) - 1)
  {
    var size := high - low + 1;
    PowerTest(size);
    if BitLength(size) - 1 > v.Bits() { Pow2Monotone(v.Bits(), BitLength(size) - 1); }
  }

  /** Canonical forms are fixed points of the rewriting. */
  predicate IsCanonical(f: Form) {
    IsAddress(f) && Canonical(f) == f
  }

  lemma CanonicalKeepsMeaning(f: Form)
    requires IsAddress(f)
    ensures IsAddress(Canonical(f)) && Denotes(Canonical(f)) == Denotes(f)
  {
    if f.Range? {
      if AlignedBlock(f.low, f.high) {
        BlockFits(f.version, f.low, f.high);
        MaskAligned(f.low, f.high - f.low + 1);
      }
    } else {
      var size := BlockSize(f.version, f.prefix);
      MaskAligned(f.addr, size);
      MaskAligned(Mask(f.addr, size), size);
    }
  }

  lemma CanonicalIdempotent(f: Form)
    requires IsAddress(f)
    ensures IsCanonical(Canonical(f))
  {
    CanonicalKeepsMeaning(f);
    if Canonical(f).Network? {
      var c := Canonical(f);
      var size := BlockSize(c.version, c.prefix);
      if f.Range? {
        BlockFits(f.version, f.low, f.high);
        MaskAligned(c.addr, size);
      } else {
        MaskAligned(f.addr, size);
        MaskAligned(c.addr, size);
      }
    }
  }

  /**
   * The size and alignment test holds exactly for the ranges some prefix denotes, and then the
   * prefix length is the one the collapse gives.
   */
  lemma AlignedBlockIsPrefix(v: Version, low: nat, high: nat, addr: nat, prefix: nat)
    requires low <= high < Pow2(v.Bits()) && prefix <= v.Bits() && addr < Pow2(v.Bits())
    requires Denotes(Network(v, addr, prefix)) == Interval(v, low, high)
    ensures AlignedBlock(low, high) && CollapseRange(v, low, high) == Network(v, low, prefix)
  {
    var k := v.Bits() - prefix;
    MaskAligned(addr, Pow2(k));
    assert high - low + 1 == Pow2(k);
    BitLengthOfPower(k);
    PowerTest(Pow2(k));
  }

  /** Some prefix denotes exactly this range. */
  ghost predicate OnePrefix(v: Version, low: nat, high: nat) {
    exists addr: nat, prefix: nat :: BlockIs(v, addr, prefix, low, high)
  }

  ghost predicate BlockIs(v: Version, addr: nat, prefix: nat, low: nat, high: nat) {
    prefix <= v.Bits() && addr < Pow2(v.Bits()) && Denotes(Network(v, addr, prefix)) == Interval(v, low, high)
  }

  lemma AlignedBlockIff(v: Version, low: nat, high: nat)
    requires low <= high < Pow2(v.Bits())
    ensures AlignedBlock(low, high) <==> OnePrefix(v, low, high)
  {
    if AlignedBlock(low, high) {
      var c := CollapseRange(v, low, high);
      BlockFits(v, low, high);
      CanonicalKeepsMeaning(Range(v, low, high));
      assert BlockIs(v, c.addr, c.prefix, low, high);
    }
    forall addr: nat, prefix: nat | BlockIs(v, addr, prefix, low, high) ensures AlignedBlock(low, high) {
      AlignedBlockIsPrefix(v, low, high, addr, prefix);
    }
  }

  lemma NetworkFromInterval(f: Form, r: Form)
    requires IsAddress(f) && f.Network? && IsAddress(r) && r.Range? && Denotes(f) == Denotes(r)
    ensures Canonical(f) == Canonical(r)
  {
    AlignedBlockIsPrefix(r.version, r.low, r.high, f.addr, f.prefix);
  }

  lemma NetworksFromInterval(f: Form, g: Form)
    requires IsAddress(f) && f.Network? && IsAddress(g) && g.Network? && Denotes(f) == Denotes(g)
    ensures Canonical(f) == Canonical(g)
  {
    var i, j := f.version.Bits() - f.prefix, g.version.Bits() - g.prefix;
    assert Pow2(i) == Pow2(j);
    if i < j { Pow2Monotone(i, j); }
    if j < i { Pow2Monotone(j, i); }
  }

  /** One interval, one canonical form: two address elements agree canonically iff they denote the same addresses. */
  lemma CanonicalUnique(f: Form, g: Form)
    requires IsAddress(f) && IsAddress(g)
    ensures Canonical(f) == Canonical(g) <==> Denotes(f) == Denotes(g)
  {
    CanonicalKeepsMeaning(f);
    CanonicalKeepsMeaning(g);
    if Denotes(f) == Denotes(g) {
      if f.Network? && g.Network? {
        NetworksFromInterval(f, g);
      } else if f.Network? {
        NetworkFromInterval(f, g);
      } else if g.Network? {
        NetworkFromInterval(g, f);
      }
    }
  }

  // --- containment ------------------------------------------------------------

  predicate Within(a: Interval, b: Interval) {
    a.version == b.version && b.lo <= a.lo && a.hi <= b.hi
  }

  predicate Disjoint(a: Interval, b: Interval) {
    a.version != b.version || a.hi < b.lo || b.hi < a.lo
  }

  lemma NetworkAligned(f: Form)
    requires IsAddress(f) && f.Network?
    ensures var size := BlockSize(f.version, f.prefix);
            Denotes(f).lo % size == 0 && Denotes(f).hi == Denotes(f).lo + size - 1
  {
    MaskAligned(f.addr, BlockSize(f.version, f.prefix));
  }

  /** Two networks are nested or disjoint. */
  lemma NetworksLaminar(f: Form, g: Form)
    requires IsAddress(f) && f.Network? && IsAddress(g) && g.Network? && f.version == g.version
    requires g.prefix <= f.prefix
    ensures Within(Denotes(f), Denotes(g)) || Disjoint(Denotes(f), Denotes(g))
  {
    NetworkAligned(f);
    NetworkAligned(g);
    Pow2Divides(f.version.Bits() - f.prefix, g.version.Bits() - g.prefix);
    Laminar(Denotes(f).lo, BlockSize(f.version, f.prefix), Denotes(g).lo, BlockSize(g.version, g.prefix));
  }

  lemma WithinSizes(f: Form, g: Form)
    requires IsAddress(f) && f.Network? && IsAddress(g) && g.Network? && Within(Denotes(f), Denotes(g))
    ensures BlockSize(f.version, f.prefix) <= BlockSize(g.version, g.prefix)
    ensures BlockSize(f.version, f.prefix) == BlockSize(g.version, g.prefix) ==> Denotes(f) == Denotes(g)
  {
    NetworkAligned(f);
    NetworkAligned(g);
  }

  /** A network strictly inside another has the longer prefix. */
  lemma WithinPrefix(f: Form, g: Form)
    requires IsCanonical(f) && f.Network? && IsCanonical(g) && g.Network?
    requires Within(Denotes(f), Denotes(g)) && f != g
    ensures g.prefix < f.prefix
  {
    WithinSizes(f, g);
    CanonicalUnique(f, g);
    var i, j := f.version.Bits() - f.prefix, g.version.Bits() - g.prefix;
    if j < i { Pow2Monotone(j, i); }
  }
}
