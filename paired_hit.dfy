/** `PairedHit` of the read store: the two ends of a paired read, each with a
    chromosome id, a position, a strand and a read length, and a weight. The object is
    mutable (`flipSides` swaps the ends in place); ordering looks at the left end only;
    equality allows a small weight tolerance and ignores the lengths; the hash code is
    Java's 31-multiplier chain in 32-bit arithmetic. */
module ReadDb {
  import opened Text

  const TWO_32: int := 0x1_0000_0000

  /** Java `int` arithmetic: the value congruent to `x` modulo 2^32 in the `int` range. */
  function Wrap32(x: int): (r: int)
    ensures INT_MIN <= r <= INT_MAX
    ensures INT_MIN <= x <= INT_MAX ==> r == x
  {
    (x - INT_MIN) % TWO_32 + INT_MIN
  }

  /** Wrapping forgets multiples of 2^32. */
  lemma WrapShift(x: int, k: int)
    ensures Wrap32(x + k * TWO_32) == Wrap32(x)
  {
    var a := x - INT_MIN;
    assert a + k * TWO_32 == (a / TWO_32 + k) * TWO_32 + a % TWO_32;
    assert (a + k * TWO_32) % TWO_32 == a % TWO_32;
  }

  /** A wrapped value differs from the exact one by a multiple of 2^32. */
  lemma WrapDiff(x: int)
    ensures x == Wrap32(x) + ((x - INT_MIN) / TWO_32) * TWO_32
  {
  }

  predicate Int16(x: int) { -0x8000 <= x <= 0x7FFF }

  predicate Int32(x: int) { INT_MIN <= x <= INT_MAX }

  /** Java's `Boolean.hashCode` constants. */
  function StrandCode(b: bool): int { if b then 1231 else 1237 }

  /** One statement `result = prime * result + x` of `hashCode`: the product and the
      sum are each taken in `int`. */
  function HashStep(result: int, x: int): int
  {
    Wrap32(Wrap32(31 * result) + x)
  }

  /** The hash chain taken in exact arithmetic. */
  function HashPoly(lc: int, lp: int, ls: bool, rc: int, rp: int, rs: bool): int
  {
    (((((31 + lc) * 31 + lp) * 31 + StrandCode(ls)) * 31 + rc) * 31 + rp) * 31 + StrandCode(rs)
  }

  /** A hash step on a wrapped running value is the wrap of the exact step. */
  lemma HashStepExact(p: int, x: int)
    ensures HashStep(Wrap32(p), x) == Wrap32(31 * p + x)
  {
    var w := Wrap32(p);
    var q := (p - INT_MIN) / TWO_32;
    WrapDiff(p);
    var v := Wrap32(31 * w);
    var q2 := (31 * w - INT_MIN) / TWO_32;
    WrapDiff(31 * w);
    assert 31 * w == v + q2 * TWO_32;
    assert v + x == 31 * p + x + (-(31 * q) - q2) * TWO_32 by {
      assert 31 * p == 31 * w + (31 * q) * TWO_32;
    }
    WrapShift(31 * p + x, -(31 * q) - q2);
  }

  /** What a region builder returns: chromosome name, start, end and strand. */
  datatype StrandedRegion = StrandedRegion(chrom: string, start: int, end: int, strand: char)

  function StrandChar(b: bool): char { if b then '+' else '-' }

  class PairedHit {
    var leftChrom: int
    var rightChrom: int
    var leftPos: int
    var rightPos: int
    var weight: real
    var leftStrand: bool
    var rightStrand: bool
    var leftLength: int
    var rightLength: int

    /** The Java field types: `int` chromosomes and positions, `short` lengths. */
    ghost predicate Valid()
      reads this
    {
      && Int32(leftChrom) && Int32(rightChrom) && Int32(leftPos) && Int32(rightPos)
      && Int16(leftLength) && Int16(rightLength)
    }

    constructor (leftchrom: int, leftpos: int, leftstrand: bool, leftlen: int,
                 rightchrom: int, rightpos: int, rightstrand: bool, rightlen: int, weight: real)
      requires Int32(leftchrom) && Int32(leftpos) && Int32(rightchrom) && Int32(rightpos)
      requires Int16(leftlen) && Int16(rightlen)
      ensures Valid()
      ensures leftChrom == leftchrom && rightChrom == rightchrom
      ensures leftPos == leftpos && rightPos == rightpos
      ensures leftStrand == leftstrand && rightStrand == rightstrand
      ensures leftLength == leftlen && rightLength == rightlen
      ensures this.weight == weight
    {
      leftChrom := leftchrom;
      rightChrom := rightchrom;
      leftPos := leftpos;
      rightPos := rightpos;
      this.weight := weight;
      leftStrand := leftstrand;
      rightStrand := rightstrand;
      leftLength := leftlen;
      rightLength := rightlen;
    }

    /** Same ends (chromosome, position, strand) and weights closer than 0.001. */
    function Equals(other: PairedHit): bool
      reads this, other
    {
      && leftChrom == other.leftChrom
      && rightChrom == other.rightChrom
      && leftPos == other.leftPos
      && rightPos == other.rightPos
      && leftStrand == other.leftStrand
      && rightStrand == other.rightStrand
      && Abs(weight - other.weight) < 0.001
    }

    function HashCode(): (h: int)
      reads this
      ensures Int32(h)
    {
      var r1 := HashStep(1, leftChrom);
      var r2 := HashStep(r1, leftPos);
      var r3 := HashStep(r2, StrandCode(leftStrand));
      var r4 := HashStep(r3, rightChrom);
      var r5 := HashStep(r4, rightPos);
      HashStep(r5, StrandCode(rightStrand))
    }

    /** Order by the left end only: chromosome, then position, by `int` subtraction. */
    function CompareTo(o: PairedHit): (r: int)
      reads this, o
      ensures Int32(r)
    {
      if leftChrom == o.leftChrom then Wrap32(leftPos - o.leftPos)
      else Wrap32(leftChrom - o.leftChrom)
    }

    /** The left read: from its position, `leftLength` bases along its strand. */
    function LeftRegion(chromName: int -> string): StrandedRegion
      reads this
    {
      StrandedRegion(chromName(leftChrom), leftPos,
                     Wrap32(leftPos + (if leftStrand then leftLength else -leftLength)),
                     StrandChar(leftStrand))
    }

    function LeftPointRegion(chromName: int -> string): StrandedRegion
      reads this
    {
      StrandedRegion(chromName(leftChrom), leftPos, Wrap32(leftPos + 1), StrandChar(leftStrand))
    }

    function RightRegion(chromName: int -> string): StrandedRegion
      reads this
    {
      StrandedRegion(chromName(rightChrom), rightPos,
                     Wrap32(rightPos + (if rightStrand then rightLength else -rightLength)),
                     StrandChar(rightStrand))
    }

    function RightPointRegion(chromName: int -> string): StrandedRegion
      reads this
    {
      StrandedRegion(chromName(rightChrom), rightPos, Wrap32(rightPos + 1), StrandChar(rightStrand))
    }

    /** Swap the two ends in place; the weight stays. */
    method FlipSides()
      modifies this
      ensures leftChrom == old(rightChrom) && rightChrom == old(leftChrom)
      ensures leftPos == old(rightPos) && rightPos == old(leftPos)
      ensures leftStrand == old(rightStrand) && rightStrand == old(leftStrand)
      ensures leftLength == old(rightLength) && rightLength == old(leftLength)
      ensures weight == old(weight)
      ensures old(Valid()) ==> Valid()
    {
      var x := leftChrom;
      leftChrom := rightChrom;
      rightChrom := x;

      x := leftPos;
      leftPos := rightPos;
      rightPos := x;

      var b := leftStrand;
      leftStrand := rightStrand;
      rightStrand := b;

      var s := leftLength;
      leftLength := rightLength;
      rightLength := s;
    }
  }

  function Abs(x: real): real { if x < 0.0 then -x else x }

  /** Flipping twice gives back every field. */
  method FlipTwice(h: PairedHit)
    modifies h
    ensures h.leftChrom == old(h.leftChrom) && h.rightChrom == old(h.rightChrom)
    ensures h.leftPos == old(h.leftPos) && h.rightPos == old(h.rightPos)
    ensures h.leftStrand == old(h.leftStrand) && h.rightStrand == old(h.rightStrand)
    ensures h.leftLength == old(h.leftLength) && h.rightLength == old(h.rightLength)
    ensures h.weight == old(h.weight)
  {
    h.FlipSides();
    h.FlipSides();
  }

  /** `b` holds what `a` holds after `flipSides`. */
  ghost predicate Flipped(a: PairedHit, b: PairedHit)
    reads a, b
  {
    && b.leftChrom == a.rightChrom && b.rightChrom == a.leftChrom
    && b.leftPos == a.rightPos && b.rightPos == a.leftPos
    && b.leftStrand == a.rightStrand && b.rightStrand == a.leftStrand
    && b.leftLength == a.rightLength && b.rightLength == a.leftLength
    && b.weight == a.weight
  }

  /** After a flip the left regions are the old right regions and the other way round. */
  lemma FlippedRegions(a: PairedHit, b: PairedHit, chromName: int -> string)
    requires Flipped(a, b)
    ensures b.LeftRegion(chromName) == a.RightRegion(chromName)
    ensures b.RightRegion(chromName) == a.LeftRegion(chromName)
    ensures b.LeftPointRegion(chromName) == a.RightPointRegion(chromName)
    ensures b.RightPointRegion(chromName) == a.LeftPointRegion(chromName)
  {
  }

  /** Flipping a hit keeps it equal to a hit flipped the same way, and two flips of a
      hit agree with it on every field `equals` looks at. */
  lemma FlippedEquals(a: PairedHit, b: PairedHit, c: PairedHit, d: PairedHit)
    requires Flipped(a, b) && Flipped(c, d)
    ensures b.Equals(d) == a.Equals(c)
  {
  }

  /** The hash code is the exact hash chain reduced to the `int` range. */
  lemma HashIsPolynomial(h: PairedHit)
    ensures h.HashCode() == Wrap32(HashPoly(h.leftChrom, h.leftPos, h.leftStrand,
                                            h.rightChrom, h.rightPos, h.rightStrand))
  {
    HashChain(h.leftChrom, h.leftPos, StrandCode(h.leftStrand),
              h.rightChrom, h.rightPos, StrandCode(h.rightStrand));
  }

  /** Six wrapped hash steps from 1 agree with the exact chain, wrapped once. */
  lemma HashChain(a: int, b: int, c: int, d: int, e: int, f: int)
    ensures HashStep(HashStep(HashStep(HashStep(HashStep(HashStep(1, a), b), c), d), e), f)
         == Wrap32((((((31 + a) * 31 + b) * 31 + c) * 31 + d) * 31 + e) * 31 + f)
  {
    var p1 := 31 + a;
    var p2 := 31 * p1 + b;
    var p3 := 31 * p2 + c;
    var p4 := 31 * p3 + d;
    var p5 := 31 * p4 + e;
    assert HashStep(1, a) == Wrap32(p1) by { HashStepExact(1, a); }
    HashStepExact(p1, b);
    HashStepExact(p2, c);
    HashStepExact(p3, d);
    HashStepExact(p4, e);
    HashStepExact(p5, f);
  }

  /** Hits that are equal have equal hash codes: the hash reads only fields that
      `equals` compares exactly. */
  lemma EqualHashes(a: PairedHit, b: PairedHit)
    requires a.Equals(b)
    ensures a.HashCode() == b.HashCode()
  {
  }

  /** `equals` is reflexive and symmetric. */
  lemma EqualsSymmetric(a: PairedHit, b: PairedHit)
    ensures a.Equals(a)
    ensures a.Equals(b) == b.Equals(a)
  {
    assert Abs(a.weight - b.weight) == Abs(b.weight - a.weight);
  }

  /** The read lengths play no part in `equals`, `hashCode` or `compareTo`. */
  ghost predicate SameButLengths(a: PairedHit, b: PairedHit)
    reads a, b
  {
    && a.leftChrom == b.leftChrom && a.rightChrom == b.rightChrom
    && a.leftPos == b.leftPos && a.rightPos == b.rightPos
    && a.leftStrand == b.leftStrand && a.rightStrand == b.rightStrand
    && a.weight == b.weight
  }

  lemma LengthsIgnored(a: PairedHit, b: PairedHit, c: PairedHit)
    requires SameButLengths(a, b)
    ensures a.Equals(c) == b.Equals(c) && a.Equals(b)
    ensures a.HashCode() == b.HashCode()
    ensures a.CompareTo(c) == b.CompareTo(c) && c.CompareTo(a) == c.CompareTo(b)
  {
  }

  /** `compareTo` looks only at the left chromosome and position: the right end and the
      weight can be anything. */
  lemma CompareLeftOnly(a: PairedHit, b: PairedHit, c: PairedHit)
    requires a.leftChrom == b.leftChrom && a.leftPos == b.leftPos
    ensures a.CompareTo(c) == b.CompareTo(c) && c.CompareTo(a) == c.CompareTo(b)
  {
  }

  /** The left end of `a` comes before that of `b`. */
  ghost predicate LeftBefore(a: PairedHit, b: PairedHit)
    reads a, b
  {
    a.leftChrom < b.leftChrom || (a.leftChrom == b.leftChrom && a.leftPos < b.leftPos)
  }

  /** Chromosome ids and positions of the read store are non-negative `int`s. */
  ghost predicate LeftNonNegative(a: PairedHit)
    reads a
  {
    0 <= a.leftChrom <= INT_MAX && 0 <= a.leftPos <= INT_MAX
  }

  /** For non-negative ends the subtraction cannot wrap, so the sign of `compareTo` is
      the lexicographic order of (left chromosome, left position), and it is zero
      exactly when both are equal. */
  lemma CompareSign(a: PairedHit, b: PairedHit)
    requires LeftNonNegative(a) && LeftNonNegative(b)
    ensures a.CompareTo(b) < 0 <==> LeftBefore(a, b)
    ensures a.CompareTo(b) > 0 <==> LeftBefore(b, a)
    ensures a.CompareTo(b) == 0 <==> a.leftChrom == b.leftChrom && a.leftPos == b.leftPos
  {
    if a.leftChrom == b.leftChrom {
      assert Int32(a.leftPos - b.leftPos);
    } else {
      assert Int32(a.leftChrom - b.leftChrom);
    }
  }

  lemma CompareAntisymmetric(a: PairedHit, b: PairedHit)
    requires LeftNonNegative(a) && LeftNonNegative(b)
    ensures a.CompareTo(b) < 0 <==> b.CompareTo(a) > 0
    ensures a.CompareTo(b) == 0 <==> b.CompareTo(a) == 0
  {
    CompareSign(a, b);
    CompareSign(b, a);
  }

  lemma CompareTransitive(a: PairedHit, b: PairedHit, c: PairedHit)
    requires LeftNonNegative(a) && LeftNonNegative(b) && LeftNonNegative(c)
    requires a.CompareTo(b) < 0 && b.CompareTo(c) < 0
    ensures a.CompareTo(c) < 0
  {
    CompareSign(a, b);
    CompareSign(b, c);
    CompareSign(a, c);
  }

  /** With a negative position the subtraction wraps: a hit at the smallest `int`
      compares after a hit at position 1 on the same chromosome. */
  lemma CompareWraps(a: PairedHit, b: PairedHit)
    requires a.leftChrom == b.leftChrom && a.leftPos == INT_MIN && b.leftPos == 1
    ensures a.CompareTo(b) == INT_MAX && LeftBefore(a, b)
  {
  }

  /** A read region spans its length along its strand, and a point region one base,
      as long as the end fits in an `int`. */
  lemma RegionSpans(h: PairedHit, chromName: int -> string)
    requires Int32(h.leftPos + h.leftLength) && Int32(h.leftPos - h.leftLength) && Int32(h.leftPos + 1)
    ensures var r := h.LeftRegion(chromName);
      && r.chrom == chromName(h.leftChrom) && r.start == h.leftPos
      && (h.leftStrand ==> r.end == h.leftPos + h.leftLength && r.strand == '+')
      && (!h.leftStrand ==> r.end == h.leftPos - h.leftLength && r.strand == '-')
    ensures var p := h.LeftPointRegion(chromName);
      p.start == h.leftPos && p.end == p.start + 1 && p.strand == h.LeftRegion(chromName).strand
  {
  }

  /** The same for the right read. */
  lemma RightRegionSpans(h: PairedHit, chromName: int -> string)
    requires Int32(h.rightPos + h.rightLength) && Int32(h.rightPos - h.rightLength) && Int32(h.rightPos + 1)
    ensures var r := h.RightRegion(chromName);
      && r.chrom == chromName(h.rightChrom) && r.start == h.rightPos
      && (h.rightStrand ==> r.end == h.rightPos + h.rightLength && r.strand == '+')
      && (!h.rightStrand ==> r.end == h.rightPos - h.rightLength && r.strand == '-')
    ensures var p := h.RightPointRegion(chromName);
      p.start == h.rightPos && p.end == p.start + 1 && p.strand == h.RightRegion(chromName).strand
  {
  }
}
