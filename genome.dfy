/**
 * The pure bit arithmetic of a cell's genome (src/cell.rs): reading single gene
 * bits, the three-parent crossover of one 8-bit channel, the point-mutation
 * noise operator, and the integer skeleton of genome decoding.
 *
 * Every random draw of the original is an explicit parameter whose type is the
 * range the code draws from.
 */
module Genome {

  /** One gene channel (`u8`). */
  type Gene = bv8

  /** Low cut point `l`, drawn by `rand_range(0, 3)`. */
  type LowCut = l: bv8 | l <= 3

  /** High cut point `h`, drawn by `rand_range(4, 7)`. */
  type HighCut = h: bv8 | 4 <= h <= 7 witness 4

  /** Crossover arm, drawn by `rand_range(0, 5)`: six arms, 0 through 5. */
  type Permutation = p: nat | p <= 5

  /** Bit position within a gene. */
  type BitIndex = i: bv8 | i < 8

  /** The random draws of one call of `mix_genes`. */
  datatype MixDraw = MixDraw(low: LowCut, high: HighCut, permutation: Permutation)

  /** `pick_gene_bit`: whether bit `n` of `gene` is set, computed by mask and shift. */
  function PickGeneBit(gene: Gene, n: BitIndex): bool
  {
    (gene & (1 << n)) >> n == 1
  }

  /** `pick_gene_bit` agrees with the other bit test of the decoder, `gene & (1 << n) != 0`. */
  lemma BitTestsAgree(gene: Gene, n: BitIndex)
    ensures PickGeneBit(gene, n) <==> gene & (1 << n) != 0
  {
  }

  // ---------------------------------------------------------------------------
  // Three-parent crossover

  /** `a_mask = 0xff << h`: the high segment, bits h..7. */
  function AMask(h: HighCut): (m: Gene)
  {
    0xff << h
  }

  /** `c_mask = !(0xff << l)`: the low segment, bits 0..l-1; empty when l = 0. */
  function CMask(l: LowCut): (m: Gene)
    ensures l == 0 <==> m == 0
  {
    !(0xff << l)
  }

  /** `b_mask = !(a_mask | c_mask)`: the middle segment, bits l..h-1. */
  function BMask(l: LowCut, h: HighCut): (m: Gene)
  {
    !(AMask(h) | CMask(l))
  }

  /** Bit `i` lies in exactly the segment the cut points put it in. */
  lemma MaskBits(l: LowCut, h: HighCut, i: BitIndex)
    ensures PickGeneBit(AMask(h), i) <==> h <= i
    ensures PickGeneBit(BMask(l, h), i) <==> l <= i < h
    ensures PickGeneBit(CMask(l), i) <==> i < l
  {
  }

  /** The three masks are pairwise disjoint and together cover the whole byte. */
  lemma MasksPartition(l: LowCut, h: HighCut)
    ensures AMask(h) & BMask(l, h) == 0
    ensures AMask(h) & CMask(l) == 0
    ensures BMask(l, h) & CMask(l) == 0
    ensures AMask(h) | BMask(l, h) | CMask(l) == 0xff
  {
  }

  /**
   * Which parent supplies the high, middle and low segment under each arm of
   * the crossover match — an independent table of the six assignments.
   */
  function SegmentOwners(p: Permutation): (owners: (nat, nat, nat))
    ensures owners.0 < 3 && owners.1 < 3 && owners.2 < 3
    ensures owners.0 != owners.1 && owners.0 != owners.2 && owners.1 != owners.2
  {
    match p
    case 0 => (0, 1, 2)
    case 1 => (0, 2, 1)
    case 2 => (1, 0, 2)
    case 3 => (1, 2, 0)
    case 4 => (2, 0, 1)
    case 5 => (2, 1, 0)
  }

  /** The six arms are six different assignments, and every assignment has an arm. */
  lemma {:induction false} SixPermutations()
    ensures forall p: Permutation, q: Permutation :: p != q ==> SegmentOwners(p) != SegmentOwners(q)
    ensures forall a: nat, b: nat, c: nat ::
      a < 3 && b < 3 && c < 3 && a != b && a != c && b != c ==>
        exists p: Permutation :: SegmentOwners(p) == (a, b, c)
  {
    var table := [(0, 1, 2), (0, 2, 1), (1, 0, 2), (1, 2, 0), (2, 0, 1), (2, 1, 0)];
    forall p: Permutation ensures SegmentOwners(p) == table[p] { }
    forall a: nat, b: nat, c: nat | a < 3 && b < 3 && c < 3 && a != b && a != c && b != c
      ensures exists p: Permutation :: SegmentOwners(p) == (a, b, c)
    {
      var p: Permutation :=
        if a == 0 then (if b == 1 then 0 else 1)
        else if a == 1 then (if b == 0 then 2 else 3)
        else (if b == 0 then 4 else 5);
      assert SegmentOwners(p) == (a, b, c);
    }
  }

  /** One parent byte under each mask, joined: `(x & a) | (y & b) | (z & c)`. */
  function Splice(x: Gene, y: Gene, z: Gene, a: Gene, b: Gene, c: Gene): Gene
  {
    (x & a) | (y & b) | (z & c)
  }

  /** `mix_genes`: one child byte from three parent bytes, under the drawn cut points and arm. */
  function MixGenes(genes: seq<Gene>, d: MixDraw): (child: Gene)
    requires |genes| == 3
  {
    var aMask, bMask, cMask := AMask(d.high), BMask(d.low, d.high), CMask(d.low);
    match d.permutation
    case 0 => Splice(genes[0], genes[1], genes[2], aMask, bMask, cMask)
    case 1 => Splice(genes[0], genes[2], genes[1], aMask, bMask, cMask)
    case 2 => Splice(genes[1], genes[0], genes[2], aMask, bMask, cMask)
    case 3 => Splice(genes[1], genes[2], genes[0], aMask, bMask, cMask)
    case 4 => Splice(genes[2], genes[0], genes[1], aMask, bMask, cMask)
    case 5 => Splice(genes[2], genes[1], genes[0], aMask, bMask, cMask)
  }

  /** Under pairwise disjoint masks, each mask recovers the byte spliced under it. */
  lemma SpliceSegments(x: Gene, y: Gene, z: Gene, a: Gene, b: Gene, c: Gene)
    requires a & b == 0 && a & c == 0 && b & c == 0
    ensures Splice(x, y, z, a, b, c) & a == x & a
    ensures Splice(x, y, z, a, b, c) & b == y & b
    ensures Splice(x, y, z, a, b, c) & c == z & c
  {
  }

  /**
   * The child takes the high segment from one parent, the middle from another
   * and the low from the third, as the drawn arm assigns them.
   */
  lemma {:induction false} MixSegments(genes: seq<Gene>, d: MixDraw)
    requires |genes| == 3
    ensures MixGenes(genes, d) & AMask(d.high) == genes[SegmentOwners(d.permutation).0] & AMask(d.high)
    ensures MixGenes(genes, d) & BMask(d.low, d.high) == genes[SegmentOwners(d.permutation).1] & BMask(d.low, d.high)
    ensures MixGenes(genes, d) & CMask(d.low) == genes[SegmentOwners(d.permutation).2] & CMask(d.low)
  {
    var (x, y, z) := SegmentOwners(d.permutation);
    var a, b, c := AMask(d.high), BMask(d.low, d.high), CMask(d.low);
    MasksPartition(d.low, d.high);
    assert MixGenes(genes, d) == Splice(genes[x], genes[y], genes[z], a, b, c);
    SpliceSegments(genes[x], genes[y], genes[z], a, b, c);
  }

  /** Which segment bit `i` falls in, as the index of the parent that supplies it. */
  function OwnerOfBit(d: MixDraw, i: BitIndex): (parent: nat)
    ensures parent < 3
  {
    var (a, b, c) := SegmentOwners(d.permutation);
    if d.high <= i then a else if d.low <= i then b else c
  }

  /** Every bit of the child is the same bit of one of the parents. */
  lemma {:induction false} MixBitFromParent(genes: seq<Gene>, d: MixDraw, i: BitIndex)
    requires |genes| == 3
    ensures PickGeneBit(MixGenes(genes, d), i) == PickGeneBit(genes[OwnerOfBit(d, i)], i)
  {
    MixSegments(genes, d);
    BitFromSegments(MixGenes(genes, d), genes, d, i);
  }

  /** A byte that agrees with the assigned parent under each mask has each bit from its owner. */
  lemma BitFromSegments(child: Gene, genes: seq<Gene>, d: MixDraw, i: BitIndex)
    requires |genes| == 3
    requires child & AMask(d.high) == genes[SegmentOwners(d.permutation).0] & AMask(d.high)
    requires child & BMask(d.low, d.high) == genes[SegmentOwners(d.permutation).1] & BMask(d.low, d.high)
    requires child & CMask(d.low) == genes[SegmentOwners(d.permutation).2] & CMask(d.low)
    ensures PickGeneBit(child, i) == PickGeneBit(genes[OwnerOfBit(d, i)], i)
  {
    var (x, y, z) := SegmentOwners(d.permutation);
    MaskBits(d.low, d.high, i);
    if d.high <= i {
      BitUnderMask(child, genes[x], AMask(d.high), i);
    } else if d.low <= i {
      BitUnderMask(child, genes[y], BMask(d.low, d.high), i);
    } else {
      BitUnderMask(child, genes[z], CMask(d.low), i);
    }
  }

  /** Two bytes that agree under a mask agree on every bit the mask has set. */
  lemma BitUnderMask(x: Gene, y: Gene, m: Gene, i: BitIndex)
    requires x & m == y & m
    requires PickGeneBit(m, i)
    ensures PickGeneBit(x, i) == PickGeneBit(y, i)
  {
  }

  /** Mixing three copies of one gene reproduces it, for every draw. */
  lemma {:induction false} MixIdentical(x: Gene, d: MixDraw)
    ensures MixGenes([x, x, x], d) == x
  {
    var genes := [x, x, x];
    var child := MixGenes(genes, d);
    var a, b, c := AMask(d.high), BMask(d.low, d.high), CMask(d.low);
    MixSegments(genes, d);
    var (p, q, r) := SegmentOwners(d.permutation);
    assert genes[p] == x && genes[q] == x && genes[r] == x;
    assert child & a == x & a && child & b == x & b && child & c == x & c;
    MasksPartition(d.low, d.high);
    SameUnderPartition(child, x, a, b, c);
  }

  /** Bytes that agree under each of three masks covering the byte are equal. */
  lemma SameUnderPartition(x: Gene, y: Gene, a: Gene, b: Gene, c: Gene)
    requires a | b | c == 0xff
    requires x & a == y & a && x & b == y & b && x & c == y & c
    ensures x == y
  {
  }

  // ---------------------------------------------------------------------------
  // Point mutation

  /** Channel picked for a mutation, drawn by `rand_range(0, 2)`. */
  type Channel = c: nat | c <= 2

  /** `mutate`: XOR with the AND of two random noise bytes. */
  function Mutate(x: Gene, noiseA: Gene, noiseB: Gene): (y: Gene)
    // the bits that differ are exactly those set in both noise bytes
    ensures y ^ x == noiseA & noiseB
  {
    x ^ (noiseA & noiseB)
  }

  /** Applying the same noise twice undoes a mutation. */
  lemma MutateInvolution(x: Gene, noiseA: Gene, noiseB: Gene)
    ensures Mutate(Mutate(x, noiseA, noiseB), noiseA, noiseB) == x
  {
  }

  // ---------------------------------------------------------------------------
  // Integer skeleton of genome decoding

  /** Disease gene: bit 4 or bit 1. */
  function Disease(gene: Gene): bool
  {
    PickGeneBit(gene, 4) || PickGeneBit(gene, 1)
  }

  /** Health gene: bit 6 or bit 3. */
  function Health(gene: Gene): bool
  {
    PickGeneBit(gene, 6) || PickGeneBit(gene, 3)
  }

  /** Dominance gene: bit 5. */
  function Dominant(gene: Gene): bool
  {
    gene & (1 << 5) != 0
  }

  /**
   * `round(42 * U)` for the uniform draw `U` of `rand_probability`: U lies in
   * [0.6, 1.0) for a dominant gene, so the magnitude is 25..42, and in
   * [0.0, 0.7) for a recessive one, so it is 0..29.
   */
  type DominantMagnitude = m: int | 25 <= m <= 42 witness 25
  type RecessiveMagnitude = m: int | 0 <= m <= 29

  /** The rounded probability magnitude one channel would get under either interval. */
  datatype ProbabilityDraw = ProbabilityDraw(dominant: DominantMagnitude, recessive: RecessiveMagnitude)

  /** `rand_probability(dom)`, rounded: the interval is chosen by the dominance gene. */
  function ProbabilityMagnitude(dom: bool, d: ProbabilityDraw): (m: nat)
    ensures dom ==> 25 <= m <= 42
    ensures !dom ==> m <= 29
  {
    if dom then d.dominant else d.recessive
  }

  /** The largest magnitude any channel can contribute. */
  const MaxMagnitude: int := 42

  /**
   * `factor`: `round(prob * (h - d))`. Rounding is symmetric about zero, so this
   * is the rounded magnitude carried with the sign of `h - d`.
   */
  function Factor(health: bool, disease: bool, magnitude: nat): (f: int)
    ensures health == disease ==> f == 0
    ensures health && !disease ==> f == magnitude
    ensures !health && disease ==> f == -(magnitude as int)
  {
    var h := if health then 1 else 0;
    var d := if disease then 1 else 0;
    magnitude * (h - d)
  }

  /**
   * `round(500 * sigmoid(brightness))`, a floating-point function of the
   * genome with no random input; sigmoid lies in [0, 1], so the value lies in
   * 0..500. The model takes it as a free integer of that range.
   */
  type Baseline = b: int | 0 <= b <= 500

  /**
   * The inputs of one call of `decode_genome` that the model leaves free:
   * the baseline, which the source computes from the genome in floating
   * point, and the three random draws of `rand_probability`.
   */
  datatype DecodeDraw = DecodeDraw(
    baseline: Baseline,
    r: ProbabilityDraw,
    g: ProbabilityDraw,
    b: ProbabilityDraw)

  /** The factor one channel contributes. */
  function ChannelFactor(gene: Gene, d: ProbabilityDraw): (f: int)
    ensures -MaxMagnitude <= f <= MaxMagnitude
    ensures Health(gene) == Disease(gene) ==> f == 0
    ensures Health(gene) && !Disease(gene) ==> f >= 0
    ensures !Health(gene) && Disease(gene) ==> f <= 0
    ensures Dominant(gene) && Health(gene) != Disease(gene) ==> 25 <= f || f <= -25
  {
    Factor(Health(gene), Disease(gene), ProbabilityMagnitude(Dominant(gene), d))
  }

  /** The largest life expectancy decoding can produce. */
  const MaxLifeExpectancy: nat := 626

  /**
   * `decode_genome`'s result: `max(0, baseline + the three factors)`, never
   * negative and never above MaxLifeExpectancy.
   */
  function LifeExpectancy(r: Gene, g: Gene, b: Gene, d: DecodeDraw): (le: nat)
    ensures le <= MaxLifeExpectancy
    ensures le >= d.baseline + ChannelFactor(r, d.r) + ChannelFactor(g, d.g) + ChannelFactor(b, d.b)
    ensures le == 0 || le == d.baseline + ChannelFactor(r, d.r) + ChannelFactor(g, d.g) + ChannelFactor(b, d.b)
  {
    var sum := d.baseline + ChannelFactor(r, d.r) + ChannelFactor(g, d.g) + ChannelFactor(b, d.b);
    if sum < 0 then 0 else sum
  }

  /** With health equal to disease in every channel, decoding yields the baseline. */
  lemma NeutralGenome(r: Gene, g: Gene, b: Gene, d: DecodeDraw)
    requires Health(r) == Disease(r) && Health(g) == Disease(g) && Health(b) == Disease(b)
    ensures LifeExpectancy(r, g, b, d) == d.baseline
  {
  }
}
