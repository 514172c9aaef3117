/**
 * A cell of the universe (src/cell.rs): its alive flag, three gene channels,
 * age and life expectancy, the packed colour and its hexadecimal rendering,
 * and the state transitions `reset`, `decode_genome`, `give_birth`, `live_on`
 * and `kill`.
 *
 * The Rust `Cell` is a `Copy` value that the universe clones and overwrites, so
 * it is a datatype here. Each transition is specified by a function on the
 * datatype (Killed, Decoded, Randomized, BornFrom, LivedOn) and implemented by
 * a method of the same datatype that assigns the fields step by step and
 * returns the updated cell.
 */
module Cells {
  import opened Genome

  /** The random draws of one `reset`: the alive coin, three bytes, and the decoding draws. */
  datatype ResetDraw = ResetDraw(alive: bool, r: Gene, g: Gene, b: Gene, decode: DecodeDraw)

  /** The random draws of one `give_birth`: one crossover per channel, and the decoding draws. */
  datatype BirthDraw = BirthDraw(r: MixDraw, g: MixDraw, b: MixDraw, decode: DecodeDraw)

  /**
   * The random draws of one `live_on`: whether `random() > 0.99` held, the
   * mutated channel, the two noise bytes, and the decoding draws.
   */
  datatype LiveOnDraw = LiveOnDraw(
    mutationRoll: bool,
    channel: Channel,
    noiseA: Gene,
    noiseB: Gene,
    decode: DecodeDraw)

  /** The two packed colours `give_birth` treats as unviable: `0x00000` and the 20-bit `0xfffff`. */
  predicate Unviable(color: bv32)
  {
    color == 0x00000 || color == 0xfffff
  }

  /** A lower-case hexadecimal digit, as `{:02x}` prints them. */
  predicate IsHexDigit(c: char)
  {
    '0' <= c <= '9' || 'a' <= c <= 'f'
  }

  function HexDigit(n: int): (c: char)
    requires 0 <= n < 16
    ensures IsHexDigit(c)
  {
    if n < 10 then ('0' as int + n) as char else ('a' as int + n - 10) as char
  }

  /** The value of a lower-case hexadecimal digit, or -1 for any other character. */
  function DigitValue(c: char): (v: int)
    ensures -1 <= v < 16
    ensures v >= 0 <==> IsHexDigit(c)
  {
    if '0' <= c <= '9' then c as int - '0' as int
    else if 'a' <= c <= 'f' then c as int - 'a' as int + 10
    else -1
  }

  /** Reading a digit back gives the number it was printed from. */
  lemma DigitRoundTrip(n: int)
    requires 0 <= n < 16
    ensures DigitValue(HexDigit(n)) == n
  {
  }

  /** `{:02x}`: a byte as exactly two lower-case hexadecimal digits. */
  function Hex2(x: Gene): (s: string)
    ensures |s| == 2 && IsHexDigit(s[0]) && IsHexDigit(s[1])
    ensures 16 * DigitValue(s[0]) + DigitValue(s[1]) == x as int
  {
    DigitRoundTrip(x as int / 16);
    DigitRoundTrip(x as int % 16);
    [HexDigit(x as int / 16), HexDigit(x as int % 16)]
  }

  /** The byte written as two hexadecimal digits at positions k and k+1 of s. */
  function HexByteAt(s: string, k: nat): int
    requires k + 2 <= |s|
  {
    16 * DigitValue(s[k]) + DigitValue(s[k + 1])
  }

  /** Three channels packed into one `u32` as 0xRRGGBB. */
  function PackColor(r: Gene, g: Gene, b: Gene): bv32
  {
    ((r as bv32) << 16) | ((g as bv32) << 8) | (b as bv32)
  }

  datatype Cell = Cell(alive: bool, r: Gene, g: Gene, b: Gene, age: nat, lifeExpectancy: nat)
  {
    /** `get_color`: the channels packed as 0xRRGGBB. */
    function GetColor(): (color: bv32)
      ensures color < 0x100_0000
      ensures (color >> 16) & 0xff == r as bv32
      ensures (color >> 8) & 0xff == g as bv32
      ensures color & 0xff == b as bv32
    {
      PackColor(r, g, b)
    }

    /** `get_color_hex`: "#000000" for a dead cell whatever its genes, else "#rrggbb". */
    function GetColorHex(): (hex: string)
      ensures |hex| == 7 && hex[0] == '#'
      ensures forall k :: 1 <= k < 7 ==> IsHexDigit(hex[k])
      ensures !alive ==> hex == "#000000"
      ensures alive ==> HexByteAt(hex, 1) == r as int && HexByteAt(hex, 3) == g as int && HexByteAt(hex, 5) == b as int
    {
      if !alive then "#000000" else "#" + Hex2(r) + Hex2(g) + Hex2(b)
    }

    /**
     * The ages every transition keeps: a cell is no older than its life
     * expectancy, which fits the range decoding can produce.
     */
    predicate Bounded()
    {
      age <= lifeExpectancy <= MaxLifeExpectancy
    }

    // -------------------------------------------------------------------------
    // kill

    /** The state `kill` leaves: dead, and every field zero (also the `Default` cell). */
    static function Killed(): (dead: Cell)
      ensures !dead.alive && dead.GetColor() == 0 && dead.GetColorHex() == "#000000"
      ensures dead.Bounded()
    {
      Cell(false, 0, 0, 0, 0, 0)
    }

    /** `kill`. */
    method Kill() returns (next: Cell)
      ensures next == Killed()
      ensures this == Killed() ==> next == this
    {
      next := this;
      next := next.(alive := false);
      next := next.(age := 0);
      next := next.(lifeExpectancy := 0);
      next := next.(r := 0);
      next := next.(g := 0);
      next := next.(b := 0);
    }

    // -------------------------------------------------------------------------
    // decode_genome

    /** The state `decode_genome` leaves: only the life expectancy changes. */
    function Decoded(d: DecodeDraw): (c: Cell)
      ensures c.alive == alive && c.r == r && c.g == g && c.b == b && c.age == age
      ensures c.lifeExpectancy == LifeExpectancy(r, g, b, d)
    {
      this.(lifeExpectancy := LifeExpectancy(r, g, b, d))
    }

    /** `decode_genome`, with its floating-point parts given as integer draws. */
    method DecodeGenome(d: DecodeDraw) returns (next: Cell)
      ensures next == Decoded(d)
    {
      var diseaseR, diseaseG, diseaseB := Disease(r), Disease(g), Disease(b);
      var healthR, healthG, healthB := Health(r), Health(g), Health(b);
      var domR, domG, domB := Dominant(r), Dominant(g), Dominant(b);
      var probR := ProbabilityMagnitude(domR, d.r);
      var probG := ProbabilityMagnitude(domG, d.g);
      var probB := ProbabilityMagnitude(domB, d.b);
      var sum := d.baseline + Factor(healthR, diseaseR, probR) + Factor(healthG, diseaseG, probG)
        + Factor(healthB, diseaseB, probB);
      assert Factor(healthR, diseaseR, probR) == ChannelFactor(r, d.r);
      assert Factor(healthG, diseaseG, probG) == ChannelFactor(g, d.g);
      assert Factor(healthB, diseaseB, probB) == ChannelFactor(b, d.b);
      next := this;
      next := next.(lifeExpectancy := if sum < 0 then 0 else sum);
    }

    // -------------------------------------------------------------------------
    // reset

    /** The state `reset` leaves: drawn alive flag and genes, age 0, decoded life expectancy. */
    static function Randomized(d: ResetDraw): (c: Cell)
      ensures c.alive == d.alive && c.r == d.r && c.g == d.g && c.b == d.b
      ensures c.age == 0 && c.lifeExpectancy == LifeExpectancy(d.r, d.g, d.b, d.decode)
      ensures c.Bounded()
    {
      Cell(d.alive, d.r, d.g, d.b, 0, 0).Decoded(d.decode)
    }

    /** `Cell::new`: a default (all-zero, dead) cell, then `reset`. */
    static method New(d: ResetDraw) returns (c: Cell)
      ensures c == Randomized(d)
    {
      c := Cell(false, 0, 0, 0, 0, 0);
      c := c.Reset(d);
    }

    /** `reset`. */
    method Reset(d: ResetDraw) returns (next: Cell)
      ensures next == Randomized(d)
    {
      next := this;
      next := next.(alive := d.alive);
      next := next.(r := d.r);
      next := next.(g := d.g);
      next := next.(b := d.b);
      next := next.(age := 0);
      next := next.DecodeGenome(d.decode);
    }

    // -------------------------------------------------------------------------
    // give_birth

    /**
     * The state `give_birth` leaves: the mixed genes; dead exactly when the
     * packed colour is unviable; age reset and genome re-decoded only on a
     * dead-to-alive transition, age and life expectancy untouched otherwise.
     */
    function BornFrom(parents: seq<Cell>, d: BirthDraw): (child: Cell)
      requires |parents| == 3
      ensures child.r == MixGenes([parents[0].r, parents[1].r, parents[2].r], d.r)
      ensures child.g == MixGenes([parents[0].g, parents[1].g, parents[2].g], d.g)
      ensures child.b == MixGenes([parents[0].b, parents[1].b, parents[2].b], d.b)
      ensures child.alive <==> !Unviable(PackColor(child.r, child.g, child.b))
      ensures child.alive && !alive ==>
        child.age == 0 && child.lifeExpectancy == LifeExpectancy(child.r, child.g, child.b, d.decode)
      ensures !(child.alive && !alive) ==> child.age == age && child.lifeExpectancy == lifeExpectancy
      ensures Bounded() ==> child.Bounded()
    {
      var r' := MixGenes([parents[0].r, parents[1].r, parents[2].r], d.r);
      var g' := MixGenes([parents[0].g, parents[1].g, parents[2].g], d.g);
      var b' := MixGenes([parents[0].b, parents[1].b, parents[2].b], d.b);
      var viable := !Unviable(PackColor(r', g', b'));
      if viable && !alive then Cell(true, r', g', b', 0, LifeExpectancy(r', g', b', d.decode))
      else Cell(viable, r', g', b', age, lifeExpectancy)
    }

    /** `give_birth`. */
    method GiveBirth(parents: seq<Cell>, d: BirthDraw) returns (next: Cell)
      requires |parents| == 3
      ensures next == BornFrom(parents, d)
    {
      var wasAlive := alive;
      next := this;
      next := next.(r := MixGenes([parents[0].r, parents[1].r, parents[2].r], d.r));
      next := next.(g := MixGenes([parents[0].g, parents[1].g, parents[2].g], d.g));
      next := next.(b := MixGenes([parents[0].b, parents[1].b, parents[2].b], d.b));
      var color := next.GetColor();
      next := next.(alive := if color == 0x00000 then false else if color == 0xfffff then false else true);
      if next.alive && !wasAlive {
        next := next.(age := 0);
        next := next.DecodeGenome(d.decode);
      }
    }

    // -------------------------------------------------------------------------
    // live_on

    /**
     * `floor(life_expectancy * 0.75)`: exact in double precision for every
     * `u32`, so it is integer division.
     */
    function MutationThreshold(): nat
    {
      (3 * lifeExpectancy) / 4
    }

    /** Whether `live_on` mutates: the aged cell is past the threshold and the 0.99 roll succeeded. */
    predicate MutationDue(d: LiveOnDraw)
    {
      age + 1 > MutationThreshold() && d.mutationRoll
    }

    /** The genes after `live_on`'s mutation step: only the drawn channel can change. */
    function MutatedGenes(d: LiveOnDraw): (Gene, Gene, Gene)
    {
      (if MutationDue(d) && d.channel == 0 then Mutate(r, d.noiseA, d.noiseB) else r,
       if MutationDue(d) && d.channel == 1 then Mutate(g, d.noiseA, d.noiseB) else g,
       if MutationDue(d) && d.channel == 2 then Mutate(b, d.noiseA, d.noiseB) else b)
    }

    /**
     * The state `live_on` leaves: one tick older, possibly mutated, re-decoded,
     * and killed when its age now exceeds the new life expectancy.
     */
    function LivedOn(d: LiveOnDraw): (next: Cell)
      // either killed, or aged by exactly one and still within its life expectancy
      ensures next == Killed() || (next.alive == alive && next.age == age + 1 && next.age <= next.lifeExpectancy)
      // killed exactly when the aged cell outlives the re-decoded expectancy of its new genes
      ensures next == Killed() <==>
        age + 1 > LifeExpectancy(MutatedGenes(d).0, MutatedGenes(d).1, MutatedGenes(d).2, d.decode)
      ensures next != Killed() ==>
        && (next.r, next.g, next.b) == MutatedGenes(d)
        && next.lifeExpectancy == LifeExpectancy(next.r, next.g, next.b, d.decode)
      ensures next.Bounded()
    {
      var (r', g', b') := MutatedGenes(d);
      var le := LifeExpectancy(r', g', b', d.decode);
      if age + 1 > le then Killed() else Cell(alive, r', g', b', age + 1, le)
    }

    /** `live_on`, including its inner `mutate`. */
    method LiveOn(d: LiveOnDraw) returns (next: Cell)
      ensures next == LivedOn(d)
    {
      ghost var grown := this.(age := age + 1, r := MutatedGenes(d).0, g := MutatedGenes(d).1, b := MutatedGenes(d).2);
      next := this;
      next := next.(age := next.age + 1);
      if next.age > (3 * next.lifeExpectancy) / 4 && d.mutationRoll {
        match d.channel
        case 0 => next := next.(r := Mutate(next.r, d.noiseA, d.noiseB));
        case 1 => next := next.(g := Mutate(next.g, d.noiseA, d.noiseB));
        case 2 => next := next.(b := Mutate(next.b, d.noiseA, d.noiseB));
      }
      assert next == grown;
      next := next.DecodeGenome(d.decode);
      assert next == grown.Decoded(d.decode);
      if next.age > next.lifeExpectancy {
        next := next.Kill();
      }
      LivedOnSteps(this, d);
    }
  }

  /** `LivedOn` as the three steps `live_on` takes: age and mutate, re-decode, kill if too old. */
  lemma LivedOnSteps(c: Cell, d: LiveOnDraw)
    ensures c.LivedOn(d) ==
      var grown := c.(age := c.age + 1, r := c.MutatedGenes(d).0, g := c.MutatedGenes(d).1, b := c.MutatedGenes(d).2);
      var decoded := grown.Decoded(d.decode);
      if decoded.age > decoded.lifeExpectancy then Cell.Killed() else decoded
  {
  }

  /**
   * The unviable check compares against a 20-bit literal: the unviable genomes
   * are black and (0x0f, 0xff, 0xff), not white.
   */
  lemma UnviableGenomes(c: Cell)
    ensures Unviable(c.GetColor()) <==>
      (c.r == 0 && c.g == 0 && c.b == 0) || (c.r == 0x0f && c.g == 0xff && c.b == 0xff)
  {
  }

  /**
   * A cell that `reset` leaves dead keeps its drawn genes and decoded life
   * expectancy: it is not zeroed, yet it renders as black.
   */
  lemma ResetDeadKeepsGenes()
    ensures var c := Cell.Randomized(ResetDraw(false, 0x12, 0x34, 0x56, DecodeDraw(500, ProbabilityDraw(25, 0), ProbabilityDraw(25, 0), ProbabilityDraw(25, 0))));
      && !c.alive && c.GetColor() == 0x123456 && c.GetColorHex() == "#000000"
      && c != Cell.Killed()
  {
  }

  /** `live_on` changes at most one channel, only when a mutation is due, and only by XOR with the noise mask. */
  lemma MutationSingleChannel(c: Cell, d: LiveOnDraw)
    ensures var (r', g', b') := c.MutatedGenes(d);
      && ((r' == c.r && g' == c.g) || (r' == c.r && b' == c.b) || (g' == c.g && b' == c.b))
      && (!c.MutationDue(d) ==> r' == c.r && g' == c.g && b' == c.b)
      && (r' == c.r || r' == Mutate(c.r, d.noiseA, d.noiseB))
      && (g' == c.g || g' == Mutate(c.g, d.noiseA, d.noiseB))
      && (b' == c.b || b' == Mutate(c.b, d.noiseA, d.noiseB))
  {
  }

  /**
   * Re-decoding precedes the death check: a cell already older than its
   * stored life expectancy survives `live_on` when its genome decodes to more.
   * Such a cell is outside `Bounded`, which every transition keeps, so it
   * cannot arise from `new`, `reset` and `tick`.
   */
  lemma OverdueCellCanSurvive()
    ensures var d := LiveOnDraw(false, 0, 0, 0, DecodeDraw(500, ProbabilityDraw(25, 0), ProbabilityDraw(25, 0), ProbabilityDraw(25, 0)));
      var c := Cell(true, 0, 0, 0, 10, 5);
      && c.age > c.lifeExpectancy && !c.Bounded()
      && c.LivedOn(d) != Cell.Killed() && c.LivedOn(d).alive && c.LivedOn(d).lifeExpectancy == 500
  {
    var d := LiveOnDraw(false, 0, 0, 0, DecodeDraw(500, ProbabilityDraw(25, 0), ProbabilityDraw(25, 0), ProbabilityDraw(25, 0)));
    NeutralGenome(0, 0, 0, d.decode);
  }
}
