/** The buffered ID generator of testutil/id.go: it keeps one ID drawn ahead
    from the generator it wraps, so a test can read the ID the next `New()`
    will hand out.
 */
module TestId {

  /** The wrapped `Gen`: some generator whose `n`-th `New()` (from 0) returns
      `outputs(n)`. */
  class Source {
    const outputs: nat -> string
    var drawn: nat

    constructor (outputs: nat -> string)
      ensures this.outputs == outputs && drawn == 0
    {
      this.outputs, drawn := outputs, 0;
    }

    method New() returns (id: string)
      modifies this`drawn
      ensures id == outputs(old(drawn)) && drawn == old(drawn) + 1
    {
      id := outputs(drawn);
      drawn := drawn + 1;
    }
  }

  class IDGen {
    const gen: Source
    var id: string
    /** How many IDs the wrapped generator had handed out before `NewIDGen`. */
    ghost const base: nat
    /** How many times `New()` has been called. */
    ghost var issued: nat

    /** The wrapped generator has handed out exactly one ID more than this
        generator has, and the buffered ID is the newest of them. */
    ghost predicate Valid()
      reads this, gen
    {
      gen.drawn == base + issued + 1 && id == gen.outputs(base + issued)
    }

    /** `NewIDGen(gen)`: draws one ID and buffers it. */
    constructor (gen: Source)
      modifies gen
      ensures Valid() && this.gen == gen && issued == 0 && base == old(gen.drawn)
      ensures gen.drawn == old(gen.drawn) + 1 && id == gen.outputs(old(gen.drawn))
    {
      this.gen, base, issued := gen, gen.drawn, 0;
      new;
      id := gen.New();
    }

    /** `New()`: hands out the buffered ID and draws the next one. The `k`-th
        call (from 0) returns the wrapped generator's `k`-th ID since
        construction, one behind its newest. */
    method New() returns (r: string)
      requires Valid()
      modifies this`id, this`issued, gen
      ensures Valid() && issued == old(issued) + 1
      ensures r == old(Last()) && r == gen.outputs(base + old(issued))
      ensures id == gen.outputs(gen.drawn - 1) && gen.drawn == old(gen.drawn) + 1
    {
      r := id;
      id := gen.New();
      issued := issued + 1;
    }

    /** `Last()`: the ID the next `New()` returns, which is also the newest the
        wrapped generator has handed out. */
    function Last(): (r: string)
      reads this, gen
      requires Valid()
      ensures r == gen.outputs(gen.drawn - 1) && r == gen.outputs(base + issued)
    {
      id
    }
  }
}
