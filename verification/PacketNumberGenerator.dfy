/** The generator of packet numbers (packet_number_generator.go). */
module PacketNumberGenerators {
  import opened Frames

  /** `nextToSkip` after a skip; the random number is an argument, and None stands for a failed source of randomness. */
  function NewSkip(next: nat, nextToSkip: nat, averagePeriod: nat, random: Option<nat>): nat {
    if random.None? || averagePeriod == 0 then nextToSkip else next + 2 + random.value * (averagePeriod - 1) / 32767
  }

  class PacketNumberGenerator {
    const averagePeriod: nat
    var next: nat
    var nextToSkip: nat

    ghost predicate Valid()
      reads this
    {
      1 <= next && nextToSkip != next && 0 < averagePeriod
    }

    constructor (averagePeriod: nat)
      requires 0 < averagePeriod
      ensures Valid() && next == 1 && nextToSkip == 0
    {
      this.averagePeriod := averagePeriod;
      next, nextToSkip := 1, 0;
    }

    /** The number behind the next one is left out. */
    predicate SkipsNext()
      reads this
    {
      next + 1 == nextToSkip
    }

    method Peek() returns (n: nat)
      ensures n == next
    {
      return next;
    }

    /** At most one number is left out between two packets, and none right after one that was left out.
        A generator as constructed, with nothing to skip, never leaves out a number. */
    method Pop(random: Option<nat>) returns (n: nat)
      requires Valid()
      modifies this
      ensures Valid() && n == old(next)
      ensures next == if old(SkipsNext()) then n + 2 else n + 1
      ensures old(SkipsNext()) ==> !SkipsNext()
      ensures old(nextToSkip) == 0 ==> nextToSkip == 0 && next == n + 1
    {
      n := next;
      next := next + 1;
      if next == nextToSkip {
        next := next + 1;
        nextToSkip := NewSkip(next, nextToSkip, averagePeriod, random);
      }
    }
  }
}
