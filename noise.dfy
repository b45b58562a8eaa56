/** The seeded gradient-noise engine of lib/noise.js.

    A `Noise` object owns a 512-entry permutation table built once from a seed:
    the identity 0..255 is shuffled by a Fisher-Yates pass driven by the
    Park-Miller "MINSTD" generator and then duplicated.  The queries `Noise2D`
    and `Noise3D` are pure functions of the table and the coordinates; they are
    modelled over exact reals. */
module NoiseLib {

  /** The MINSTD multiplier and modulus (the Mersenne prime 2^31 - 1). */
  const Multiplier: int := 16807
  const Modulus: int := 2147483647

  /** Integer seeds for which `s * 16807` is exact in a JavaScript number. */
  type Seed = s: int | 0 <= s < Modulus

  /** For such a state the product `s * 16807` stays below 2^53, so the
      double-precision arithmetic of the generator step is exact. */
  lemma ExactStep(s: Seed)
    ensures 0 <= s * Multiplier < 9007199254740992
  {
  }

  /** A finished table: 512 entries, each a byte value. */
  type PermTable = t: seq<int> | |t| == 512 && forall k :: 0 <= k < 512 ==> 0 <= t[k] < 256
    witness seq(512, k => 0)

  /** The identity table 0, 1, ..., n - 1. */
  function Identity(n: nat): (r: seq<int>)
    ensures |r| == n && forall k :: 0 <= k < n ==> r[k] == k
  {
    seq(n, k => k)
  }

  // ---------------------------------------------------------------------------
  // Seeded table construction (specification of the constructor's loops)
  // ---------------------------------------------------------------------------

  /** One step of the generator: `s = (s * 16807) % 2147483647`. */
  function NextState(s: int): (r: int)
    requires 0 <= s
    ensures 0 <= r < Modulus
  {
    (s * Multiplier) % Modulus
  }

  /** The swap partner of position `i`: `j = s % (i + 1)`. */
  function SwapIndex(s: int, i: nat): (j: int)
    requires 0 <= s
    ensures 0 <= j <= i
  {
    s % (i + 1)
  }

  /** Exchanges the entries at `i` and `j`. */
  function Swap(p: seq<int>, i: nat, j: nat): (r: seq<int>)
    requires i < |p| && j < |p|
    ensures |r| == |p| && r[i] == p[j] && r[j] == p[i]
    ensures forall k :: 0 <= k < |p| && k != i && k != j ==> r[k] == p[k]
    ensures multiset(r) == multiset(p)
  {
    p[i := p[j]][j := p[i]]
  }

  /** The shuffle steps `i, i - 1, ..., 1` applied to table `p` with running
      generator state `s`. */
  function Shuffle(p: seq<int>, s: int, i: nat): (r: seq<int>)
    requires 0 <= s && i < |p|
    ensures |r| == |p| && multiset(r) == multiset(p)
    decreases i
  {
    if i == 0 then p
    else
      var s' := NextState(s);
      Shuffle(Swap(p, i, SwapIndex(s', i)), s', i - 1)
  }

  /** The first shuffle step, written out. */
  lemma ShuffleStep(p: seq<int>, s: int, i: nat)
    requires 0 <= s && 0 < i < |p|
    ensures Shuffle(p, s, i) == Shuffle(Swap(p, i, SwapIndex(NextState(s), i)), NextState(s), i - 1)
  {
  }

  /** The 256-entry table after the seeded shuffle. */
  function Shuffled(seed: Seed): (r: seq<int>)
    ensures |r| == 256 && multiset(r) == multiset(Identity(256))
  {
    var id := Identity(256);
    Shuffle(id, seed, |id| - 1)
  }

  /** The shuffled table is a permutation of 0..255. */
  lemma ShuffledIsPermutation(seed: Seed)
    ensures |Shuffled(seed)| == 256
    ensures multiset(Shuffled(seed)) == multiset(Identity(256))
    ensures forall k :: 0 <= k < 256 ==> 0 <= Shuffled(seed)[k] < 256
    ensures forall v :: 0 <= v < 256 ==> v in Shuffled(seed)
  {
    var p, id := Shuffled(seed), Identity(256);
    forall k | 0 <= k < 256 ensures 0 <= p[k] < 256 {
      assert p[k] in multiset(p);
      assert p[k] in multiset(id);
      assert p[k] in id;
    }
    forall v | 0 <= v < 256 ensures v in p {
      assert id[v] == v;
      assert v in multiset(id);
      assert v in multiset(p);
    }
  }

  /** The finished table: `perm[i] = p[i & 255]` for `i < 512`. */
  function PermTableOf(seed: Seed): (table: PermTable)
  {
    ShuffledIsPermutation(seed);
    seq(512, k requires 0 <= k < 512 => Shuffled(seed)[k % 256])
  }

  /** The table's two halves are the same shuffled permutation. */
  lemma PermTableDuplicated(seed: Seed)
    ensures |PermTableOf(seed)| == 512
    ensures PermTableOf(seed)[..256] == Shuffled(seed)
    ensures forall k :: 0 <= k < 512 ==> PermTableOf(seed)[k] == PermTableOf(seed)[k % 256]
    ensures forall k :: 0 <= k < 256 ==> PermTableOf(seed)[k + 256] == PermTableOf(seed)[k]
    ensures multiset(PermTableOf(seed)[..256]) == multiset(Identity(256))
  {
    ShuffledIsPermutation(seed);
    var t := PermTableOf(seed);
    assert t[..256] == Shuffled(seed);
    forall k | 0 <= k < 256 ensures t[k + 256] == t[k] {
      assert (k + 256) % 256 == k;
    }
  }

  // ---------------------------------------------------------------------------
  // Helpers of the queries
  // ---------------------------------------------------------------------------

  /** `n & 255` for an integer `n`: JavaScript takes `n` modulo 2^32 into a
      32-bit two's-complement value and keeps its low byte, which leaves
      exactly the residue of `n` modulo 256. */
  function Mask255(n: int): (r: int)
    ensures 0 <= r < 256 && (n - r) % 256 == 0
  {
    n % 256
  }

  /** The quintic fade curve `6t^5 - 15t^4 + 10t^3`. */
  function Fade(t: real): (r: real)
    ensures t == 0.0 ==> r == 0.0
    ensures t == 1.0 ==> r == 1.0
  {
    t * t * t * (t * (t * 6.0 - 15.0) + 10.0)
  }

  /** Linear interpolation `a + t * (b - a)`. */
  function Lerp(a: real, b: real, t: real): (r: real)
    ensures t == 0.0 ==> r == a
    ensures t == 1.0 ==> r == b
  {
    a + t * (b - a)
  }

  /** The 2D pseudo-gradient: the two low bits of the hash pick the sign of
      each term and whether `x` and `y` are exchanged. */
  function Grad2D(hash: int, x: real, y: real): (r: real)
    ensures x == 0.0 && y == 0.0 ==> r == 0.0
  {
    var h := hash % 4;
    var u := if h < 2 then x else y;
    var v := if h < 2 then y else x;
    (if h % 2 == 1 then -u else u) + (if (h / 2) % 2 == 1 then -v else v)
  }

  /** Ken Perlin's improved-noise gradient selection on the low four bits. */
  function Grad3D(hash: int, x: real, y: real, z: real): (r: real)
    ensures x == 0.0 && y == 0.0 && z == 0.0 ==> r == 0.0
  {
    var h := hash % 16;
    var u := if h < 8 then x else y;
    var v := if h < 4 then y else if h == 12 || h == 14 then x else z;
    (if h % 2 == 1 then -u else u) + (if (h / 2) % 2 == 1 then -v else v)
  }

  /** The gradient vectors `Grad2D` dots with, indexed by `hash & 3`. */
  const Gradients2D: seq<(int, int)> := [(1, 1), (-1, 1), (-1, 1), (-1, -1)]

  /** The twelve cube-edge directions of improved noise, indexed by
      `hash & 15`; entries 12 to 15 repeat four of them. */
  const Gradients3D: seq<(int, int, int)> := [
    (1, 1, 0), (-1, 1, 0), (1, -1, 0), (-1, -1, 0),
    (1, 0, 1), (-1, 0, 1), (1, 0, -1), (-1, 0, -1),
    (0, 1, 1), (0, -1, 1), (0, 1, -1), (0, -1, -1),
    (1, 1, 0), (0, -1, 1), (-1, 1, 0), (0, -1, -1)]

  /** `Grad2D` is the dot product of the offset with the gradient the two low
      bits of the hash select; hashes 1 and 2 select the same one, so the 2D
      set has three distinct directions, not four. */
  lemma Grad2DIsDotProduct(hash: int, x: real, y: real)
    ensures Grad2D(hash, x, y) == Gradients2D[hash % 4].0 as real * x + Gradients2D[hash % 4].1 as real * y
    ensures Grad2D(hash, x, y) == Grad2D(hash % 4, x, y)
    ensures Grad2D(1, x, y) == Grad2D(2, x, y)
  {
    var h := hash % 4;
    assert h % 4 == h;
    if h == 0 {
    } else if h == 1 {
    } else if h == 2 {
    } else {
      assert h == 3;
    }
  }

  /** For a hash `h` in [0, 16), `Grad3D` is the dot product of the offset
      with the cube-edge gradient `Gradients3D[h]`; with `Grad3DLowBits` this
      covers every hash. */
  lemma Grad3DIsDotProduct(h: int, x: real, y: real, z: real)
    requires 0 <= h < 16
    ensures var g := Gradients3D[h];
      Grad3D(h, x, y, z) == g.0 as real * x + g.1 as real * y + g.2 as real * z
  {
    if h < 8 {
      Grad3DLowHalf(h, x, y, z);
    } else {
      Grad3DHighHalf(h, x, y, z);
    }
  }

  /** `Grad3D` reads only the four low bits of the hash. */
  lemma Grad3DLowBits(hash: int, x: real, y: real, z: real)
    ensures Grad3D(hash, x, y, z) == Grad3D(hash % 16, x, y, z)
  {
    assert (hash % 16) % 16 == hash % 16;
  }

  lemma Grad3DLowHalf(h: int, x: real, y: real, z: real)
    requires 0 <= h < 8
    ensures var g := Gradients3D[h];
      Grad3D(h, x, y, z) == g.0 as real * x + g.1 as real * y + g.2 as real * z
  {
    assert h == 0 || h == 1 || h == 2 || h == 3 || h == 4 || h == 5 || h == 6 || h == 7;
  }

  lemma Grad3DHighHalf(h: int, x: real, y: real, z: real)
    requires 8 <= h < 16
    ensures var g := Gradients3D[h];
      Grad3D(h, x, y, z) == g.0 as real * x + g.1 as real * y + g.2 as real * z
  {
    assert h == 8 || h == 9 || h == 10 || h == 11 || h == 12 || h == 13 || h == 14 || h == 15;
  }

  /** Every 3D gradient points to the middle of a cube edge: one component is
      zero and the other two are +1 or -1; the first twelve are distinct. */
  lemma Gradients3DAreCubeEdges()
    ensures |Gradients3D| == 16
    ensures forall k :: 0 <= k < 16 ==>
      var g := Gradients3D[k];
      (if g.0 == 0 then 1 else 0) + (if g.1 == 0 then 1 else 0) + (if g.2 == 0 then 1 else 0) == 1 &&
      -1 <= g.0 <= 1 && -1 <= g.1 <= 1 && -1 <= g.2 <= 1
    ensures forall i, j :: 0 <= i < j < 12 ==> Gradients3D[i] != Gradients3D[j]
  {
  }

  /** The fractional part of `x`, in [0, 1). */
  function Frac(x: real): (r: real)
    ensures 0.0 <= r < 1.0
    ensures x == x.Floor as real ==> r == 0.0
  {
    x - x.Floor as real
  }

  /** Shifting by a whole number keeps the fractional part and moves the floor. */
  lemma FloorShift(x: real, n: int)
    ensures (x + n as real).Floor == x.Floor + n
    ensures Frac(x + n as real) == Frac(x)
  {
  }

  lemma Mask255Periodic(n: int, k: int)
    ensures Mask255(n + 256 * k) == Mask255(n)
  {
  }

  // ---------------------------------------------------------------------------
  // The noise object
  // ---------------------------------------------------------------------------

  class Noise {
    /** The 512-entry table; nothing changes it after construction. */
    const perm: PermTable

    /** Builds the table from `seed`: identity, seeded shuffle, duplication. */
    constructor (seed: Seed)
      ensures perm == PermTableOf(seed)
    {
      var p := IdentityArray();
      ShuffleInPlace(p, seed);
      assert p[..] == Shuffled(seed);
      var table := Duplicate(p);
      DuplicatedShuffle(seed, p[..], table[..]);
      perm := table[..];
    }

    /** The fill loop: `p[i] = i` for `i < 256`. */
    static method IdentityArray() returns (p: array<int>)
      ensures fresh(p) && p[..] == Identity(256)
    {
      p := new int[256];
      for i := 0 to 256
        invariant forall k :: 0 <= k < i ==> p[k] == k
      {
        p[i] := i;
      }
    }

    /** A 512-entry table holding the shuffled identity twice is the
        finished table of the seed. */
    static lemma DuplicatedShuffle(seed: Seed, p: seq<int>, t: seq<int>)
      requires p == Shuffled(seed)
      requires |t| == 512 && forall m :: 0 <= m < 512 ==> t[m] == p[m % 256]
      ensures t == PermTableOf(seed)
    {
      var expected := PermTableOf(seed);
      assert forall m :: 0 <= m < 512 ==> t[m] == expected[m];
    }

    /** The shuffle loop: for `i` from 255 down to 1, advance the generator
        and exchange `p[i]` with `p[j]`, `j = s % (i + 1)`. */
    static method ShuffleInPlace(p: array<int>, seed: Seed)
      requires p.Length == 256
      modifies p
      ensures p[..] == Shuffle(old(p[..]), seed, p.Length - 1)
    {
      var s: int := seed;
      var i := 255;
      while i > 0
        invariant 0 <= i <= 255 && 0 <= s
        invariant Shuffle(p[..], s, i) == Shuffle(old(p[..]), seed, p.Length - 1)
        decreases i
      {
        ShuffleStep(p[..], s, i);
        ghost var s0 := s;
        s := (s * 16807) % 2147483647;
        var j := s % (i + 1);
        assert s == NextState(s0) && j == SwapIndex(s, i);
        ghost var before := p[..];
        var t := p[i];
        p[i] := p[j];
        p[j] := t;
        assert p[..] == Swap(before, i, j);
        i := i - 1;
      }
    }

    /** The duplication loop: `perm[i] = p[i & 255]` for `i < 512`. */
    static method Duplicate(p: array<int>) returns (table: array<int>)
      requires p.Length == 256
      ensures fresh(table) && table.Length == 512
      ensures forall m :: 0 <= m < 512 ==> table[..][m] == p[..][m % 256]
    {
      table := new int[512];
      for k := 0 to 512
        invariant forall m :: 0 <= m < k ==> table[m] == p[m % 256]
      {
        table[k] := p[k % 256];
      }
    }

    /** `perm[i] + offset`, the compound index of a corner hash.  Both the
        index and its successor stay inside the table. */
    function Hash(i: int, offset: int): (r: int)
      requires 0 <= i < 512 && 0 <= offset < 256
      ensures 0 <= r && r + 1 < |perm|
    {
      perm[i] + offset
    }

    /** 2D gradient noise at `(x, y)`: the corner hashes of the lattice
        cell holding the point, interpolated at its offset within the cell. */
    function Noise2D(x: real, y: real): (r: real)
      ensures x == x.Floor as real && y == y.Floor as real ==> r == 0.0
    {
      Cell2D(Mask255(x.Floor), Mask255(y.Floor), Frac(x), Frac(y))
    }

    /** The body of `noise2D` once the cell `(X, Y)` and the offsets `(xf, yf)`
        are known. */
    function Cell2D(X: int, Y: int, xf: real, yf: real): (r: real)
      requires 0 <= X < 256 && 0 <= Y < 256
      ensures xf == 0.0 && yf == 0.0 ==> r == 0.0
    {
      var u := Fade(xf);
      var v := Fade(yf);
      var A := Hash(X, Y);
      var B := Hash(X + 1, Y);
      Lerp(
        Lerp(Grad2D(perm[A], xf, yf), Grad2D(perm[B], xf - 1.0, yf), u),
        Lerp(Grad2D(perm[A + 1], xf, yf - 1.0), Grad2D(perm[B + 1], xf - 1.0, yf - 1.0), u),
        v)
    }

    /** 3D gradient noise at `(x, y, z)`. */
    function Noise3D(x: real, y: real, z: real): (r: real)
      ensures x == x.Floor as real && y == y.Floor as real && z == z.Floor as real ==> r == 0.0
    {
      Cell3D(Mask255(x.Floor), Mask255(y.Floor), Mask255(z.Floor), Frac(x), Frac(y), Frac(z))
    }

    /** The body of `noise3D` once the cell `(X, Y, Z)` and the offsets are
        known. */
    function Cell3D(X: int, Y: int, Z: int, xf: real, yf: real, zf: real): (r: real)
      requires 0 <= X < 256 && 0 <= Y < 256 && 0 <= Z < 256
      ensures xf == 0.0 && yf == 0.0 && zf == 0.0 ==> r == 0.0
    {
      var u := Fade(xf);
      var v := Fade(yf);
      var w := Fade(zf);
      var A := Hash(X, Y);
      var AA := Hash(A, Z);
      var AB := Hash(A + 1, Z);
      var B := Hash(X + 1, Y);
      var BA := Hash(B, Z);
      var BB := Hash(B + 1, Z);
      Lerp(
        Lerp(
          Lerp(Grad3D(perm[AA], xf, yf, zf), Grad3D(perm[BA], xf - 1.0, yf, zf), u),
          Lerp(Grad3D(perm[AB], xf, yf - 1.0, zf), Grad3D(perm[BB], xf - 1.0, yf - 1.0, zf), u),
          v),
        Lerp(
          Lerp(Grad3D(perm[AA + 1], xf, yf, zf - 1.0), Grad3D(perm[BA + 1], xf - 1.0, yf, zf - 1.0), u),
          Lerp(Grad3D(perm[AB + 1], xf, yf - 1.0, zf - 1.0), Grad3D(perm[BB + 1], xf - 1.0, yf - 1.0, zf - 1.0), u),
          v),
        w)
    }

    /** The 2D lattice repeats every 256 units along both axes. */
    lemma Noise2DPeriodic(x: real, y: real, i: int, j: int)
      ensures Noise2D(x + (256 * i) as real, y + (256 * j) as real) == Noise2D(x, y)
    {
      var x', y' := x + (256 * i) as real, y + (256 * j) as real;
      FloorShift(x, 256 * i);
      FloorShift(y, 256 * j);
      Mask255Periodic(x.Floor, i);
      Mask255Periodic(y.Floor, j);
      Noise2DOfCell(x', y', Mask255(x.Floor), Mask255(y.Floor), Frac(x), Frac(y));
      Noise2DOfCell(x, y, Mask255(x.Floor), Mask255(y.Floor), Frac(x), Frac(y));
    }

    /** `Noise2D` at a point whose cell and offsets are known. */
    lemma Noise2DOfCell(x: real, y: real, X: int, Y: int, xf: real, yf: real)
      requires X == Mask255(x.Floor) && Y == Mask255(y.Floor) && xf == Frac(x) && yf == Frac(y)
      ensures Noise2D(x, y) == Cell2D(X, Y, xf, yf)
    {
    }

    /** The 3D lattice repeats every 256 units along all three axes. */
    lemma Noise3DPeriodic(x: real, y: real, z: real, i: int, j: int, k: int)
      ensures Noise3D(x + (256 * i) as real, y + (256 * j) as real, z + (256 * k) as real) == Noise3D(x, y, z)
    {
      var x', y', z' := x + (256 * i) as real, y + (256 * j) as real, z + (256 * k) as real;
      FloorShift(x, 256 * i);
      FloorShift(y, 256 * j);
      FloorShift(z, 256 * k);
      Mask255Periodic(x.Floor, i);
      Mask255Periodic(y.Floor, j);
      Mask255Periodic(z.Floor, k);
      Noise3DOfCell(x', y', z', Mask255(x.Floor), Mask255(y.Floor), Mask255(z.Floor), Frac(x), Frac(y), Frac(z));
      Noise3DOfCell(x, y, z, Mask255(x.Floor), Mask255(y.Floor), Mask255(z.Floor), Frac(x), Frac(y), Frac(z));
    }

    /** `Noise3D` at a point whose cell and offsets are known. */
    lemma Noise3DOfCell(x: real, y: real, z: real, X: int, Y: int, Z: int, xf: real, yf: real, zf: real)
      requires X == Mask255(x.Floor) && Y == Mask255(y.Floor) && Z == Mask255(z.Floor)
      requires xf == Frac(x) && yf == Frac(y) && zf == Frac(z)
      ensures Noise3D(x, y, z) == Cell3D(X, Y, Z, xf, yf, zf)
    {
    }
  }

  /** Two objects built from the same seed hold the same table, and so answer
      every query alike. */
  method SameSeedTwice(seed: Seed, x: real, y: real) returns (first: Noise, second: Noise)
    ensures first.perm == second.perm == PermTableOf(seed)
    ensures first.Noise2D(x, y) == second.Noise2D(x, y)
  {
    first := new Noise(seed);
    second := new Noise(seed);
  }
}
