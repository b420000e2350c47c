/** StableVector: the split of an index into a level and an offset, and the vector that grows by
    levels without moving an element. */
module StableVector {
  import opened Words

  const INITIAL_SIZE_POW_OF_2 := 10
  const INITIAL_VECTOR_SIZE := 0x400
  const MAX_LEVELS := 64

  /** Descriptors are non-negative ints: beyond them the shift in which() leaves its type. */
  type Index = n: int | 0 <= n < 0x8000_0000

  datatype Cell = Cell(level: nat, offset: nat)

  /** __builtin_clz: the zero bits above the highest one bit. */
  function LeadingZeros(x: nat, width: nat): (z: nat)
    ensures z <= width
  {
    if width == 0 || x >= Pow2(width - 1) then 0 else 1 + LeadingZeros(x, width - 1)
  }

  lemma {:induction false} LeadingZerosBound(x: nat, width: nat)
    requires 0 < x < Pow2(width)
    ensures LeadingZeros(x, width) < width
    ensures var bits := width - LeadingZeros(x, width); Pow2(bits - 1) <= x < Pow2(bits)
  {
    if x < Pow2(width - 1) { LeadingZerosBound(x, width - 1); }
  }

  /** which(), without its effects. */
  function Which(n: Index): Cell {
    if n < INITIAL_VECTOR_SIZE then Cell(0, n)
    else
      LevelBounds(n);
      var level := 32 - LeadingZeros(n / 0x400, 32);
      Cell(level, n - Pow2(level + INITIAL_SIZE_POW_OF_2 - 1))
  }

  lemma LevelBounds(n: Index)
    requires n >= INITIAL_VECTOR_SIZE
    ensures var level := 32 - LeadingZeros(n / 0x400, 32);
      && 1 <= level <= 21
      && Pow2(level + INITIAL_SIZE_POW_OF_2 - 1) <= n < Pow2(level + INITIAL_SIZE_POW_OF_2)
  {
    hide Pow2, LeadingZeros;
    Pow2Widths();
    var upper := n / 0x400;
    LeadingZerosBound(upper, 32);
    var level := 32 - LeadingZeros(upper, 32);
    Pow2Add(level - 1, 10);
    Pow2Add(level, 10);
    if level > 21 {
      Pow2Monotonic(21, level - 1);
      Pow2Add(21, 10);
    }
  }

  /** The allocation of each level, as the constructor and expand() make it. */
  function LevelSize(level: nat): (size: nat)
    ensures size > 0
  {
    if level == 0 then INITIAL_VECTOR_SIZE else Pow2(level - 1 + INITIAL_SIZE_POW_OF_2)
  }

  /** The index that a cell stands for. */
  function IndexOf(c: Cell): nat {
    if c.level == 0 then c.offset else Pow2(c.level + INITIAL_SIZE_POW_OF_2 - 1) + c.offset
  }

  predicate InRange(c: Cell) { c.offset < LevelSize(c.level) }

  /** Every index has a cell inside its level's allocation, under the limit on levels, and the
      shift in which() stays within an int. */
  lemma WhichInRange(n: Index)
    ensures InRange(Which(n))
    ensures Which(n).level <= 21 < MAX_LEVELS
    ensures Which(n).level > 0 ==> Pow2(Which(n).level + INITIAL_SIZE_POW_OF_2 - 1) < 0x8000_0000
  {
    hide LeadingZeros;
    if n >= INITIAL_VECTOR_SIZE {
      LevelBounds(n);
      var level := Which(n).level;
      Pow2Add(1, level + INITIAL_SIZE_POW_OF_2 - 1);
    }
  }

  /** Indices and cells determine each other: which() is a bijection. */
  lemma IndexOfWhich(n: Index)
    ensures IndexOf(Which(n)) == n
  {
    hide LeadingZeros, Pow2;
    if n >= INITIAL_VECTOR_SIZE { LevelBounds(n); }
  }

  lemma WhichOfIndex(c: Cell)
    requires InRange(c) && c.level <= 21
    ensures IndexOf(c) < 0x8000_0000 && Which(IndexOf(c)) == c
  {
    hide LeadingZeros;
    Pow2Widths();
    if c.level > 0 {
      var low := Pow2(c.level + INITIAL_SIZE_POW_OF_2 - 1);
      Pow2Monotonic(INITIAL_SIZE_POW_OF_2, c.level + INITIAL_SIZE_POW_OF_2 - 1);
      Pow2Monotonic(c.level + INITIAL_SIZE_POW_OF_2, 31);
      LevelBounds(IndexOf(c));
      SameLevel(IndexOf(c), Which(IndexOf(c)).level + 10, c.level + 10);
    }
  }

  /** The powers of two around a number are unique. */
  lemma SameLevel(n: nat, a: nat, b: nat)
    requires a > 0 && b > 0
    requires Pow2(a - 1) <= n < Pow2(a) && Pow2(b - 1) <= n < Pow2(b)
    ensures a == b
  {
    hide Pow2;
    if a < b { Pow2Monotonic(a, b - 1); }
    if b < a { Pow2Monotonic(b, a - 1); }
  }

  /** Distinct indices never share a cell. */
  lemma WhichInjective(m: Index, n: Index)
    requires Which(m) == Which(n)
    ensures m == n
  {
    hide *;
    IndexOfWhich(m);
    IndexOfWhich(n);
  }

  /** The cells of levels 0 to top are those of the indices below 2^(top + 10). */
  lemma LevelsHold(n: Index, top: nat)
    ensures Which(n).level <= top <==> n < Pow2(top + INITIAL_SIZE_POW_OF_2)
  {
    hide LeadingZeros, Pow2;
    Pow2Widths();
    Pow2Monotonic(INITIAL_SIZE_POW_OF_2, top + INITIAL_SIZE_POW_OF_2);
    if n >= INITIAL_VECTOR_SIZE {
      LevelBounds(n);
      var level := Which(n).level;
      if level <= top {
        Pow2Monotonic(level + INITIAL_SIZE_POW_OF_2, top + INITIAL_SIZE_POW_OF_2);
      } else {
        Pow2Monotonic(top + INITIAL_SIZE_POW_OF_2, level + INITIAL_SIZE_POW_OF_2 - 1);
      }
    }
  }

  class StableVector<T(0)> {
    var size: nat
    var vectLvl: nat
    var vects: seq<array<T>>

    ghost predicate Valid()
      reads this
    {
      && |vects| == vectLvl + 1 <= MAX_LEVELS
      && (forall l :: 0 <= l < |vects| ==> vects[l].Length == LevelSize(l))
      && forall l, k :: 0 <= l < k < |vects| ==> vects[l] != vects[k]
    }

    /** The element that an index names, once its level exists. */
    ghost function Element(n: Index): T
      requires Valid() && Which(n).level < |vects|
      reads this, vects
    {
      WhichInRange(n);
      vects[Which(n).level][Which(n).offset]
    }

    constructor ()
      ensures Valid() && size == 0 && vectLvl == 0 && fresh(vects[0])
    {
      size, vectLvl := 0, 0;
      var storageVector := new T[INITIAL_VECTOR_SIZE];
      vects := [storageVector];
    }

    /** Levels are only ever added on top; those in use stay where they are. */
    method Expand(level: nat)
      requires Valid() && level < MAX_LEVELS
      modifies this`vectLvl, this`vects
      ensures Valid() && old(vects) <= vects
      ensures vectLvl == if level > old(vectLvl) then level else old(vectLvl)
      ensures forall l :: |old(vects)| <= l < |vects| ==> fresh(vects[l])
    {
      while level > vectLvl
        invariant Valid() && old(vects) <= vects
        invariant old(vectLvl) <= vectLvl
        invariant vectLvl <= level || vectLvl == old(vectLvl)
        invariant forall l :: |old(vects)| <= l < |vects| ==> fresh(vects[l])
        decreases level - vectLvl
      {
        var levelVect := new T[Pow2(vectLvl + INITIAL_SIZE_POW_OF_2)];
        vects := vects + [levelVect];
        vectLvl := vectLvl + 1;
      }
    }

    method FindCell(n: Index) returns (vno: nat, idx: nat)
      requires Valid()
      modifies this
      ensures Valid() && old(vects) <= vects && Cell(vno, idx) == Which(n)
      ensures size == if n >= old(size) then n + 1 else old(size)
      ensures vno < |vects| && idx < vects[vno].Length
      ensures |vects| == if vno >= |old(vects)| then vno + 1 else |old(vects)|
      ensures forall l :: |old(vects)| <= l < |vects| ==> fresh(vects[l])
    {
      hide LeadingZeros, Pow2;
      WhichInRange(n);
      if n >= size {
        size := n + 1;
      }
      if n < INITIAL_VECTOR_SIZE {
        idx, vno := n, 0;
      } else {
        LevelBounds(n);
        var upper := n / 0x400;
        vno := 32 - LeadingZeros(upper, 32);
        idx := n - Pow2(vno + INITIAL_SIZE_POW_OF_2 - 1);
        if vno > vectLvl {
          Expand(vno);
        }
      }
    }

    /** operator[] as a location: after it, every index in use names the same cell as before. */
    method At(n: Index) returns (v: array<T>, idx: nat)
      requires Valid()
      modifies this
      ensures Valid() && old(vects) <= vects
      ensures size == if n >= old(size) then n + 1 else old(size)
      ensures Which(n).level < |vects| && v == vects[Which(n).level] && idx == Which(n).offset < v.Length
      ensures Which(n).level < |old(vects)| ==> v == old(vects)[Which(n).level]
      ensures Which(n).level >= |old(vects)| ==> fresh(v)
    {
      var vno;
      vno, idx := FindCell(n);
      v := vects[vno];
    }

    /** Assigning through operator[] changes that element and no other, and growing changes none. */
    method Assign(n: Index, x: T)
      requires Valid()
      modifies this, vects
      ensures Valid() && old(vects) <= vects
      ensures Which(n).level < |vects| && Element(n) == x
      ensures forall m: Index :: m != n && Which(m).level < |old(vects)| ==>
        Which(m).level < |vects| && Element(m) == old(Element(m))
    {
      hide Which;
      var v, idx := At(n);
      v[idx] := x;
      forall m: Index | m != n && Which(m).level < |old(vects)|
        ensures Element(m) == old(Element(m))
      {
        WhichInRange(m);
        if Which(m) == Which(n) { WhichInjective(m, n); }
        assert vects[Which(m).level] == old(vects)[Which(m).level];
      }
    }
  }
}
