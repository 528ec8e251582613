/**
 * `AbstractEntity`: entities are equal when they have the same runtime class
 * and the same id (a null id included), and hash by their id as a Java
 * `Long` does.
 */
module AbstractEntity {
  import opened Wrappers

  /** Java's 64-bit `long`. */
  newtype Long = x: int | -0x8000_0000_0000_0000 <= x < 0x8000_0000_0000_0000

  /** An entity as `equals` sees it: its runtime class and its id, None while unsaved. */
  datatype Entity = Entity(runtimeClass: string, id: Option<Long>)

  /** `equals(o)`: false for null and for another runtime class, otherwise `Objects.equals` on the ids. */
  function Equals(a: Entity, o: Option<Entity>): (r: bool)
    ensures o.None? ==> !r
    ensures o.Some? && o.value.runtimeClass != a.runtimeClass ==> !r
    ensures o.Some? && o.value.runtimeClass == a.runtimeClass ==> (r <==> a.id == o.value.id)
  {
    if o.None? || a.runtimeClass != o.value.runtimeClass then false
    else a.id == o.value.id
  }

  /** The unsigned value of a `long`'s 64 bits. */
  function Unsigned(x: Long): (u: nat)
    ensures u < 0x1_0000_0000_0000_0000
    ensures x >= 0 ==> u == x as int
  {
    if x >= 0 then x as int else x as int + 0x1_0000_0000_0000_0000
  }

  function Pow2(n: nat): (p: nat)
    ensures p >= 1
  {
    if n == 0 then 1 else 2 * Pow2(n - 1)
  }

  /** Bitwise xor of the low `n` bits of `a` and `b`. */
  function Xor(a: nat, b: nat, n: nat): (r: nat)
    ensures r < Pow2(n)
  {
    if n == 0 then 0
    else 2 * Xor(a / 2, b / 2, n - 1) + (if a % 2 != b % 2 then 1 else 0)
  }

  /** Xor with zero keeps a word that fits in `n` bits. */
  lemma {:induction false} XorZero(a: nat, n: nat)
    requires a < Pow2(n)
    ensures Xor(a, 0, n) == a
  {
    if n > 0 {
      XorZero(a / 2, n - 1);
    }
  }

  lemma Pow2Value32()
    ensures Pow2(32) == 0x1_0000_0000
  {
    assert Pow2(4) == 16;
    assert Pow2(8) == 256;
    assert Pow2(12) == 4096;
    assert Pow2(16) == 65536;
    assert Pow2(20) == 1048576;
    assert Pow2(24) == 16777216;
    assert Pow2(28) == 268435456;
  }

  /** The `int` whose two's-complement bits are the 32-bit word `w`. */
  function SignedInt(w: nat): (i: int)
    requires w < 0x1_0000_0000
    ensures -0x8000_0000 <= i < 0x8000_0000
  {
    if w >= 0x8000_0000 then w - 0x1_0000_0000 else w
  }

  /** `Long.hashCode`: the high and low words xor-ed, as an `int`. */
  function LongHash(x: Long): int {
    var u := Unsigned(x);
    assert Pow2(32) == 0x1_0000_0000 by { Pow2Value32(); }
    SignedInt(Xor(u % 0x1_0000_0000, u / 0x1_0000_0000, 32))
  }

  /** `hashCode()`: `Objects.hashCode(id)`, 0 for a null id. */
  function HashCode(a: Entity): (h: int)
    ensures -0x8000_0000 <= h < 0x8000_0000
    ensures a.id.None? ==> h == 0
  {
    if a.id.None? then 0 else LongHash(a.id.value)
  }

  /** An id that fits in a non-negative `int` is its own hash. */
  lemma SmallIdHashesToItself(x: Long)
    requires 0 <= x < 0x8000_0000
    ensures LongHash(x) == x as int
  {
    Pow2Value32();
    XorZero(x as int, 32);
  }

  /** Any two unsaved entities of one class are equal. */
  lemma UnsavedEntitiesAreEqual(a: Entity, b: Entity)
    requires a.runtimeClass == b.runtimeClass && a.id.None? && b.id.None?
    ensures Equals(a, Some(b)) && HashCode(a) == HashCode(b)
  {
  }

  /** `equals` is reflexive, symmetric and transitive. */
  lemma EqualsIsEquivalence(a: Entity, b: Entity, c: Entity)
    ensures Equals(a, Some(a))
    ensures Equals(a, Some(b)) ==> Equals(b, Some(a))
    ensures Equals(a, Some(b)) && Equals(b, Some(c)) ==> Equals(a, Some(c))
  {
  }

  /** Equal entities have equal hash codes. */
  lemma EqualsAgreesWithHashCode(a: Entity, b: Entity)
    requires Equals(a, Some(b))
    ensures HashCode(a) == HashCode(b)
  {
  }
}
