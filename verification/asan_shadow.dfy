/** What the check decides, against the meaning of the shadow bytes. */
module AsanShadow {
  import opened Machine
  import opened AsanMachine
  import opened Asan

  /** How many of a granule's eight bytes may be accessed, from its shadow byte: 0 stands for
      all of them, 1 to 7 for that many of the first ones, and a negative byte for none. */
  function Accessible(k: int): int {
    if k == 0 then 8 else if Signed8(k) < 0 then 0 else k
  }

  predicate ShadowByteIsValid(k: int) {
    0 <= k < 8 || 128 <= k < 256
  }

  function ShadowOf(shadow: Memory, a: int): int {
    Peek(shadow, a / 8 + SHADOW_OFFSET)
  }

  predicate BadByte(shadow: Memory, a: int) {
    a % 8 >= Accessible(ShadowOf(shadow, a))
  }

  /** Some byte of the access may not be accessed. */
  ghost predicate BadAccess(shadow: Memory, a: int, size: Size) {
    exists b :: a <= b < a + Bytes(size) && BadByte(shadow, b)
  }

  /** The decision the instructions come to, from the first granule's shadow byte alone. */
  predicate Decision(size: Size, a: int, k: int) {
    k != 0 && (size == Eight || !(a % 8 + Bytes(size) - 1 < Signed8(k)))
  }

  /** Does the access reach into the next granule? */
  predicate Crosses(a: int, size: Size) {
    a % 8 + Bytes(size) > 8
  }

  /** An access inside one granule is reported exactly when it touches a bad byte. */
  lemma ExactWithinGranule(shadow: Memory, a: int, size: Size)
    requires !Crosses(a, size) && ShadowByteIsValid(ShadowOf(shadow, a))
    ensures Decision(size, a, ShadowOf(shadow, a)) <==> BadAccess(shadow, a, size)
  {
    forall b | a <= b < a + Bytes(size)
      ensures BadByte(shadow, b) <==> a % 8 + (b - a) >= Accessible(ShadowOf(shadow, a))
    {
      assert b % 8 == a % 8 + (b - a) && b / 8 == a / 8;
    }
    var last := a + Bytes(size) - 1;
    assert BadByte(shadow, last) <==> a % 8 + (last - a) >= Accessible(ShadowOf(shadow, a));
  }

  /** The only accesses the check gets wrong, at any address: those whose first granule is
      wholly accessible while a byte in the next granule is bad. */
  ghost predicate Missed(shadow: Memory, a: int, size: Size) {
    ShadowOf(shadow, a) == 0 && exists b :: a <= b < a + Bytes(size) && b / 8 != a / 8 && BadByte(shadow, b)
  }

  lemma ExactUnlessMissed(shadow: Memory, a: int, size: Size)
    requires ShadowByteIsValid(ShadowOf(shadow, a))
    ensures (Decision(size, a, ShadowOf(shadow, a)) <==> BadAccess(shadow, a, size)) <==> !Missed(shadow, a, size)
  {
    if !Crosses(a, size) {
      ExactWithinGranule(shadow, a, size);
    } else if ShadowOf(shadow, a) != 0 {
      var b := a + (7 - a % 8);
      assert a <= b < a + Bytes(size) && b / 8 == a / 8 && b % 8 == 7;
      assert BadByte(shadow, b);
    } else {
      assert forall b :: BadByte(shadow, b) ==> b / 8 != a / 8;
    }
  }

  ghost predicate ShadowIsValid(shadow: Memory) {
    forall b :: ShadowByteIsValid(ShadowOf(shadow, b))
  }

  ghost predicate ExactOn(shadow: Memory, a: int, size: Size) {
    ShadowIsValid(shadow) ==> (Decision(size, a, ShadowOf(shadow, a)) <==> BadAccess(shadow, a, size))
  }

  /** By the address alone: the check is exact for every valid shadow exactly when the access
      stays inside its granule. */
  lemma ExactForAllShadowsIff(a: int, size: Size)
    ensures (forall shadow: Memory :: ExactOn(shadow, a, size)) <==> !Crosses(a, size)
  {
    if Crosses(a, size) {
      var shadow: Memory := map[a / 8 + 1 + SHADOW_OFFSET := 0xff];
      var b := a + (8 - a % 8);
      assert b / 8 == a / 8 + 1;
      assert BadByte(shadow, b);
      assert !ExactOn(shadow, a, size);
    } else {
      forall shadow: Memory ensures ExactOn(shadow, a, size) {
        if ShadowIsValid(shadow) {
          ExactWithinGranule(shadow, a, size);
        }
      }
    }
  }

  /** A two-byte access at the end of a good granule, into a bad one, passes the check. */
  lemma CrossingCanBeMissed()
    ensures var shadow: Memory := map[1 + SHADOW_OFFSET := 0xff];
            BadAccess(shadow, 7, Two) && !Decision(Two, 7, ShadowOf(shadow, 7))
  {
    var shadow: Memory := map[1 + SHADOW_OFFSET := 0xff];
    assert BadByte(shadow, 7 + 1);
  }
}
