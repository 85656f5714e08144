/**
 * A DLX register: one 32-bit signed value. Both overloads of every operator
 * act on the stored value (the second operand is either a register's
 * value or a plain int32_t), so they are modelled once, on values. The
 * arithmetic operators are Plus and Minus below; & and | are BitAnd and
 * BitOr of FixedWidth; == and != compare the values and are Dafny's own
 * == and != on Int32.
 */
module Registers {
  import opened FixedWidth
  import opened Wrappers

  class Register {
    var value: Int32

    /** A default register holds zero. */
    constructor ()
      ensures value == 0
    {
      value := 0;
    }

    constructor FromValue(initial: Int32)
      ensures value == initial
    {
      value := initial;
    }

    /** Assignment of a plain int32_t overwrites the value. */
    method Assign(newValue: Int32)
      modifies this
      ensures value == newValue
    {
      value := newValue;
    }

    /** Assignment from another register copies exactly that register's value. */
    method AssignRegister(that: Register)
      modifies this
      ensures value == old(that.value)
    {
      value := that.value;
    }
  }

  /**
   * operator+ on a register and a register or an int32_t: the int32_t sum.
   * A sum outside the int32_t range is signed overflow, undefined in C++,
   * and gives no value.
   */
  function Plus(lhs: Int32, rhs: Int32): (r: Option<Int32>)
    ensures r.Some? <==> InInt32(lhs as int + rhs)
    ensures r.Some? ==> r.value == lhs as int + rhs
  {
    if InInt32(lhs as int + rhs) then Some(lhs as int + rhs) else None
  }

  /** operator-, with the same overflow rule as operator+. */
  function Minus(lhs: Int32, rhs: Int32): (r: Option<Int32>)
    ensures r.Some? <==> InInt32(lhs as int - rhs)
    ensures r.Some? ==> r.value == lhs as int - rhs
  {
    if InInt32(lhs as int - rhs) then Some(lhs as int - rhs) else None
  }

  /**
   * Where the C++ sum and difference are defined they agree with the 32-bit
   * two's-complement adder: the bit patterns added or subtracted modulo 2^32
   * and read back signed.
   */
  lemma PlusMinusAreModular(a: Int32, b: Int32)
    ensures Plus(a, b).Some? ==> Plus(a, b).value == ToSigned(Wrap32(ToUnsigned(a) + ToUnsigned(b)))
    ensures Minus(a, b).Some? ==> Minus(a, b).value == ToSigned(Wrap32(ToUnsigned(a) - ToUnsigned(b)))
  {
    if Plus(a, b).Some? {
      ModularSigned(a as int + b, ToUnsigned(a) + ToUnsigned(b));
    }
    if Minus(a, b).Some? {
      ModularSigned(a as int - b, ToUnsigned(a) - ToUnsigned(b));
    }
  }

  /** An int32_t value x is the signed reading of any integer congruent to it modulo 2^32. */
  lemma ModularSigned(x: Int32, y: int)
    requires (y - x) % TWO_32 == 0
    ensures ToSigned(Wrap32(y)) == x
  {
    var u := Wrap32(y);
    assert (u - x) % TWO_32 == 0;
    if x >= 0 {
      assert u == x;
    } else {
      assert u == x + TWO_32;
    }
  }

  /**
   * Subtracting what was added gives the register's value back, with no
   * overflow on the way back, and adding back what was subtracted likewise.
   */
  lemma PlusMinusInverse(a: Int32, b: Int32)
    ensures Plus(a, b).Some? ==> Minus(Plus(a, b).value, b) == Some(a)
    ensures Minus(a, b).Some? ==> Plus(Minus(a, b).value, b) == Some(a)
  {
  }

  /** & and | on registers keep a value under x & x and x | 0, and are commutative. */
  lemma BitwiseOperators(a: Int32, b: Int32)
    ensures BitAnd(a, a) == a && BitOr(a, 0) == a
    ensures BitAnd(a, b) == BitAnd(b, a) && BitOr(a, b) == BitOr(b, a)
  {
    BitwiseIdentities(a, b);
  }

  /**
   * The register exercise of the emulator's self-test: a = 125, b = a - 2,
   * a = a - b leaves a == 2 and b == 123.
   */
  method SelfTest() returns (aValue: Int32, bValue: Int32)
    ensures aValue == 2 && bValue == 123
  {
    var a := new Register();
    var b := new Register();
    a.Assign(125);
    b.Assign(Minus(a.value, 2).value);
    a.Assign(Minus(a.value, b.value).value);
    aValue, bValue := a.value, b.value;
  }
}
