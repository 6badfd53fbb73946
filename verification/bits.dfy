/** Conversions between operand integers and the bit-vector fields of
    an instruction. Each is proved once here, so that the rest of the model
    reasons about field values only through these contracts. */
module Bits {
  /** A checked operand as a byte field: what `x as bv8` computes. It counts
      up instead of casting because the solver handles an int-to-bit-vector
      cast poorly, and every later proof relies on this contract. */
  function ToByte(x: int): (b: bv8)
    requires 0 <= x < 256
    ensures b as int == x && (x < 16 ==> b < 16)
    decreases x
  {
    if x == 0 then 0
    else
      var p := ToByte(x - 1);
      ByteStep(p);
      p + 1
  }

  /** Counting up one in a byte below its top value. */
  lemma ByteStep(p: bv8)
    requires p as int < 255
    ensures (p + 1) as int == p as int + 1
    ensures p as int + 1 < 16 ==> p + 1 < 16
  {
  }

  /** A checked operand as a word field. */
  function ToWord(x: int): (w: bv16)
    requires 0 <= x < 1024
    ensures w as int == x && w < 1024 && (x < 4 ==> w < 4)
  {
    var page: bv16 := if x < 0x100 then 0 else if x < 0x200 then 0x100 else if x < 0x300 then 0x200 else 0x300;
    var b := ToByte(x - page as int);
    PageOffset(b, page);
    b as bv16 + page
  }

  /** A byte placed in one of the four 256-value pages below 1024. */
  lemma PageOffset(b: bv8, page: bv16)
    requires page == 0 || page == 0x100 || page == 0x200 || page == 0x300
    ensures (b as bv16 + page) as int == b as int + page as int
    ensures b as bv16 + page < 1024
  {
    if page == 0 {
    } else if page == 0x100 {
    } else if page == 0x200 {
    } else {
    }
  }

  /** Bit-vector bounds as integer bounds, for the three register fields. */
  lemma Registers(a: bv8, b: bv8, c: bv8)
    requires a < 16 && b < 16 && c < 16
    ensures a as int < 16 && b as int < 16 && c as int < 16
  {
  }

  /** Bit-vector bounds as integer bounds, for a condition code and an
      address. */
  lemma Words(code: bv16, addr: bv16)
    requires code < 4 && addr < 1024
    ensures code as int < 4 && addr as int < 1024
  {
  }

  /** Reading a field back as an operand and converting it again gives the
      same field. */
  lemma BytesBack(a: bv8, b: bv8, c: bv8)
    ensures ToByte(a as int) == a && ToByte(b as int) == b && ToByte(c as int) == c
  {
    ByteInjective(ToByte(a as int), a);
    ByteInjective(ToByte(b as int), b);
    ByteInjective(ToByte(c as int), c);
  }

  lemma WordsBack(code: bv16, addr: bv16)
    requires code < 4 && addr < 1024
    ensures ToWord(code as int) == code && ToWord(addr as int) == addr
  {
    Words(code, addr);
    WordInjective(ToWord(code as int), code);
    WordInjective(ToWord(addr as int), addr);
  }

  /** Distinct bytes have distinct values. */
  lemma ByteInjective(x: bv8, y: bv8)
    requires x as int == y as int
    ensures x == y
  {
    ByteBack(x);
    ByteBack(y);
  }

  /** Distinct words have distinct values. */
  lemma WordInjective(x: bv16, y: bv16)
    requires x as int == y as int
    ensures x == y
  {
    WordBack(x);
    WordBack(y);
  }

  lemma WordBack(x: bv16)
    ensures (x as int) as bv16 == x
  {
  }

  lemma ByteBack(x: bv8)
    ensures (x as int) as bv8 == x
  {
  }
}
