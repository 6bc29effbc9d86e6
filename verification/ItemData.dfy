/** The 16 data bits of a list item (core_list_join.c).

The upper byte keeps the original value. Bit 7 says that bits 0-6 hold a computed value;
until then bits 0-2 name the function to run and bits 3-6 are its argument. */
module ItemData {

  predicate Cached(data: bv16) { data & 0x0080 != 0 }

  function UpperByte(data: bv16): bv16 { data & 0xff00 }

  /** The seven value bits. */
  function Value(data: bv16): bv16 { data & 0x007f }

  /** The item after its function has returned retval. */
  function WithValue(data: bv16, retval: bv16): bv16 {
    (data & 0xff00) | 0x0080 | (retval & 0x007f)
  }

  /** The item with its lower byte rebuilt from the upper one. */
  function Regenerate(data: bv16): bv16 { (data & 0xff00) | (0x00ff & (data >> 8)) }

  predicate Regenerated(data: bv16) { data & 0x00ff == data >> 8 }

  lemma WithValueFacts(data: bv16, retval: bv16)
    ensures Cached(WithValue(data, retval))
    ensures Value(WithValue(data, retval)) == retval & 0x007f
    ensures UpperByte(WithValue(data, retval)) == UpperByte(data)
  {
  }

  lemma RegenerateFacts(data: bv16)
    ensures Regenerated(Regenerate(data))
    ensures UpperByte(Regenerate(data)) == UpperByte(data)
    ensures Regenerated(data) <==> Regenerate(data) == data
  {
  }

  /** A rebuilt item is determined by its upper byte. */
  lemma UpperByteDecides(a: bv16, b: bv16)
    requires Regenerated(a) && Regenerated(b) && UpperByte(a) == UpperByte(b)
    ensures a == b
  {
  }
}
