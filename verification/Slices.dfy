/** The RdString of src/String.h: a pointer into a text and a length. */
module Slices {
  datatype Slice = Slice(start: nat, len: nat)

  /** The slice ends at or before position i. */
  predicate Before(v: Slice, i: nat) {
    v.start + v.len <= i
  }

  function Text(buf: string, v: Slice): string
    requires Before(v, |buf|)
  {
    buf[v.start..v.start + v.len]
  }
}
