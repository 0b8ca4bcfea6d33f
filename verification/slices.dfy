/**
 * Go slices, as far as printField uses them: a slice is a view of a backing
 * array, and assigning a slice copies the view, not the array, so two
 * slices can share one backing array.
 */
module GoSlices {

  /** A slice of length `len` over `buf`; its capacity is `buf.Length`. */
  datatype Slice = Slice(buf: array<nat>, len: nat)

  /**
   * Go's append: with room left, x is written into the shared backing array
   * at position len; with no room, the elements move to a new, larger array.
   */
  method Append(s: Slice, x: nat) returns (t: Slice)
    requires s.len <= s.buf.Length
    modifies s.buf
    ensures t.len == s.len + 1 && t.len <= t.buf.Length
    ensures t.buf[..t.len] == old(s.buf[..s.len]) + [x]
    ensures s.len < s.buf.Length ==> t.buf == s.buf && t.buf[s.len + 1..] == old(s.buf[s.len + 1..])
    ensures s.len == s.buf.Length ==> fresh(t.buf) && unchanged(s.buf)
  {
    if s.len < s.buf.Length {
      s.buf[s.len] := x;
      t := Slice(s.buf, s.len + 1);
      assert t.buf[..t.len] == t.buf[..s.len] + [x];
    } else {
      var grown := new nat[2 * s.buf.Length + 1];
      for k := 0 to s.len
        invariant grown[..k] == s.buf[..k] && unchanged(s.buf)
      {
        grown[k] := s.buf[k];
      }
      grown[s.len] := x;
      t := Slice(grown, s.len + 1);
      assert t.buf[..t.len] == grown[..s.len] + [x];
    }
  }
}
