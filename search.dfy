/** Searching a byte string for a separator byte, as `str.find`, `str.split` and `str.partition`
    do for an ASCII separator. */
module Search {
  import opened Wrappers
  import opened Bytes

  /** The first position of c in s. */
  function IndexOf(s: seq<byte>, c: byte): (r: Option<nat>)
    ensures r.None? <==> c !in s
    ensures r.Some? ==> r.value < |s| && s[r.value] == c && c !in s[..r.value]
  {
    if s == [] then None
    else if s[0] == c then Some(0)
    else
      match IndexOf(s[1..], c)
      case None => None
      case Some(i) => assert s[..i + 1] == [s[0]] + s[1..][..i]; Some(i + 1)
  }

  /** The first `c` in `a + [c] + b` is the one just after a, when a holds none. */
  lemma {:induction false} IndexOfAt(a: seq<byte>, c: byte, b: seq<byte>)
    requires c !in a
    ensures IndexOf(a + [c] + b, c) == Some(|a|)
    decreases |a|
  {
    if a != [] {
      assert (a + [c] + b)[1..] == a[1..] + [c] + b;
      IndexOfAt(a[1..], c, b);
    }
  }
}
