/** The first-occurrence search behind `str.split`, `str.find` and
    `bytes.split`, shared by the header reader, the `lake env` parser and
    the data-URL reader. */
module Search {
  import opened Wrappers

  /** The index of the first `c` in `s`, or None when there is none. */
  function Find<T(==)>(s: seq<T>, c: T): (r: Option<nat>)
    ensures r.Some? ==> r.value < |s| && s[r.value] == c && c !in s[..r.value]
    ensures r.None? ==> c !in s
  {
    if s == [] then None
    else if s[0] == c then Some(0)
    else
      var r := Find(s[1..], c);
      assert s == [s[0]] + s[1..];
      if r.Some? then
        assert s[..r.value + 1] == [s[0]] + s[1..][..r.value];
        Some(r.value + 1)
      else None
  }

  /** The first `c` in `p + [c] + rest`, when `p` has none, ends `p`. */
  lemma FindAfter<T>(p: seq<T>, c: T, rest: seq<T>)
    requires c !in p
    ensures Find(p + [c] + rest, c) == Some(|p|)
  {
    var s := p + [c] + rest;
    assert s[|p|] == c;
    forall j | 0 <= j < |p| ensures s[j] != c {
      assert s[j] == p[j];
    }
    forall v | |p| < v <= |s| ensures c in s[..v] {
      assert s[..v][|p|] == c;
    }
  }
}
