// Buffers that carry several records back to back.
module Framing {
  import opened Bytes

  // Looking at the front of a buffer: nothing usable, or an item and the
  // distance to the next record.
  datatype Cut<T> = Stop | Take(item: T, next: nat)

  // All the items of a buffer, as a loop that cuts from the front finds them.
  function Split<T>(cut: Data -> Cut<T>, d: Data): seq<T>
    decreases |d|
  {
    match cut(d)
    case Stop => []
    case Take(x, n) => [x] + if 0 < n < |d| then Split(cut, d[n..]) else []
  }

  // A record in front comes out first and does not disturb what follows.
  lemma SplitFront<T>(cut: Data -> Cut<T>, rec: Data, rest: Data, x: T)
    requires rec != [] && cut(rec + rest) == Take(x, |rec|) && cut([]) == Stop
    ensures Split(cut, rec + rest) == [x] + Split(cut, rest)
  {
    assert (rec + rest)[|rec|..] == rest;
  }

  // One turn of a loop over a buffer.
  lemma SplitStep<T>(cut: Data -> Cut<T>, d: Data)
    requires cut([]) == Stop && (cut(d).Take? ==> cut(d).next > 0)
    ensures cut(d).Stop? ==> Split(cut, d) == []
    ensures cut(d).Take? ==> Split(cut, d) == [cut(d).item] + Split(cut, From(d, cut(d).next))
  {
  }

  // What is left of a buffer n bytes on.
  function From(d: Data, n: nat): Data {
    if n < |d| then d[n..] else []
  }
}
