/** The bounded first-in-first-out history used twice in the platform: the
    price points a stock keeps and the valuation snapshots a portfolio keeps.
    Both append at the end and, once the list has grown past its capacity,
    drop the oldest entry. */
module History {

  /** Both histories keep at most this many entries. */
  const Capacity: nat := 1000

  /** Append `x` as the newest entry; if that makes the history longer than
      `Capacity`, evict the oldest (first) entry. */
  function Append<T>(h: seq<T>, x: T): (r: seq<T>)
    ensures |h| <= Capacity ==> |r| <= Capacity
    ensures |r| > 0 && r[|r| - 1] == x
    ensures |h| < Capacity ==> r == h + [x]
    ensures |h| >= Capacity ==> r == h[1..] + [x]
  {
    var grown := h + [x];
    if |grown| > Capacity then grown[1..] else grown
  }

  /** The most recent `Capacity` entries of `s`, in their original order. */
  function Newest<T>(s: seq<T>): (r: seq<T>)
    ensures |r| <= Capacity
  {
    if |s| <= Capacity then s else s[|s| - Capacity..]
  }

  /** Append every element of `xs`, oldest first. */
  function AppendAll<T>(h: seq<T>, xs: seq<T>): seq<T>
    decreases |xs|
  {
    if |xs| == 0 then h else Append(AppendAll(h, xs[..|xs| - 1]), xs[|xs| - 1])
  }

  /** One append to the newest window of `s` is the newest window of `s + [x]`. */
  lemma AppendToNewest<T>(s: seq<T>, x: T)
    ensures Append(Newest(s), x) == Newest(s + [x])
  {
    if |s| > Capacity {
      assert Newest(s)[1..] + [x] == (s + [x])[|s + [x]| - Capacity..];
    }
  }

  /** After any number of appends to a history that respects the capacity, the
      history holds exactly the most recent `Capacity` entries in insertion
      order: the oldest are evicted first and nothing else is lost. */
  lemma {:induction false} AppendAllKeepsNewest<T>(h: seq<T>, xs: seq<T>)
    requires |h| <= Capacity
    ensures AppendAll(h, xs) == Newest(h + xs)
    decreases |xs|
  {
    if |xs| == 0 {
      assert h + xs == h;
    } else {
      var init, x := xs[..|xs| - 1], xs[|xs| - 1];
      AppendAllKeepsNewest(h, init);
      AppendToNewest(h + init, x);
      assert h + init + [x] == h + xs;
    }
  }
}
