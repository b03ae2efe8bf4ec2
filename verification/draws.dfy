/** Explicit randomness. The generator's pseudo-random source is replaced by a
    stream of raw draws: every random choice reads the next draw and returns
    its value together with the remaining stream. An exhausted stream reads as
    0. A property proved for every stream therefore holds for every outcome the
    pseudo-random source could produce, and the lemmas below show that every
    outcome of a choice is reachable. */
module Draws {
  import opened Lists

  type Stream = seq<nat>

  /** A value produced by a choice, and the draws left after it. */
  datatype Drawn<+T> = Drawn(value: T, rest: Stream)

  /** The raw next draw. */
  function Next(s: Stream): Drawn<nat>
  {
    if |s| == 0 then Drawn(0, []) else Drawn(s[0], s[1..])
  }

  /** `r.Intn(k)`: any value below `k`, consuming one draw. */
  function Intn(s: Stream, k: nat): (r: Drawn<nat>)
    requires k > 0
    ensures r.value < k
    ensures r.rest == Next(s).rest
  {
    var d := Next(s);
    Drawn(d.value % k, d.rest)
  }

  /** A fair coin, standing for a comparison `r.Float64() >= 0.5` (or `> 0.5`). */
  function Coin(s: Stream): (r: Drawn<bool>)
    ensures r.rest == Next(s).rest
  {
    var d := Next(s);
    Drawn(d.value % 2 == 1, d.rest)
  }

  /** A uniform choice: any element of a non-empty option list. */
  function Pick<T>(s: Stream, options: seq<T>): (r: Drawn<T>)
    requires |options| > 0
    ensures r.value in options
    ensures r.rest == Next(s).rest
  {
    var d := Intn(s, |options|);
    Drawn(options[d.value], d.rest)
  }

  /** A set choice: one coin per element decides whether it is kept. */
  function SubList<T(==)>(s: Stream, xs: seq<T>): (r: Drawn<seq<T>>)
    ensures IsSubList(r.value, xs)
    ensures forall x :: x in r.value ==> x in xs
    ensures Distinct(xs) ==> Distinct(r.value)
  {
    SubListFrom(s, xs, 0)
  }

  /** The coins for the elements `xs[i..]`. */
  function SubListFrom<T(==)>(s: Stream, xs: seq<T>, i: nat): (r: Drawn<seq<T>>)
    requires i <= |xs|
    ensures IsSubList(r.value, xs[i..])
    ensures forall x :: x in r.value ==> x in xs[i..]
    ensures Distinct(xs[i..]) ==> Distinct(r.value)
    decreases |xs| - i
  {
    if i == |xs| then Drawn([], s)
    else
      var c := Coin(s);
      var tail := SubListFrom(c.rest, xs, i + 1);
      assert xs[i..][1..] == xs[i + 1..];
      var kept := [xs[i]] + tail.value;
      assert kept[1..] == tail.value;
      assert Distinct(xs[i..]) ==> Distinct(kept) by {
        if Distinct(xs[i..]) {
          assert xs[i] !in xs[i + 1..] by {
            forall j | i + 1 <= j < |xs| ensures xs[j] != xs[i] {
              assert xs[i..][0] == xs[i] && xs[i..][j - i] == xs[j];
            }
          }
          forall a, b | 0 <= a < b < |kept| ensures kept[a] != kept[b] {
            if a == 0 {
              assert kept[b] in tail.value;
            } else {
              assert kept[a] == tail.value[a - 1] && kept[b] == tail.value[b - 1];
            }
          }
        }
      }
      Drawn(if c.value then kept else tail.value, tail.rest)
  }

  /** Every value below `k` is the outcome of some draw. */
  lemma IntnReachesAll(k: nat, v: nat)
    requires v < k
    ensures Intn([v], k).value == v
  {
  }

  /** Every sub-list of `xs[i..]` is the outcome of some stream of coins. */
  lemma {:induction false} SubListReachesAll<T>(a: seq<T>, xs: seq<T>, i: nat) returns (s: Stream)
    requires i <= |xs| && IsSubList(a, xs[i..])
    ensures SubListFrom(s, xs, i).value == a
    decreases |xs| - i
  {
    if i == |xs| {
      s := [];
    } else {
      assert xs[i..][1..] == xs[i + 1..] && xs[i..][0] == xs[i];
      if |a| > 0 && a[0] == xs[i] && IsSubList(a[1..], xs[i + 1..]) {
        var t := SubListReachesAll(a[1..], xs, i + 1);
        s := [1] + t;
        assert Next(s).rest == t;
        assert [xs[i]] + a[1..] == a;
      } else {
        var t := SubListReachesAll(a, xs, i + 1);
        s := [0] + t;
        assert Next(s).rest == t;
      }
    }
  }
}
