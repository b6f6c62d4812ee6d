/** `withPrevious()` and the empty case of `zipIfNotEmpty`
    (Sources/RxUNILib/WithPrevious.swift). An observable is modelled by the
    finite sequence of elements it emits. */
module WithPrevious {
  import opened Optionals

  /** `suffix(2)`: the last two elements, or all of them when there are fewer. */
  function Suffix2<T>(s: seq<T>): (r: seq<T>)
    ensures |r| == if |s| < 2 then |s| else 2
  {
    if |s| <= 2 then s else s[|s| - 2..]
  }

  /** The `scan` accumulator: `Array(previous + [current]).suffix(2)`. */
  function Step<T>(previous: seq<T>, current: T): (r: seq<T>)
    ensures 1 <= |r| <= 2 && r[|r| - 1] == current
  {
    Suffix2(previous + [current])
  }

  /** `scan(seed, accumulator)`: every accumulator after the first, in order. */
  function Scan<T>(acc: seq<T>, xs: seq<T>): (r: seq<seq<T>>)
    ensures |r| == |xs|
    ensures forall k :: 0 <= k < |r| ==> 1 <= |r[k]| <= 2
    decreases |xs|
  {
    if xs == [] then [] else [Step(acc, xs[0])] + Scan(Step(acc, xs[0]), xs[1..])
  }

  /** The `map` step: the first element of the window as `previous` when the
      window holds two, and its last element as `current`. */
  function ToPair<T>(window: seq<T>): (Option<T>, T)
    requires window != []
  {
    (if |window| > 1 then Some(window[0]) else None, window[|window| - 1])
  }

  /** `withPrevious()`. */
  function WithPrevious<T>(xs: seq<T>): (r: seq<(Option<T>, T)>)
    ensures |r| == |xs|
  {
    var windows := Scan([], xs);
    seq(|xs|, i requires 0 <= i < |xs| => ToPair(windows[i]))
  }

  /** Keeping the last two of the last two and then more is keeping the last
      two of everything. */
  lemma Suffix2Absorb<T>(u: seq<T>, x: T)
    ensures Suffix2(Suffix2(u) + [x]) == Suffix2(u + [x])
  {
    if |u| > 2 {
      assert (u + [x])[|u| - 1..] == u[|u| - 1..] + [x];
      assert (Suffix2(u) + [x])[1..] == u[|u| - 1..] + [x];
    }
  }

  /** The accumulator after `i + 1` inputs is the last two of everything seen. */
  lemma {:induction false} ScanWindows<T>(acc: seq<T>, xs: seq<T>, i: nat)
    requires i < |xs|
    ensures Scan(acc, xs)[i] == Suffix2(acc + xs[..i + 1])
    decreases i
  {
    if i == 0 {
      assert xs[..1] == [xs[0]];
    } else {
      var acc' := Step(acc, xs[0]);
      ScanWindows(acc', xs[1..], i - 1);
      assert xs[1..][..i] == xs[1..i + 1];
      if |acc + [xs[0]]| <= 2 {
        assert acc' + xs[1..i + 1] == acc + xs[..i + 1];
      } else {
        Suffix2AbsorbMany(acc + [xs[0]], xs[1..i + 1]);
        assert (acc + [xs[0]]) + xs[1..i + 1] == acc + xs[..i + 1];
      }
    }
  }

  lemma {:induction false} Suffix2AbsorbMany<T>(u: seq<T>, v: seq<T>)
    ensures Suffix2(Suffix2(u) + v) == Suffix2(u + v)
    decreases |v|
  {
    if v == [] {
      assert Suffix2(u) + v == Suffix2(u) && u + v == u;
    } else {
      var w := v[..|v| - 1];
      var x := v[|v| - 1];
      Suffix2AbsorbMany(u, w);
      assert Suffix2(u) + v == (Suffix2(u) + w) + [x];
      assert u + v == (u + w) + [x];
      Suffix2Absorb(Suffix2(u) + w, x);
      Suffix2Absorb(u + w, x);
    }
  }

  /** The window never holds more than the last two inputs. */
  lemma WindowsAreShort<T>(xs: seq<T>, i: nat)
    requires i < |xs|
    ensures i == 0 ==> Scan([], xs)[i] == [xs[0]]
    ensures i > 0 ==> Scan([], xs)[i] == [xs[i - 1], xs[i]]
  {
    ScanWindows([], xs, i);
    assert [] + xs[..i + 1] == xs[..i + 1];
    LastTwoSeen(xs, i);
  }

  lemma LastTwoSeen<T>(xs: seq<T>, i: nat)
    requires i < |xs|
    ensures i == 0 ==> Suffix2(xs[..i + 1]) == [xs[0]]
    ensures i > 0 ==> Suffix2(xs[..i + 1]) == [xs[i - 1], xs[i]]
  {
    var seen := xs[..i + 1];
    assert |seen| == i + 1;
    if i == 0 {
      assert seen == [xs[0]];
    } else {
      var last2 := seen[i - 1..];
      assert Suffix2(seen) == last2;
      assert |last2| == 2 && last2[0] == xs[i - 1] && last2[1] == xs[i];
      assert last2 == [xs[i - 1], xs[i]];
    }
  }

  /** One output per input, in order: the first has no previous element, and
      every later one pairs the element before it with the current one. */
  lemma WithPreviousPairs<T>(xs: seq<T>, i: nat)
    requires i < |xs|
    ensures WithPrevious(xs)[i] == if i == 0 then (None, xs[0]) else (Some(xs[i - 1]), xs[i])
  {
    WindowsAreShort(xs, i);
  }

  /** `zipIfNotEmpty(_:)`: an empty collection emits one empty array; any
      other collection is handed to the reactive library's `zip`, which is a
      parameter here. */
  function ZipIfNotEmpty<T>(collection: seq<seq<T>>, zip: seq<seq<T>> -> seq<seq<T>>): (r: seq<seq<T>>)
    ensures collection == [] ==> r == [[]]
    ensures collection != [] ==> r == zip(collection)
  {
    if |collection| == 0 then [[]] else zip(collection)
  }
}
