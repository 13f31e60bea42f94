/**
 * The waveform shape both Vibration versions build: a zero lead-in, then the
 * on segments with a fixed spacing between consecutive ones and none after
 * the last, i.e. `listOf(0) + actives.flatMap { listOf(it, spacing) }.dropLast(1)`.
 * Entries at odd indices are on segments; entries at even indices are off.
 */
module Waveform {
  import opened Utils

  /** The i-th on segment of a waveform: it follows the lead-in and i on/spacing pairs. */
  function On(r: seq<int>, i: nat): int
    requires 2 * i + 1 < |r|
  {
    r[2 * i + 1]
  }

  /** The spacing after the i-th on segment of a waveform. */
  function Gap(r: seq<int>, i: nat): int
    requires 2 * i + 2 < |r|
  {
    r[2 * i + 2]
  }

  /** `flatMap { listOf(it, spacing) }`. */
  function Pairs(actives: seq<int>, spacing: int): (r: seq<int>)
    ensures |r| == 2 * |actives|
    ensures forall i :: 0 <= i < |actives| ==> r[2 * i] == actives[i] && r[2 * i + 1] == spacing
    decreases |actives|
  {
    if |actives| == 0 then []
    else
      var tail := Pairs(actives[1..], spacing);
      assert forall i :: 1 <= i < |actives| ==> actives[i] == actives[1..][i - 1];
      [actives[0], spacing] + tail
  }

  /** `dropLast(1)`. */
  function DropLast(s: seq<int>): (r: seq<int>)
    ensures |s| == 0 ==> r == []
    ensures |s| > 0 ==> r == s[..|s| - 1]
  {
    if |s| == 0 then [] else s[..|s| - 1]
  }

  /**
   * The waveform of `actives`: 2n entries for n >= 1 on segments (just the
   * lead-in for none), on segment i at index 2i+1, the spacing after every
   * on segment but the last.
   */
  function Interleave(actives: seq<int>, spacing: int): (r: seq<int>)
    ensures |r| >= 1 && r[0] == 0
    ensures |actives| == 0 ==> r == [0]
    ensures |actives| > 0 ==> |r| == 2 * |actives|
    ensures forall i :: 0 <= i < |actives| ==> On(r, i) == actives[i]
    ensures forall i :: 0 <= i < |actives| - 1 ==> Gap(r, i) == spacing
  {
    [0] + DropLast(Pairs(actives, spacing))
  }

  lemma {:induction false} PairsSnoc(actives: seq<int>, x: int, spacing: int)
    ensures Pairs(actives + [x], spacing) == Pairs(actives, spacing) + [x, spacing]
    decreases |actives|
  {
    if |actives| == 0 {
      assert actives + [x] == [x];
      assert [x][1..] == [];
    } else {
      assert (actives + [x])[1..] == actives[1..] + [x];
      PairsSnoc(actives[1..], x, spacing);
    }
  }

  /** One more on segment appends the spacing and the segment. */
  lemma InterleaveSnoc(actives: seq<int>, x: int, spacing: int)
    requires |actives| > 0
    ensures Interleave(actives + [x], spacing) == Interleave(actives, spacing) + [spacing, x]
  {
    var s := Pairs(actives, spacing);
    PairsSnoc(actives, x, spacing);
    assert DropLast(s + [x, spacing]) == s + [x];
    assert s[|s| - 1] == spacing;
    assert s == s[..|s| - 1] + [spacing];
    assert [0] + (s + [x]) == ([0] + s[..|s| - 1]) + [spacing, x];
  }

  lemma SumPair(a: int, b: int)
    ensures Sum([a, b]) == a + b
  {
    assert [a, b] == [a] + [b];
    SumSnoc([a], b);
    assert [a] == [] + [a];
    SumSnoc([], a);
  }

  /** A waveform lasts its on segments plus one spacing between each consecutive pair. */
  lemma {:induction false} InterleaveSum(actives: seq<int>, spacing: int)
    requires |actives| > 0
    ensures Sum(Interleave(actives, spacing)) == Sum(actives) + spacing * (|actives| - 1)
    decreases |actives|
  {
    if |actives| == 1 {
      assert Interleave(actives, spacing) == [0, actives[0]];
      SumPair(0, actives[0]);
      assert actives == [] + [actives[0]];
      SumSnoc([], actives[0]);
    } else {
      var init := actives[..|actives| - 1];
      var x := actives[|actives| - 1];
      assert actives == init + [x];
      InterleaveSum(init, spacing);
      InterleaveSnoc(init, x, spacing);
      SumConcat(Interleave(init, spacing), [spacing, x]);
      SumPair(spacing, x);
      SumSnoc(init, x);
    }
  }

  /** `active`: the entries at odd indices, i.e. the on segments. */
  function OddEntries(r: seq<int>): (a: seq<int>)
    ensures |a| == |r| / 2
    ensures forall i :: 0 <= i < |a| ==> a[i] == On(r, i)
  {
    seq(|r| / 2, i requires 0 <= i < |r| / 2 => r[2 * i + 1])
  }

  /** The on segments of a waveform are exactly the actives it was built from. */
  lemma OddEntriesOfInterleave(actives: seq<int>, spacing: int)
    ensures OddEntries(Interleave(actives, spacing)) == actives
  {
  }

  /** `mapActive(block)`: `block` applied to every odd-indexed entry, the others kept. */
  function MapActive(r: seq<int>, block: int -> int): (m: seq<int>)
    ensures |m| == |r|
    ensures |r| > 0 ==> m[0] == r[0]
    ensures forall i :: 0 <= i < |r| / 2 ==> On(m, i) == block(On(r, i))
    ensures forall i :: 0 <= i < (|r| - 1) / 2 ==> Gap(m, i) == Gap(r, i)
  {
    var m := seq(|r|, k requires 0 <= k < |r| => if k % 2 == 1 then block(r[k]) else r[k]);
    forall i | 0 <= i < |r| / 2
      ensures On(m, i) == block(On(r, i))
    {
      Parity(i);
    }
    forall i | 0 <= i < (|r| - 1) / 2
      ensures Gap(m, i) == Gap(r, i)
    {
      Parity(i);
    }
    m
  }

  lemma Parity(i: int)
    ensures (2 * i + 1) % 2 == 1 && (2 * i + 2) % 2 == 0
  {
  }

  /** Two waveforms of n >= 1 on segments agree when their lead-ins, on segments and spacings do. */
  lemma SameWaveform(a: seq<int>, b: seq<int>, n: nat)
    requires n >= 1 && |a| == 2 * n && |b| == 2 * n && a[0] == b[0]
    requires forall i :: 0 <= i < n ==> On(a, i) == On(b, i)
    requires forall i :: 0 <= i < n - 1 ==> Gap(a, i) == Gap(b, i)
    ensures a == b
  {
    forall k | 0 <= k < |a|
      ensures a[k] == b[k]
    {
      if k == 0 {
      } else if k % 2 == 1 {
        assert On(a, k / 2) == On(b, k / 2);
      } else {
        assert Gap(a, k / 2 - 1) == Gap(b, k / 2 - 1);
      }
    }
  }

  /** `map(block)` over a list. */
  function MapAll(xs: seq<int>, block: int -> int): (r: seq<int>)
    ensures |r| == |xs|
    ensures forall i :: 0 <= i < |xs| ==> r[i] == block(xs[i])
  {
    seq(|xs|, i requires 0 <= i < |xs| => block(xs[i]))
  }

  /** Mapping the on segments of a waveform is the waveform of the mapped actives. */
  lemma MapActiveInterleave(actives: seq<int>, spacing: int, block: int -> int)
    ensures MapActive(Interleave(actives, spacing), block) == Interleave(MapAll(actives, block), spacing)
  {
    var r := Interleave(actives, spacing);
    var m := MapActive(r, block);
    var w := Interleave(MapAll(actives, block), spacing);
    if |actives| == 0 {
      assert r == [0] && w == [0];
      assert m == [0];
    } else {
      forall i | 0 <= i < |actives|
        ensures On(m, i) == On(w, i)
      {
        assert On(m, i) == block(On(r, i));
      }
      assert forall i :: 0 <= i < |actives| - 1 ==> Gap(m, i) == Gap(r, i) == Gap(w, i);
      SameWaveform(m, w, |actives|);
    }
  }
}
