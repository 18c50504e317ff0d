/**
 The semitone scale table both copies build at load time: for every octave
 index `o` and every interval `s` of the chord, the semitone `o*12 + s`,
 octave-major (the `_.flatten(_.map(octIdxs, o => _.map(scaleIdxs, s => ...)))`
 idiom).
 */
module Scale {

  predicate StrictlyIncreasing(s: seq<int>)
  {
    forall i, j :: 0 <= i < j < |s| ==> s[i] < s[j]
  }

  /** Chord intervals lie within one octave. */
  predicate WithinOctave(steps: seq<int>)
  {
    forall j :: 0 <= j < |steps| ==> 0 <= steps[j] < 12
  }

  /** The inner `_.map`: one octave of the chord. */
  function Row(o: int, steps: seq<int>): (r: seq<int>)
    ensures |r| == |steps|
  {
    seq(|steps|, j requires 0 <= j < |steps| => o * 12 + steps[j])
  }

  /** The outer `_.map` followed by `_.flatten`. */
  function BuildScale(octs: seq<int>, steps: seq<int>): (r: seq<int>)
    ensures |r| == |octs| * |steps|
  {
    if |octs| == 0 then []
    else
      var rest := BuildScale(octs[1..], steps);
      assert |octs| * |steps| == |steps| + (|octs| - 1) * |steps|;
      Row(octs[0], steps) + rest
  }

  /** Octave-major order: entry `i*|steps| + j` is octave `i` plus interval `j`. */
  lemma {:induction false} ScaleIndex(octs: seq<int>, steps: seq<int>, i: nat, j: nat)
    requires i < |octs| && j < |steps|
    ensures i * |steps| + j < |BuildScale(octs, steps)|
    ensures BuildScale(octs, steps)[i * |steps| + j] == octs[i] * 12 + steps[j]
  {
    var m := |steps|;
    IndexBound(i, j, |octs|, m);
    if i > 0 {
      ScaleIndex(octs[1..], steps, i - 1, j);
      MulPred(i, m);
      var rest := BuildScale(octs[1..], steps);
      assert BuildScale(octs, steps) == Row(octs[0], steps) + rest;
      assert BuildScale(octs, steps)[m + ((i - 1) * m + j)] == rest[(i - 1) * m + j];
    }
  }

  lemma MulPred(i: nat, m: nat)
    requires i > 0
    ensures i * m == m + (i - 1) * m
  {
  }

  lemma IndexBound(i: nat, j: nat, n: nat, m: nat)
    requires i < n && j < m
    ensures i * m + j < n * m
  {
    MulMonotone(i + 1, n, m);
    assert (i + 1) * m == i * m + m;
  }

  lemma MulMonotone(a: nat, b: nat, m: nat)
    requires a <= b
    ensures a * m <= b * m
  {
    assert b * m == a * m + (b - a) * m;
  }

  /** Every entry is at least the lowest octave's base. */
  lemma {:induction false} ScaleLowerBound(octs: seq<int>, steps: seq<int>)
    requires StrictlyIncreasing(octs) && WithinOctave(steps)
    requires |octs| > 0
    ensures forall k :: 0 <= k < |BuildScale(octs, steps)| ==> BuildScale(octs, steps)[k] >= octs[0] * 12
  {
    if |octs| > 1 {
      ScaleLowerBound(octs[1..], steps);
    }
  }

  /** With increasing octaves and increasing intervals within one octave, the table is strictly increasing. */
  lemma {:induction false} ScaleIncreasing(octs: seq<int>, steps: seq<int>)
    requires StrictlyIncreasing(octs) && StrictlyIncreasing(steps) && WithinOctave(steps)
    ensures StrictlyIncreasing(BuildScale(octs, steps))
  {
    if |octs| > 0 {
      var row, rest := Row(octs[0], steps), BuildScale(octs[1..], steps);
      ScaleIncreasing(octs[1..], steps);
      if |octs| > 1 {
        ScaleLowerBound(octs[1..], steps);
      }
      var r := row + rest;
      forall i, j | 0 <= i < j < |r|
        ensures r[i] < r[j]
      {
        if j >= |row| && i < |row| {
          assert r[i] < octs[0] * 12 + 12;
          assert r[j] == rest[j - |row|];
        }
      }
    }
  }

  /** The modular table: octaves 1..4 of the dominant-seventh chord `[0, 4, 7, 10]`. */
  function ModularScale(): seq<int>
  {
    BuildScale([1, 2, 3, 4], [0, 4, 7, 10])
  }

  /** The monolithic table: octaves 0..4 of `[0, 2, 4, 7, 10]`. */
  function LegacyScale(): seq<int>
  {
    BuildScale([0, 1, 2, 3, 4], [0, 2, 4, 7, 10])
  }

  lemma ModularScaleFacts()
    ensures ModularScale() == [12, 16, 19, 22, 24, 28, 31, 34, 36, 40, 43, 46, 48, 52, 55, 58]
    ensures |ModularScale()| == 16
    ensures StrictlyIncreasing(ModularScale())
    ensures forall k :: 0 <= k < 16 ==> 12 <= ModularScale()[k] <= 58
  {
    ScaleIncreasing([1, 2, 3, 4], [0, 4, 7, 10]);
    ScaleIndex([1, 2, 3, 4], [0, 4, 7, 10], 0, 0);
    ScaleIndex([1, 2, 3, 4], [0, 4, 7, 10], 3, 3);
  }

  lemma LegacyScaleFacts()
    ensures |LegacyScale()| == 25
    ensures StrictlyIncreasing(LegacyScale())
    ensures LegacyScale()[0] == 0 && LegacyScale()[24] == 58
    ensures forall k :: 0 <= k < 25 ==> 0 <= LegacyScale()[k] <= 58
  {
    ScaleIncreasing([0, 1, 2, 3, 4], [0, 2, 4, 7, 10]);
    ScaleIndex([0, 1, 2, 3, 4], [0, 2, 4, 7, 10], 0, 0);
    ScaleIndex([0, 1, 2, 3, 4], [0, 2, 4, 7, 10], 4, 4);
  }
}
