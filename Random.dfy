/** `chooseRandom` (backend/index.js): an element picked by scaling a sample
    of `Math.random()` to the length of the array. The sample itself is
    supplied by the caller; nothing here models its distribution. */
module Random {

  /** A value `Math.random()` can return: a number in [0, 1). */
  type Sample = u: real | 0.0 <= u < 1.0

  /** `Math.floor(u * n)`: the index a sample selects among `n` elements. */
  function IndexOf(u: Sample, n: nat): (i: nat)
    requires n > 0
    ensures i < n
    ensures i as real <= u * n as real < i as real + 1.0
  {
    var x := u * n as real;
    assert 0.0 <= x < n as real;
    x.Floor
  }

  /** `chooseRandom(arr)` for the sample `u`. */
  function ChooseRandom<T>(arr: seq<T>, u: Sample): (r: T)
    requires |arr| > 0
    ensures r in arr
  {
    arr[IndexOf(u, |arr|)]
  }

  /** The sample that selects index `i` among `n` elements. */
  function SampleFor(i: nat, n: nat): (u: Sample)
    requires i < n
  {
    i as real / n as real
  }

  /** One sample per index, in index order: `SampleFor(0, n)`, ...,
      `SampleFor(n - 1, n)`. */
  function Sweep(n: nat): (r: seq<Sample>)
    ensures |r| == n
    ensures forall k :: 0 <= k < n ==> r[k] == SampleFor(k, n)
  {
    seq(n, k requires 0 <= k < n => SampleFor(k, n))
  }

  /** No element is out of reach: for every index there is a sample that
      selects it, so the model fixes no choice the source leaves to chance. */
  lemma ChooseRandomCovers<T>(arr: seq<T>, i: nat)
    requires i < |arr|
    ensures ChooseRandom(arr, SampleFor(i, |arr|)) == arr[i]
  {
    var n := |arr| as real;
    var u := SampleFor(i, |arr|);
    assert u * n == i as real;
  }
}
