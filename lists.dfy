/**
  The few list algorithms the matrix is built from (fmap, zip_with, zip and
  all), written as ordinary recursive functions on sequences. Where two or
  more lists are combined pointwise they are required to have equal lengths:
  the model makes no claim about what the combinators do on lists of
  different lengths.
 */
module Lists {

  /** `fmap` on a list: apply `f` to every element, keeping the order. */
  function Map<A, B>(f: A -> B, s: seq<A>): (r: seq<B>)
    ensures |r| == |s|
    ensures forall i :: 0 <= i < |s| ==> r[i] == f(s[i])
  {
    if s == [] then [] else [f(s[0])] + Map(f, s[1..])
  }

  /** Both lists are as long and `f` may be applied to every pair of elements at the same position. */
  ghost predicate Zippable<A, B, C>(f: (A, B) --> C, a: seq<A>, b: seq<B>)
  {
    |a| == |b| && forall i :: 0 <= i < |a| ==> f.requires(a[i], b[i])
  }

  /** `zip_with` on two lists: combine the elements at each position with `f`. */
  function ZipWith<A, B, C>(f: (A, B) --> C, a: seq<A>, b: seq<B>): (r: seq<C>)
    requires Zippable(f, a, b)
    ensures |r| == |a|
    ensures forall i :: 0 <= i < |a| ==> r[i] == f(a[i], b[i])
  {
    if a == [] then []
    else
      assert Zippable(f, a[1..], b[1..]) by {
        forall i | 0 <= i < |a| - 1 ensures f.requires(a[1..][i], b[1..][i]) {
          assert a[1..][i] == a[i + 1] && b[1..][i] == b[i + 1];
        }
      }
      [f(a[0], b[0])] + ZipWith(f, a[1..], b[1..])
  }

  /** `all`: every element of `s` satisfies `p`. */
  function All<A>(p: A -> bool, s: seq<A>): (r: bool)
    ensures r <==> forall i :: 0 <= i < |s| ==> p(s[i])
  {
    if s == [] then true else p(s[0]) && All(p, s[1..])
  }

  /** Every list in `lists` has `n` elements. */
  ghost predicate AllOfLength<A>(lists: seq<seq<A>>, n: nat)
  {
    forall i :: 0 <= i < |lists| ==> |lists[i]| == n
  }

  /**
    `zip` on one or more lists of a common length `n`: the `j`-th list of the
    result gathers the `j`-th element of every argument, in argument order.
   */
  function Zip<A>(lists: seq<seq<A>>): (r: seq<seq<A>>)
    requires |lists| > 0 && AllOfLength(lists, |lists[0]|)
    ensures |r| == |lists[0]|
    ensures AllOfLength(r, |lists|)
    ensures forall i, j :: 0 <= i < |lists| && 0 <= j < |r| ==> r[j][i] == lists[i][j]
  {
    if |lists| == 1 then Map(x => [x], lists[0])
    else
      var rest := Zip(lists[1..]);
      ZipWith((x: A, column: seq<A>) => [x] + column, lists[0], rest)
  }
}
