/**
 First-match search, the shape of Python's `next(i for i in … if …)`, of a
 locator's `.first` and of JavaScript's `Array.prototype.find`; and counting
 matches, which decides whether a strict locator (one without `.first`)
 resolves to a single element.
 */
module Search {
  import opened Options

  /** The index of the first element at or after `i` that satisfies `f`. */
  function First<T>(xs: seq<T>, f: T -> bool, i: nat): (k: Option<nat>)
    requires i <= |xs|
    ensures k.Some? ==> i <= k.value < |xs| && f(xs[k.value])
    ensures k.Some? ==> forall j :: i <= j < k.value ==> !f(xs[j])
    ensures k.None? <==> forall j :: i <= j < |xs| ==> !f(xs[j])
    decreases |xs| - i
  {
    if i == |xs| then None
    else if f(xs[i]) then Some(i)
    else First(xs, f, i + 1)
  }

  /** How many elements at or after `i` satisfy `f`. */
  function Count<T>(xs: seq<T>, f: T -> bool, i: nat): (n: nat)
    requires i <= |xs|
    ensures n <= |xs| - i
    ensures n > 0 <==> exists j :: i <= j < |xs| && f(xs[j])
    decreases |xs| - i
  {
    if i == |xs| then 0
    else (if f(xs[i]) then 1 else 0) + Count(xs, f, i + 1)
  }

  /** Exactly one element at or after `i` satisfies `f`. */
  predicate Unique<T>(xs: seq<T>, f: T -> bool, i: nat) {
    exists k :: i <= k < |xs| && f(xs[k]) && forall j :: i <= j < |xs| && j != k ==> !f(xs[j])
  }

  /** A count of one means exactly one match, and conversely. */
  lemma {:induction false} CountOne<T>(xs: seq<T>, f: T -> bool, i: nat)
    requires i <= |xs|
    ensures Count(xs, f, i) == 1 <==> Unique(xs, f, i)
    decreases |xs| - i
  {
    if i < |xs| {
      CountOne(xs, f, i + 1);
      if f(xs[i]) {
        assert Count(xs, f, i) == 1 ==> forall j :: i <= j < |xs| && j != i ==> !f(xs[j]);
        if Unique(xs, f, i) {
          var k :| i <= k < |xs| && f(xs[k]) && forall j :: i <= j < |xs| && j != k ==> !f(xs[j]);
          assert k == i;
        }
      } else {
        if Unique(xs, f, i) {
          var k :| i <= k < |xs| && f(xs[k]) && forall j :: i <= j < |xs| && j != k ==> !f(xs[j]);
          assert Unique(xs, f, i + 1);
        }
        if Unique(xs, f, i + 1) {
          var k :| i + 1 <= k < |xs| && f(xs[k]) && forall j :: i + 1 <= j < |xs| && j != k ==> !f(xs[j]);
          assert Unique(xs, f, i);
        }
      }
    }
  }
}
