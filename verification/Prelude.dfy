/** What every component of the model shares: options, results, and sequences without repetition. */
module Prelude {

  datatype Option<+T> = None | Some(value: T)

  datatype Result<+T, +E> = Ok(value: T) | Err(error: E)

  predicate NoRepeats<T(==)>(s: seq<T>) {
    forall i, j :: 0 <= i < j < |s| ==> s[i] != s[j]
  }

  ghost function Elements<T>(s: seq<T>): set<T> {
    set x | x in s
  }

  /** Nothing repeats exactly when everything is counted once at most. */
  lemma {:induction false} NoRepeatsCounted<T>(s: seq<T>)
    ensures NoRepeats(s) <==> forall x :: multiset(s)[x] <= 1
  {
    if NoRepeats(s) {
      forall x ensures multiset(s)[x] <= 1 { CountedOnce(s, x); }
    } else {
      var i, j :| 0 <= i < j < |s| && s[i] == s[j];
      var x, left, right := s[i], s[..j], s[j..];
      assert s == left + right;
      assert left[i] == x && right[0] == x;
      assert multiset(left)[x] >= 1 && multiset(right)[x] >= 1;
      assert multiset(s)[x] == multiset(left)[x] + multiset(right)[x];
    }
  }

  lemma {:induction false} CountedOnce<T>(s: seq<T>, x: T)
    requires NoRepeats(s)
    ensures multiset(s)[x] <= 1
  {
    if s != [] {
      var init, last := s[..|s| - 1], s[|s| - 1];
      assert s == init + [last];
      CountedOnce(init, x);
      assert last !in init;
      assert x == last ==> x !in multiset(init);
    }
  }
}
