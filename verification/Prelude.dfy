/** An optional value and sequences without repetition, for all models. */
module Prelude {

  datatype Option<+T> = None | Some(value: T) {
    predicate IsFailure() {
      None?
    }

    function PropagateFailure<U>(): Option<U>
      requires None?
    {
      None
    }

    function Extract(): T
      requires Some?
    {
      value
    }
  }

  ghost predicate Distinct<T>(s: seq<T>) {
    forall i, j :: 0 <= i < j < |s| ==> s[i] != s[j]
  }

  lemma DistinctCons<T>(head: T, tail: seq<T>)
    ensures Distinct([head] + tail) <==> Distinct(tail) && head !in tail
  {
    var all := [head] + tail;
    if Distinct(all) {
      forall i, j | 0 <= i < j < |tail|
        ensures tail[i] != tail[j]
      {
        assert all[i + 1] == tail[i] && all[j + 1] == tail[j];
      }
      forall j | 0 <= j < |tail|
        ensures tail[j] != head
      {
        assert all[0] == head && all[j + 1] == tail[j];
      }
    }
    if Distinct(tail) && head !in tail {
      forall i, j | 0 <= i < j < |all|
        ensures all[i] != all[j]
      {
        assert all[j] == tail[j - 1] && all[j] in tail;
        assert i > 0 ==> all[i] == tail[i - 1];
      }
    }
  }

  lemma Regroup<T>(a: seq<T>, b: seq<T>, c: seq<T>)
    ensures a + (b + c) == (a + b) + c
  {
  }
}
