/** A log of admission times, and counting the admissions that fall in an interval. */
module AdmissionLog {
  function CountIn(log: seq<int>, lo: int, hi: int): nat {
    if log == [] then 0
    else (if lo < log[0] <= hi then 1 else 0) + CountIn(log[1..], lo, hi)
  }

  lemma {:induction false} CountInSnoc(log: seq<int>, x: int, lo: int, hi: int)
    ensures CountIn(log + [x], lo, hi) == CountIn(log, lo, hi) + if lo < x <= hi then 1 else 0
  {
    if log == [] {
      assert log + [x] == [x];
      assert CountIn([], lo, hi) == 0;
    } else {
      CountInSnoc(log[1..], x, lo, hi);
      assert (log + [x])[1..] == log[1..] + [x];
    }
  }

  lemma {:induction false} CountInConcat(a: seq<int>, b: seq<int>, lo: int, hi: int)
    ensures CountIn(a + b, lo, hi) == CountIn(a, lo, hi) + CountIn(b, lo, hi)
  {
    if a == [] {
      assert a + b == b;
    } else {
      CountInConcat(a[1..], b, lo, hi);
      assert (a + b)[1..] == a[1..] + b;
    }
  }

  /** Only the part of an interval that the log reaches matters, and a wider interval counts more. */
  lemma {:induction false} CountInCompare(log: seq<int>, lo: int, hi: int, lo': int, hi': int)
    requires forall t :: t in log && lo < t <= hi ==> lo' < t <= hi'
    ensures CountIn(log, lo, hi) <= CountIn(log, lo', hi')
  {
    if log != [] {
      assert log[0] in log;
      assert forall t :: t in log[1..] ==> t in log;
      CountInCompare(log[1..], lo, hi, lo', hi');
    }
  }

  lemma CountInSame(log: seq<int>, lo: int, hi: int, hi': int)
    requires forall t :: t in log ==> t <= hi && t <= hi'
    ensures CountIn(log, lo, hi) == CountIn(log, lo, hi')
  {
    CountInCompare(log, lo, hi, lo, hi');
    CountInCompare(log, lo, hi', lo, hi);
  }

  lemma {:induction false} NothingAbove(log: seq<int>, lo: int, hi: int)
    requires forall t :: t in log ==> t <= lo
    ensures CountIn(log, lo, hi) == 0
  {
    if log != [] {
      assert log[0] in log;
      assert forall t :: t in log[1..] ==> t in log;
      NothingAbove(log[1..], lo, hi);
    }
  }
}
