/** Lists of records looked up by a key: the first record with the key wins. */
module KeyedList {
  import opened Wrappers

  type Id = string

  /** The position of the first record with a key, or the length of the list. */
  function IndexOf<T, K(==)>(s: seq<T>, key: T -> K, id: K): (i: nat)
    ensures i <= |s|
    ensures i < |s| ==> key(s[i]) == id
    ensures forall j :: 0 <= j < i ==> key(s[j]) != id
  {
    if s == [] || key(s[0]) == id then 0 else 1 + IndexOf(s[1..], key, id)
  }

  function Find<T, K(==)>(s: seq<T>, key: T -> K, id: K): (r: Option<T>)
    ensures r.Some? ==> r.value in s && key(r.value) == id
    ensures r.None? <==> forall x :: x in s ==> key(x) != id
  {
    var i := IndexOf(s, key, id);
    if i < |s| then Some(s[i]) else None
  }

  ghost predicate Unique<T, K>(s: seq<T>, key: T -> K) {
    forall i, j :: 0 <= i < j < |s| ==> key(s[i]) != key(s[j])
  }

  function RemoveAt<T>(s: seq<T>, i: nat): seq<T>
    requires i < |s|
  {
    s[..i] + s[i + 1..]
  }

  /** RemoveAll by key. */
  function Without<T, K(==)>(s: seq<T>, key: T -> K, id: K): seq<T>
  {
    if s == [] then []
    else (if key(s[0]) == id then [] else [s[0]]) + Without(s[1..], key, id)
  }

  lemma FindIs<T, K>(s: seq<T>, key: T -> K, i: nat)
    requires Unique(s, key) && i < |s|
    ensures IndexOf(s, key, key(s[i])) == i && Find(s, key, key(s[i])) == Some(s[i])
  {
  }

  lemma FindMember<T, K>(s: seq<T>, key: T -> K, x: T)
    requires Unique(s, key) && x in s
    ensures Find(s, key, key(x)) == Some(x)
  {
    var i :| 0 <= i < |s| && s[i] == x;
    FindIs(s, key, i);
  }

  lemma FindUpdate<T, K>(s: seq<T>, key: T -> K, i: nat, x: T, id: K)
    requires Unique(s, key) && i < |s| && key(x) == key(s[i])
    ensures Unique(s[i := x], key)
    ensures IndexOf(s[i := x], key, id) == IndexOf(s, key, id)
    ensures Find(s[i := x], key, id) == if id == key(x) then Some(x) else Find(s, key, id)
  {
    assert forall j :: 0 <= j < |s| ==> key(s[i := x][j]) == key(s[j]);
    FindIs(s, key, i);
  }

  lemma FindAppend<T, K>(s: seq<T>, key: T -> K, x: T, id: K)
    requires Unique(s, key) && Find(s, key, key(x)).None?
    ensures Unique(s + [x], key)
    ensures Find(s + [x], key, id) == if id == key(x) then Some(x) else Find(s, key, id)
  {
    var t := s + [x];
    assert forall j :: 0 <= j < |s| ==> t[j] == s[j] && s[j] in s;
    assert t[|s|] == x;
    FindIs(t, key, |s|);
    if IndexOf(s, key, id) < |s| {
      FindIs(t, key, IndexOf(s, key, id));
    }
  }

  /** The last of a list with unique keys is new to the rest. */
  lemma SnocNew<T, K>(init: seq<T>, key: T -> K, last: T)
    requires Unique(init + [last], key)
    ensures Unique(init, key) && Find(init, key, key(last)).None?
  {
    var all := init + [last];
    assert forall i :: 0 <= i < |init| ==> all[i] == init[i];
    forall x | x in init
      ensures key(x) != key(last)
    {
      var i :| 0 <= i < |init| && init[i] == x;
      assert key(all[i]) != key(all[|init|]);
    }
  }

  lemma UniqueRemove<T, K>(s: seq<T>, key: T -> K, i: nat)
    requires Unique(s, key) && i < |s|
    ensures Unique(RemoveAt(s, i), key)
  {
    var rest := RemoveAt(s, i);
    assert forall j :: 0 <= j < |rest| ==> rest[j] == s[if j < i then j else j + 1];
  }

  lemma IndexIs<T, K>(s: seq<T>, key: T -> K, id: K, i: nat)
    requires i <= |s| && forall j :: 0 <= j < i ==> key(s[j]) != id
    requires i < |s| ==> key(s[i]) == id
    ensures IndexOf(s, key, id) == i
  {
  }

  lemma FindOther<T, K>(s: seq<T>, key: T -> K, i: nat, id: K)
    requires i < |s| && id != key(s[i])
    ensures Find(RemoveAt(s, i), key, id) == Find(s, key, id)
  {
    var rest, n := RemoveAt(s, i), IndexOf(s, key, id);
    assert forall j :: 0 <= j < |rest| ==> rest[j] == s[if j < i then j else j + 1];
    IndexIs(rest, key, id, if n < i then n else n - 1);
  }

  lemma FindRemove<T, K>(s: seq<T>, key: T -> K, i: nat, id: K)
    requires Unique(s, key) && i < |s|
    ensures Unique(RemoveAt(s, i), key)
    ensures Find(RemoveAt(s, i), key, id) == if id == key(s[i]) then None else Find(s, key, id)
  {
    UniqueRemove(s, key, i);
    if id != key(s[i]) {
      FindOther(s, key, i, id);
    } else {
      OthersDiffer(s, key, i);
    }
  }

  lemma {:induction false} WithoutNothing<T, K>(s: seq<T>, key: T -> K, id: K)
    requires forall x :: x in s ==> key(x) != id
    ensures Without(s, key, id) == s
  {
    if s != [] {
      assert s[0] in s && forall x :: x in s[1..] ==> x in s;
      WithoutNothing(s[1..], key, id);
    }
  }

  /** Exactly one record, between two stretches that do not have the key, goes. */
  lemma {:induction false} WithoutOnly<T, K>(left: seq<T>, x: T, right: seq<T>, key: T -> K, id: K)
    requires forall y :: y in left || y in right ==> key(y) != id
    requires key(x) == id
    ensures Without(left + [x] + right, key, id) == left + right
  {
    var s := left + [x] + right;
    if left == [] {
      assert s[0] == x && s[1..] == right;
      WithoutNothing(right, key, id);
      assert left + right == right;
    } else {
      assert left[0] in left && forall y :: y in left[1..] ==> y in left;
      WithoutOnly(left[1..], x, right, key, id);
      assert s[0] == left[0] && s[1..] == left[1..] + [x] + right;
      assert left + right == [left[0]] + (left[1..] + right);
    }
  }

  lemma OthersDiffer<T, K>(s: seq<T>, key: T -> K, i: nat)
    requires Unique(s, key) && i < |s|
    ensures forall y :: y in s[..i] || y in s[i + 1..] ==> key(y) != key(s[i])
  {
    forall y | y in s[..i]
      ensures key(y) != key(s[i])
    {
      var j :| 0 <= j < i && s[j] == y;
    }
    forall y | y in s[i + 1..]
      ensures key(y) != key(s[i])
    {
      var j :| i < j < |s| && s[j] == y;
    }
  }

  lemma WithoutAt<T, K>(s: seq<T>, key: T -> K, i: nat)
    requires Unique(s, key) && i < |s|
    ensures Without(s, key, key(s[i])) == RemoveAt(s, i)
  {
    var left, x, right := s[..i], s[i], s[i + 1..];
    OthersDiffer(s, key, i);
    WithoutOnly(left, x, right, key, key(x));
    assert left + [x] + right == s;
  }

  /** On a list with unique keys removing all records with a key removes at most one. */
  lemma WithoutIsRemoveAt<T, K>(s: seq<T>, key: T -> K, id: K)
    requires Unique(s, key)
    ensures Without(s, key, id) == var i := IndexOf(s, key, id); if i < |s| then RemoveAt(s, i) else s
  {
    var i := IndexOf(s, key, id);
    if i < |s| {
      WithoutAt(s, key, i);
    } else {
      WithoutNothing(s, key, id);
    }
  }

  /** One round of a loop that copies what does not have the key. */
  lemma WithoutStep<T, K>(kept: seq<T>, s: seq<T>, key: T -> K, id: K, i: nat)
    requires i < |s|
    ensures kept + Without(s[i..], key, id) == (if key(s[i]) == id then kept else kept + [s[i]]) + Without(s[i + 1..], key, id)
  {
    assert s[i..][0] == s[i] && s[i..][1..] == s[i + 1..];
  }

  lemma FindWithout<T, K>(s: seq<T>, key: T -> K, gone: K, id: K)
    requires Unique(s, key)
    ensures Unique(Without(s, key, gone), key)
    ensures Find(Without(s, key, gone), key, id) == if id == gone then None else Find(s, key, id)
  {
    WithoutIsRemoveAt(s, key, gone);
    var i := IndexOf(s, key, gone);
    if i < |s| {
      FindRemove(s, key, i, id);
    }
  }
}
