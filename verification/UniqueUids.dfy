/**
  A table with an id per row and a unique index on uids. Upserts resolve a conflict of ids
  alone, so one is refused when a row under another id still holds its uid, and with it the
  whole transaction.
 */
module UniqueUids {
  import opened KeyedList

  datatype Key = Key(id: Id, uid: nat)

  predicate Free(m: map<Id, nat>, k: Key) {
    forall id :: id in m && id != k.id ==> m[id] != k.uid
  }

  /** The table after upserts one after another. */
  function Written(m: map<Id, nat>, keys: seq<Key>): map<Id, nat>
    decreases |keys|
  {
    if keys == [] then m else Written(m, keys[..|keys| - 1])[keys[|keys| - 1].id := keys[|keys| - 1].uid]
  }

  /** None of them is refused. */
  predicate Fits(m: map<Id, nat>, keys: seq<Key>)
    decreases |keys|
  {
    keys == [] || (Fits(m, keys[..|keys| - 1]) && Free(Written(m, keys[..|keys| - 1]), keys[|keys| - 1]))
  }

  function KeyId(k: Key): Id { k.id }

  function KeyUid(k: Key): nat { k.uid }

  ghost predicate Distinct(keys: seq<Key>) {
    Unique(keys, KeyId) && Unique(keys, KeyUid)
  }

  /** A row under another id holds the uid of a key, and no earlier key rewrites it. */
  predicate Blocks(m: map<Id, nat>, keys: seq<Key>, i: nat, id: Id)
    requires i < |keys|
  {
    id in m && id != keys[i].id && m[id] == keys[i].uid && Find(keys[..i], KeyId, id).None?
  }

  ghost predicate Blocked(m: map<Id, nat>, keys: seq<Key>) {
    exists i, id :: 0 <= i < |keys| && Blocks(m, keys, i, id)
  }

  lemma {:induction false} WrittenIs(m: map<Id, nat>, keys: seq<Key>, id: Id)
    requires Unique(keys, KeyId)
    ensures
      match Find(keys, KeyId, id)
      case None => (id in Written(m, keys) <==> id in m) && (id in m ==> Written(m, keys)[id] == m[id])
      case Some(k) => id in Written(m, keys) && Written(m, keys)[id] == k.uid
    decreases |keys|
  {
    if keys != [] {
      var init, last := keys[..|keys| - 1], keys[|keys| - 1];
      assert keys == init + [last];
      SnocNew(init, KeyId, last);
      WrittenIs(m, init, id);
      FindAppend(init, KeyId, last, id);
    }
  }

  /** When the last key is written, its uid is held by a row under another id exactly when that row blocks it. */
  lemma LastHeldIff(m: map<Id, nat>, init: seq<Key>, last: Key, id: Id)
    requires Distinct(init + [last]) && id != last.id
    ensures id in Written(m, init) && Written(m, init)[id] == last.uid <==> Blocks(m, init + [last], |init|, id)
  {
    SnocNew(init, KeyId, last);
    SnocNew(init, KeyUid, last);
    WrittenIs(m, init, id);
    assert (init + [last])[..|init|] == init;
  }

  lemma LastFreeIff(m: map<Id, nat>, init: seq<Key>, last: Key)
    requires Distinct(init + [last])
    ensures Free(Written(m, init), last) <==> !exists id :: Blocks(m, init + [last], |init|, id)
  {
    forall id | id != last.id
      ensures id in Written(m, init) && Written(m, init)[id] == last.uid <==> Blocks(m, init + [last], |init|, id)
    {
      LastHeldIff(m, init, last, id);
    }
  }

  lemma EarlierBlocks(m: map<Id, nat>, init: seq<Key>, last: Key, i: nat, id: Id)
    requires i < |init|
    ensures Blocks(m, init + [last], i, id) <==> Blocks(m, init, i, id)
  {
    assert (init + [last])[..i] == init[..i];
  }

  lemma BlockedSnoc(m: map<Id, nat>, init: seq<Key>, last: Key)
    ensures Blocked(m, init + [last]) <==> Blocked(m, init) || exists id :: Blocks(m, init + [last], |init|, id)
  {
    var keys := init + [last];
    forall i, id | 0 <= i < |init|
      ensures Blocks(m, keys, i, id) <==> Blocks(m, init, i, id)
    {
      EarlierBlocks(m, init, last, i, id);
    }
    if Blocked(m, init) {
      var i, id :| 0 <= i < |init| && Blocks(m, init, i, id);
      assert Blocks(m, keys, i, id);
    }
    if Blocked(m, keys) {
      var i, id :| 0 <= i < |keys| && Blocks(m, keys, i, id);
      assert i < |init| ==> Blocks(m, init, i, id);
    }
  }

  /** The transaction goes through exactly when no row blocks any of its keys. */
  lemma {:induction false} FitsIff(m: map<Id, nat>, keys: seq<Key>)
    requires Distinct(keys)
    ensures Fits(m, keys) <==> !Blocked(m, keys)
    decreases |keys|
  {
    if keys != [] {
      var init, last := keys[..|keys| - 1], keys[|keys| - 1];
      assert keys == init + [last];
      SnocNew(init, KeyId, last);
      SnocNew(init, KeyUid, last);
      FitsIff(m, init);
      LastFreeIff(m, init, last);
      BlockedSnoc(m, init, last);
    }
  }

  /** Rows that hold the uids their ids are to get block nothing. */
  lemma MatchingFits(m: map<Id, nat>, keys: seq<Key>)
    requires Distinct(keys) && forall id :: id in m ==> Key(id, m[id]) in keys
    ensures Fits(m, keys)
  {
    FitsIff(m, keys);
    forall i, id | 0 <= i < |keys| && id in m && m[id] == keys[i].uid
      ensures id == keys[i].id
    {
      SameKey(keys, keys[i], Key(id, m[id]));
    }
  }

  lemma SameKey(keys: seq<Key>, a: Key, b: Key)
    requires Unique(keys, KeyUid) && a in keys && b in keys && a.uid == b.uid
    ensures a == b
  {
    FindMember(keys, KeyUid, a);
    FindMember(keys, KeyUid, b);
  }

  /** When it does not go through, some row has another uid than its id is to get. */
  lemma BlockedMismatches(m: map<Id, nat>, keys: seq<Key>) returns (id: Id)
    requires Distinct(keys) && !Fits(m, keys)
    ensures id in m && Key(id, m[id]) !in keys
  {
    if forall id :: id in m ==> Key(id, m[id]) in keys {
      MatchingFits(m, keys);
    }
    id :| id in m && Key(id, m[id]) !in keys;
  }
}
