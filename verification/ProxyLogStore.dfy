/**
  The in-memory ring of recent log entries and the bounded channel in front of the
  persistence service. `added` is the plain log of every entry added since the last
  clear; the ring must agree with it, including when the 32-bit head counter wraps.
 */
module ProxyLogStore {
  import opened Arithmetic
  import opened Wrappers
  import opened Bits

  datatype StoreError = NegativeListCapacity

  datatype Snapshot<T> = Snapshot(entries: seq<T>, evicted: nat, dropped: nat, size: int, capacity: nat)

  /** The last n entries of a log, newest first. */
  function Newest<T>(log: seq<T>, n: nat): (s: seq<T>)
    requires n <= |log|
    ensures |s| == n && forall i :: 0 <= i < n ==> s[i] == log[|log| - 1 - i]
  {
    seq(n, i requires 0 <= i < n => log[|log| - 1 - i])
  }

  /** How often the eviction counter was bumped after n adds: whenever the wrapped head exceeded the length. */
  function Evictions(n: nat, length: nat): nat {
    if n == 0 then 0 else Evictions(n - 1, length) + if Wrap32(n) > length then 1 else 0
  }

  /** While the head has not wrapped, exactly the overwritten entries are counted. */
  lemma {:induction false} EvictionsAre(n: nat, length: nat)
    requires n < TWO_31
    ensures Evictions(n, length) == Max(0, n - length)
  {
    if n > 0 {
      EvictionsAre(n - 1, length);
    }
  }

  /** Two indices that agree modulo 2^32 share their slot in a ring whose length divides 2^32. */
  lemma SameSlot(x: int, y: nat, k: nat)
    requires k <= 32 && -TWO_31 <= x < TWO_31 && x == Wrap32(y)
    ensures And(Unsigned32(x), Pow2(k) - 1) == y % Pow2(k)
  {
    var u, p := Unsigned32(x), Pow2(k);
    MaskIsModulo(u, k);
    LargePowers();
    Pow2Add(k, 32 - k);
    assert u == y % TWO_32;
    ModOfMod(y, p, Pow2(32 - k));
  }

  lemma ModOfMod(y: nat, p: nat, m: nat)
    requires p > 0 && m > 0
    ensures p * m > 0 && (y % (p * m)) % p == y % p
  {
    var q, r := y / (p * m), y % (p * m);
    assert y == q * (p * m) + r;
    assert r == (r / p) * p + r % p;
    assert y == (q * m + r / p) * p + r % p by {
      assert q * (p * m) == (q * m) * p;
    }
    ModUnique(y, p, q * m + r / p, r % p);
  }

  lemma WrapNext(n: nat)
    ensures Wrap32(Wrap32(n) + 1) == Wrap32(n + 1)
    ensures Wrap32(Wrap32(n + 1) - 1) == Wrap32(n)
  {
  }

  /** A non-negative head never exceeds the number of adds, and smaller offsets wrap alike. */
  lemma WrapBelow(n: nat, i: nat)
    requires i < Wrap32(n)
    ensures Wrap32(n) <= n && Wrap32(n - 1 - i) == Wrap32(n) - 1 - i
  {
  }

  /** Distinct entries of the last `length` ones sit in distinct slots. */
  lemma DistinctSlots(i: nat, j: nat, length: nat)
    requires length > 0 && i < j < i + length
    ensures i % length != j % length
  {
    var a, b := i / length, j / length;
    var d := b - a;
    assert i == a * length + i % length && j == b * length + j % length;
    assert d * length == b * length - a * length;
    assert d >= 1 ==> d * length >= length;
    assert d <= 0 ==> d * length <= 0;
  }

  class ProxyLogStore<T> {
    const buffer: array<Option<T>>
    const bufferLength: int
    const bufferMask: int
    var head: int
    var evictedCount: nat
    var droppedCount: nat
    const channelCapacity: nat
    var channel: seq<T>
    var completed: bool
    ghost var added: seq<T>

    ghost predicate Valid()
      reads this, buffer
    {
      && (exists k: nat :: 4 <= k <= 30 && bufferLength == Pow2(k))
      && bufferMask == bufferLength - 1
      && buffer.Length == bufferLength >= 16
      && head == Wrap32(|added|)
      && evictedCount == Evictions(|added|, bufferLength)
      && (forall i {:trigger added[i]} :: Max(0, |added| - bufferLength) <= i < |added| ==>
          buffer[i % bufferLength] == Some(added[i]))
      && 1 <= channelCapacity && |channel| <= channelCapacity
    }

    /** A larger request makes the array length negative and the constructor throw. */
    constructor (capacity: int, channelCapacity: nat)
      requires -TWO_31 <= capacity <= 0x4000_0000 && channelCapacity >= 1
      ensures Valid() && added == [] && channel == [] && droppedCount == 0 && !completed
      ensures IsLeastPowerOf2(bufferLength, Max(16, capacity))
      ensures this.channelCapacity == channelCapacity
      ensures fresh(buffer)
    {
      var actual := NextPowerOf2(Max(16, capacity));
      ghost var k: nat :| actual == Pow2(k);
      LargePowers();
      Pow2Reflects(3, k);
      Pow2ReflectsAtMost(k, 30, actual, Max(16, capacity));
      buffer := new Option<T>[actual](_ => None);
      bufferLength, bufferMask := actual, actual - 1;
      head, evictedCount, droppedCount := 0, 0, 0;
      this.channelCapacity, channel, completed := channelCapacity, [], false;
      added := [];
    }

    method FastModulo(index: int) returns (slot: int)
      requires Valid() && -TWO_31 <= index < TWO_31
      ensures forall y: nat :: Wrap32(y) == index ==> slot == y % bufferLength
      ensures 0 <= slot < bufferLength
    {
      slot := And(Unsigned32(index), bufferMask);
      ghost var k: nat :| 4 <= k <= 30 && bufferLength == Pow2(k);
      MaskIsModulo(Unsigned32(index), k);
      forall y: nat | Wrap32(y) == index
        ensures slot == y % bufferLength
      {
        SameSlot(index, y, k);
      }
    }

    /** The ring takes every entry; the channel takes it unless it is full or completed. */
    method Add(entry: T, persistenceEnabled: bool)
      requires Valid()
      modifies this, buffer
      ensures Valid()
      ensures added == old(added) + [entry]
      ensures completed == old(completed)
      ensures
        var accepted := persistenceEnabled && !completed && |old(channel)| < channelCapacity;
        && channel == (if accepted then old(channel) + [entry] else old(channel))
        && droppedCount == old(droppedCount) + (if persistenceEnabled && !accepted then 1 else 0)
    {
      head := Wrap32(head + 1);
      WrapNext(|added|);
      var slot := FastModuloOfNew();
      buffer[slot] := Some(entry);
      added := added + [entry];
      if head > bufferLength {
        evictedCount := evictedCount + 1;
      }
      forall i | Max(0, |added| - bufferLength) <= i < |added|
        ensures buffer[i % bufferLength] == Some(added[i])
      {
        if i < |added| - 1 {
          DistinctSlots(i, |added| - 1, bufferLength);
          assert added[i] == old(added)[i];
          assert buffer[i % bufferLength] == old(buffer[i % bufferLength]);
        }
      }
      if persistenceEnabled {
        if !completed && |channel| < channelCapacity {
          channel := channel + [entry];
        } else {
          droppedCount := droppedCount + 1;
        }
      }
    }

    /** The slot of the entry being added: FastModulo(head - 1), where the subtraction wraps. */
    method FastModuloOfNew() returns (slot: int)
      requires (exists k: nat :: 4 <= k <= 30 && bufferLength == Pow2(k)) && bufferMask == bufferLength - 1
      requires head == Wrap32(|added| + 1)
      ensures slot == |added| % bufferLength
      ensures bufferLength > 0
    {
      var index := Wrap32(head - 1);
      slot := And(Unsigned32(index), bufferMask);
      WrapNext(|added|);
      ghost var k: nat :| 4 <= k <= 30 && bufferLength == Pow2(k);
      SameSlot(index, |added|, k);
    }

    /**
      For fewer than 2^31 adds since the last clear the answer is the newest part of the log.
      In general the wrapped counter decides: the call throws exactly when it is negative.
     */
    method GetRecent(count: int) returns (r: Result<Snapshot<T>, StoreError>)
      requires Valid()
      ensures |added| < TWO_31 ==>
                r == Success(Snapshot(Newest(added, Min(Min(|added|, bufferLength), Max(1, count))),
                                      Max(0, |added| - bufferLength), droppedCount,
                                      Min(|added|, bufferLength), bufferLength))
      ensures r.Failure? <==> Wrap32(|added|) < 0
      ensures r.Success? ==>
                && Wrap32(|added|) <= |added|
                && r.value.entries == Newest(added, Min(Min(Wrap32(|added|), bufferLength), Max(1, count)))
    {
      var actualCount := Min(head, bufferLength);
      var take := Min(actualCount, Max(1, count));
      if take < 0 {
        return Failure(NegativeListCapacity);
      }
      var entries: seq<T> := [];
      var i := 0;
      while i < take
        invariant 0 <= i <= take
        invariant entries == Newest(added, i)
      {
        var slot := FastModulo(head - 1 - i);
        WrapBelow(|added|, i);
        ghost var y := |added| - 1 - i;
        assert slot == y % bufferLength && buffer[slot] == Some(added[y]);
        entries := entries + [buffer[slot].value];
        i := i + 1;
      }
      if |added| < TWO_31 {
        EvictionsAre(|added|, bufferLength);
      }
      r := Success(Snapshot(entries, evictedCount, droppedCount, actualCount, bufferLength));
    }

    method Clear()
      requires Valid()
      modifies this
      ensures Valid() && added == []
      ensures channel == old(channel) && droppedCount == old(droppedCount) && completed == old(completed)
    {
      head, evictedCount := 0, 0;
      added := [];
    }

    method CompletePersistence()
      requires Valid()
      modifies this`completed
      ensures Valid() && completed
    {
      completed := true;
    }
  }

  lemma Pow2ReflectsAtMost(k: nat, n: nat, p: int, v: int)
    requires p == Pow2(k) && v <= Pow2(n) && IsLeastPowerOf2(p, v)
    ensures k <= n
  {
    assert Pow2(n) >= p;
    if k > n {
      Pow2Monotone(n, k);
    }
  }

  /** After exactly 2^31 adds the wrapped counter is negative, so reading the ring throws. */
  lemma HeadWrapsNegative()
    ensures Wrap32(TWO_31) == -TWO_31
    ensures forall n: nat :: n < TWO_31 ==> Wrap32(n) == n
  {
  }
}
