/**
 The prefix iterator of the key-value adapter (src/metadata/mace_adapter.rs):
 every call opens a fresh view of the bucket and seeks past the last key it returned.
 */
module KvIterator {
  import opened Bytes

  type View = map<Bytes, Bytes>

  predicate HasPrefix(k: Bytes, prefix: Bytes) {
    prefix <= k
  }

  // ------------------------------------------------------------------
  // Facts about the order
  // ------------------------------------------------------------------

  /** `next_key`: append a zero byte. */
  function NextKey(k: Bytes): Bytes {
    k + [0]
  }

  /** The appended zero byte gives the immediate successor: exactly the greater keys are at or after it. */
  lemma {:induction false} NextKeyIsSuccessor(k: Bytes, x: Bytes)
    ensures Lt(k, x) <==> !Lt(x, NextKey(k))
    decreases |k|
  {
    if k == [] {
      if x != [] { assert x[0] == 0 ==> Lt(x[1..], []) == false; }
    } else if x != [] {
      assert NextKey(k)[1..] == NextKey(k[1..]);
      NextKeyIsSuccessor(k[1..], x[1..]);
    }
  }

  /** A key with the prefix is never before the prefix. */
  lemma {:induction false} PrefixIsFirst(prefix: Bytes, x: Bytes)
    requires HasPrefix(x, prefix)
    ensures !Lt(x, prefix)
    decreases |prefix|
  {
    if prefix != [] { PrefixIsFirst(prefix[1..], x[1..]); }
  }

  /** The keys with a prefix are contiguous: whatever lies between the prefix and such a key has the prefix too. */
  lemma {:induction false} PrefixContiguous(prefix: Bytes, x: Bytes, y: Bytes)
    requires HasPrefix(y, prefix) && !Lt(x, prefix) && !Lt(y, x)
    ensures HasPrefix(x, prefix)
    decreases |prefix|
  {
    if prefix != [] {
      assert x != [] && x[0] == prefix[0] == y[0];
      PrefixContiguous(prefix[1..], x[1..], y[1..]);
      assert x == [x[0]] + x[1..] && prefix == [prefix[0]] + prefix[1..];
    }
  }

  // ------------------------------------------------------------------
  // One step
  // ------------------------------------------------------------------

  /** `k` is the first key of the view at or after `from`. */
  predicate IsFirst(view: View, from: Bytes, k: Bytes) {
    k in view && !Lt(k, from) && forall x :: x in view && !Lt(x, from) ==> !Lt(x, k)
  }

  predicate NoneFrom(view: View, from: Bytes) {
    forall x :: x in view ==> Lt(x, from)
  }

  lemma SeekExists(view: View, from: Bytes)
    requires !NoneFrom(view, from)
    ensures exists k :: k in view && IsFirst(view, from, k)
  {
    var s := set x | x in view && !Lt(x, from);
    var y :| y in view && !Lt(y, from);
    assert y in s;
    FirstKeyExists(s);
    var m :| m in s && forall x :: x in s ==> !Lt(x, m);
    assert IsFirst(view, from, m);
  }

  /** `seek(from)` followed by one step of the engine's cursor. */
  method Seek(view: View, from: Bytes) returns (r: Option<Bytes>)
    ensures r.None? ==> NoneFrom(view, from)
    ensures r.Some? ==> IsFirst(view, from, r.value)
  {
    if NoneFrom(view, from) { return None; }
    SeekExists(view, from);
    var k :| k in view && IsFirst(view, from, k);
    return Some(k);
  }

  /** Where the next call seeks: the prefix at first, afterwards the successor of the last key. */
  function SeekFrom(prefix: Bytes, last: Option<Bytes>): Bytes {
    if last.None? then prefix else NextKey(last.value)
  }

  /** The keys a call may return: they have the prefix and come after the last one. */
  predicate Candidate(prefix: Bytes, last: Option<Bytes>, k: Bytes) {
    HasPrefix(k, prefix) && (last.Some? ==> Lt(last.value, k))
  }

  /** `k` is the first candidate of the view. */
  predicate NextOf(view: View, prefix: Bytes, last: Option<Bytes>, k: Bytes) {
    k in view && Candidate(prefix, last, k) && forall x :: x in view && Candidate(prefix, last, x) ==> !Lt(x, k)
  }

  predicate Exhausted(view: View, prefix: Bytes, last: Option<Bytes>) {
    forall x :: x in view ==> !Candidate(prefix, last, x)
  }

  /** Seeking and testing the prefix of one key finds the first candidate, or proves there is none. */
  lemma SeekFindsNext(view: View, prefix: Bytes, last: Option<Bytes>, k: Bytes)
    requires last.Some? ==> HasPrefix(last.value, prefix)
    requires IsFirst(view, SeekFrom(prefix, last), k)
    ensures HasPrefix(k, prefix) ==> NextOf(view, prefix, last, k)
    ensures !HasPrefix(k, prefix) ==> Exhausted(view, prefix, last)
  {
    forall x ensures Candidate(prefix, last, x) ==> !Lt(x, SeekFrom(prefix, last)) {
      CandidateIsAfter(prefix, last, x);
    }
    if last.Some? { NextKeyIsSuccessor(last.value, k); }
    if !HasPrefix(k, prefix) {
      forall x | x in view ensures !Candidate(prefix, last, x) {
        if Candidate(prefix, last, x) {
          AfterSeekPoint(prefix, last, k);
          PrefixContiguous(prefix, k, x);
        }
      }
    }
  }

  lemma CandidateIsAfter(prefix: Bytes, last: Option<Bytes>, x: Bytes)
    ensures Candidate(prefix, last, x) ==> !Lt(x, SeekFrom(prefix, last))
  {
    if Candidate(prefix, last, x) {
      if last.None? { PrefixIsFirst(prefix, x); } else { NextKeyIsSuccessor(last.value, x); }
    }
  }

  lemma AfterSeekPoint(prefix: Bytes, last: Option<Bytes>, k: Bytes)
    requires last.Some? ==> HasPrefix(last.value, prefix)
    requires !Lt(k, SeekFrom(prefix, last))
    ensures !Lt(k, prefix)
  {
    if last.Some? {
      PrefixIsFirst(prefix, last.value);
      NextKeyIsSuccessor(last.value, k);
      LtAsymmetric(last.value, k);
      LeTransitive(prefix, last.value, k);
    }
  }

  class MaceKVIter {
    const prefix: Bytes
    var lastKey: Option<Bytes>
    var currentKey: Bytes
    var currentValue: Bytes

    ghost predicate Valid()
      reads this
    {
      lastKey.Some? ==> HasPrefix(lastKey.value, prefix)
    }

    constructor (prefix: Bytes)
      ensures Valid() && this.prefix == prefix && lastKey == None
    {
      this.prefix := prefix;
      lastKey, currentKey, currentValue := None, [], [];
    }

    /** `advance` (src/metadata/mace_adapter.rs:377); a view that cannot be opened counts as the end. */
    method Advance(bucket: Option<View>, seekKey: Bytes) returns (found: bool)
      modifies this`currentKey, this`currentValue
      ensures found ==> bucket.Some? && IsFirst(bucket.value, seekKey, currentKey) && HasPrefix(currentKey, prefix)
      ensures found ==> currentValue == bucket.value[currentKey]
      ensures !found && bucket.Some? ==>
                NoneFrom(bucket.value, seekKey) || exists k :: IsFirst(bucket.value, seekKey, k) && !HasPrefix(k, prefix)
      ensures !found ==> currentKey == old(currentKey) && currentValue == old(currentValue)
    {
      if bucket.None? { return false; }
      var k := Seek(bucket.value, seekKey);
      if k.Some? && prefix <= k.value {
        currentKey := k.value;
        currentValue := bucket.value[k.value];
        return true;
      }
      return false;
    }

    /** `next` (src/metadata/mace_adapter.rs:398). */
    method Next(bucket: Option<View>) returns (found: bool)
      requires Valid()
      modifies this
      ensures Valid()
      ensures found ==> bucket.Some? && NextOf(bucket.value, prefix, old(lastKey), currentKey)
      ensures found ==> lastKey == Some(currentKey) && currentValue == bucket.value[currentKey]
      ensures !found ==> lastKey == old(lastKey) && currentKey == old(currentKey) && currentValue == old(currentValue)
      ensures !found && bucket.Some? ==> Exhausted(bucket.value, prefix, old(lastKey))
    {
      found := Advance(bucket, SeekFrom(prefix, lastKey));
      if found {
        SeekFindsNext(bucket.value, prefix, lastKey, currentKey);
        lastKey := Some(currentKey);
      } else if bucket.Some? {
        NothingLeft(bucket.value, prefix, lastKey);
      }
    }

    /** `seek` (src/metadata/mace_adapter.rs:412): forgets the last key and moves the current one. */
    method SeekTo(bucket: Option<View>, key: Bytes)
      modifies this
      ensures lastKey == None && Valid()
      ensures if bucket.Some? && exists k :: IsFirst(bucket.value, key, k) && HasPrefix(k, prefix)
              then IsFirst(bucket.value, key, currentKey) && HasPrefix(currentKey, prefix) && currentValue == bucket.value[currentKey]
              else currentKey == old(currentKey) && currentValue == old(currentValue)
    {
      lastKey := None;
      var found := Advance(bucket, key);
      if !found && bucket.Some? { FirstIsUnprefixed(bucket.value, key, prefix); }
    }
  }

  lemma FirstIsUnprefixed(view: View, from: Bytes, prefix: Bytes)
    requires NoneFrom(view, from) || exists k :: IsFirst(view, from, k) && !HasPrefix(k, prefix)
    ensures forall k :: IsFirst(view, from, k) ==> !HasPrefix(k, prefix)
  {
    if q :| IsFirst(view, from, q) && !HasPrefix(q, prefix) {
      forall k | IsFirst(view, from, k) ensures k == q { LtTotal(k, q); }
    }
  }

  lemma NothingLeft(view: View, prefix: Bytes, last: Option<Bytes>)
    requires last.Some? ==> HasPrefix(last.value, prefix)
    requires NoneFrom(view, SeekFrom(prefix, last)) || exists k :: IsFirst(view, SeekFrom(prefix, last), k) && !HasPrefix(k, prefix)
    ensures Exhausted(view, prefix, last)
  {
    if k :| IsFirst(view, SeekFrom(prefix, last), k) && !HasPrefix(k, prefix) {
      SeekFindsNext(view, prefix, last, k);
    } else {
      forall x | x in view ensures !Candidate(prefix, last, x) { CandidateIsAfter(prefix, last, x); }
    }
  }

  // ------------------------------------------------------------------
  // A whole iteration over a changing bucket
  // ------------------------------------------------------------------

  predicate Ascending(keys: seq<Bytes>) {
    forall i, j :: 0 <= i < j < |keys| ==> Lt(keys[i], keys[j])
  }

  /** Key and value i are an entry of the bucket as call i saw it. */
  predicate Entries(prefix: Bytes, views: seq<Option<View>>, keys: seq<Bytes>, values: seq<Bytes>) {
    && |keys| == |values| <= |views|
    && forall i :: 0 <= i < |keys| ==> views[i].Some? && HasPrefix(keys[i], prefix)
                                       && keys[i] in views[i].value && values[i] == views[i].value[keys[i]]
  }

  /** `k` is in each of the first n views that could be opened. */
  predicate Steady(views: seq<Option<View>>, n: nat, k: Bytes)
    requires n <= |views|
  {
    forall i :: 0 <= i < n && views[i].Some? ==> k in views[i].value
  }

  /** Every matching key that stayed in the bucket and is not after `last` has been returned. */
  ghost predicate CompleteUpTo(prefix: Bytes, views: seq<Option<View>>, keys: seq<Bytes>, last: Option<Bytes>)
    requires |keys| <= |views|
  {
    forall k :: HasPrefix(k, prefix) && Steady(views, |keys|, k) && !Candidate(prefix, last, k) ==> k in keys
  }

  /**
   A whole iteration.  The bucket may change between calls: call i sees views[i], or None if the view could
   not be opened.  Keys come out in strictly ascending order, hence none twice; and when the end is reached
   without a view error, every matching key that was there throughout has been returned.
   */
  method Iterate(prefix: Bytes, views: seq<Option<View>>) returns (keys: seq<Bytes>, values: seq<Bytes>, exhausted: bool)
    ensures Entries(prefix, views, keys, values) && Ascending(keys)
    ensures exhausted <==> |keys| < |views|
    ensures exhausted && views[|keys|].Some? ==>
              forall k :: HasPrefix(k, prefix) && Steady(views, |keys| + 1, k) ==> k in keys
  {
    hide Entries;
    hide Ascending;
    hide CompleteUpTo;
    hide NextOf;
    hide Steady;
    hide HasPrefix;
    var iter := new MaceKVIter(prefix);
    keys, values, exhausted := [], [], false;
    NothingYet(prefix, views);
    while |keys| < |views|
      invariant fresh(iter) && iter.Valid() && iter.prefix == prefix && |keys| == |values| <= |views|
      invariant iter.lastKey == if keys == [] then None else Some(keys[|keys| - 1])
      invariant Entries(prefix, views, keys, values) && Ascending(keys) && CompleteUpTo(prefix, views, keys, iter.lastKey)
      invariant !exhausted
      decreases |views| - |keys|
    {
      ghost var last := iter.lastKey;
      var found := iter.Next(views[|keys|]);
      if !found {
        if views[|keys|].Some? { AllReturned(prefix, views, keys, last); }
        return keys, values, true;
      }
      StepComplete(prefix, views, keys, values, last, iter.currentKey);
      keys, values := keys + [iter.currentKey], values + [iter.currentValue];
    }
  }

  lemma NothingYet(prefix: Bytes, views: seq<Option<View>>)
    ensures Entries(prefix, views, [], []) && Ascending([]) && CompleteUpTo(prefix, views, [], None)
  {
  }

  lemma AllReturned(prefix: Bytes, views: seq<Option<View>>, keys: seq<Bytes>, last: Option<Bytes>)
    requires |keys| < |views| && views[|keys|].Some? && Exhausted(views[|keys|].value, prefix, last)
    requires CompleteUpTo(prefix, views, keys, last)
    ensures forall k :: HasPrefix(k, prefix) && Steady(views, |keys| + 1, k) ==> k in keys
  {
  }

  lemma StepComplete(prefix: Bytes, views: seq<Option<View>>, keys: seq<Bytes>, values: seq<Bytes>, last: Option<Bytes>, next: Bytes)
    requires |keys| < |views| && Ascending(keys) && last == if keys == [] then None else Some(keys[|keys| - 1])
    requires views[|keys|].Some? && NextOf(views[|keys|].value, prefix, last, next)
    requires CompleteUpTo(prefix, views, keys, last) && Entries(prefix, views, keys, values)
    ensures Ascending(keys + [next]) && CompleteUpTo(prefix, views, keys + [next], Some(next))
    ensures next in views[|keys|].value && Entries(prefix, views, keys + [next], values + [views[|keys|].value[next]])
  {
    hide CompleteUpTo;
    hide Lt;
    forall i | 0 <= i < |keys| ensures Lt(keys[i], next) {
      if i < |keys| - 1 { LtTransitive(keys[i], keys[|keys| - 1], next); }
    }
    StillComplete(prefix, views, keys, last, next);
  }

  lemma StillComplete(prefix: Bytes, views: seq<Option<View>>, keys: seq<Bytes>, last: Option<Bytes>, next: Bytes)
    requires |keys| < |views| && views[|keys|].Some? && NextOf(views[|keys|].value, prefix, last, next)
    requires CompleteUpTo(prefix, views, keys, last)
    ensures CompleteUpTo(prefix, views, keys + [next], Some(next))
  {
    hide Lt;
    hide HasPrefix;
    var n := |keys|;
    forall k | HasPrefix(k, prefix) && Steady(views, n + 1, k) && !Candidate(prefix, Some(next), k) ensures k in keys + [next] {
      assert Steady(views, n, k);
      assert k in views[n].value;
      if Candidate(prefix, last, k) {
        LtTotal(k, next);
        assert k == next;
      }
    }
  }

  // ------------------------------------------------------------------
  // seek
  // ------------------------------------------------------------------

  /** What the iterator interface promises of the first `next` after `seek(key)`: the first matching key at or after `key`. */
  predicate SeekPromise(view: View, prefix: Bytes, key: Bytes, k: Bytes) {
    k in view && HasPrefix(k, prefix) && !Lt(k, key) && forall x :: x in view && HasPrefix(x, prefix) && !Lt(x, key) ==> !Lt(x, k)
  }

  /** `seek` does not position `next`, which starts over at the prefix: the promise is kept exactly when no matching key is before `key`. */
  lemma SeekHonouredIff(view: View, prefix: Bytes, key: Bytes, k: Bytes)
    requires NextOf(view, prefix, None, k)
    ensures SeekPromise(view, prefix, key, k) <==> forall x :: x in view && HasPrefix(x, prefix) ==> !Lt(x, key)
  {
    if SeekPromise(view, prefix, key, k) {
      forall x | x in view && HasPrefix(x, prefix) ensures !Lt(x, key) {
        assert Candidate(prefix, None, x);
        LeTransitive(key, k, x);
      }
    }
  }

  /**
   `seek` then `next` on one view: the answer is the first matching key of the whole bucket, so it is what
   `seek` promises exactly when no matching key is before `key`.
   */
  method SeekThenNext(view: View, prefix: Bytes, key: Bytes) returns (r: Option<Bytes>)
    ensures r.None? <==> Exhausted(view, prefix, None)
    ensures r.Some? ==> NextOf(view, prefix, None, r.value)
    ensures r.Some? ==> (SeekPromise(view, prefix, key, r.value) <==> forall x :: x in view && HasPrefix(x, prefix) ==> !Lt(x, key))
  {
    var iter := new MaceKVIter(prefix);
    iter.SeekTo(Some(view), key);
    var found := iter.Next(Some(view));
    if found {
      SeekHonouredIff(view, prefix, key, iter.currentKey);
      r := Some(iter.currentKey);
    } else {
      r := None;
    }
  }
}
