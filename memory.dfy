/**
 The in-memory backend: a dictionary from keys to bytes, held in a field that
 the store's operations update in place.
 */
module Memory {
  import opened Storage

  /** The abstract value of the store's dictionary. */
  type Store = map<string, Bytes>

  /** The message the in-memory backend gives when asked for a signed URL. */
  const SignedUrlsUnsupported: string := "MemoryStorage does not support signed URLs"

  /** What reading `key` from `s` yields: the stored bytes, or the key-not-found error. */
  function GetResult(s: Store, key: string): Result<Bytes> {
    if key in s then Ok(s[key]) else Err(NoSuchKey(key))
  }

  /** What deleting `key` from `s` reports. */
  function DeleteResult(s: Store, key: string): Result<()> {
    if key in s then Ok(()) else Err(NoSuchKey(key))
  }

  /** The stored keys that begin with `prefix`, as a literal string-prefix test. */
  function ListedKeys(s: Store, prefix: string): set<string> {
    set k | k in s && prefix <= k
  }

  /** The keys named by a listing. */
  function KeysOf(metas: seq<ObjectMeta>): set<string> {
    set m | m in metas :: m.key
  }

  /** No key appears twice in a listing. */
  predicate DistinctKeys(metas: seq<ObjectMeta>) {
    forall i, j :: 0 <= i < j < |metas| ==> metas[i].key != metas[j].key
  }

  /** A duplicate-free listing has exactly as many entries as it names keys. */
  lemma {:induction false} DistinctKeysCount(metas: seq<ObjectMeta>)
    requires DistinctKeys(metas)
    ensures |KeysOf(metas)| == |metas|
  {
    if metas != [] {
      var init, last := metas[..|metas| - 1], metas[|metas| - 1];
      assert DistinctKeys(init) by {
        forall i, j | 0 <= i < j < |init| ensures init[i].key != init[j].key {
          assert init[i] == metas[i] && init[j] == metas[j];
        }
      }
      DistinctKeysCount(init);
      assert metas == init + [last];
      assert KeysOf(metas) == KeysOf(init) + {last.key};
      assert last.key !in KeysOf(init) by {
        forall m | m in init ensures m.key != last.key {
          var i :| 0 <= i < |init| && init[i] == m;
          assert metas[i] == m;
        }
      }
    }
  }

  /** Appending an entry for a new key keeps a listing duplicate-free and adds just that key. */
  lemma AppendKey(metas: seq<ObjectMeta>, m: ObjectMeta)
    requires DistinctKeys(metas) && m.key !in KeysOf(metas)
    ensures DistinctKeys(metas + [m])
    ensures KeysOf(metas + [m]) == KeysOf(metas) + {m.key}
  {
    forall i | 0 <= i < |metas| ensures metas[i].key != m.key {
      assert metas[i] in metas;
    }
    assert forall x :: x in metas + [m] <==> x in metas || x == m;
  }

  /** Settling one more stored key adds it to the listed keys exactly when it has the prefix. */
  lemma ListedStep(s: Store, prefix: string, pending: set<string>, k: string)
    requires pending <= s.Keys && k in pending
    ensures ListedKeys(s, prefix) - (pending - {k})
         == (ListedKeys(s, prefix) - pending) + (if prefix <= k then {k} else {})
  {
  }

  /** Every entry of a listing names one of its keys. */
  lemma KeysOfMembers(metas: seq<ObjectMeta>)
    ensures forall m :: m in metas ==> m.key in KeysOf(metas)
  {
  }

  class MemoryStorage {
    /** The dictionary holding every stored object. */
    var storage: Store

    /** A new store holds nothing. */
    constructor ()
      ensures storage == map[]
    {
      storage := map[];
    }

    /** Stores `data` under `key`, replacing any earlier value; no other key changes. */
    method Put(key: string, data: Bytes)
      modifies this
      ensures storage == old(storage)[key := data]
      ensures key in storage && storage[key] == data
      ensures forall k :: k != key ==> (k in storage <==> k in old(storage))
      ensures forall k :: k != key && k in storage ==> storage[k] == old(storage)[k]
    {
      storage := storage[key := data];
    }

    /** Returns exactly the bytes stored under `key`, or the key-not-found error carrying `key`. */
    method Get(key: string) returns (r: Result<Bytes>)
      ensures r == GetResult(storage, key)
      ensures r.Ok? <==> key in storage
      ensures key in storage ==> r.value == storage[key]
      ensures key !in storage ==> r.error == NoSuchKey(key)
    {
      if key in storage {
        r := Ok(storage[key]);
      } else {
        r := Err(NoSuchKey(key));
      }
    }

    /**
     Removes `key` when it is present; otherwise reports the key-not-found error
     carrying `key` and changes nothing. No other key changes either way.
     */
    method Delete(key: string) returns (r: Result<()>)
      modifies this
      ensures r == DeleteResult(old(storage), key)
      ensures r.Ok? <==> key in old(storage)
      ensures r.Err? ==> r.error == NoSuchKey(key) && storage == old(storage)
      ensures storage == old(storage) - {key}
      ensures key !in storage
    {
      if key in storage {
        storage := storage - {key};
        r := Ok(());
      } else {
        r := Err(NoSuchKey(key));
      }
    }

    /**
     Lists the stored objects whose keys begin with `prefix`: each such key once,
     no other key, in no promised order.
     */
    method List(prefix: string) returns (metas: seq<ObjectMeta>)
      ensures KeysOf(metas) == ListedKeys(storage, prefix)
      ensures DistinctKeys(metas)
      ensures |metas| == |ListedKeys(storage, prefix)|
      ensures forall m :: m in metas ==> m.key in storage && prefix <= m.key
    {
      metas := [];
      var pending := storage.Keys;
      ghost var wanted := ListedKeys(storage, prefix);
      while pending != {}
        invariant pending <= storage.Keys
        invariant DistinctKeys(metas)
        invariant KeysOf(metas) == wanted - pending
        decreases pending
      {
        var k :| k in pending;
        ListedStep(storage, prefix, pending, k);
        if prefix <= k {
          AppendKey(metas, ObjectMeta(k));
          metas := metas + [ObjectMeta(k)];
        }
        pending := pending - {k};
      }
      assert KeysOf(metas) == wanted;
      DistinctKeysCount(metas);
      KeysOfMembers(metas);
    }

    /** The in-memory backend has no signed URLs: whatever the arguments, the call fails. */
    method GenerateSignedUrl(key: string, expiration: Duration := OneHour,
                             urlMethod: SignedUrlMethod := GET) returns (r: Result<string>)
      ensures r == Err(NotImplemented(SignedUrlsUnsupported))
    {
      r := Err(NotImplemented(SignedUrlsUnsupported));
    }
  }
}
