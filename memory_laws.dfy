/**
 How the in-memory store's operations combine. Each lemma is stated over the
 store's dictionary value, with the updates that the methods of
 Memory.MemoryStorage promise (`s[key := data]` for Put, `s - {key}` for Delete),
 so it holds of any sequence of calls on one store.
 */
module MemoryLaws {
  import opened Storage
  import opened Memory

  /** A fresh store answers every read with key-not-found and lists nothing. */
  lemma EmptyStore(key: string, prefix: string)
    ensures GetResult(map[], key) == Err(NoSuchKey(key))
    ensures DeleteResult(map[], key) == Err(NoSuchKey(key))
    ensures ListedKeys(map[], prefix) == {}
  {
  }

  /** Reading back a key just written yields the written bytes; every other key reads as before. */
  lemma GetAfterPut(s: Store, key: string, data: Bytes, other: string)
    ensures GetResult(s[key := data], key) == Ok(data)
    ensures other != key ==> GetResult(s[key := data], other) == GetResult(s, other)
  {
  }

  /** A second write to a key replaces the first outright. */
  lemma PutOverwrites(s: Store, key: string, first: Bytes, second: Bytes)
    ensures s[key := first][key := second] == s[key := second]
    ensures GetResult(s[key := first][key := second], key) == Ok(second)
  {
  }

  /** After a delete the key reads as missing; every other key reads as before. */
  lemma GetAfterDelete(s: Store, key: string, other: string)
    ensures GetResult(s - {key}, key) == Err(NoSuchKey(key))
    ensures DeleteResult(s - {key}, key) == Err(NoSuchKey(key))
    ensures other != key ==> GetResult(s - {key}, other) == GetResult(s, other)
  {
  }

  /** Deleting a missing key fails with that key and leaves the store as it was. */
  lemma DeleteAbsent(s: Store, key: string)
    requires key !in s
    ensures DeleteResult(s, key) == Err(NoSuchKey(key))
    ensures s - {key} == s
  {
  }

  /** Deleting a key that was just written leaves no trace of the write. */
  lemma DeleteAfterPut(s: Store, key: string, data: Bytes)
    requires key !in s
    ensures DeleteResult(s[key := data], key) == Ok(())
    ensures s[key := data] - {key} == s
  {
  }

  /** The empty prefix lists every stored key. */
  lemma ListEmptyPrefix(s: Store)
    ensures ListedKeys(s, "") == s.Keys
  {
  }

  /** Listing only reports stored keys, and never more of them than are stored. */
  lemma ListedWithinStore(s: Store, prefix: string)
    ensures ListedKeys(s, prefix) <= s.Keys
    ensures |ListedKeys(s, prefix)| <= |s|
  {
    SubsetCardinality(ListedKeys(s, prefix), s.Keys);
    assert |s.Keys| == |s|;
  }

  /** A subset is no larger than its superset. */
  lemma {:induction false} SubsetCardinality<T>(a: set<T>, b: set<T>)
    requires a <= b
    ensures |a| <= |b|
    decreases a
  {
    if a != {} {
      var x :| x in a;
      SubsetCardinality(a - {x}, b - {x});
    }
  }

  /** A write adds its key to exactly the listings whose prefix the key starts with. */
  lemma ListAfterPut(s: Store, key: string, data: Bytes, prefix: string)
    ensures ListedKeys(s[key := data], prefix)
         == if prefix <= key then ListedKeys(s, prefix) + {key} else ListedKeys(s, prefix)
  {
  }

  /** A delete removes its key from every listing and nothing else. */
  lemma ListAfterDelete(s: Store, key: string, prefix: string)
    ensures ListedKeys(s - {key}, prefix) == ListedKeys(s, prefix) - {key}
  {
  }

  /** A longer prefix lists a subset of what any of its own prefixes lists. */
  lemma ListNarrowing(s: Store, prefix: string, suffix: string)
    ensures ListedKeys(s, prefix + suffix) <= ListedKeys(s, prefix)
  {
  }

  /**
   A client run on a fresh in-memory store: write "x", read it back, delete it, read it again; then write "a/1", "a/2" and
   "b/1" and list under "a/"; finally ask for a signed URL.
   */
  method Scenario() returns (read: Result<Bytes>, deleted: Result<()>, reread: Result<Bytes>,
                             listed: seq<ObjectMeta>, url: Result<string>)
    ensures read == Ok([0x68, 0x65, 0x6c, 0x6c, 0x6f])
    ensures deleted == Ok(())
    ensures reread == Err(NoSuchKey("x"))
    ensures KeysOf(listed) == {"a/1", "a/2"} && |listed| == 2
    ensures url.Err? && url.error.NotImplemented?
  {
    var store := new MemoryStorage();
    var hello: Bytes := [0x68, 0x65, 0x6c, 0x6c, 0x6f];
    store.Put("x", hello);
    read := store.Get("x");
    deleted := store.Delete("x");
    reread := store.Get("x");
    store.Put("a/1", hello);
    store.Put("a/2", hello);
    store.Put("b/1", hello);
    listed := store.List("a/");
    assert store.storage.Keys == {"a/1", "a/2", "b/1"};
    assert !("a/" <= "b/1") by { assert "a/"[0] != "b/1"[0]; }
    assert ListedKeys(store.storage, "a/") == {"a/1", "a/2"};
    url := store.GenerateSignedUrl("x", urlMethod := PUT);
  }
}
