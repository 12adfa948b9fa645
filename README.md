# blobby: the in-memory storage backend

blobby puts one interface in front of several object stores: `put`, `get`,
`delete`, `list` and `generate_signed_url`. Every backend reports a missing key
with the same `NoSuchKeyError`. This project models `MemoryStorage`, the
backend that keeps objects in a Python dictionary from string keys to bytes.
It is the reference backend for the storage contract:

- `put` overwrites the value at a key;
- `get` returns exactly the stored bytes, or the key-not-found error;
- `delete` removes a key, or fails with the same error;
- `list(prefix)` filters the keys by literal string prefix;
- `generate_signed_url` always fails.

Files:

- `storage.dfy` (module `Storage`): the shared vocabulary. It holds `ObjectMeta`,
  `SignedUrlMethod` (`GET | PUT`), a `Duration` standing for a `timedelta`, and
  `StorageError`. `StorageError` has two cases: `NoSuchKey(key)` for
  `NoSuchKeyError` and `NotImplemented(message)` for `NotImplementedError`.
  Raised exceptions become the `Err` case of `Result<T>`.
- `memory.dfy` (module `Memory`): the class `MemoryStorage`, whose field
  `storage: map<string, seq<bv8>>` is the dictionary `_storage`. Its methods
  update that field in place. The module also holds the functions that specify
  the read results (`GetResult`, `DeleteResult`, `ListedKeys`, `KeysOf`).
- `memory_laws.dfy` (module `MemoryLaws`): lemmas about sequences of calls. They
  are stated over the dictionary value, using the updates the methods promise,
  plus a client method run on a fresh store: put, get, delete and get of "x",
  then a listing of "a/" after three puts, then a signed-URL request.

Python's `str.startswith(prefix)` is Dafny's sequence-prefix test `prefix <= k`.
Bytes are `seq<bv8>`.

The in-memory backend raises `NotImplementedError` for signed URLs
(blobby/memory.py:36), and tests/test_signed_urls.py:114-120 expects that error.

## Model

| member | source | states |
|---|---|---|
| `Memory.MemoryStorage.constructor` | blobby/memory.py:8-9 | a new store holds no keys |
| `Memory.MemoryStorage.Put` | blobby/memory.py:11-12 | afterwards the key is present with exactly the given bytes, the earlier value (if any) is replaced, and every other key is present or absent as before and keeps its value |
| `Memory.MemoryStorage.Get` | blobby/memory.py:14-18 | succeeds exactly when the key is stored, then returning the stored bytes; otherwise fails with key-not-found carrying that key; never changes the store (no modifies clause) |
| `Memory.MemoryStorage.Delete` | blobby/memory.py:20-24 | succeeds exactly when the key was stored; the new store is the old one without that key; on failure the error is key-not-found carrying the key and the store is unchanged |
| `Memory.MemoryStorage.List` | blobby/memory.py:26-27 | the keys returned are exactly the stored keys starting with the prefix, each once (no duplicates, none missing, none extra), so the count equals the number of such keys; every returned key is stored; the store is not changed |
| `Memory.MemoryStorage.GenerateSignedUrl` | blobby/memory.py:29-36 | for every key, expiration and access mode the result is the not-implemented error with the backend's message; the store is not changed |
| `Memory.DistinctKeysCount` | blobby/memory.py:27 | a listing with no repeated key has as many entries as distinct keys |
| `MemoryLaws.EmptyStore` | blobby/memory.py:8-9 | on an empty store get and delete of any key fail with key-not-found for that key, and every prefix lists nothing |
| `MemoryLaws.GetAfterPut` | blobby/memory.py:11-16 | a get after a put of the same key returns the written bytes; a get of any other key returns what it returned before the put |
| `MemoryLaws.PutOverwrites` | blobby/memory.py:11-12 | two puts to one key leave the same store as the second put alone, and get returns the second value |
| `MemoryLaws.GetAfterDelete` | blobby/memory.py:14-24 | after a delete, get and delete of that key fail with key-not-found; a get of any other key returns what it returned before |
| `MemoryLaws.DeleteAbsent` | blobby/memory.py:20-24 | deleting a key that is not stored fails with key-not-found for it and leaves the store equal to what it was |
| `MemoryLaws.DeleteAfterPut` | blobby/memory.py:11-24 | putting a new key and then deleting it succeeds and gives back the original store |
| `MemoryLaws.ListEmptyPrefix` | blobby/memory.py:26-27 | the empty prefix lists every stored key |
| `MemoryLaws.ListedWithinStore` | blobby/memory.py:26-27 | a listing names only stored keys and never more keys than the store holds |
| `MemoryLaws.ListAfterPut` | blobby/memory.py:11-27 | a put adds its key to exactly the listings whose prefix the key starts with, and changes no listing otherwise |
| `MemoryLaws.ListAfterDelete` | blobby/memory.py:20-27 | a delete removes its key from every listing and leaves the rest of each listing as it was |
| `MemoryLaws.ListNarrowing` | blobby/memory.py:26-27 | extending a prefix can only shrink the set of listed keys |
| `MemoryLaws.Scenario` | blobby/memory.py:8-36 | on a new store: put "x", get returns those bytes; delete succeeds; get "x" then fails with key-not-found for "x". After putting "a/1", "a/2", "b/1", listing "a/" gives exactly {"a/1", "a/2"}, two entries. A signed-URL request fails as not implemented |

## Left out

- `blobby/storage.py` and `blobby/error.py` are not part of this model. The `Storage` base class and `raise_key_not_found` live there. The model stands in for `raise_key_not_found(key)` with `Err(NoSuchKey(key))`. The public `put`, which hands off to `_put`, is modelled as the one method `Put`.
- The other backends are not modelled. The filesystem and S3 backends are not part of this model. The Google Cloud Storage (`blobby/gcp.py`) and Azure (`blobby/azure.py`) backends hand their reads, writes, listings and URL signing to the vendors' SDKs, and the Azure backend reads the clock to compute the expiry (blobby/azure.py:56).
- Keys containing surrogate code points (a Python `str` such as "\ud800") are not modelled: a Dafny `string` holds only Unicode scalar values.
- `Memory.MemoryStorage.List`: the order of the result is not specified. Python returns keys in dictionary insertion order, but nothing promises that order. The contract fixes the set of keys and rules out duplicates, but leaves the order open.
- `Duration` and `SignedUrlMethod` are only accepted and ignored, as in the source. No signing or expiry arithmetic is modelled, since the in-memory backend performs none.
- Python's dynamic typing is not modelled: a non-string key or non-bytes data cannot be passed. Exceptions other than the two error kinds are not modelled either, because the in-memory backend raises none.
