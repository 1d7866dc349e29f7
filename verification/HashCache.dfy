/** The cache of file hashes: an LRU cache from names to SHA-256 strings. */
module HashCacheClass {
  import opened Common
  import opened LruSpec
  import LruCacheClass
  import Sha256Class
  import opened RegistrySpec

  class HashCache {
    const lruCache: LruCacheClass.LruCache<string>
    ghost var Repr: set<object>

    ghost predicate Valid()
      reads this, Repr
      ensures Valid() ==> this in Repr
    {
      && this in Repr && lruCache in Repr && Repr == {this} + lruCache.Repr && this !in lruCache.Repr
      && lruCache.Valid()
    }

    ghost function Contents(): seq<Entry<string>>
      requires Valid()
      reads this, Repr
    {
      lruCache.Contents()
    }

    constructor (capacity: nat)
      ensures Valid() && fresh(Repr) && lruCache.cap == capacity && Contents() == []
    {
      lruCache := new LruCacheClass.LruCache(capacity);
      new;
      Repr := {this} + lruCache.Repr;
    }

    // Computes the hash of a file and remembers it under the name.
    method HashFile(name: string, file: File) returns (hash: string)
      requires Valid() && lruCache.cap >= 1
      modifies Repr
      ensures Valid() && fresh(Repr - old(Repr))
      ensures hash == HashOf(file)
      ensures Contents() == PutSpec(old(Contents()), lruCache.cap, name, HashOf(file))
    {
      hide LruCacheClass.LruCache.Valid, LruCacheClass.LruCache.Contents, PutSpec, HashOf;
      hash := Sha256Of(file);
      var defined := lruCache.Put(name, hash);
      Repr := {this} + lruCache.Repr;
    }

    static method Sha256Of(file: File) returns (hash: string)
      ensures hash == HashOf(file)
    {
      var sha256 := new Sha256Class.Sha256();
      hash := sha256.Of(file);
    }

    method GetFileHash(name: string) returns (r: Option<string>)
      requires Valid()
      modifies Repr
      ensures Valid() && Repr == old(Repr)
      ensures r == Find(old(Contents()), name)
      ensures Contents() == GetSpec(old(Contents()), name)
    {
      hide Find, GetSpec, Has;
      FoundIffHas(Contents(), name);
      if lruCache.Contains(name) {
        r := lruCache.Get(name);
      } else {
        r := None;
      }
    }

    predicate HasFile(name: string)
      requires Valid()
      reads this, Repr
      ensures HasFile(name) <==> Has(Contents(), name)
    {
      lruCache.Contains(name)
    }

    method Erase(name: string)
      requires Valid()
      modifies Repr
      ensures Valid() && Repr == old(Repr)
      ensures Contents() == Without(old(Contents()), name)
    {
      lruCache.Erase(name);
    }
  }
}
