/** The registry class: one field per piece of state, its methods in the order and with the branches of the source,
    each proved to do what RegistrySpec says. The file system is the field disk. */
module RegistryClass {
  import opened Common
  import opened LruSpec
  import LruCacheClass
  import HashCacheClass
  import opened RegistrySpec

  class UdpRegistry {
    const os: Linker
    var localCache: string
    var useInMemory: bool
    const libFilesBuffer: LruCacheClass.LruCache<File>
    var libLoaders: map<string, Option<File>>
    var disk: map<string, File>
    var udpProvider: Option<Provider>
    const hashCache: HashCacheClass.HashCache
    ghost var calls: nat
    ghost var Repr: set<object>

    ghost predicate Valid()
      reads this, Repr
      ensures Valid() ==> this in Repr
    {
      && this in Repr && libFilesBuffer in Repr && hashCache in Repr
      && libFilesBuffer.Repr <= Repr && hashCache.Repr <= Repr
      && this !in libFilesBuffer.Repr && this !in hashCache.Repr && libFilesBuffer.Repr !! hashCache.Repr
      && libFilesBuffer.Valid() && libFilesBuffer.cap == BUFFER_CAPACITY
      && hashCache.Valid() && hashCache.lruCache.cap == HASH_CAPACITY
    }

    ghost function State(): Reg
      requires Valid()
      reads this, Repr
    {
      Reg(localCache, useInMemory, libFilesBuffer.Contents(), hashCache.Contents(), libLoaders, disk, calls)
    }

    constructor (os: Linker, directory: string, disk: map<string, File>)
      ensures Valid() && fresh(Repr) && this.os == os && udpProvider == None
      ensures State() == Started(directory, disk)
      ensures libFilesBuffer.cap == 5 && hashCache.lruCache.cap == 50
    {
      this.os := os;
      localCache := directory;
      useInMemory := true;
      libFilesBuffer := new LruCacheClass.LruCache(BUFFER_CAPACITY);
      libLoaders := map[];
      this.disk := disk;
      udpProvider := None;
      hashCache := new HashCacheClass.HashCache(HASH_CAPACITY);
      calls := 0;
      new;
      Repr := {this} + libFilesBuffer.Repr + hashCache.Repr;
    }

    function GetLibPath(name: string): string
      reads this
    {
      LibPath(localCache, name)
    }

    predicate IsLibInCache(name: string)
      reads this
    {
      GetLibPath(name) in disk
    }

    predicate IsOpened(name: string)
      requires Valid()
      reads this, Repr
      ensures IsOpened(name) <==> State().Opened(name)
    {
      name in libLoaders && libLoaders[name].Some?
    }

    // The library is open and the symbols that cloning takes are in it.
    predicate CanClone(name: string)
      requires Valid()
      reads this, Repr
      ensures CanClone(name) <==> State().Opened(name) && os.hasCloner(State().loaders[name].value)
    {
      IsOpened(name) && os.hasCloner(libLoaders[name].value)
    }

    method RegisterUdpProvider(provider: Provider)
      requires Valid()
      modifies this`udpProvider
      ensures Valid() && udpProvider == Some(provider) && State() == old(State())
    {
      hide LruCacheClass.LruCache.Valid, LruCacheClass.LruCache.Contents, HashCacheClass.HashCache.Valid,
           HashCacheClass.HashCache.Contents;
      udpProvider := Some(provider);
    }

    method SetCacheDir(directory: string)
      requires Valid()
      modifies this`localCache
      ensures Valid() && State() == SetLocalCacheDir(old(State()), directory)
    {
      hide LruCacheClass.LruCache.Valid, LruCacheClass.LruCache.Contents, HashCacheClass.HashCache.Valid,
           HashCacheClass.HashCache.Contents;
      localCache := directory;
    }

    method UseInMemory(value: bool)
      requires Valid()
      modifies Repr
      ensures Valid() && Repr == old(Repr) && udpProvider == old(udpProvider)
      ensures State() == UseInMemoryCache(old(State()), value)
    {
      hide LruCacheClass.LruCache.Valid, LruCacheClass.LruCache.Contents, HashCacheClass.HashCache.Valid,
           HashCacheClass.HashCache.Contents;
      if !value {
        libFilesBuffer.Clear();
      }
      useInMemory := value;
    }

    // One use of the provider.
    method AskProvider(name: string) returns (file: Option<File>)
      requires Valid() && udpProvider.Some?
      modifies this`calls
      ensures Valid()
      ensures (State(), file) == Ask(old(State()), old(udpProvider), name)
    {
      hide LruCacheClass.LruCache.Valid, LruCacheClass.LruCache.Contents, HashCacheClass.HashCache.Valid,
           HashCacheClass.HashCache.Contents;
      calls := calls + 1;
      file := udpProvider.value(name);
    }

    method SaveLibIntoFs(name: string, file: File)
      requires Valid()
      modifies this`disk
      ensures Valid()
      ensures State() == Save(old(State()), name, file)
    {
      hide LruCacheClass.LruCache.Valid, LruCacheClass.LruCache.Contents, HashCacheClass.HashCache.Valid,
           HashCacheClass.HashCache.Contents;
      disk := disk[GetLibPath(name) := file];
    }

    // False stands for the exception of a failed dlopen.
    method LoadLibrary(name: string) returns (ok: bool)
      requires Valid() && IsLibInCache(name) && name !in libLoaders
      modifies this`libLoaders
      ensures Valid()
      ensures (State(), ok) == LoadLib(old(State()), os, name)
    {
      hide LruCacheClass.LruCache.Valid, LruCacheClass.LruCache.Contents, HashCacheClass.HashCache.Valid,
           HashCacheClass.HashCache.Contents;
      libLoaders := libLoaders[name := None];
      var file := disk[GetLibPath(name)];
      if !os.opens(file) {
        return false;
      }
      libLoaders := libLoaders[name := Some(file)];
      assert libLoaders == old(libLoaders)[name := Some(file)];
      return true;
    }

    method UnloadLibrary(name: string)
      requires Valid()
      modifies this`libLoaders
      ensures Valid()
      ensures State() == UnloadLib(old(State()), name)
    {
      hide LruCacheClass.LruCache.Valid, LruCacheClass.LruCache.Contents, HashCacheClass.HashCache.Valid,
           HashCacheClass.HashCache.Contents;
      if name !in libLoaders {
        assert libLoaders - {name} == libLoaders;
        return;
      }
      libLoaders := libLoaders - {name};
    }

    method GetLibFile(name: string) returns (r: Option<File>)
      requires Valid()
      modifies Repr
      ensures Valid() && fresh(Repr - old(Repr)) && udpProvider == old(udpProvider)
      ensures (State(), r) == GetLibAsFile(old(State()), udpProvider, name)
    {
      hide LruCacheClass.LruCache.Valid, LruCacheClass.LruCache.Contents, HashCacheClass.HashCache.Valid,
           HashCacheClass.HashCache.Contents;
      hide PutSpec, GetSpec, Find, LibPath, Has;
      if !IsLibInCache(name) {
        if udpProvider.Some? {
          var libFile := AskProvider(name);
          if libFile.Some? {
            SaveLibIntoFs(name, libFile.value);
          }
          return libFile;
        }
        return None;
      }
      var libPath := GetLibPath(name);
      FoundIffHas(libFilesBuffer.Contents(), libPath);
      if useInMemory && libFilesBuffer.Contains(libPath) {
        r := libFilesBuffer.Get(libPath);
        return;
      }
      var fileContent := disk[libPath];
      if useInMemory {
        var defined := libFilesBuffer.Put(libPath, fileContent);
        Repr := Repr + libFilesBuffer.Repr;
      }
      return Some(fileContent);
    }

    // The part of GetFileHash that takes no lock: the hash of a file read before, cached or computed.
    method CacheFileHash(name: string, file: File) returns (hash: string)
      requires Valid()
      modifies Repr
      ensures Valid() && fresh(Repr - old(Repr)) && udpProvider == old(udpProvider)
      ensures (State(), hash) == CacheHash(old(State()), name, file)
    {
      hide LruCacheClass.LruCache.Valid, LruCacheClass.LruCache.Contents, HashCacheClass.HashCache.Valid,
           HashCacheClass.HashCache.Contents;
      hide PutSpec, GetSpec, Find, LibPath, Has, HashOf;
      FoundIffHas(hashCache.Contents(), name);
      if hashCache.HasFile(name) {
        var cached := hashCache.GetFileHash(name);
        return cached.value;
      }
      hash := hashCache.HashFile(name, file);
      Repr := Repr + hashCache.Repr;
    }

    // None stands for "not found", as does the empty optional. Nothing happens between the two parts.
    method GetFileHash(name: string) returns (r: Option<string>)
      requires Valid()
      modifies Repr
      ensures Valid() && fresh(Repr - old(Repr)) && udpProvider == old(udpProvider)
      ensures (State(), r) == GetLibFileHash(old(State()), udpProvider, name)
    {
      hide LruCacheClass.LruCache.Valid, LruCacheClass.LruCache.Contents, HashCacheClass.HashCache.Valid,
           HashCacheClass.HashCache.Contents;
      hide GetLibAsFile, CacheHash, State, Valid;
      var file := GetLibFile(name);
      if file == None {
        return None;
      }
      var hash := CacheFileHash(name, file.value);
      return Some(hash);
    }

    method DeleteFile(name: string)
      requires Valid()
      modifies Repr
      ensures Valid() && Repr == old(Repr) && udpProvider == old(udpProvider)
      ensures State() == DeleteLibFile(old(State()), name)
    {
      hide LruCacheClass.LruCache.Valid, LruCacheClass.LruCache.Contents, HashCacheClass.HashCache.Valid,
           HashCacheClass.HashCache.Contents;
      hide Without, Find, LibPath, Has;
      var libPath := GetLibPath(name);
      if useInMemory {
        libFilesBuffer.Erase(libPath);
      }
      FoundIffHas(hashCache.Contents(), name);
      if hashCache.HasFile(name) {
        hashCache.Erase(name);
      }
      if libPath in disk {
        disk := disk - {libPath};
      }
      assert disk == old(disk) - {libPath};
    }

    // Loads the library without constructing anything; false stands for the exception.
    method Initialize(name: string, libFileHash: Option<string>) returns (ok: bool)
      requires Valid()
      modifies Repr
      ensures Valid() && fresh(Repr - old(Repr)) && udpProvider == old(udpProvider)
      ensures (State(), ok) == InitializeUdp(old(State()), udpProvider, os, name, libFileHash)
    {
      hide LruCacheClass.LruCache.Valid, LruCacheClass.LruCache.Contents, HashCacheClass.HashCache.Valid,
           HashCacheClass.HashCache.Contents;
      hide LibPath, HashOf, GetLibFileHash;
      if libFileHash.Some? {
        var hash := GetFileHash(name);
        if hash == None {
          return false;
        }
        if hash != libFileHash {
          UnloadLibrary(name);
          DeleteFile(name);
        }
      }
      ok := Load(name);
    }

    // The instance from the loaded library; false stands for the exception.
    method NewInstance(name: string) returns (ok: bool)
      requires Valid() && name in libLoaders
      modifies this`libLoaders
      ensures Valid()
      ensures (State(), ok) == GetInstance(old(State()), os, name)
    {
      hide LruCacheClass.LruCache.Valid, LruCacheClass.LruCache.Contents, HashCacheClass.HashCache.Valid,
           HashCacheClass.HashCache.Contents;
      var loader := libLoaders[name];
      if loader == None {
        return false;
      }
      if !os.hasSymbols(loader.value) {
        libLoaders := libLoaders[name := None];
        return false;
      }
      return true;
    }

    method ConstructUdp(name: string) returns (ok: bool)
      requires Valid()
      modifies Repr
      ensures Valid() && Repr == old(Repr) && udpProvider == old(udpProvider)
      ensures (State(), ok) == Construct(old(State()), udpProvider, os, name)
    {
      hide LruCacheClass.LruCache.Valid, LruCacheClass.LruCache.Contents, HashCacheClass.HashCache.Valid,
           HashCacheClass.HashCache.Contents;
      hide LibPath, Obtain, GetInstance;
      ok := Load(name);
      if ok {
        ok := NewInstance(name);
      }
    }

    // The common part of Initialize and ConstructUdp.
    method Load(name: string) returns (ok: bool)
      requires Valid()
      modifies Repr
      ensures Valid() && Repr == old(Repr) && udpProvider == old(udpProvider)
      ensures (State(), ok) == Obtain(old(State()), udpProvider, os, name)
    {
      hide LruCacheClass.LruCache.Valid, LruCacheClass.LruCache.Contents, HashCacheClass.HashCache.Valid,
           HashCacheClass.HashCache.Contents;
      hide LibPath;
      if name in libLoaders {
        return true;
      }
      if IsLibInCache(name) {
        ok := LoadLibrary(name);
        return;
      }
      if udpProvider.Some? {
        var libFile := AskProvider(name);
        if libFile.Some? {
          SaveLibIntoFs(name, libFile.value);
          ok := LoadLibrary(name);
          return;
        }
      }
      return false;
    }
  }
}
