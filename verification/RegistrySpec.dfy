/** The library registry as functions on values: what each call does to the disk, the two caches and the
    loaded libraries, and what every run of calls keeps. */
module RegistrySpec {
  import opened Common
  import opened LruSpec
  import opened Sha256Spec
  import Sha256Class
  import Sha256Props

  type File = seq<Byte>
  type Provider = string -> Option<File>

  // What the dynamic linker does with a file: whether it opens, whether the allocator and deleter are found in it, and
  // whether the cloner and deleter are.
  datatype Linker = Linker(opens: File -> bool, hasSymbols: File -> bool, hasCloner: File -> bool)

  const LIB_EXTENSION := ".so"

  // The version of a file: its SHA-256 as 64 hexadecimal characters.
  function HashOf(file: File): string { Sha256Class.Hex(Digest(file)) }

  // directory / (name + extension), for names that are not themselves rooted paths.
  function LibPath(dir: string, name: string): string
  {
    if dir == "" || dir[|dir| - 1] == '/' then dir + name + LIB_EXTENSION
    else dir + "/" + name + LIB_EXTENSION
  }

  /** Everything a call can change. A loader is the file its open handle was opened from, or None for the null handle
      that a failed dlopen, or a library closed for want of a symbol, leaves behind. calls counts the uses of the
      provider. */
  datatype Reg = Reg(dir: string, useMemory: bool, buffer: seq<Entry<File>>, hashes: seq<Entry<string>>,
                     loaders: map<string, Option<File>>, disk: map<string, File>, calls: nat)
  {
    function Path(name: string): string { LibPath(dir, name) }
    predicate OnDisk(name: string) { Path(name) in disk }
    predicate Opened(name: string) { name in loaders && loaders[name].Some? }
  }

  function SetLocalCacheDir(s: Reg, dir: string): Reg { s.(dir := dir) }

  const BUFFER_CAPACITY: nat := 5
  const HASH_CAPACITY: nat := 50

  // The provider is asked only when one is registered.
  function Ask(s: Reg, provider: Option<Provider>, name: string): (Reg, Option<File>)
  {
    match provider
    case None => (s, None)
    case Some(p) => (s.(calls := s.calls + 1), p(name))
  }

  function Save(s: Reg, name: string, file: File): Reg
  {
    s.(disk := s.disk[s.Path(name) := file])
  }

  function GetLibAsFile(s: Reg, provider: Option<Provider>, name: string): (Reg, Option<File>)
  {
    if !s.OnDisk(name) then
      var (s1, file) := Ask(s, provider, name);
      (match file case Some(f) => Save(s1, name, f) case None => s1, file)
    else
      var path := s.Path(name);
      match (if s.useMemory then Find(s.buffer, path) else None)
      case Some(f) => (s.(buffer := GetSpec(s.buffer, path)), Some(f))
      case None =>
        var f := s.disk[path];
        (if s.useMemory then s.(buffer := PutSpec(s.buffer, BUFFER_CAPACITY, path, f)) else s, Some(f))
  }

  // The hash of a file read before: the one cached under the name, or computed and cached.
  function CacheHash(s: Reg, name: string, file: File): (Reg, string)
  {
    match Find(s.hashes, name)
    case Some(h) => (s.(hashes := GetSpec(s.hashes, name)), h)
    case None => (s.(hashes := PutSpec(s.hashes, HASH_CAPACITY, name, HashOf(file))), HashOf(file))
  }

  // Both parts with nothing in between, as in InitializeUdp, which holds the lock throughout.
  function GetLibFileHash(s: Reg, provider: Option<Provider>, name: string): (Reg, Option<string>)
  {
    var (s1, file) := GetLibAsFile(s, provider, name);
    match file
    case None => (s1, None)
    case Some(f) =>
      var (s2, h) := CacheHash(s1, name, f);
      (s2, Some(h))
  }

  // The loader enters the map before the library is opened, and stays there if that fails.
  function LoadLib(s: Reg, os: Linker, name: string): (Reg, bool)
    requires s.OnDisk(name)
  {
    var f := s.disk[s.Path(name)];
    (s.(loaders := s.loaders[name := if os.opens(f) then Some(f) else None]), os.opens(f))
  }

  function UnloadLib(s: Reg, name: string): Reg { s.(loaders := s.loaders - {name}) }

  function DeleteLibFile(s: Reg, name: string): Reg
  {
    s.(buffer := if s.useMemory then Without(s.buffer, s.Path(name)) else s.buffer,
       hashes := Without(s.hashes, name),
       disk := s.disk - {s.Path(name)})
  }

  // Make the library loaded: already loaded, on disk, or fetched. False stands for the exception.
  function Obtain(s: Reg, provider: Option<Provider>, os: Linker, name: string): (r: (Reg, bool))
    ensures r.1 ==> name in r.0.loaders
  {
    if name in s.loaders then (s, true)
    else if s.OnDisk(name) then LoadLib(s, os, name)
    else
      var (s1, file) := Ask(s, provider, name);
      match file
      case Some(f) => LoadLib(Save(s1, name, f), os, name)
      case None => (s1, false)
  }

  // An instance from the loaded library. A library without the symbols is closed, but its loader stays.
  function GetInstance(s: Reg, os: Linker, name: string): (Reg, bool)
    requires name in s.loaders
  {
    match s.loaders[name]
    case None => (s, false)
    case Some(f) => if os.hasSymbols(f) then (s, true) else (s.(loaders := s.loaders[name := None]), false)
  }

  function Construct(s: Reg, provider: Option<Provider>, os: Linker, name: string): (Reg, bool)
  {
    var (s1, ok) := Obtain(s, provider, os, name);
    if ok then GetInstance(s1, os, name) else (s1, false)
  }

  function InitializeUdp(s: Reg, provider: Option<Provider>, os: Linker, name: string, hash: Option<string>)
    : (Reg, bool)
  {
    match hash
    case None => Obtain(s, provider, os, name)
    case Some(h) =>
      var (s1, own) := GetLibFileHash(s, provider, name);
      if own == None then (s1, false)
      else if own != hash then Obtain(DeleteLibFile(UnloadLib(s1, name), name), provider, os, name)
      else Obtain(s1, provider, os, name)
  }

  function UseInMemoryCache(s: Reg, value: bool): Reg
  {
    s.(useMemory := value, buffer := if value then s.buffer else [])
  }

  ghost predicate BufferAgrees(buffer: seq<Entry<File>>, disk: map<string, File>)
  {
    DistinctKeys(buffer) && forall e <- buffer :: e.key in disk && disk[e.key] == e.value
  }

  ghost predicate HashesAgree(hashes: seq<Entry<string>>, dir: string, disk: map<string, File>)
  {
    && DistinctKeys(hashes)
    && forall e <- hashes :: LibPath(dir, e.key) in disk && e.value == HashOf(disk[LibPath(dir, e.key)])
  }

  // What loading a file leaves: the open handle, or the null handle if it cannot be opened.
  function LoaderOf(file: File, os: Linker): Option<File> { if os.opens(file) then Some(file) else None }

  // The handle is open on this file, or null because the file cannot be opened or lacks a symbol.
  ghost predicate LoaderAgrees(loader: Option<File>, file: File, os: Linker)
  {
    if loader == None then !os.opens(file) || !os.hasSymbols(file) else loader == Some(file) && os.opens(file)
  }

  ghost predicate LoadersAgree(loaders: map<string, Option<File>>, dir: string, disk: map<string, File>, os: Linker)
  {
    forall n <- loaders :: LibPath(dir, n) in disk && LoaderAgrees(loaders[n], disk[LibPath(dir, n)], os)
  }

  /** All copies agree: every file in memory is the file on disk, every cached hash is that of the file on disk, every
      open library was opened from the file now on disk, a null handle belongs to a file that cannot be opened or lacks
      a symbol, and nothing is in memory while the in-memory cache is off. */
  ghost predicate Coherent(s: Reg, os: Linker)
  {
    && BufferAgrees(s.buffer, s.disk)
    && HashesAgree(s.hashes, s.dir, s.disk)
    && LoadersAgree(s.loaders, s.dir, s.disk, os)
    && (!s.useMemory ==> s.buffer == [])
  }

  lemma PathInjective(dir: string, m: string, n: string)
    requires LibPath(dir, m) == LibPath(dir, n)
    ensures m == n
  {
    var k := |LibPath(dir, m)| - |m| - |LIB_EXTENSION|;
    assert LibPath(dir, m)[k..k + |m|] == m;
    assert LibPath(dir, n)[k..k + |n|] == n;
  }

  /** A library's path is in the directory: it starts with the directory and ends with the name and the extension, at
      most one slash stands between, and if there is a directory a slash comes before the name. */
  lemma PathInDirectory(dir: string, name: string)
    ensures var p := LibPath(dir, name);
            var tail := name + ".so";
            && 0 <= |p| - |dir| - |tail| <= 1 && p[..|dir|] == dir && p[|p| - |tail|..] == tail
            && (|p| - |dir| - |tail| == 1 ==> p[|dir|] == '/')
            && (dir != "" ==> p[|p| - |tail| - 1] == '/')
  {
  }

  /** One name in two directories is one file exactly when the directories differ by at most a slash at the end. */
  lemma DirectoriesApart(dir: string, other: string, name: string)
    ensures LibPath(dir, name) == LibPath(other, name)
            <==> dir == other || (dir != "" && other == dir + "/" && dir[|dir| - 1] != '/')
                 || (other != "" && dir == other + "/" && other[|other| - 1] != '/')
  {
    var p, q := LibPath(dir, name), LibPath(other, name);
    var tail := name + LIB_EXTENSION;
    assert p == Folder(dir) + tail && q == Folder(other) + tail;
    if p == q {
      assert p[..|p| - |tail|] == Folder(dir) && q[..|q| - |tail|] == Folder(other);
      SameFolder(dir, other);
    }
  }

  // The directory with a slash at the end, if there is a directory.
  function Folder(dir: string): string
  {
    if dir == "" || dir[|dir| - 1] == '/' then dir else dir + "/"
  }

  lemma SameFolder(dir: string, other: string)
    requires Folder(dir) == Folder(other)
    ensures dir == other || (dir != "" && other == dir + "/" && dir[|dir| - 1] != '/')
            || (other != "" && dir == other + "/" && other[|other| - 1] != '/')
  {
    if dir != other {
      assert Folder(dir)[..|Folder(dir)| - 1] == Folder(other)[..|Folder(other)| - 1];
    }
  }

  lemma GetLibAsFileKeeps(s: Reg, provider: Option<Provider>, os: Linker, name: string)
    requires Coherent(s, os)
    ensures var (s', file) := GetLibAsFile(s, provider, name);
            && Coherent(s', os) && s'.dir == s.dir && s'.loaders == s.loaders && s'.hashes == s.hashes
            && (file.Some? ==> s'.OnDisk(name) && s'.disk[s.Path(name)] == file.value)
            && (file.None? ==> s'.disk == s.disk && !s.OnDisk(name))
            && (s.OnDisk(name) ==> s'.disk == s.disk && s'.calls == s.calls)
            && (!s.OnDisk(name) ==> var (s1, f) := Ask(s, provider, name); file == f && s'.calls == s1.calls)
  {
    hide HashOf;
    var path := s.Path(name);
    if s.OnDisk(name) && s.useMemory {
      StepMembers(s.buffer, BUFFER_CAPACITY, Get(path));
      StepMembers(s.buffer, BUFFER_CAPACITY, Put(path, s.disk[path]));
      StepDistinct(s.buffer, BUFFER_CAPACITY, Get(path));
      StepDistinct(s.buffer, BUFFER_CAPACITY, Put(path, s.disk[path]));
      if Find(s.buffer, path).Some? {
        FoundIsMember(s.buffer, path);
      }
    }
  }

  // The hash handed out is that of the file on disk, cached or not.
  lemma GetLibFileHashKeeps(s: Reg, provider: Option<Provider>, os: Linker, name: string)
    requires Coherent(s, os)
    ensures var (s', hash) := GetLibFileHash(s, provider, name);
            var (s1, file) := GetLibAsFile(s, provider, name);
            && Coherent(s', os) && s'.dir == s.dir && s'.loaders == s.loaders
            && s'.disk == s1.disk && s'.calls == s1.calls
            && (hash.Some? <==> file.Some?)
            && (hash.Some? ==> s'.OnDisk(name) && hash.value == HashOf(s'.disk[s.Path(name)]))
  {
    GetLibAsFileKeeps(s, provider, os, name);
    var (s1, file) := GetLibAsFile(s, provider, name);
    if file.Some? {
      hide HashOf;
      HashesStep(s1.hashes, s1.dir, s1.disk, name);
    }
  }

  lemma HashesStep(hashes: seq<Entry<string>>, dir: string, disk: map<string, File>, name: string)
    requires HashesAgree(hashes, dir, disk) && LibPath(dir, name) in disk
    ensures HashesAgree(GetSpec(hashes, name), dir, disk)
    ensures var h := HashOf(disk[LibPath(dir, name)]);
            && HashesAgree(PutSpec(hashes, HASH_CAPACITY, name, h), dir, disk)
            && (Find(hashes, name) == None || Find(hashes, name) == Some(h))
  {
    hide HashOf;
    var h := HashOf(disk[LibPath(dir, name)]);
    StepMembers(hashes, HASH_CAPACITY, Get(name));
    StepDistinct(hashes, HASH_CAPACITY, Get(name));
    StepMembers(hashes, HASH_CAPACITY, Put(name, h));
    StepDistinct(hashes, HASH_CAPACITY, Put(name, h));
    if Find(hashes, name).Some? {
      FoundIsMember(hashes, name);
    }
  }

  // Every other library has its file and its loader still, and its entries in the caches.
  ghost predicate SameForOthers(s: Reg, s': Reg, name: string)
  {
    forall n | n != name ::
      && (s'.OnDisk(n) <==> s.OnDisk(n)) && (s.OnDisk(n) ==> s'.disk[s'.Path(n)] == s.disk[s.Path(n)])
      && (n in s'.loaders <==> n in s.loaders) && (n in s.loaders ==> s'.loaders[n] == s.loaders[n])
      && Find(s'.hashes, n) == Find(s.hashes, n) && Find(s'.buffer, s'.Path(n)) == Find(s.buffer, s.Path(n))
  }

  lemma {:induction false} FindOther<T>(items: seq<Entry<T>>, key: string, other: string)
    requires key != other
    ensures Find(Without(items, key), other) == Find(items, other)
  {
    if items != [] {
      FindOther(items[1..], key, other);
    }
  }

  lemma OthersUntouched(s: Reg, name: string)
    ensures SameForOthers(s, DeleteLibFile(UnloadLib(s, name), name), name)
  {
    hide LibPath, Find, Without;
    var s' := DeleteLibFile(UnloadLib(s, name), name);
    forall n | n != name
      ensures s'.Path(n) == s.Path(n) != s.Path(name)
      ensures Find(s'.hashes, n) == Find(s.hashes, n) && Find(s'.buffer, s'.Path(n)) == Find(s.buffer, s.Path(n))
    {
      if s.Path(n) == s.Path(name) {
        PathInjective(s.dir, n, name);
      }
      FindOther(s.hashes, name, n);
      FindOther(s.buffer, s.Path(name), s.Path(n));
    }
  }

  lemma DeleteKeeps(s: Reg, os: Linker, name: string)
    requires Coherent(s, os)
    ensures var s' := DeleteLibFile(UnloadLib(s, name), name);
            Coherent(s', os) && !s'.OnDisk(name) && name !in s'.loaders && SameForOthers(s, s', name)
  {
    hide HashOf;
    OthersUntouched(s, name);
    hide SameForOthers;
    var disk' := s.disk - {s.Path(name)};
    WithoutPath(s.buffer, s.disk, s.Path(name));
    WithoutName(s.hashes, s.dir, s.disk, name);
    forall n <- s.loaders | n != name ensures LibPath(s.dir, n) in disk' {
      if LibPath(s.dir, n) == LibPath(s.dir, name) {
        PathInjective(s.dir, n, name);
      }
    }
    hide Without, BufferAgrees, HashesAgree;
  }

  lemma WithoutPath(buffer: seq<Entry<File>>, disk: map<string, File>, path: string)
    requires BufferAgrees(buffer, disk)
    ensures BufferAgrees(Without(buffer, path), disk - {path})
    ensures buffer == [] ==> BufferAgrees(buffer, disk - {path})
  {
    StepMembers(buffer, BUFFER_CAPACITY, Erase(path));
    StepDistinct(buffer, BUFFER_CAPACITY, Erase(path));
  }

  lemma WithoutName(hashes: seq<Entry<string>>, dir: string, disk: map<string, File>, name: string)
    requires HashesAgree(hashes, dir, disk)
    ensures HashesAgree(Without(hashes, name), dir, disk - {LibPath(dir, name)})
  {
    hide HashOf;
    StepMembers(hashes, HASH_CAPACITY, Erase(name));
    StepDistinct(hashes, HASH_CAPACITY, Erase(name));
    hide Without;
    forall e <- Without(hashes, name) ensures LibPath(dir, e.key) != LibPath(dir, name) {
      if LibPath(dir, e.key) == LibPath(dir, name) {
        PathInjective(dir, e.key, name);
      }
    }
  }

  lemma SaveKeeps(s: Reg, os: Linker, name: string, file: File)
    requires Coherent(s, os) && !s.OnDisk(name)
    ensures Coherent(Save(s, name, file), os)
  {
    hide HashOf, LibPath;
  }

  lemma LoadLibKeeps(s: Reg, os: Linker, name: string)
    requires Coherent(s, os) && s.OnDisk(name)
    ensures Coherent(LoadLib(s, os, name).0, os)
  {
    hide HashOf, LibPath, BufferAgrees, HashesAgree;
  }

  lemma ObtainKeeps(s: Reg, provider: Option<Provider>, os: Linker, name: string)
    requires Coherent(s, os)
    ensures Coherent(Obtain(s, provider, os, name).0, os)
  {
    hide BufferAgrees, HashesAgree, LoadersAgree, LibPath;
    if s.OnDisk(name) {
      LoadLibKeeps(s, os, name);
    } else {
      var (s1, file) := Ask(s, provider, name);
      if file.Some? {
        SaveKeeps(s1, os, name, file.value);
        LoadLibKeeps(Save(s1, name, file.value), os, name);
      }
    }
  }

  lemma GetInstanceKeeps(s: Reg, os: Linker, name: string)
    requires Coherent(s, os) && name in s.loaders
    ensures Coherent(GetInstance(s, os, name).0, os)
  {
    hide HashOf, LibPath, BufferAgrees, HashesAgree;
  }

  lemma ConstructKeeps(s: Reg, provider: Option<Provider>, os: Linker, name: string)
    requires Coherent(s, os)
    ensures Coherent(Construct(s, provider, os, name).0, os)
  {
    hide Coherent, Obtain, GetInstance;
    ObtainKeeps(s, provider, os, name);
    var (s1, ok) := Obtain(s, provider, os, name);
    if ok {
      GetInstanceKeeps(s1, os, name);
    }
  }

  lemma InitializeUdpKeeps(s: Reg, provider: Option<Provider>, os: Linker, name: string, hash: Option<string>)
    requires Coherent(s, os)
    ensures Coherent(InitializeUdp(s, provider, os, name, hash).0, os)
  {
    hide HashOf, Coherent;
    GetLibFileHashKeeps(s, provider, os, name);
    var s1 := GetLibFileHash(s, provider, name).0;
    DeleteKeeps(s1, os, name);
    ObtainKeeps(DeleteLibFile(UnloadLib(s1, name), name), provider, os, name);
    ObtainKeeps(s1, provider, os, name);
    ObtainKeeps(s, provider, os, name);
  }

  /** The hash part of get_lib_file_hash is in time: the name is cached, or the file that was read has the hash of the
      one on disk still. */
  predicate InTime(s: Reg, name: string, file: File)
  {
    Find(s.hashes, name).Some? || (s.OnDisk(name) && HashOf(s.disk[s.Path(name)]) == HashOf(file))
  }

  /** That part takes no lock, so other calls can come before it. It keeps all copies agreeing exactly when it is in
      time. */
  lemma CacheHashKeepsIff(s: Reg, os: Linker, name: string, file: File)
    requires Coherent(s, os)
    ensures Coherent(CacheHash(s, name, file).0, os) <==> InTime(s, name, file)
  {
    hide HashOf, LibPath, BufferAgrees, LoadersAgree;
    if InTime(s, name, file) {
      if s.OnDisk(name) {
        HashesStep(s.hashes, s.dir, s.disk, name);
      } else {
        FoundIsMember(s.hashes, name);
      }
    } else {
      FoundIffHas(s.hashes, name);
      var hashes := CacheHash(s, name, file).0.hashes;
      assert hashes[0] == Entry(name, HashOf(file)) && hashes[0] in hashes;
    }
  }

  /** How it comes too late: a file is read, then another thread asks for another version of it, which finds no provider
      and deletes the file, and only then the hash of the file read is cached. For every coherent state with the file on
      disk, the copies no longer agree after that. */
  lemma LateHash(s: Reg, os: Linker, name: string, h: string)
    requires Coherent(s, os) && s.OnDisk(name) && h != HashOf(s.disk[s.Path(name)])
    ensures var (s1, file) := GetLibAsFile(s, None, name);
            var (s2, ok) := InitializeUdp(s1, None, os, name, Some(h));
            && file.Some? && !ok && Coherent(s2, os) && !InTime(s2, name, file.value)
            && !Coherent(CacheHash(s2, name, file.value).0, os)
  {
    hide HashOf, LibPath, Coherent, InTime, CacheHash;
    GetLibAsFileKeeps(s, None, os, name);
    var (s1, file) := GetLibAsFile(s, None, name);
    InitializeUdpKeeps(s1, None, os, name, Some(h));
    OtherVersionDeletes(s1, os, name, h);
    var s2 := InitializeUdp(s1, None, os, name, Some(h)).0;
    CacheHashKeepsIff(s2, os, name, file.value);
    assert !InTime(s2, name, file.value) by {
      NotInTime(s2, name, file.value);
    }
  }

  lemma NotInTime(s: Reg, name: string, file: File)
    requires Find(s.hashes, name) == None && !s.OnDisk(name)
    ensures !InTime(s, name, file)
  {
  }

  lemma OtherVersionDeletes(s: Reg, os: Linker, name: string, h: string)
    requires Coherent(s, os) && s.OnDisk(name) && h != HashOf(s.disk[s.Path(name)])
    ensures var (s', ok) := InitializeUdp(s, None, os, name, Some(h));
            !ok && !s'.OnDisk(name) && Find(s'.hashes, name) == None
  {
    hide HashOf, LibPath, BufferAgrees, LoadersAgree;
    GetLibFileHashKeeps(s, None, os, name);
    GetLibAsFileKeeps(s, None, os, name);
    var s1 := GetLibFileHash(s, None, name).0;
    StepMembers(s1.hashes, HASH_CAPACITY, Erase(name));
    DeleteKeeps(s1, os, name);
    hide GetLibFileHash, GetLibAsFile, SameForOthers;
    FoundIffHas(Without(s1.hashes, name), name);
  }

  // One such run: an empty file, and a request for the version "".
  lemma LateHashExample(os: Linker)
    ensures var s := Started("", map[LibPath("", "p") := []]);
            var (s1, file) := GetLibAsFile(s, None, "p");
            var s2 := InitializeUdp(s1, None, os, "p", Some("")).0;
            Coherent(s, os) && file == Some([]) && !Coherent(CacheHash(s2, "p", []).0, os)
  {
    var s := Started("", map[LibPath("", "p") := []]);
    Sha256Props.HexLength(Digest([]));
    hide LibPath, CacheHash, Coherent, InitializeUdp;
    assert Coherent(s, os) by {
      StartedCoherent("", s.disk, os);
    }
    LateHash(s, os, "p", "");
    GetLibAsFileKeeps(s, None, os, "p");
  }

  lemma StartedCoherent(dir: string, disk: map<string, File>, os: Linker)
    ensures Coherent(Started(dir, disk), os)
  {
  }

  // The public calls; a provider registered in between may answer differently from the one before it. GetFileHash is
  // get_lib_file_hash with nothing in between; with other calls in between it is GetFile and, later, CacheFileHash.
  datatype Call =
    | Initialize(name: string, hash: Option<string>)
    | ConstructUdp(name: string)
    | GetFile(name: string)
    | GetFileHash(name: string)
    | CacheFileHash(name: string, file: File)
    | UseMemory(value: bool)

  function Apply(s: Reg, call: Call, provider: Option<Provider>, os: Linker): Reg
  {
    match call
    case Initialize(name, hash) => InitializeUdp(s, provider, os, name, hash).0
    case ConstructUdp(name) => Construct(s, provider, os, name).0
    case GetFile(name) => GetLibAsFile(s, provider, name).0
    case GetFileHash(name) => GetLibFileHash(s, provider, name).0
    case CacheFileHash(name, file) => CacheHash(s, name, file).0
    case UseMemory(value) => UseInMemoryCache(s, value)
  }

  // A run: each call with the provider registered at that moment.
  function Run(s: Reg, calls: seq<(Call, Option<Provider>)>, os: Linker): Reg
  {
    if calls == [] then s
    else Apply(Run(s, calls[..|calls| - 1], os), calls[|calls| - 1].0, calls[|calls| - 1].1, os)
  }

  function Started(dir: string, disk: map<string, File>): Reg
  {
    Reg(dir, true, [], [], map[], disk, 0)
  }

  // The call is any but a hash part that comes too late.
  predicate NotLate(s: Reg, call: Call)
  {
    call.CacheFileHash? ==> InTime(s, call.name, call.file)
  }

  /** Every call keeps all copies agreeing, whatever the provider answers, except exactly a late hash part. */
  lemma ApplyKeeps(s: Reg, call: Call, provider: Option<Provider>, os: Linker)
    requires Coherent(s, os)
    ensures Coherent(Apply(s, call, provider, os), os) <==> NotLate(s, call)
  {
    hide HashOf, InTime;
    match call
    case Initialize(name, hash) => InitializeUdpKeeps(s, provider, os, name, hash);
    case ConstructUdp(name) => ConstructKeeps(s, provider, os, name);
    case GetFile(name) => GetLibAsFileKeeps(s, provider, os, name);
    case GetFileHash(name) => GetLibFileHashKeeps(s, provider, os, name);
    case CacheFileHash(name, file) => CacheHashKeepsIff(s, os, name, file);
    case UseMemory(value) =>
  }

  // In every state of the run all copies agree.
  ghost predicate AlwaysCoherent(s: Reg, calls: seq<(Call, Option<Provider>)>, os: Linker)
  {
    forall k | 0 <= k <= |calls| :: Coherent(Run(s, calls[..k], os), os)
  }

  // No hash part of the run comes too late.
  ghost predicate NeverLate(s: Reg, calls: seq<(Call, Option<Provider>)>, os: Linker)
  {
    forall k | 0 <= k < |calls| :: NotLate(Run(s, calls[..k], os), calls[k].0)
  }

  lemma AlwaysSplits(s: Reg, calls: seq<(Call, Option<Provider>)>, os: Linker)
    requires calls != []
    ensures AlwaysCoherent(s, calls, os)
            <==> AlwaysCoherent(s, calls[..|calls| - 1], os) && Coherent(Run(s, calls, os), os)
    ensures AlwaysCoherent(s, calls[..|calls| - 1], os) ==> Coherent(Run(s, calls[..|calls| - 1], os), os)
  {
    hide Run, Coherent;
    var n := |calls| - 1;
    var init := calls[..n];
    assert forall k | 0 <= k <= n :: calls[..k] == init[..k];
    assert calls[..n + 1] == calls && init[..n] == init;
  }

  lemma NeverLateSplits(s: Reg, calls: seq<(Call, Option<Provider>)>, os: Linker)
    requires calls != []
    ensures var n := |calls| - 1;
            NeverLate(s, calls, os) <==> NeverLate(s, calls[..n], os) && NotLate(Run(s, calls[..n], os), calls[n].0)
  {
    hide Run, NotLate;
    var n := |calls| - 1;
    var init := calls[..n];
    assert forall k | 0 <= k < n :: calls[..k] == init[..k] && calls[k] == init[k];
  }

  /** Cache coherence: whatever is on disk at the start, whatever the providers answer, whichever libraries fail to open
      and whichever lack a symbol, all copies agree in every state of a run exactly when no hash part in it is late. */
  lemma {:induction false} RunCoherentIff(dir: string, disk: map<string, File>, calls: seq<(Call, Option<Provider>)>,
                                          os: Linker)
    ensures AlwaysCoherent(Started(dir, disk), calls, os) <==> NeverLate(Started(dir, disk), calls, os)
  {
    var s := Started(dir, disk);
    if calls == [] {
      StartedCoherent(dir, disk, os);
    } else {
      hide AlwaysCoherent, NeverLate, Coherent, NotLate, Apply;
      var n := |calls| - 1;
      RunCoherentIff(dir, disk, calls[..n], os);
      AlwaysSplits(s, calls, os);
      NeverLateSplits(s, calls, os);
      if AlwaysCoherent(s, calls[..n], os) {
        ApplyKeeps(Run(s, calls[..n], os), calls[n].0, calls[n].1, os);
      }
    }
  }

  /** In particular, the calls that hold the lock throughout keep it in every reachable state. */
  lemma RunCoherent(dir: string, disk: map<string, File>, calls: seq<(Call, Option<Provider>)>, os: Linker)
    requires forall c <- calls :: !c.0.CacheFileHash?
    ensures Coherent(Run(Started(dir, disk), calls, os), os)
  {
    hide Coherent, Run;
    RunCoherentIff(dir, disk, calls, os);
    assert calls[..|calls|] == calls;
    forall k | 0 <= k < |calls| ensures NotLate(Run(Started(dir, disk), calls[..k], os), calls[k].0) {
      assert calls[k] in calls;
    }
  }

  /** Changing the directory is not part of a run: hashes are cached by name, so after a change the hash handed out is
      still that of the old directory's file, exactly when the name was cached. It is that of the file at hand, which
      may have been fetched on the spot, exactly when the name was not cached or both files have the same hash. */
  lemma HashAfterDirectoryChange(s: Reg, dir: string, provider: Option<Provider>, os: Linker, name: string)
    requires Coherent(s, os)
    ensures var s1 := SetLocalCacheDir(s, dir);
            var file := GetLibAsFile(s1, provider, name).1;
            var hash := GetLibFileHash(s1, provider, name).1;
            && (hash.Some? <==> file.Some?)
            && (Find(s.hashes, name).Some? ==> s.OnDisk(name))
            && (file.Some? && Find(s.hashes, name).Some? ==> hash == Some(HashOf(s.disk[s.Path(name)])))
            && (file.Some? ==>
                  (hash == Some(HashOf(file.value))
                   <==> Find(s.hashes, name).None? || HashOf(s.disk[s.Path(name)]) == HashOf(file.value)))
  {
    hide HashOf, LoadersAgree;
    if Find(s.hashes, name).Some? {
      FoundIsMember(s.hashes, name);
    }
    hide LibPath, PutSpec, GetSpec, Find;
  }

  /** The file a call that asks for version h ends at: the one on disk if it has that version, else whatever the
      provider serves. */
  function Source(s: Reg, provider: Option<Provider>, name: string, h: string): Option<File>
  {
    if s.OnDisk(name) && HashOf(s.disk[s.Path(name)]) == h then Some(s.disk[s.Path(name)])
    else if provider == None then None else provider.value(name)
  }
}
