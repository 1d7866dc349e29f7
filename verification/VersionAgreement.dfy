/** What a call of initialize_udp with an expected hash ends with: which file, from how many provider calls,
    and exactly when the library then loaded is of the expected version. */
module VersionAgreement {
  import opened Common
  import opened LruSpec
  import opened RegistrySpec

  // A null handle already sits in the map for a file of the right version: the call returns at once.
  ghost predicate Stuck(s: Reg, name: string, h: string)
  {
    name in s.loaders && s.loaders[name].None? && s.OnDisk(name) && HashOf(s.disk[s.Path(name)]) == h
  }

  // The library is loaded, from a file of version h.
  ghost predicate LoadedAs(s: Reg, name: string, h: string)
  {
    name in s.loaders && s.loaders[name].Some? && HashOf(s.loaders[name].value) == h
  }

  // 0 when the file on disk has the version; 1 to replace another version or to fetch; 2 to fetch twice.
  ghost function CallsNeeded(s: Reg, provider: Option<Provider>, name: string, h: string): nat
  {
    if provider == None || (s.OnDisk(name) && HashOf(s.disk[s.Path(name)]) == h) then 0
    else if s.OnDisk(name) then 1
    else
      match provider.value(name)
      case None => 1
      case Some(f) => if HashOf(f) == h then 1 else 2
  }

  ghost predicate Resolved(s: Reg, source: Option<File>, os: Linker, name: string, stuck: bool, calls: nat,
                           s': Reg, ok: bool)
  {
    && (ok <==> source.Some? && (os.opens(source.value) || stuck))
    && (source.Some? ==> s'.OnDisk(name) && s'.disk[s'.Path(name)] == source.value && name in s'.loaders
                         && s'.loaders[name] == if stuck then None else LoaderOf(source.value, os))
    && s'.calls == s.calls + calls && s'.dir == s.dir
  }

  // With the library on disk, Obtain loads it or finds it loaded.
  lemma ObtainOnDisk(s: Reg, provider: Option<Provider>, os: Linker, name: string)
    requires LoadersAgree(s.loaders, s.dir, s.disk, os) && s.OnDisk(name)
    ensures var (s', ok) := Obtain(s, provider, os, name);
            Resolved(s, Some(s.disk[s.Path(name)]), os, name, name in s.loaders && s.loaders[name].None?, 0, s', ok)
  {
    hide LibPath;
  }

  // With nothing loaded and nothing on disk, it fetches.
  lemma ObtainFetched(s: Reg, provider: Option<Provider>, os: Linker, name: string)
    requires !s.OnDisk(name) && name !in s.loaders
    ensures var (s', ok) := Obtain(s, provider, os, name);
            Resolved(s, if provider == None then None else provider.value(name), os, name, false,
                     if provider == None then 0 else 1, s', ok)
  {
    hide LibPath;
  }

  /** For every coherent registry, provider, library and version: when the call returns normally, which file it then
      has on disk and which loader, and how often it asked the provider. */
  lemma Resolution(s: Reg, provider: Option<Provider>, os: Linker, name: string, h: string)
    requires Coherent(s, os)
    ensures var (s', ok) := InitializeUdp(s, provider, os, name, Some(h));
            Resolved(s, Source(s, provider, name, h), os, name, Stuck(s, name, h),
                     CallsNeeded(s, provider, name, h), s', ok)
  {
    hide HashOf, LibPath, BufferAgrees, HashesAgree, Obtain;
    GetLibFileHashKeeps(s, provider, os, name);
    GetLibAsFileKeeps(s, provider, os, name);
    var (s1, own) := GetLibFileHash(s, provider, name);
    var s2 := DeleteLibFile(UnloadLib(s1, name), name);
    DeleteKeeps(s1, os, name);
    hide GetLibFileHash, GetLibAsFile, LoaderOf;
    if own == None {
    } else if own == Some(h) {
      ObtainOnDisk(s1, provider, os, name);
    } else {
      hide LoadersAgree;
      ObtainFetched(s2, provider, os, name);
    }
  }

  /** The version promise, in both directions: after the call the library is loaded in the version asked for exactly
      when a file of that version was there to be had - on disk or from the provider - which can be opened, and no
      null handle was left for it. */
  lemma AgreesIff(s: Reg, provider: Option<Provider>, os: Linker, name: string, h: string)
    requires Coherent(s, os)
    ensures var (s', ok) := InitializeUdp(s, provider, os, name, Some(h));
            var source := Source(s, provider, name, h);
            ok && LoadedAs(s', name, h)
            <==> source.Some? && HashOf(source.value) == h && os.opens(source.value) && !Stuck(s, name, h)
  {
    Resolution(s, provider, os, name, h);
    hide HashOf, LibPath, Coherent, InitializeUdp, LoadersAgree;
  }

  /** A normal return alone does not mean the version is loaded. It is not loaded in exactly two cases: a null handle
      was left by an earlier failed open or construction, or no file of the version is on disk and the provider serves
      another version. */
  lemma NormalReturnWithoutVersion(s: Reg, provider: Option<Provider>, os: Linker, name: string, h: string)
    requires Coherent(s, os)
    ensures var (s', ok) := InitializeUdp(s, provider, os, name, Some(h));
            var source := Source(s, provider, name, h);
            ok && !LoadedAs(s', name, h)
            <==> Stuck(s, name, h) || (source.Some? && HashOf(source.value) != h && os.opens(source.value))
  {
    Resolution(s, provider, os, name, h);
    hide HashOf, LibPath, Coherent, InitializeUdp, LoadersAgree;
  }

  /** A failed call is forgotten exactly when it found the version and could not open it: then every later call with the
      same hash returns normally with nothing loaded, and otherwise the next call fails again. */
  lemma FailedOpenIsForgotten(s: Reg, provider: Option<Provider>, os: Linker, name: string, h: string)
    requires Coherent(s, os) && !InitializeUdp(s, provider, os, name, Some(h)).1
    ensures var s' := InitializeUdp(s, provider, os, name, Some(h)).0;
            var (s'', again) := InitializeUdp(s', provider, os, name, Some(h));
            var source := Source(s, provider, name, h);
            && (again <==> source.Some? && HashOf(source.value) == h)
            && (again ==> Stuck(s', name, h) && name in s''.loaders && s''.loaders[name] == None)
  {
    hide Coherent, InitializeUdp, Resolved, Source, Stuck, CallsNeeded, HashOf;
    var s' := InitializeUdp(s, provider, os, name, Some(h)).0;
    Resolution(s, provider, os, name, h);
    FailureLeaves(s, provider, os, name, h);
    InitializeUdpKeeps(s, provider, os, name, Some(h));
    Resolution(s', provider, os, name, h);
    AgainIff(s', Source(s, provider, name, h), os, name, h, CallsNeeded(s', provider, name, h),
             InitializeUdp(s', provider, os, name, Some(h)).0, InitializeUdp(s', provider, os, name, Some(h)).1);
  }

  // The next call has the same source, and finds the null handle exactly if the source has the version.
  lemma FailureLeaves(s: Reg, provider: Option<Provider>, os: Linker, name: string, h: string)
    requires Coherent(s, os) && !InitializeUdp(s, provider, os, name, Some(h)).1
    ensures var s' := InitializeUdp(s, provider, os, name, Some(h)).0;
            var source := Source(s, provider, name, h);
            && (source.Some? ==> !os.opens(source.value)) && Source(s', provider, name, h) == source
            && (Stuck(s', name, h) <==> source.Some? && HashOf(source.value) == h)
  {
    Resolution(s, provider, os, name, h);
    if Source(s, provider, name, h) == None {
      NothingLeft(s, provider, os, name, h);
    }
    hide HashOf, LibPath, Coherent, InitializeUdp;
  }

  lemma AgainIff(s: Reg, source: Option<File>, os: Linker, name: string, h: string, calls: nat, s': Reg, again: bool)
    requires Resolved(s, source, os, name, Stuck(s, name, h), calls, s', again)
    requires source.Some? ==> !os.opens(source.value)
    requires Stuck(s, name, h) <==> source.Some? && HashOf(source.value) == h
    ensures again <==> source.Some? && HashOf(source.value) == h
    ensures again ==> Stuck(s, name, h) && name in s'.loaders && s'.loaders[name] == None
  {
    hide HashOf, LibPath, Stuck;
  }

  // With nothing to be had, nothing is on disk afterwards.
  lemma NothingLeft(s: Reg, provider: Option<Provider>, os: Linker, name: string, h: string)
    requires Coherent(s, os) && Source(s, provider, name, h) == None
    ensures !InitializeUdp(s, provider, os, name, Some(h)).0.OnDisk(name)
  {
    hide HashOf, LibPath, BufferAgrees, HashesAgree, LoadersAgree;
    GetLibFileHashKeeps(s, provider, os, name);
    GetLibAsFileKeeps(s, provider, os, name);
    var (s1, own) := GetLibFileHash(s, provider, name);
    DeleteKeeps(s1, os, name);
    hide GetLibFileHash, GetLibAsFile, SameForOthers, Coherent;
  }

  /** Constructing succeeds exactly when the file - the one on disk, else the provider's - opens and has the symbols.
      A construction that fails with the file on disk leaves a null handle: from then on a call with the file's own hash
      returns normally with nothing loaded, and constructing fails again, although the file may well open. */
  lemma FailedConstructIsForgotten(s: Reg, provider: Option<Provider>, os: Linker, name: string)
    requires Coherent(s, os)
    ensures var (s', ok) := Construct(s, provider, os, name);
            var file := if s.OnDisk(name) then Some(s.disk[s.Path(name)])
                        else if provider == None then None else provider.value(name);
            && (ok <==> file.Some? && os.opens(file.value) && os.hasSymbols(file.value))
            && (!ok && file.Some? ==>
                  && s'.OnDisk(name) && s'.disk[s'.Path(name)] == file.value && Stuck(s', name, HashOf(file.value))
                  && InitializeUdp(s', provider, os, name, Some(HashOf(file.value))).1
                  && !LoadedAs(InitializeUdp(s', provider, os, name, Some(HashOf(file.value))).0, name, HashOf(file.value))
                  && !Construct(s', provider, os, name).1)
  {
    ConstructKeeps(s, provider, os, name);
    Constructed(s, provider, os, name);
    var (s', ok) := Construct(s, provider, os, name);
    if !ok && s'.OnDisk(name) {
      Resolution(s', provider, os, name, HashOf(s'.disk[s'.Path(name)]));
      hide HashOf, LibPath, Coherent, InitializeUdp, LoadersAgree, CallsNeeded;
    }
  }

  // What a construction finds, and what it leaves.
  lemma Constructed(s: Reg, provider: Option<Provider>, os: Linker, name: string)
    requires Coherent(s, os)
    ensures var (s', ok) := Construct(s, provider, os, name);
            var file := if s.OnDisk(name) then Some(s.disk[s.Path(name)])
                        else if provider == None then None else provider.value(name);
            && (ok <==> file.Some? && os.opens(file.value) && os.hasSymbols(file.value))
            && (file.Some? ==> s'.OnDisk(name) && s'.disk[s'.Path(name)] == file.value && name in s'.loaders
                               && (!ok ==> s'.loaders[name] == None))
  {
    hide HashOf, LibPath, BufferAgrees, HashesAgree;
  }

  /** Whenever a call leaves the version loaded, it asked the provider at most once, and repeating it asks nobody and
      keeps the library. When it does is said by AgreesIff. */
  lemma AtMostOneCall(s: Reg, provider: Option<Provider>, os: Linker, name: string, h: string)
    requires Coherent(s, os)
    ensures var (s', ok) := InitializeUdp(s, provider, os, name, Some(h));
            var (s'', again) := InitializeUdp(s', provider, os, name, Some(h));
            ok && LoadedAs(s', name, h) ==>
              && s'.calls <= s.calls + 1
              && again && LoadedAs(s'', name, h) && s''.calls == s'.calls && s''.loaders[name] == s'.loaders[name]
  {
    hide HashOf, LibPath, Coherent, InitializeUdp;
    Resolution(s, provider, os, name, h);
    InitializeUdpKeeps(s, provider, os, name, Some(h));
    var s' := InitializeUdp(s, provider, os, name, Some(h)).0;
    Resolution(s', provider, os, name, h);
  }

  // The hash handed out right after a change of directory: the old file's if the name is cached.
  ghost function HandedOut(s: Reg, name: string, file: File): string
    requires Find(s.hashes, name).Some? ==> s.OnDisk(name)
  {
    if Find(s.hashes, name).Some? then HashOf(s.disk[s.Path(name)]) else HashOf(file)
  }

  // The file ends up loaded in the version.
  ghost predicate Loads(file: Option<File>, os: Linker, h: string)
  {
    file.Some? && os.opens(file.value) && HashOf(file.value) == h
  }

  /** The version promise after a change of directory. The library ends up loaded in the version asked for exactly
      when there is a file at hand and: the hash handed out is another one, and the provider serves the version in a
      file that opens; or it is the one asked for, and the library was open from the old directory in that version, or
      was not loaded and the file at hand has the version and opens. */
  lemma AgreesAfterChangeIff(s: Reg, dir: string, provider: Option<Provider>, os: Linker, name: string, h: string)
    requires Coherent(s, os)
    ensures Find(s.hashes, name).Some? ==> s.OnDisk(name)
    ensures name in s.loaders ==> s.OnDisk(name)
    ensures var s1 := SetLocalCacheDir(s, dir);
            var file := GetLibAsFile(s1, provider, name).1;
            var (s', ok) := InitializeUdp(s1, provider, os, name, Some(h));
            ok && LoadedAs(s', name, h)
            <==> && file.Some?
                 && if HandedOut(s, name, file.value) != h then
                      Loads(if provider == None then None else provider.value(name), os, h)
                    else if name in s.loaders then s.Opened(name) && HashOf(s.disk[s.Path(name)]) == h
                    else Loads(file, os, h)
  {
    hide HashOf, LibPath, Coherent, GetLibFileHash, GetLibAsFile, Obtain, LoadedAs, Loads, HandedOut, DeleteLibFile,
      UnloadLib, LoaderAgrees;
    var s1 := SetLocalCacheDir(s, dir);
    ChangedHash(s, dir, provider, os, name);
    OldLoader(s, os, name);
    var (s2, own) := GetLibFileHash(s1, provider, name);
    Deleted(s2, name);
    ObtainAsIs(s2, provider, os, name, h);
    NewlyFetched(DeleteLibFile(UnloadLib(s2, name), name), provider, os, name, h);
  }

  lemma OldLoader(s: Reg, os: Linker, name: string)
    requires Coherent(s, os)
    ensures name in s.loaders ==> s.OnDisk(name)
    ensures s.Opened(name) ==> s.loaders[name] == Some(s.disk[s.Path(name)])
  {
    hide HashOf, LibPath, BufferAgrees, HashesAgree;
  }

  lemma Deleted(s: Reg, name: string)
    ensures var s' := DeleteLibFile(UnloadLib(s, name), name); !s'.OnDisk(name) && name !in s'.loaders
  {
    hide LibPath;
  }

  // What a read of the hash leaves, the library's own entries aside.
  lemma HashLeaves(s: Reg, provider: Option<Provider>, name: string)
    ensures var (s1, file) := GetLibAsFile(s, provider, name);
            var (s2, own) := GetLibFileHash(s, provider, name);
            && s2.loaders == s.loaders && s2.dir == s.dir && s2.disk == s1.disk && (own.Some? <==> file.Some?)
  {
    hide HashOf, LibPath, PutSpec, GetSpec, Find;
  }

  lemma FileLeaves(s: Reg, provider: Option<Provider>, name: string)
    requires BufferAgrees(s.buffer, s.disk)
    ensures var (s1, file) := GetLibAsFile(s, provider, name);
            && s1.dir == s.dir
            && (file.Some? ==> s1.OnDisk(name) && s1.disk[s1.Path(name)] == file.value)
            && file == if s.OnDisk(name) then Some(s.disk[s.Path(name)])
                       else if provider == None then None else provider.value(name)
  {
    hide HashOf, LibPath, PutSpec, GetSpec;
    if Find(s.buffer, s.Path(name)).Some? {
      FoundIsMember(s.buffer, s.Path(name));
    }
    hide Find;
  }

  // The file and the hash at hand after the change; loaders are kept.
  lemma ChangedHash(s: Reg, dir: string, provider: Option<Provider>, os: Linker, name: string)
    requires Coherent(s, os)
    ensures Find(s.hashes, name).Some? ==> s.OnDisk(name)
    ensures var s1 := SetLocalCacheDir(s, dir);
            var file := GetLibAsFile(s1, provider, name).1;
            var (s2, own) := GetLibFileHash(s1, provider, name);
            && s2.loaders == s.loaders && s2.dir == dir
            && (own.Some? <==> file.Some?)
            && (file.Some? ==> own == Some(HandedOut(s, name, file.value)) && s2.OnDisk(name)
                               && s2.disk[s2.Path(name)] == file.value)
  {
    HashAfterDirectoryChange(s, dir, provider, os, name);
    var s1 := SetLocalCacheDir(s, dir);
    FileLeaves(s1, provider, name);
    HashLeaves(s1, provider, name);
    hide HashOf, LibPath, Coherent, GetLibFileHash, GetLibAsFile, Find;
  }

  // With the library on disk: the loader there was, or a new one.
  lemma ObtainAsIs(s: Reg, provider: Option<Provider>, os: Linker, name: string, h: string)
    ensures var (s', ok) := Obtain(s, provider, os, name);
            s.OnDisk(name) ==>
              && (name in s.loaders ==> ok && s' == s && (LoadedAs(s', name, h) <==>
                    s.Opened(name) && HashOf(s.loaders[name].value) == h))
              && (name !in s.loaders ==> (ok <==> os.opens(s.disk[s.Path(name)])))
              && (name !in s.loaders && ok ==> s'.Opened(name) && s'.loaders[name] == Some(s.disk[s.Path(name)]))
              && (name !in s.loaders ==>
                    (ok && LoadedAs(s', name, h) <==> Loads(Some(s.disk[s.Path(name)]), os, h)))
  {
    hide LibPath, HashOf;
  }

  // With nothing there: what the provider serves.
  lemma NewlyFetched(s: Reg, provider: Option<Provider>, os: Linker, name: string, h: string)
    requires !s.OnDisk(name) && name !in s.loaders
    ensures var (s', ok) := Obtain(s, provider, os, name);
            && (ok && LoadedAs(s', name, h) <==> Loads(if provider == None then None else provider.value(name), os, h))
            && (provider == None ==> !ok && s' == s)
  {
    hide LibPath, HashOf;
  }

  /** What goes wrong after a change of directory. If the name is cached and not loaded, asking for the old version
      returns normally with the new directory's file loaded, whatever its version. And without a provider, asking for
      the version of the file in the new directory, when the cached one differs, deletes that file and fails. */
  lemma StaleAfterChange(s: Reg, dir: string, os: Linker, name: string)
    requires Coherent(s, os) && Find(s.hashes, name).Some? && SetLocalCacheDir(s, dir).OnDisk(name)
    ensures s.OnDisk(name)
    ensures var s1 := SetLocalCacheDir(s, dir);
            var file := s1.disk[s1.Path(name)];
            var oldHash := HashOf(s.disk[s.Path(name)]);
            var (s2, again) := InitializeUdp(s1, None, os, name, Some(oldHash));
            var (s3, ok) := InitializeUdp(s1, None, os, name, Some(HashOf(file)));
            && (name !in s.loaders && os.opens(file) ==> again && s2.Opened(name) && s2.loaders[name] == Some(file))
            && (HashOf(file) != oldHash ==> !ok && !s3.OnDisk(name))
  {
    hide HashOf, LibPath, Coherent, GetLibFileHash, GetLibAsFile, Obtain, LoadedAs, Loads, DeleteLibFile, UnloadLib, Find;
    var s1 := SetLocalCacheDir(s, dir);
    ChangedHash(s, dir, None, os, name);
    FileAtHand(s, dir, None, os, name);
    var s2 := GetLibFileHash(s1, None, name).0;
    ObtainAsIs(s2, None, os, name, "");
    Deleted(s2, name);
    NewlyFetched(DeleteLibFile(UnloadLib(s2, name), name), None, os, name, "");
  }

  /** A library that was neither cached nor loaded keeps the promise of AgreesIff through the change. */
  lemma UntouchedSurvivesChange(s: Reg, dir: string, provider: Option<Provider>, os: Linker, name: string, h: string)
    requires Coherent(s, os) && Find(s.hashes, name) == None && name !in s.loaders
    ensures var s1 := SetLocalCacheDir(s, dir);
            var (s', ok) := InitializeUdp(s1, provider, os, name, Some(h));
            ok && LoadedAs(s', name, h) <==> Loads(Source(s1, provider, name, h), os, h)
  {
    AgreesAfterChangeIff(s, dir, provider, os, name, h);
    FileAtHand(s, dir, provider, os, name);
    hide HashOf, LibPath, Coherent, InitializeUdp, GetLibAsFile;
  }

  lemma FileAtHand(s: Reg, dir: string, provider: Option<Provider>, os: Linker, name: string)
    requires Coherent(s, os)
    ensures var s1 := SetLocalCacheDir(s, dir);
            GetLibAsFile(s1, provider, name).1
            == if s1.OnDisk(name) then Some(s1.disk[s1.Path(name)])
               else if provider == None then None else provider.value(name)
  {
    FileLeaves(SetLocalCacheDir(s, dir), provider, name);
    hide HashOf, LibPath, BufferAgrees, HashesAgree, LoadersAgree, GetLibAsFile;
  }
}
