/** The problem wrapper that travels with every work package: it is saved with the version of its library and, on
    loading, makes the receiver's registry bring that version in. */
module DllWrapper {
  import opened Common
  import opened RegistrySpec
  import opened VersionAgreement
  import RegistryClass

  // An instance of a library's problem class, as the archive carries it.
  datatype Udp = Udp(lib: string, params: int)

  // What is written to the archive, in order.
  datatype Archive = Archive(libFileHash: string, libFileName: string, udp: Option<Udp>)

  datatype Wrapper = Wrapper(udp: Option<Udp>, libFileName: string, libFileHash: string)

  // The hash of the file at hand, or the one received earlier if there is no file.
  function SaveSpec(s: Reg, provider: Option<Provider>, w: Wrapper): (Reg, Archive)
  {
    var (s', hash) := GetLibFileHash(s, provider, w.libFileName);
    (s', Archive(if hash.Some? then hash.value else w.libFileHash, w.libFileName, w.udp))
  }

  // An instance in an archive can be read only while the library that defines its class is open.
  predicate Readable(s: Reg, a: Archive)
  {
    a.udp == None || s.Opened(a.libFileName)
  }

  /** The assignment of an empty wrapper on failure resets the file name only: the received hash and the instance held
      before stay. */
  function LoadSpec(s: Reg, provider: Option<Provider>, os: Linker, w: Wrapper, a: Archive)
    : (Reg, Wrapper, bool)
  {
    var (s', ok) := InitializeUdp(s, provider, os, a.libFileName, Some(a.libFileHash));
    if ok && Readable(s', a) then (s', Wrapper(a.udp, a.libFileName, a.libFileHash), true)
    else (s', Wrapper(w.udp, "", a.libFileHash), false)
  }

  // The library of an instance is open and has what cloning takes.
  predicate Clonable(s: Reg, os: Linker, udp: Option<Udp>)
  {
    udp.Some? && s.Opened(udp.value.lib) && os.hasCloner(s.loaders[udp.value.lib].value)
  }

  class UdpDllWrapper {
    var udp: Option<Udp>
    var libFileName: string
    var libFileHash: string

    ghost function Fields(): Wrapper
      reads this
    {
      Wrapper(udp, libFileName, libFileHash)
    }

    constructor ()
      ensures Fields() == Wrapper(None, "", "")
    {
      udp := None;
      libFileName := "";
      libFileHash := "";
    }

    method Save(registry: RegistryClass.UdpRegistry) returns (a: Archive)
      requires registry.Valid() && this !in registry.Repr
      modifies registry.Repr
      ensures registry.Valid() && registry.udpProvider == old(registry.udpProvider)
      ensures (registry.State(), a) == SaveSpec(old(registry.State()), registry.udpProvider, Fields())
    {
      hide GetLibFileHash, RegistryClass.UdpRegistry.Valid, RegistryClass.UdpRegistry.State;
      var hash := registry.GetFileHash(libFileName);
      var savedHash := if hash.Some? then hash.value else libFileHash;
      a := Archive(savedHash, libFileName, udp);
    }

    // False stands for the exception being passed on.
    method Load(registry: RegistryClass.UdpRegistry, a: Archive) returns (ok: bool)
      requires registry.Valid() && this !in registry.Repr
      modifies this, registry.Repr
      ensures registry.Valid() && registry.udpProvider == old(registry.udpProvider)
      ensures (registry.State(), Fields(), ok)
           == LoadSpec(old(registry.State()), registry.udpProvider, registry.os, old(Fields()), a)
    {
      hide InitializeUdp, RegistryClass.UdpRegistry.Valid, RegistryClass.UdpRegistry.State;
      libFileHash := a.libFileHash;
      libFileName := a.libFileName;
      ok := registry.Initialize(libFileName, Some(libFileHash));
      if ok && a.udp.Some? {
        ok := registry.IsOpened(libFileName);
      }
      if !ok {
        var reset := CopyFrom(registry, Wrapper(None, "", ""));
        return;
      }
      udp := a.udp;
    }

    // Copy assignment: the hash is not copied, and the instance is cloned only when there is a file name. False stands
    // for the exception of a clone that fails, which comes after the file name was assigned.
    method CopyFrom(registry: RegistryClass.UdpRegistry, other: Wrapper) returns (ok: bool)
      requires registry.Valid() && this !in registry.Repr
      modifies this
      ensures registry.Valid() && registry.State() == old(registry.State())
      ensures ok <==> other.libFileName == "" || Clonable(registry.State(), registry.os, other.udp)
      ensures Fields() == Wrapper(if ok && other.libFileName != "" then other.udp else old(udp), other.libFileName,
                                  old(libFileHash))
    {
      hide RegistryClass.UdpRegistry.Valid, RegistryClass.UdpRegistry.State;
      libFileName := other.libFileName;
      if libFileName == "" {
        return true;
      }
      ok := other.udp.Some? && registry.CanClone(other.udp.value.lib);
      if ok {
        udp := other.udp;
      }
    }
  }

  // Whenever the controller has the file, its reply to a request for it is that file.
  lemma ControllerReply(c: Reg, provider: Option<Provider>, os: Linker, name: string)
    requires Coherent(c, os) && c.OnDisk(name)
    ensures GetLibAsFile(c, provider, name).1 == Some(c.disk[c.Path(name)])
  {
    GetLibAsFileKeeps(c, provider, os, name);
  }

  // What the controller puts in the archive, and that its reply afterwards is the same file.
  lemma SavedVersion(c: Reg, provider: Option<Provider>, os: Linker, wrapper: Wrapper)
    requires Coherent(c, os) && c.OnDisk(wrapper.libFileName)
    ensures var (c', a) := SaveSpec(c, provider, wrapper);
            var file := c.disk[c.Path(wrapper.libFileName)];
            && a == Archive(HashOf(file), wrapper.libFileName, wrapper.udp)
            && GetLibAsFile(c', provider, wrapper.libFileName).1 == Some(file)
  {
    GetLibFileHashKeeps(c, provider, os, wrapper.libFileName);
    GetLibAsFileKeeps(c, provider, os, wrapper.libFileName);
    var c' := SaveSpec(c, provider, wrapper).0;
    ControllerReply(c', provider, os, wrapper.libFileName);
    hide HashOf, GetLibAsFile, LibPath, Coherent;
  }

  // A registry that has the version loaded saves the same archive again.
  lemma SavedBack(w: Reg, provider: Option<Provider>, os: Linker, wrapper: Wrapper)
    requires Coherent(w, os) && LoadedAs(w, wrapper.libFileName, wrapper.libFileHash)
    ensures SaveSpec(w, provider, wrapper).1 == Archive(wrapper.libFileHash, wrapper.libFileName, wrapper.udp)
  {
    GetLibFileHashKeeps(w, provider, os, wrapper.libFileName);
    GetLibAsFileKeeps(w, provider, os, wrapper.libFileName);
    hide HashOf, GetLibAsFile, GetLibFileHash, LibPath, BufferAgrees, HashesAgree;
  }

  lemma LoadedIsReadable(s: Reg, a: Archive)
    ensures LoadedAs(s, a.libFileName, a.libFileHash) ==> Readable(s, a)
  {
    hide HashOf;
  }

  lemma SourceHasVersion(w: Reg, ask: Provider, name: string, file: File)
    requires ask(name) == Some(file)
    ensures Source(w, Some(ask), name, HashOf(file)).Some?
    ensures HashOf(Source(w, Some(ask), name, HashOf(file)).value) == HashOf(file)
  {
    hide HashOf, LibPath;
  }

  /** Version agreement from one machine to the other. The controller saves the wrapper; the worker, whose provider
      answers with the controller's replies, loads it. The load succeeds with the version of the controller's file
      loaded exactly when the file the worker ends at can be opened and no null handle was left for it. Then the
      provider was used at most once, a second load uses it not at all, and saving the wrapper on the worker gives
      back the archive received. */
  lemma EndToEnd(c: Reg, cProvider: Option<Provider>, cOs: Linker, wrapper: Wrapper,
                 w: Reg, ask: Provider, wOs: Linker, before: Wrapper)
    requires Coherent(c, cOs) && Coherent(w, wOs) && c.OnDisk(wrapper.libFileName)
    requires ask(wrapper.libFileName)
          == GetLibAsFile(SaveSpec(c, cProvider, wrapper).0, cProvider, wrapper.libFileName).1
    ensures var name := wrapper.libFileName;
            var version := HashOf(c.disk[c.Path(name)]);
            var a := SaveSpec(c, cProvider, wrapper).1;
            var source := Source(w, Some(ask), name, version);
            var (w', loaded, ok) := LoadSpec(w, Some(ask), wOs, before, a);
            var (w'', loaded'', again) := LoadSpec(w', Some(ask), wOs, loaded, a);
            && source.Some?
            && (ok && LoadedAs(w', name, version) <==> wOs.opens(source.value) && !Stuck(w, name, version))
            && (ok && LoadedAs(w', name, version) ==>
                  && w'.calls <= w.calls + 1
                  && again && loaded'' == loaded && w''.calls == w'.calls
                  && SaveSpec(w', Some(ask), loaded).1 == a)
  {
    hide HashOf, Coherent, SaveSpec, GetLibAsFile, InitializeUdp, LibPath, Source, LoadedAs, Stuck, Readable;
    var name := wrapper.libFileName;
    var version := HashOf(c.disk[c.Path(name)]);
    SavedVersion(c, cProvider, cOs, wrapper);
    SourceHasVersion(w, ask, name, c.disk[c.Path(name)]);
    AgreesIff(w, Some(ask), wOs, name, version);
    AtMostOneCall(w, Some(ask), wOs, name, version);
    InitializeUdpKeeps(w, Some(ask), wOs, name, Some(version));
    var w' := InitializeUdp(w, Some(ask), wOs, name, Some(version)).0;
    var a := Archive(version, name, wrapper.udp);
    LoadedIsReadable(w', a);
    LoadedIsReadable(InitializeUdp(w', Some(ask), wOs, name, Some(version)).0, a);
    if LoadedAs(w', name, version) {
      SavedBack(w', Some(ask), wOs, Wrapper(wrapper.udp, name, version));
    }
  }

  /** When loading fails, and what it leaves. It fails exactly when there is no file, when a null handle was left for
      the version and the archive holds an instance, or when there is no such handle and the file cannot be opened.
      The wrapper it leaves is the empty one it should be reset to exactly when it held no instance before and the
      hash received is empty. */
  lemma LoadFailure(w: Reg, provider: Option<Provider>, os: Linker, before: Wrapper, a: Archive)
    requires Coherent(w, os)
    ensures var (w', after, ok) := LoadSpec(w, provider, os, before, a);
            var source := Source(w, provider, a.libFileName, a.libFileHash);
            && (!ok <==> source.None? || if Stuck(w, a.libFileName, a.libFileHash) then a.udp.Some?
                                         else !os.opens(source.value))
            && (!ok ==> after == Wrapper(before.udp, "", a.libFileHash))
            && (!ok ==> (after == Wrapper(None, "", "") <==> before.udp == None && a.libFileHash == ""))
  {
    hide InitializeUdp, Coherent, HashOf, Source, Stuck, Resolved, CallsNeeded;
    var name, h := a.libFileName, a.libFileHash;
    Resolution(w, provider, os, name, h);
    var (w', ok) := InitializeUdp(w, provider, os, name, Some(h));
    ReadableUnlessStuck(Source(w, provider, name, h), os, Stuck(w, name, h), w, w', ok, a,
                        CallsNeeded(w, provider, name, h));
  }

  lemma ReadableUnlessStuck(source: Option<File>, os: Linker, stuck: bool, s: Reg, s': Reg, ok: bool,
                            a: Archive, calls: nat)
    requires Resolved(s, source, os, a.libFileName, stuck, calls, s', ok)
    ensures ok <==> source.Some? && (os.opens(source.value) || stuck)
    ensures ok ==> (Readable(s', a) <==> a.udp == None || !stuck)
  {
    hide LibPath;
  }
}
