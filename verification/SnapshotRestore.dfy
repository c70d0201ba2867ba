/** `load_service_snapshots` on live bundles: everything is read and checked before anything is changed. */
module SnapshotRestore {
  import opened Options
  import opened Numerals
  import opened BundleImages
  import opened SnapshotFormat
  import opened SnapshotDisk
  import opened SnapshotLoad
  import opened SnapshotCommit
  import opened Stores

  /** A failing service decides the outcome of the whole load. */
  lemma {:induction false} FailureStands(setup: Setup, d: Disk, m: Manifest, i: nat, n: nat)
    requires Registered(setup) && ManifestAccepted(m, setup.services) && i <= n <= |setup.services|
    requires LoadServices(setup, d, m, i).Err?
    ensures LoadServices(setup, d, m, n) == LoadServices(setup, d, m, i)
    decreases n
  {
    if i < n { FailureStands(setup, d, m, i, n - 1); }
  }

  ghost predicate Restorable(setup: Setup, images: map<string, BundleImage>) {
    forall s :: s in images ==> s in setup.registry && ClosedImage(images[s]) && Accepted(images[s], setup.registry[s])
  }

  lemma {:induction false} LoadedIsRestorable(setup: Setup, d: Disk, m: Manifest, n: nat)
    requires Lawful(setup.lib) && Registered(setup) && ManifestAccepted(m, setup.services) && n <= |setup.services|
    requires LoadServices(setup, d, m, n).Ok?
    ensures Restorable(setup, LoadServices(setup, d, m, n).value)
  {
    if n > 0 {
      LoadedIsRestorable(setup, d, m, n - 1);
      LoadedServiceIsRestorable(setup, d, m, setup.services[n - 1]);
    }
  }

  lemma LoadedServiceIsRestorable(setup: Setup, d: Disk, m: Manifest, s: string)
    requires Lawful(setup.lib) && s in setup.registry && s in m.files
    ensures var r := LoadService(setup, d, m.files[s], s);
            r.Ok? ==> ClosedImage(r.value) && Accepted(r.value, setup.registry[s])
  {
  }

  method DecodeNext(setup: Setup, d: Disk, m: Manifest, i: nat, restored: map<string, BundleImage>)
    returns (r: Result<map<string, BundleImage>>)
    requires Registered(setup) && ManifestAccepted(m, setup.services)
    requires i < |setup.services| && LoadServices(setup, d, m, i) == Ok(restored)
    ensures r.Ok? ==> r == LoadServices(setup, d, m, i + 1)
    ensures r.Err? ==> r == LoadServices(setup, d, m, |setup.services|)
  {
    var service := setup.services[i];
    var image := LoadService(setup, d, m.files[service], service);
    r := if image.Err? then Err(image.reason) else Ok(restored[service := image.value]);
    if r.Err? { FailureStands(setup, d, m, i + 1, |setup.services|); }
  }

  /** The decoding loop: the bundles of all services, or the reason why there are none. */
  method DecodeAll(setup: Setup, d: Disk, m: Manifest) returns (r: Result<map<string, BundleImage>>)
    requires Registered(setup) && ManifestAccepted(m, setup.services)
    ensures r == LoadServices(setup, d, m, |setup.services|)
  {
    var restored: map<string, BundleImage> := map[];
    var i := 0;
    while i < |setup.services|
      invariant 0 <= i <= |setup.services|
      invariant LoadServices(setup, d, m, i) == Ok(restored)
    {
      r := DecodeNext(setup, d, m, i, restored);
      if r.Err? { return; }
      restored := r.value;
      i := i + 1;
    }
    r := Ok(restored);
  }

  predicate NoDuplicates(services: seq<string>) {
    forall i, j :: 0 <= i < j < |services| ==> services[i] != services[j]
  }

  ghost predicate Live(setup: Setup, stores: map<string, AccountRegionBundle>)
    reads stores.Values
  {
    && NoDuplicates(setup.services) && stores.Keys == setup.registry.Keys
    && (forall s, t :: s in stores && t in stores && s != t ==> stores[s] != stores[t])
    && (forall s :: s in stores ==> stores[s].Valid() && RegistrationOf(stores[s].graph) == setup.registry[s])
  }

  ghost predicate RestoredFrom(bundle: AccountRegionBundle, image: BundleImage)
    reads bundle
  {
    && ClosedImage(image) && Shaped(bundle.graph) && SameContents(image, bundle.graph)
    && (Separate(bundle.graph) <==> SeparateGlobals(image))
  }

  ghost predicate AllRestored(stores: map<string, AccountRegionBundle>, images: map<string, BundleImage>)
    reads stores.Values
  {
    images.Keys == stores.Keys && forall s :: s in stores ==> RestoredFrom(stores[s], images[s])
  }

  ghost predicate Ready(bundle: AccountRegionBundle, image: BundleImage)
    reads bundle
  {
    bundle.Valid() && ClosedImage(image) && Accepted(image, RegistrationOf(bundle.graph))
  }

  method RestoreOne(bundle: AccountRegionBundle, image: BundleImage)
    requires Ready(bundle, image)
    modifies bundle
    ensures RestoredFrom(bundle, image)
  {
    bundle.Restore(image);
  }

  /** The second loop: every target takes over its snapshot. */
  method RestoreEach(targets: seq<AccountRegionBundle>, images: seq<BundleImage>)
    requires AllReady(targets, images)
    modifies targets
    ensures forall i :: 0 <= i < |targets| ==> RestoredFrom(targets[i], images[i])
  {
    var i := 0;
    while i < |targets|
      invariant 0 <= i <= |targets|
      invariant forall j :: 0 <= j < i ==> RestoredFrom(targets[j], images[j])
      invariant forall j :: i <= j < |targets| ==> Ready(targets[j], images[j])
    {
      RestoreOne(targets[i], images[i]);
      i := i + 1;
    }
  }

  ghost predicate AllReady(targets: seq<AccountRegionBundle>, sources: seq<BundleImage>)
    reads targets
  {
    && |targets| == |sources|
    && (forall i, j :: 0 <= i < j < |targets| ==> targets[i] != targets[j])
    && forall i :: 0 <= i < |targets| ==> Ready(targets[i], sources[i])
  }

  /** The bundles and the snapshots in the order of the services. */
  method Paired(setup: Setup, stores: map<string, AccountRegionBundle>, images: map<string, BundleImage>)
    returns (targets: seq<AccountRegionBundle>, sources: seq<BundleImage>)
    requires Registered(setup) && Live(setup, stores) && Restorable(setup, images) && images.Keys == stores.Keys
    ensures AllReady(targets, sources) && |targets| == |setup.services|
    ensures forall i :: 0 <= i < |targets| ==>
              setup.services[i] in stores && targets[i] == stores[setup.services[i]] &&
                  sources[i] == images[setup.services[i]]
  {
    var n := |setup.services|;
    assert forall i :: 0 <= i < n ==> setup.services[i] in stores;
    targets := seq(n, i requires 0 <= i < n => stores[setup.services[i]]);
    sources := seq(n, i requires 0 <= i < n => images[setup.services[i]]);
    forall i | 0 <= i < n ensures Ready(targets[i], sources[i]) {
      ReadyOf(setup, stores, images, setup.services[i]);
    }
    forall i, j | 0 <= i < j < n ensures targets[i] != targets[j] {
      assert setup.services[i] != setup.services[j];
    }
  }

  lemma ReadyOf(setup: Setup, stores: map<string, AccountRegionBundle>, images: map<string, BundleImage>, s: string)
    requires Live(setup, stores) && Restorable(setup, images) && s in stores && s in images
    ensures Ready(stores[s], images[s])
  {
  }

  method RestoreAll(setup: Setup, stores: map<string, AccountRegionBundle>, images: map<string, BundleImage>)
    requires Registered(setup) && Live(setup, stores) && Restorable(setup, images) && images.Keys == stores.Keys
    modifies stores.Values
    ensures AllRestored(stores, images)
  {
    var targets, sources := Paired(setup, stores, images);
    RestoreEach(targets, sources);
    forall s | s in stores ensures RestoredFrom(stores[s], images[s]) {
      assert s in setup.services;
      var i :| 0 <= i < |targets| && setup.services[i] == s;
      assert targets[i] == stores[s] && sources[i] == images[s];
    }
  }

  /** All or nothing: if any check of the manifest or of any service fails, no bundle has changed; if all pass, every
      bundle holds what its snapshot holds, in the demanded topology. */
  method LoadAndRestore(setup: Setup, d: Disk, stores: map<string, AccountRegionBundle>) returns (r: Result<()>)
    requires Lawful(setup.lib) && Registered(setup) && Live(setup, stores)
    modifies stores.Values
    ensures match Load(setup, d)
            case Err(reason) => r == Err(reason) && unchanged(stores.Values)
            case Ok(None) => r.Ok? && unchanged(stores.Values)
            case Ok(Some(images)) => r.Ok? && AllRestored(stores, images)
  {
    if MANIFEST !in d.dir {
      return if d.dir == map[] then Ok(()) else Err(NoCommittedManifest);
    }
    var text := ReadFile(d, MANIFEST, MAX_MANIFEST_BYTES);
    if text.Err? { return Err(text.reason); }
    var manifest := DecodeManifest(setup, text.value);
    if manifest.Err? { return Err(manifest.reason); }
    var restored := DecodeAll(setup, d, manifest.value);
    if restored.Err? { return Err(restored.reason); }
    LoadedIsRestorable(setup, d, manifest.value, |setup.services|);
    ServiceKeys(setup);
    RestoreAll(setup, stores, restored.value);
    r := Ok(());
  }

  /** `load_service_snapshots`, from the contents of the disk: it succeeds exactly if they are those of a generation, or
      the directory is empty; then every bundle holds what the disk says, and otherwise none has changed. */
  method LoadServiceSnapshots(setup: Setup, d: Disk, stores: map<string, AccountRegionBundle>) returns (r: Result<()>)
    requires Lawful(setup.lib) && Registered(setup) && Live(setup, stores)
    modifies stores.Values
    ensures r.Ok? <==> d.dir == map[] || exists images :: LoadsAs(setup, d, images)
    ensures forall images :: LoadsAs(setup, d, images) ==> AllRestored(stores, images)
    ensures (forall images :: !LoadsAs(setup, d, images)) ==> unchanged(stores.Values)
  {
    LoadsAreLoaded(setup, d);
    NothingLoadsIff(setup, d);
    r := LoadAndRestore(setup, d, stores);
  }

  lemma LoadsAreLoaded(setup: Setup, d: Disk)
    requires Lawful(setup.lib) && Registered(setup)
    ensures forall images :: LoadsAs(setup, d, images) <==> Load(setup, d) == Ok(Some(images))
  {
    forall images ensures LoadsAs(setup, d, images) <==> Load(setup, d) == Ok(Some(images)) {
      LoadIff(setup, d, images);
    }
  }

  /** What a load does when the directory holds generation `gen`. */
  method LoadGeneration(setup: Setup, d: Disk, ghost gen: Option<Generation>, stores: map<string, AccountRegionBundle>)
    returns (r: Result<()>)
    requires Lawful(setup.lib) && Registered(setup) && Live(setup, stores) && Load(setup, d) == Expected(setup, d, gen)
    modifies stores.Values
    ensures gen.None? || Oversized(setup, gen.value) ==> unchanged(stores.Values)
    ensures gen.Some? && Oversized(setup, gen.value) ==> r == Err(UnreadableFile)
    ensures gen.Some? && !Oversized(setup, gen.value) ==> r.Ok? && AllRestored(stores, gen.value.images)
  {
    r := LoadAndRestore(setup, d, stores);
  }

  /** The manifest text is longer than a load is willing to read. */
  predicate Oversized(setup: Setup, gen: Generation) {
    |setup.lib.render(ManifestOf(setup, gen))| > MAX_MANIFEST_BYTES
  }

  method CrashDirectory(directory: SnapshotDirectory, choice: string -> nat, loss: nat -> Bytes)
    requires Lawful(directory.setup.lib) && directory.Valid()
    modifies directory
    ensures Registered(directory.setup) && OneOf(directory.stable, old(directory.stable), old(directory.pending))
    ensures Load(directory.setup, directory.disk) == Expected(directory.setup, directory.disk, directory.stable)
  {
    directory.Crash(choice, loss);
  }

  /** From end to end: whatever moment of whatever save the machine stops at, after a restart and a load all bundles
      together hold what one generation, the committed or the pending one, was given to save. */
  method Restart(directory: SnapshotDirectory, choice: string -> nat, loss: nat -> Bytes,
                 stores: map<string, AccountRegionBundle>) returns (r: Result<()>)
    requires Lawful(directory.setup.lib) && directory.Valid() && Live(directory.setup, stores)
    modifies directory, stores.Values
    ensures OneOf(directory.stable, old(directory.stable), old(directory.pending))
    ensures directory.stable.None? || Oversized(directory.setup, directory.stable.value) ==> unchanged(stores.Values)
    ensures directory.stable.Some? && !Oversized(directory.setup, directory.stable.value) ==>
              r.Ok? && AllRestored(stores, directory.stable.value.images)
  {
    CrashDirectory(directory, choice, loss);
    r := LoadGeneration(directory.setup, directory.disk, directory.stable, stores);
  }

  predicate FilesAtLeast(m: Manifest, c: nat) {
    forall s :: s in m.files ==> |m.files[s].filename| + |m.files[s].sha256| >= c
  }

  /** The manifest text spells out the name and the digest of every file. */
  ghost predicate SpellsOutFiles(lib: Libraries) {
    forall m: Manifest, c: nat :: FilesAtLeast(m, c) ==> |lib.render(m)| >= c * |m.files|
  }

  /** A file name has at least 40 characters and a digest 64, so this many services are more than 64 KiB. */
  const TOO_MANY_SERVICES: nat := 631

  lemma ManyServicesAreOversized(setup: Setup, gen: Generation)
    requires Lawful(setup.lib) && Registered(setup) && Genuine(setup, gen)
    requires SpellsOutFiles(setup.lib) && |setup.registry| >= TOO_MANY_SERVICES
    ensures Oversized(setup, gen)
  {
    var m := ManifestOf(setup, gen);
    assert FilesAtLeast(m, 104);
    assert m.files.Keys == setup.registry.Keys;
    assert |m.files| == |m.files.Keys| && |setup.registry| == |setup.registry.Keys|;
  }

  /** Saving checks no such limit, so a committed generation may be beyond reach: it loads if and only if its manifest
      fits, and with enough services it never does. */
  lemma CommittedLoadsIffManifestFits(setup: Setup, m: Moment)
    requires Lawful(setup.lib) && Registered(setup) && Consistent(setup, m)
    requires m.stable.Some? && m.pending.None? && m.disk.window == [m.disk.dir]
    ensures Load(setup, m.disk) == Ok(Some(m.stable.value.images)) <==> !Oversized(setup, m.stable.value)
    ensures SpellsOutFiles(setup.lib) && |setup.registry| >= TOO_MANY_SERVICES ==>
             Load(setup, m.disk) == Err(UnreadableFile)
  {
    LoadReadsSurvivor(setup, m);
    if SpellsOutFiles(setup.lib) && |setup.registry| >= TOO_MANY_SERVICES {
      ManyServicesAreOversized(setup, m.stable.value);
    }
  }

  /** A save that answers that it succeeded, a crash, and the next load. */
  method SaveThenRestart(directory: SnapshotDirectory, stores: map<string, BundleImage>, generation: string,
                         nonce: Bytes, choice: string -> nat, loss: nat -> Bytes)
    returns (saved: Result<()>, loaded: Result<Option<map<string, BundleImage>>>)
    requires Lawful(directory.setup.lib) && directory.Valid() && directory.FreshId(generation)
    requires AcceptableSave(directory.setup, SaveEvent(stores, generation, nonce))
    modifies directory
    ensures Registered(directory.setup) && loaded == Load(directory.setup, directory.disk)
    ensures saved.Ok? ==>
      && Saves(directory.stable, generation, stores)
      && loaded == if Oversized(directory.setup, directory.stable.value) then Err(UnreadableFile) else Ok(Some(stores))
    ensures saved.Ok? && SpellsOutFiles(directory.setup.lib) && |directory.setup.registry| >= TOO_MANY_SERVICES ==>
      loaded == Err(UnreadableFile)
  {
    saved := directory.Save(stores, generation, nonce);
    directory.Crash(choice, loss);
    loaded := Load(directory.setup, directory.disk);
    if saved.Ok? && SpellsOutFiles(directory.setup.lib) && |directory.setup.registry| >= TOO_MANY_SERVICES {
      ManyServicesAreOversized(directory.setup, directory.stable.value);
    }
  }

  /** Three digits. */
  function Numbered(i: nat): (s: string)
    ensures |s| == 3
  {
    var ds := Write(i, 10, 3);
    ['0' + ds[0] as char, '0' + ds[1] as char, '0' + ds[2] as char]
  }

  lemma NumberedDiffer(i: nat, j: nat)
    requires i < 1000 && j < 1000 && Numbered(i) == Numbered(j)
    ensures i == j
  {
    assert Power(10, 1) == 10 && Power(10, 2) == 100 && Power(10, 3) == 1000;
    ValueOfWrite(i, 10, 3);
    ValueOfWrite(j, 10, 3);
    var a, b := Write(i, 10, 3), Write(j, 10, 3);
    assert Numbered(i)[0] == Numbered(j)[0] && Numbered(i)[1] == Numbered(j)[1] && Numbered(i)[2] == Numbered(j)[2];
    assert a == b;
  }

  function FirstNames(n: nat): seq<string> {
    if n == 0 then [] else FirstNames(n - 1) + [Numbered(n - 1)]
  }

  function NameSet(names: seq<string>): set<string> { set s | s in names }

  predicate NumberedBelow(s: string, n: nat) {
    exists i :: 0 <= i < n && s == Numbered(i)
  }

  lemma {:induction false} NamesNumbered(n: nat)
    ensures forall s :: s in FirstNames(n) ==> NumberedBelow(s, n)
  {
    if n > 0 {
      NamesNumbered(n - 1);
      forall s | s in FirstNames(n) ensures NumberedBelow(s, n) {
        if s in FirstNames(n - 1) { assert NumberedBelow(s, n - 1); }
      }
    }
  }

  lemma NewNumber(n: nat)
    requires n < 1000
    ensures !NumberedBelow(Numbered(n), n)
  {
    if NumberedBelow(Numbered(n), n) {
      var i :| 0 <= i < n && Numbered(n) == Numbered(i);
      NumberedDiffer(i, n);
      assert false;
    }
  }

  lemma {:induction false} NamesCounted(n: nat)
    requires n <= 1000
    ensures |NameSet(FirstNames(n))| == n
  {
    if n > 0 {
      NamesCounted(n - 1);
      NamesNumbered(n - 1);
      NewNumber(n - 1);
      assert Numbered(n - 1) !in FirstNames(n - 1);
      assert NameSet(FirstNames(n)) == NameSet(FirstNames(n - 1)) + {Numbered(n - 1)};
    }
  }

  lemma NumberedIsService(i: nat)
    ensures IsService(Numbered(i))
  {
  }

  /** There are such sets of services, of any size up to a thousand, with names of three characters. */
  lemma ManyServicesExist(lib: Libraries, key: Option<Bytes>, n: nat) returns (setup: Setup)
    requires 0 < n <= 1000
    ensures Registered(setup) && setup.lib == lib && setup.key == key && |setup.registry| == n
    ensures forall s :: s in setup.services ==> |s| == 3
  {
    NamesCounted(n);
    NamesNumbered(n);
    var names := FirstNames(n);
    setup := Setup(lib, key, names, map s | s in names :: Registration(s, 0, true));
    assert setup.registry.Keys == NameSet(names);
    forall s | s in names ensures IsService(s) && |s| == 3 {
      assert NumberedBelow(s, n);
      var i :| 0 <= i < n && s == Numbered(i);
      NumberedIsService(i);
    }
  }
}
