/** The snapshot directory as a file system may keep it: names point to inodes, file contents survive a crash
    only once synced, and every directory content seen since the last directory sync may still come back,
    name by name. */
module SnapshotDisk {
  import opened Options
  import opened BundleImages
  import opened SnapshotFormat

  const MANIFEST: string := "manifest.json"

  type Directory = map<string, nat>

  /** `dir` is what the process sees; `window` lists the directory contents since the last directory sync, the
      durable one first and `dir` last; `synced` are the inodes whose contents are on stable storage. */
  datatype Disk = Disk(dir: Directory, window: seq<Directory>, data: map<nat, Bytes>, synced: set<nat>, next: nat)

  /** What stays fixed between saves and loads: libraries, encryption key, registered stores in lock order. */
  datatype Setup = Setup(lib: Libraries, key: Option<Bytes>, services: seq<string>, registry: map<string, Registration>)

  /** One saved generation: the bundles that went in and the bytes written for each of them. */
  datatype Generation = Generation(id: string, images: map<string, BundleImage>, files: map<string, Bytes>)

  /** `stable` is the last committed generation; `pending` one whose manifest is on its way to the directory. */
  datatype Moment = Moment(disk: Disk, stable: Option<Generation>, pending: Option<Generation>)

  // ---------------------------------------------------------------- names

  predicate IsServiceChar(c: char) { 'a' <= c <= 'z' || '0' <= c <= '9' || c == '-' }
  predicate IsService(s: string) { s != "" && forall i :: 0 <= i < |s| ==> IsServiceChar(s[i]) }
  predicate IsGenerationId(g: string) {
    |g| == 32 && forall i :: 0 <= i < 32 ==> 'a' <= g[i] <= 'f' || '0' <= g[i] <= '9'
  }

  function GenerationFilename(service: string, generation: string): string {
    service + "." + generation + ".state"
  }

  function TemporaryName(filename: string, unique: string): string {
    "." + filename + "." + unique + ".tmp"
  }

  predicate EndsWith(name: string, suffix: string) {
    |suffix| <= |name| && name[|name| - |suffix|..] == suffix
  }

  /** Names of different services or generations never collide, with each other or with the manifest. */
  lemma FilenamesInjective(s: string, g: string, s': string, g': string)
    requires |g| == |g'| == 32
    requires GenerationFilename(s, g) == GenerationFilename(s', g')
    ensures s == s' && g == g'
  {
    var n := GenerationFilename(s, g);
    assert |s| == |s'|;
    assert n[..|s|] == s && n[..|s|] == s';
    assert n[|s| + 1..|s| + 33] == g && n[|s| + 1..|s| + 33] == g';
  }

  lemma FilenameIsNotManifest(s: string, g: string)
    ensures GenerationFilename(s, g) != MANIFEST
  {
    var n := GenerationFilename(s, g);
    assert n[|n| - 1] == 'e' && MANIFEST[|MANIFEST| - 1] == 'n';
  }

  // ---------------------------------------------------------------- file system steps

  predicate WellFormed(d: Disk) {
    && |d.window| > 0 && d.window[|d.window| - 1] == d.dir
    && (forall k, n :: 0 <= k < |d.window| && n in d.window[k] ==> d.window[k][n] in d.data)
    && (forall i :: i in d.data ==> i < d.next)
    && d.synced <= d.data.Keys
  }

  /** The directory changes; the change may or may not survive a crash. */
  function Relinked(d: Disk, dir: Directory): Disk {
    d.(dir := dir, window := d.window + [dir])
  }

  function Created(d: Disk, name: string): Disk {
    Relinked(d.(data := d.data[d.next := []], next := d.next + 1), d.dir[name := d.next])
  }

  function Appended(d: Disk, inode: nat, chunk: Bytes): Disk
    requires inode in d.data
  {
    d.(data := d.data[inode := d.data[inode] + chunk], synced := d.synced - {inode})
  }

  function FileSynced(d: Disk, inode: nat): Disk {
    d.(synced := d.synced + {inode})
  }

  function Replaced(d: Disk, source: string, target: string): Disk
    requires source in d.dir
  {
    Relinked(d, (d.dir - {source})[target := d.dir[source]])
  }

  function Unlinked(d: Disk, name: string): Disk {
    Relinked(d, d.dir - {name})
  }

  function DirectorySynced(d: Disk): Disk {
    d.(window := [d.dir])
  }

  function NamesSeen(window: seq<Directory>): set<string> {
    if window == [] then {} else window[0].Keys + NamesSeen(window[1..])
  }

  lemma {:induction false} NamesSeenAll(window: seq<Directory>, k: nat, n: string)
    requires k < |window| && n in window[k]
    ensures n in NamesSeen(window)
  {
    if k > 0 { NamesSeenAll(window[1..], k - 1, n); }
  }

  /** A crash: each name independently keeps any entry (or absence) it had since the last directory sync, and an
      unsynced file comes back with whatever bytes `loss` says. */
  function Crashed(d: Disk, choice: string -> nat, loss: nat -> Bytes): Disk
    requires |d.window| > 0
  {
    var dir := map n | n in NamesSeen(d.window) && n in d.window[choice(n) % |d.window|]
                 :: d.window[choice(n) % |d.window|][n];
    Disk(dir, [dir], map i | i in d.data :: if i in d.synced then d.data[i] else loss(i), d.data.Keys, d.next)
  }

  lemma CrashedEntry(d: Disk, choice: string -> nat, loss: nat -> Bytes, n: string)
    requires |d.window| > 0
    ensures var dir := Crashed(d, choice, loss).dir;
            var survivor := d.window[choice(n) % |d.window|];
            (n in dir <==> n in survivor) && (n in dir ==> dir[n] == survivor[n])
  {
    if n in d.window[choice(n) % |d.window|] { NamesSeenAll(d.window, choice(n) % |d.window|, n); }
  }

  // ---------------------------------------------------------------- reading a generation back

  function ManifestOf(setup: Setup, gen: Generation): Manifest {
    Manifest(FORMAT, gen.id, setup.services,
             map s | s in gen.files ::
               FileMeta(GenerationFilename(s, gen.id), setup.lib.sha(gen.files[s]), |gen.files[s]|))
  }

  /** `_read_secure_file`, its ownership and mode checks aside. */
  function ReadFile(d: Disk, name: string, maximum: nat): Result<Bytes> {
    if name !in d.dir || d.dir[name] !in d.data || |d.data[d.dir[name]]| > maximum then Err(UnreadableFile)
    else Ok(d.data[d.dir[name]])
  }

  predicate ManifestAccepted(m: Manifest, services: seq<string>) {
    && m.format == FORMAT
    && m.services == services
    && IsGenerationId(m.generation)
    && m.files.Keys == (set s | s in services)
    && forall s :: s in services ==> s in m.files && MetaAccepted(m.files[s], s, m.generation)
  }

  predicate MetaAccepted(meta: FileMeta, service: string, generation: string) {
    && meta.filename == GenerationFilename(service, generation)
    && |meta.sha256| == 64 && IsHex(meta.sha256)
    && 0 < meta.size <= MAX_FILE_BYTES
  }

  function DecodeManifest(setup: Setup, text: Bytes): (r: Result<Manifest>)
    ensures r.Ok? ==> ManifestAccepted(r.value, setup.services)
  {
    match setup.lib.parse(text)
    case None => Err(InvalidManifest)
    case Some(m) => if ManifestAccepted(m, setup.services) then Ok(m) else Err(InvalidManifest)
  }

  /** One pass of the load loop: read, compare size and digest, decode. */
  function LoadService(setup: Setup, d: Disk, meta: FileMeta, service: string): Result<BundleImage>
    requires service in setup.registry
  {
    match ReadFile(d, meta.filename, MAX_FILE_BYTES)
    case Err(reason) => Err(reason)
    case Ok(data) =>
      if |data| != meta.size || setup.lib.sha(data) != meta.sha256 then Err(ManifestIntegrity)
      else DecodeSnapshot(setup.lib, service, data, setup.registry[service], setup.key)
  }

  predicate Registered(setup: Setup) {
    && setup.services != []
    && (forall s :: s in setup.services ==> s in setup.registry)
    && (forall s :: s in setup.registry ==> s in setup.services)
    && (forall s :: s in setup.services ==> IsService(s))
  }

  /** The first `n` services, in order; the first failure stops the load. */
  function LoadServices(setup: Setup, d: Disk, m: Manifest, n: nat): (r: Result<map<string, BundleImage>>)
    requires Registered(setup) && ManifestAccepted(m, setup.services) && n <= |setup.services|
    ensures r.Ok? ==> r.value.Keys == set s | s in setup.services[..n]
  {
    if n == 0 then Ok(map[])
    else
      match LoadServices(setup, d, m, n - 1)
      case Err(reason) => Err(reason)
      case Ok(images) =>
        var s := setup.services[n - 1];
        assert setup.services[..n] == setup.services[..n - 1] + [s];
        match LoadService(setup, d, m.files[s], s)
        case Err(reason) => Err(reason)
        case Ok(image) => Ok(images[s := image])
  }

  /** The reading half of `load_service_snapshots`; `Ok(None)` is the empty first start. */
  function Load(setup: Setup, d: Disk): Result<Option<map<string, BundleImage>>>
    requires Registered(setup)
  {
    if MANIFEST !in d.dir then
      if d.dir == map[] then Ok(None) else Err(NoCommittedManifest)
    else
      match ReadFile(d, MANIFEST, MAX_MANIFEST_BYTES)
      case Err(reason) => Err(reason)
      case Ok(text) =>
        match DecodeManifest(setup, text)
        case Err(reason) => Err(reason)
        case Ok(m) =>
          match LoadServices(setup, d, m, |setup.services|)
          case Err(reason) => Err(reason)
          case Ok(images) => Ok(Some(images))
  }

  // ---------------------------------------------------------------- the invariant

  /** One file per registered service, under a usable generation id. */
  predicate Addressed(setup: Setup, gen: Generation) {
    IsGenerationId(gen.id) && gen.files.Keys == setup.registry.Keys
  }

  /** A generation whose files decode to the bundles it was made from. */
  predicate Genuine(setup: Setup, gen: Generation) {
    && Addressed(setup, gen) && gen.images.Keys == setup.registry.Keys
    && forall s :: s in gen.files ==>
         && 0 < |gen.files[s]| <= MAX_FILE_BYTES
         && DecodeSnapshot(setup.lib, s, gen.files[s], setup.registry[s], setup.key) == Ok(gen.images[s])
  }

  predicate Holds(d: Disk, dir: Directory, name: string, bytes: Bytes) {
    name in dir && dir[name] in d.synced && dir[name] in d.data && d.data[dir[name]] == bytes
  }

  /** All files of the generation are in `dir`, complete and synced. */
  predicate Stored(d: Disk, dir: Directory, gen: Generation) {
    forall s :: s in gen.files ==> Holds(d, dir, GenerationFilename(s, gen.id), gen.files[s])
  }

  /** The manifest in `dir` is that of `gen`; with no generation, there is none. */
  predicate Shows(setup: Setup, d: Disk, dir: Directory, gen: Option<Generation>) {
    match gen
    case None => MANIFEST !in dir
    case Some(g) => Holds(d, dir, MANIFEST, setup.lib.render(ManifestOf(setup, g)))
  }

  /** A directory content that a crash may bring back without harm. */
  predicate SafeDirectory(setup: Setup, m: Moment, dir: Directory) {
    && (Shows(setup, m.disk, dir, m.stable) || (m.pending.Some? && Shows(setup, m.disk, dir, m.pending)))
    && (m.stable.Some? ==> Stored(m.disk, dir, m.stable.value))
    && (m.pending.Some? ==> Stored(m.disk, dir, m.pending.value))
  }

  predicate Consistent(setup: Setup, m: Moment) {
    && WellFormed(m.disk)
    && (m.stable.Some? ==> Genuine(setup, m.stable.value))
    && (m.pending.Some? ==> Genuine(setup, m.pending.value))
    && forall k :: 0 <= k < |m.disk.window| ==> SafeDirectory(setup, m, m.disk.window[k])
  }

  /** Names that a surviving manifest may point to. */
  predicate Protected(m: Moment, name: string) {
    || name == MANIFEST
    || (m.stable.Some? && exists s :: s in m.stable.value.files && name == GenerationFilename(s, m.stable.value.id))
    || (m.pending.Some? && exists s :: s in m.pending.value.files && name == GenerationFilename(s, m.pending.value.id))
  }

  predicate SameEntry(dir: Directory, dir': Directory, name: string) {
    (name in dir <==> name in dir') && (name in dir ==> dir[name] == dir'[name])
  }

  lemma TemporaryIsUnprotected(setup: Setup, m: Moment, filename: string, unique: string)
    requires Registered(setup) && Consistent(setup, m)
    ensures !Protected(m, TemporaryName(filename, unique))
  {
    var t := TemporaryName(filename, unique);
    assert t[0] == '.' && MANIFEST[0] == 'm';
    forall s, g | s in setup.registry ensures GenerationFilename(s, g) != t {
      assert IsServiceChar(s[0]) && GenerationFilename(s, g)[0] == s[0];
    }
  }

  predicate KeepsSynced(d: Disk, d': Disk) {
    forall i :: i in d.synced && i in d.data ==> i in d'.synced && i in d'.data && d'.data[i] == d.data[i]
  }

  lemma HoldsTransfer(d: Disk, dir: Directory, d': Disk, dir': Directory, name: string, bytes: Bytes)
    requires KeepsSynced(d, d') && SameEntry(dir, dir', name) && Holds(d, dir, name, bytes)
    ensures Holds(d', dir', name, bytes)
  {
  }

  lemma StoredTransfer(m: Moment, dir: Directory, d': Disk, dir': Directory, gen: Generation)
    requires Some(gen) in {m.stable, m.pending}
    requires KeepsSynced(m.disk, d') && forall n :: Protected(m, n) && n != MANIFEST ==> SameEntry(dir, dir', n)
    requires Stored(m.disk, dir, gen)
    ensures Stored(d', dir', gen)
  {
    forall s | s in gen.files ensures Holds(d', dir', GenerationFilename(s, gen.id), gen.files[s]) {
      FilenameIsNotManifest(s, gen.id);
      assert Protected(m, GenerationFilename(s, gen.id));
      HoldsTransfer(m.disk, dir, d', dir', GenerationFilename(s, gen.id), gen.files[s]);
    }
  }

  /** Safety of a directory depends only on its protected entries and on synced contents. */
  lemma SafeTransfer(setup: Setup, m: Moment, dir: Directory, d': Disk, dir': Directory)
    requires KeepsSynced(m.disk, d') && SafeDirectory(setup, m, dir)
    requires forall n :: Protected(m, n) ==> SameEntry(dir, dir', n)
    ensures SafeDirectory(setup, m.(disk := d'), dir')
  {
    assert Protected(m, MANIFEST);
    if m.stable.Some? { StoredTransfer(m, dir, d', dir', m.stable.value); }
    if m.pending.Some? { StoredTransfer(m, dir, d', dir', m.pending.value); }
  }

  lemma RelinkWellFormed(d: Disk, dir: Directory)
    requires WellFormed(d) && forall n :: n in dir ==> dir[n] in d.data
    ensures WellFormed(Relinked(d, dir))
  {
  }

  /** Linking, renaming or unlinking an unprotected name is harmless at any time. */
  lemma RelinkKeepsConsistency(setup: Setup, m: Moment, dir: Directory)
    requires Consistent(setup, m)
    requires forall n :: Protected(m, n) ==> SameEntry(m.disk.dir, dir, n)
    requires forall n :: n in dir ==> dir[n] in m.disk.data
    ensures Consistent(setup, m.(disk := Relinked(m.disk, dir)))
  {
    var d' := Relinked(m.disk, dir);
    RelinkWellFormed(m.disk, dir);
    assert SafeDirectory(setup, m, m.disk.window[|m.disk.window| - 1]);
    forall k | 0 <= k < |d'.window| ensures SafeDirectory(setup, m.(disk := d'), d'.window[k]) {
      if k < |m.disk.window| {
        SafeTransfer(setup, m, m.disk.window[k], d', m.disk.window[k]);
      } else {
        SafeTransfer(setup, m, m.disk.dir, d', dir);
      }
    }
  }

  /** So is any change to files that were not synced yet. */
  lemma DataChangeKeepsConsistency(setup: Setup, m: Moment, d': Disk)
    requires Consistent(setup, m) && WellFormed(d') && d'.window == m.disk.window && KeepsSynced(m.disk, d')
    ensures Consistent(setup, m.(disk := d'))
  {
    forall k | 0 <= k < |d'.window| ensures SafeDirectory(setup, m.(disk := d'), d'.window[k]) {
      SafeTransfer(setup, m, m.disk.window[k], d', m.disk.window[k]);
    }
  }

  /** The commit point: the manifest of `pending` takes the place of the old one in a single rename. */
  lemma ManifestRenameKeepsConsistency(setup: Setup, m: Moment, source: string)
    requires Consistent(setup, m) && m.pending.Some?
    requires !Protected(m, source)
    requires Holds(m.disk, m.disk.dir, source, setup.lib.render(ManifestOf(setup, m.pending.value)))
    ensures Consistent(setup, m.(disk := Replaced(m.disk, source, MANIFEST)))
  {
    var d' := Replaced(m.disk, source, MANIFEST);
    RelinkWellFormed(m.disk, d'.dir);
    assert SafeDirectory(setup, m, m.disk.window[|m.disk.window| - 1]);
    RenamedManifestIsSafe(setup, m, source);
    forall k | 0 <= k < |d'.window| ensures SafeDirectory(setup, m.(disk := d'), d'.window[k]) {
      if k < |m.disk.window| {
        SafeTransfer(setup, m, m.disk.window[k], d', m.disk.window[k]);
      }
    }
  }

  lemma RenamedManifestIsSafe(setup: Setup, m: Moment, source: string)
    requires SafeDirectory(setup, m, m.disk.dir) && m.pending.Some?
    requires !Protected(m, source)
    requires Holds(m.disk, m.disk.dir, source, setup.lib.render(ManifestOf(setup, m.pending.value)))
    ensures var d' := Replaced(m.disk, source, MANIFEST); SafeDirectory(setup, m.(disk := d'), d'.dir)
  {
    var d' := Replaced(m.disk, source, MANIFEST);
    forall n | Protected(m, n) && n != MANIFEST ensures SameEntry(m.disk.dir, d'.dir, n) { assert n != source; }
    if m.stable.Some? { StoredTransfer(m, m.disk.dir, d', d'.dir, m.stable.value); }
    StoredTransfer(m, m.disk.dir, d', d'.dir, m.pending.value);
    assert Shows(setup, d', d'.dir, m.pending);
  }

  /** `gen` is the committed generation or, if there is one, the pending one. */
  predicate OneOf(gen: Option<Generation>, stable: Option<Generation>, pending: Option<Generation>) {
    gen == stable || (pending.Some? && gen == pending)
  }

  /** Which generation is the committed one once `dir` is all that is left. */
  function Survivor(setup: Setup, m: Moment, d: Disk): Option<Generation> {
    if m.pending.Some? && Shows(setup, d, d.dir, m.pending) then m.pending else m.stable
  }

  function Settled(setup: Setup, m: Moment, d: Disk): Moment {
    Moment(d, Survivor(setup, m, d), None)
  }

  lemma DirectorySyncKeepsConsistency(setup: Setup, m: Moment)
    requires Consistent(setup, m)
    ensures Consistent(setup, Settled(setup, m, DirectorySynced(m.disk)))
  {
    assert SafeDirectory(setup, m, m.disk.window[|m.disk.window| - 1]);
  }

  /** Crash consistency of one moment: whatever the crash keeps, what is left is the last committed generation or
      the one being committed, with every file its manifest names present and complete. */
  lemma CrashKeepsConsistency(setup: Setup, m: Moment, choice: string -> nat, loss: nat -> Bytes)
    requires Consistent(setup, m)
    ensures Consistent(setup, Settled(setup, m, Crashed(m.disk, choice, loss)))
    ensures OneOf(Survivor(setup, m, Crashed(m.disk, choice, loss)), m.stable, m.pending)
  {
    var d := m.disk;
    var d' := Crashed(d, choice, loss);
    forall n ensures SameEntry(d'.dir, d.window[choice(n) % |d.window|], n) { CrashedEntry(d, choice, loss, n); }
    forall n ensures SafeDirectory(setup, m, d.window[choice(n) % |d.window|]) { }
    assert SafeDirectory(setup, m, d.window[choice(MANIFEST) % |d.window|]);
    assert SameEntry(d'.dir, d.window[choice(MANIFEST) % |d.window|], MANIFEST);
    forall gen | gen in {m.stable, m.pending} && gen.Some? ensures Stored(d', d'.dir, gen.value) {
      forall s | s in gen.value.files
        ensures Holds(d', d'.dir, GenerationFilename(s, gen.value.id), gen.value.files[s])
      {
        var n := GenerationFilename(s, gen.value.id);
        assert SafeDirectory(setup, m, d.window[choice(n) % |d.window|]);
        assert Holds(d, d.window[choice(n) % |d.window|], n, gen.value.files[s]);
        assert SameEntry(d'.dir, d.window[choice(n) % |d.window|], n);
      }
    }
    assert SafeDirectory(setup, Settled(setup, m, d'), d'.dir);
  }

  // ---------------------------------------------------------------- what a load returns

  /** All services of one generation together, or nothing at all. The only way a committed generation can fail to
      load is a manifest text above the loader's 64 KiB limit, which the save does not check. */
  function Expected(setup: Setup, d: Disk, gen: Option<Generation>): Result<Option<map<string, BundleImage>>> {
    match gen
    case None => if d.dir == map[] then Ok(None) else Err(NoCommittedManifest)
    case Some(g) =>
      if |setup.lib.render(ManifestOf(setup, g))| <= MAX_MANIFEST_BYTES then Ok(Some(g.images)) else Err(UnreadableFile)
  }

  lemma LoadServiceReads(setup: Setup, d: Disk, gen: Generation, s: string)
    requires s in setup.registry && Genuine(setup, gen)
    requires Holds(d, d.dir, GenerationFilename(s, gen.id), gen.files[s])
    ensures LoadService(setup, d, ManifestOf(setup, gen).files[s], s) == Ok(gen.images[s])
  {
  }

  predicate Within(images: map<string, BundleImage>, all: map<string, BundleImage>) {
    forall s :: s in images ==> s in all && images[s] == all[s]
  }

  lemma {:induction false} LoadServicesReadsGeneration(setup: Setup, d: Disk, gen: Generation, n: nat)
    requires Registered(setup) && Genuine(setup, gen) && Stored(d, d.dir, gen)
    requires ManifestAccepted(ManifestOf(setup, gen), setup.services)
    requires n <= |setup.services|
    ensures var r := LoadServices(setup, d, ManifestOf(setup, gen), n); r.Ok? && Within(r.value, gen.images)
  {
    if n > 0 {
      LoadServicesReadsGeneration(setup, d, gen, n - 1);
      var s := setup.services[n - 1];
      assert s in setup.registry;
      LoadServiceReads(setup, d, gen, s);
    }
  }

  lemma ManifestOfAccepted(setup: Setup, gen: Generation)
    requires Lawful(setup.lib) && Registered(setup) && Genuine(setup, gen)
    ensures ManifestAccepted(ManifestOf(setup, gen), setup.services)
  {
    var m := ManifestOf(setup, gen);
    assert m.files.Keys == set s | s in setup.services;
    forall s | s in setup.services ensures s in m.files && MetaAccepted(m.files[s], s, m.generation) {
      assert s in gen.files;
    }
  }

  lemma ServiceKeys(setup: Setup)
    requires Registered(setup)
    ensures (set s | s in setup.services[..|setup.services|]) == setup.registry.Keys
  {
  }

  lemma LoadServicesReadsAll(setup: Setup, d: Disk, gen: Generation)
    requires Registered(setup) && Genuine(setup, gen) && Stored(d, d.dir, gen)
    requires ManifestAccepted(ManifestOf(setup, gen), setup.services)
    ensures LoadServices(setup, d, ManifestOf(setup, gen), |setup.services|) == Ok(gen.images)
  {
    LoadServicesReadsGeneration(setup, d, gen, |setup.services|);
    ServiceKeys(setup);
    WithinIsEqual(LoadServices(setup, d, ManifestOf(setup, gen), |setup.services|).value, gen.images);
  }

  lemma WithinIsEqual(images: map<string, BundleImage>, all: map<string, BundleImage>)
    requires Within(images, all) && images.Keys == all.Keys
    ensures images == all
  {
  }

  lemma LoadReadsGeneration(setup: Setup, d: Disk, gen: Generation)
    requires Registered(setup) && Genuine(setup, gen) && Stored(d, d.dir, gen)
    requires ManifestAccepted(ManifestOf(setup, gen), setup.services)
    requires setup.lib.parse(setup.lib.render(ManifestOf(setup, gen))) == Some(ManifestOf(setup, gen))
    requires Shows(setup, d, d.dir, Some(gen))
    ensures Load(setup, d) == Expected(setup, d, Some(gen))
  {
    LoadServicesReadsAll(setup, d, gen);
  }

  /** A settled directory loads exactly the generation it holds. */
  lemma LoadReadsSurvivor(setup: Setup, m: Moment)
    requires Lawful(setup.lib) && Registered(setup) && Consistent(setup, m) && m.pending.None?
    ensures Load(setup, m.disk) == Expected(setup, m.disk, m.stable)
  {
    assert SafeDirectory(setup, m, m.disk.window[|m.disk.window| - 1]);
    if m.stable.Some? {
      ManifestOfAccepted(setup, m.stable.value);
      LoadReadsGeneration(setup, m.disk, m.stable.value);
    }
  }

  predicate LoadsOneOf(setup: Setup, m: Moment, d: Disk)
    requires Registered(setup)
  {
    || Load(setup, d) == Expected(setup, d, m.stable)
    || (m.pending.Some? && Load(setup, d) == Expected(setup, d, m.pending))
  }

  /** Crash, restart, load: the result is that of the last committed generation or of the one being committed. */
  lemma LoadAfterCrash(setup: Setup, m: Moment, choice: string -> nat, loss: nat -> Bytes)
    requires Lawful(setup.lib) && Registered(setup) && Consistent(setup, m)
    ensures LoadsOneOf(setup, m, Crashed(m.disk, choice, loss))
  {
    CrashKeepsConsistency(setup, m, choice, loss);
    LoadReadsSurvivor(setup, Settled(setup, m, Crashed(m.disk, choice, loss)));
  }
}
