/** What a load accepts, said from the contents of the disk. */
module SnapshotLoad {
  import opened Options
  import opened BundleImages
  import opened SnapshotFormat
  import opened SnapshotDisk

  predicate FileHas(d: Disk, name: string, bytes: Bytes) {
    name in d.dir && d.dir[name] in d.data && d.data[d.dir[name]] == bytes
  }

  /** A bundle for the receiving one: the same service, store class and validation throughout; every account's bundle on
      the same lock and cross-account dictionary; every store under its own account and region, an instance of the
      store class, on its account's cross-region and the bundle's cross-account dictionary. */
  ghost predicate Fits(image: BundleImage, target: Registration) {
    && image.service == target.service && image.storeClass == target.storeClass && image.validate == target.validate
    && (forall a :: a in image.accounts ==>
          var b := image.accounts[a];
          && b.account == a && b.service == target.service && b.storeClass == target.storeClass
          && b.validate == target.validate && b.lockRef == image.lockRef && b.universalRef == image.universalRef)
    && (forall a, r :: a in image.accounts && r in image.accounts[a].stores ==>
          var s := image.accounts[a].stores[r];
          && s.account == a && s.region == r && s.service == target.service && target.storeClass in s.classes
          && s.globalRef == image.accounts[a].globalRef && s.universalRef == image.universalRef)
  }

  lemma AcceptedIffFits(image: BundleImage, target: Registration)
    ensures Accepted(image, target) <==> Fits(image, target)
  {
    if Accepted(image, target) {
      assert forall a :: a in image.accounts ==> RegionAccepted(image, a, image.accounts[a]);
    }
  }

  /** `data` is a snapshot of a bundle that fits, and that bundle is `image`. */
  ghost predicate SnapshotOf(setup: Setup, s: string, data: Bytes, image: BundleImage)
    requires s in setup.registry
  {
    && Fits(image, setup.registry[s])
    && exists payload :: IsSnapshot(setup.lib, s, setup.key, data, payload) && setup.lib.loads(payload) == Some(image)
  }

  /** The file that the manifest names for a service has the length and the digest that it states, and is a snapshot. */
  ghost predicate EntryLoads(setup: Setup, d: Disk, meta: FileMeta, s: string, image: BundleImage)
    requires s in setup.registry
  {
    exists data :: FileHas(d, meta.filename, data) &&
      |data| == meta.size && |data| <= MAX_FILE_BYTES && setup.lib.sha(data) == meta.sha256 &&
      SnapshotOf(setup, s, data, image)
  }

  /** The manifest's entry for a service is well formed, and its file loads. */
  ghost predicate EntryIs(setup: Setup, d: Disk, m: Manifest, s: string, image: BundleImage)
    requires s in setup.registry && s in m.files
  {
    && m.files[s].filename == s + "." + m.generation + ".state" && 0 < m.files[s].size
    && |m.files[s].sha256| == 64 && IsHex(m.files[s].sha256)
    && EntryLoads(setup, d, m.files[s], s, image)
  }

  ghost predicate ManifestLoads(setup: Setup, d: Disk, m: Manifest, images: map<string, BundleImage>) {
    && m.format == "localstack-native-state-v1" && m.services == setup.services
    && |m.generation| == 32
    && (forall i :: 0 <= i < 32 ==> 'a' <= m.generation[i] <= 'f' || '0' <= m.generation[i] <= '9')
    && images.Keys == setup.registry.Keys && m.files.Keys == setup.registry.Keys
    && forall s :: s in setup.registry ==> EntryIs(setup, d, m, s, images[s])
  }

  /** The manifest is there, is not too large and is that of a generation whose every file is as it says. */
  ghost predicate LoadsAs(setup: Setup, d: Disk, images: map<string, BundleImage>) {
    exists text :: FileHas(d, MANIFEST, text) &&
      |text| <= 65536 && setup.lib.parse(text).Some? && ManifestLoads(setup, d, setup.lib.parse(text).value, images)
  }

  lemma DecodesIff(setup: Setup, s: string, data: Bytes, image: BundleImage)
    requires Lawful(setup.lib) && s in setup.registry
    ensures DecodeSnapshot(setup.lib, s, data, setup.registry[s], setup.key) == Ok(image) <==>
              SnapshotOf(setup, s, data, image)
  {
    AcceptedIffFits(image, setup.registry[s]);
    forall payload ensures OpenSnapshot(setup.lib, s, data, setup.key) == Ok(payload) <==>
                             IsSnapshot(setup.lib, s, setup.key, data, payload) {
      OpensIffSnapshot(setup.lib, s, data, setup.key, payload);
    }
  }

  lemma ServiceLoadsIff(setup: Setup, d: Disk, meta: FileMeta, s: string, image: BundleImage)
    requires Lawful(setup.lib) && s in setup.registry
    ensures LoadService(setup, d, meta, s) == Ok(image) <==> EntryLoads(setup, d, meta, s, image)
  {
    if meta.filename in d.dir && d.dir[meta.filename] in d.data {
      DecodesIff(setup, s, d.data[d.dir[meta.filename]], image);
    }
  }

  /** `images` holds what the first `n` services load. */
  predicate Collected(setup: Setup, d: Disk, m: Manifest, n: nat, images: map<string, BundleImage>)
    requires Registered(setup) && ManifestAccepted(m, setup.services) && n <= |setup.services|
  {
    && images.Keys == (set s | s in setup.services[..n])
    && forall s :: s in images ==>
         s in setup.registry && s in m.files && LoadService(setup, d, m.files[s], s) == Ok(images[s])
  }

  lemma {:induction false} ServicesCollected(setup: Setup, d: Disk, m: Manifest, n: nat)
    requires Registered(setup) && ManifestAccepted(m, setup.services) && n <= |setup.services|
    ensures LoadServices(setup, d, m, n).Ok? ==> Collected(setup, d, m, n, LoadServices(setup, d, m, n).value)
  {
    if n > 0 {
      ServicesCollected(setup, d, m, n - 1);
      assert setup.services[..n] == setup.services[..n - 1] + [setup.services[n - 1]];
    }
  }

  lemma {:induction false} ServicesLoad(setup: Setup, d: Disk, m: Manifest, n: nat)
    requires Registered(setup) && ManifestAccepted(m, setup.services) && n <= |setup.services|
    requires forall s :: s in setup.registry ==> s in m.files && LoadService(setup, d, m.files[s], s).Ok?
    ensures LoadServices(setup, d, m, n).Ok?
  {
    if n > 0 {
      ServicesLoad(setup, d, m, n - 1);
      assert setup.services[n - 1] in setup.registry;
    }
  }

  lemma CollectedOnce(setup: Setup, d: Disk, m: Manifest, a: map<string, BundleImage>, b: map<string, BundleImage>)
    requires Registered(setup) && ManifestAccepted(m, setup.services)
    requires Collected(setup, d, m, |setup.services|, a) && Collected(setup, d, m, |setup.services|, b)
    ensures a == b
  {
    forall s | s in a ensures a[s] == b[s] {
      assert s in b;
      assert Result.Ok(a[s]) == LoadService(setup, d, m.files[s], s) == Result.Ok(b[s]);
    }
  }

  lemma ManifestLoadsIff(setup: Setup, d: Disk, m: Manifest, images: map<string, BundleImage>)
    requires Lawful(setup.lib) && Registered(setup) && ManifestAccepted(m, setup.services)
    ensures LoadServices(setup, d, m, |setup.services|) == Ok(images) <==> ManifestLoads(setup, d, m, images)
  {
    var n := |setup.services|;
    ServiceKeys(setup);
    if LoadServices(setup, d, m, n) == Ok(images) {
      ServicesCollected(setup, d, m, n);
      CollectedLoads(setup, d, m, images);
    }
    if ManifestLoads(setup, d, m, images) {
      LoadsCollected(setup, d, m, images);
      ServicesLoad(setup, d, m, n);
      ServicesCollected(setup, d, m, n);
      CollectedOnce(setup, d, m, images, LoadServices(setup, d, m, n).value);
    }
  }

  lemma CollectedLoads(setup: Setup, d: Disk, m: Manifest, images: map<string, BundleImage>)
    requires Lawful(setup.lib) && Registered(setup) && ManifestAccepted(m, setup.services)
    requires Collected(setup, d, m, |setup.services|, images)
    ensures ManifestLoads(setup, d, m, images)
  {
    ServiceKeys(setup);
    assert setup.services[..|setup.services|] == setup.services;
    forall s | s in setup.registry ensures EntryIs(setup, d, m, s, images[s]) {
      assert s in setup.services && MetaAccepted(m.files[s], s, m.generation);
      ServiceLoadsIff(setup, d, m.files[s], s, images[s]);
    }
  }

  lemma LoadsCollected(setup: Setup, d: Disk, m: Manifest, images: map<string, BundleImage>)
    requires Lawful(setup.lib) && Registered(setup) && ManifestAccepted(m, setup.services)
    requires ManifestLoads(setup, d, m, images)
    ensures Collected(setup, d, m, |setup.services|, images)
    ensures forall s :: s in setup.registry ==> s in m.files && LoadService(setup, d, m.files[s], s).Ok?
  {
    ServiceKeys(setup);
    forall s | s in setup.registry ensures LoadService(setup, d, m.files[s], s) == Ok(images[s]) {
      assert EntryIs(setup, d, m, s, images[s]);
      ServiceLoadsIff(setup, d, m.files[s], s, images[s]);
    }
  }

  lemma EntryIsAccepted(setup: Setup, d: Disk, m: Manifest, s: string, image: BundleImage)
    requires s in setup.registry && s in m.files && EntryIs(setup, d, m, s, image)
    ensures MetaAccepted(m.files[s], s, m.generation)
  {
  }

  lemma EntriesAreAccepted(setup: Setup, d: Disk, m: Manifest, images: map<string, BundleImage>)
    requires Registered(setup) && ManifestLoads(setup, d, m, images)
    ensures forall s :: s in setup.services ==> s in m.files && MetaAccepted(m.files[s], s, m.generation)
  {
    forall s | s in setup.services ensures s in m.files && MetaAccepted(m.files[s], s, m.generation) {
      EntryIsAccepted(setup, d, m, s, images[s]);
    }
  }

  /** The checks on the manifest alone are among those asked for. */
  lemma LoadingManifestIsAccepted(setup: Setup, d: Disk, m: Manifest, images: map<string, BundleImage>)
    requires Registered(setup) && ManifestLoads(setup, d, m, images)
    ensures ManifestAccepted(m, setup.services)
  {
    EntriesAreAccepted(setup, d, m, images);
    ServiceKeys(setup);
    assert setup.services[..|setup.services|] == setup.services;
  }

  lemma AcceptedLoadsIff(setup: Setup, d: Disk, m: Manifest, images: map<string, BundleImage>)
    requires Lawful(setup.lib) && Registered(setup)
    ensures AcceptedAndLoads(setup, d, m, images) <==> ManifestLoads(setup, d, m, images)
  {
    if ManifestAccepted(m, setup.services) {
      ManifestLoadsIff(setup, d, m, images);
    } else if ManifestLoads(setup, d, m, images) {
      LoadingManifestIsAccepted(setup, d, m, images);
    }
  }

  /** A load succeeds with these bundles exactly if the contents of the disk say so. */
  lemma LoadIff(setup: Setup, d: Disk, images: map<string, BundleImage>)
    requires Lawful(setup.lib) && Registered(setup)
    ensures Load(setup, d) == Ok(Some(images)) <==> LoadsAs(setup, d, images)
  {
    if MANIFEST in d.dir && d.dir[MANIFEST] in d.data {
      var text := d.data[d.dir[MANIFEST]];
      assert FileHas(d, MANIFEST, text);
      LoadFromText(setup, d, text, images);
      if setup.lib.parse(text).Some? { AcceptedLoadsIff(setup, d, setup.lib.parse(text).value, images); }
    }
  }

  /** The text of the manifest decides, with the services. */
  lemma LoadFromText(setup: Setup, d: Disk, text: Bytes, images: map<string, BundleImage>)
    requires Registered(setup) && FileHas(d, MANIFEST, text)
    ensures Load(setup, d) == Ok(Some(images)) <==>
              |text| <= 65536 && setup.lib.parse(text).Some? &&
              AcceptedAndLoads(setup, d, setup.lib.parse(text).value, images)
  {
  }

  predicate AcceptedAndLoads(setup: Setup, d: Disk, m: Manifest, images: map<string, BundleImage>)
    requires Registered(setup)
  {
    ManifestAccepted(m, setup.services) && LoadServices(setup, d, m, |setup.services|) == Ok(images)
  }

  /** It finds nothing exactly in an empty directory; everything else is refused. */
  lemma NothingLoadsIff(setup: Setup, d: Disk)
    requires Registered(setup)
    ensures Load(setup, d) == Ok(None) <==> d.dir == map[]
  {
  }

  // ---------------------------------------------------------------- no mixture

  /** The digest tells what is on the disk from what was saved. */
  ghost predicate Distinguishes(setup: Setup, d: Disk, gen: Generation) {
    forall s, data :: s in gen.files && FileHas(d, GenerationFilename(s, gen.id), data) ==>
      (setup.lib.sha(data) == setup.lib.sha(gen.files[s]) ==> data == gen.files[s])
  }

  lemma LoadedFile(setup: Setup, d: Disk, gen: Generation, s: string, image: BundleImage)
    requires Lawful(setup.lib) && Registered(setup) && Genuine(setup, gen) && Distinguishes(setup, d, gen)
    requires s in setup.registry && EntryLoads(setup, d, ManifestOf(setup, gen).files[s], s, image)
    ensures FileHas(d, GenerationFilename(s, gen.id), gen.files[s]) && image == gen.images[s]
  {
    var meta := ManifestOf(setup, gen).files[s];
    var data :| FileHas(d, meta.filename, data) && setup.lib.sha(data) == meta.sha256 &&
      SnapshotOf(setup, s, data, image);
    assert data == gen.files[s];
    DecodesIff(setup, s, data, image);
    assert DecodeSnapshot(setup.lib, s, data, setup.registry[s], setup.key) == Ok(gen.images[s]);
  }

  /** Whatever else has happened to the disk: if a load succeeds under the manifest of a generation, every file is that
      generation's, and so is every bundle. */
  lemma LoadIsNoMixture(setup: Setup, d: Disk, gen: Generation, images: map<string, BundleImage>)
    requires Lawful(setup.lib) && Registered(setup) && Genuine(setup, gen) && Distinguishes(setup, d, gen)
    requires FileHas(d, MANIFEST, setup.lib.render(ManifestOf(setup, gen)))
    requires Load(setup, d) == Ok(Some(images))
    ensures images == gen.images
    ensures forall s :: s in gen.files ==> FileHas(d, GenerationFilename(s, gen.id), gen.files[s])
  {
    LoadIff(setup, d, images);
    var text :| FileHas(d, MANIFEST, text) && setup.lib.parse(text).Some? &&
      ManifestLoads(setup, d, setup.lib.parse(text).value, images);
    assert setup.lib.parse(text).value == ManifestOf(setup, gen);
    forall s | s in setup.registry
      ensures FileHas(d, GenerationFilename(s, gen.id), gen.files[s]) && images[s] == gen.images[s]
    {
      assert EntryIs(setup, d, ManifestOf(setup, gen), s, images[s]);
      LoadedFile(setup, d, gen, s, images[s]);
    }
    WithinIsEqual(images, gen.images);
  }

  /** One byte of one file changed: nothing is loaded. */
  lemma ChangedByteIsRefused(setup: Setup, d: Disk, gen: Generation, s: string, i: nat, b: Byte)
    requires Lawful(setup.lib) && Registered(setup) && Genuine(setup, gen) && Distinguishes(setup, d, gen)
    requires FileHas(d, MANIFEST, setup.lib.render(ManifestOf(setup, gen)))
    requires s in gen.files && i < |gen.files[s]| && b != gen.files[s][i]
    requires FileHas(d, GenerationFilename(s, gen.id), gen.files[s][i := b])
    ensures Load(setup, d).Err?
  {
    var was, now := gen.files[s], gen.files[s][i := b];
    assert was[i] != now[i];
    match Load(setup, d) {
      case Err(_) =>
      case Ok(None) => NothingLoadsIff(setup, d);
      case Ok(Some(images)) => LoadIsNoMixture(setup, d, gen, images);
    }
  }
}
