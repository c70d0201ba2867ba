/** `save_service_snapshots` against the disk of `SnapshotDisk`: every file system call may fail, a crash may
    come after any of them, and the ghost history keeps each moment a crash could meet. */
module SnapshotCommit {
  import opened Options
  import opened BundleImages
  import opened SnapshotFormat
  import opened SnapshotDisk

  lemma CreateKeepsConsistency(setup: Setup, m: Moment, name: string)
    requires Consistent(setup, m) && !Protected(m, name)
    ensures Consistent(setup, m.(disk := Created(m.disk, name)))
  {
    AllocateKeepsConsistency(setup, m);
    var m' := m.(disk := Allocated(m.disk));
    forall n | Protected(m', n) ensures SameEntry(m'.disk.dir, m.disk.dir[name := m.disk.next], n) {
      assert Protected(m, n);
    }
    RelinkKeepsConsistency(setup, m', m.disk.dir[name := m.disk.next]);
  }

  function Allocated(d: Disk): Disk {
    d.(data := d.data[d.next := []], next := d.next + 1)
  }

  lemma AllocateKeepsConsistency(setup: Setup, m: Moment)
    requires Consistent(setup, m)
    ensures Consistent(setup, m.(disk := Allocated(m.disk)))
    ensures forall n :: n in m.disk.dir ==> m.disk.dir[n] in m.disk.data
  {
    assert m.disk.dir == m.disk.window[|m.disk.window| - 1];
    assert m.disk.next !in m.disk.synced;
    DataChangeKeepsConsistency(setup, m, Allocated(m.disk));
  }

  lemma AppendKeepsConsistency(setup: Setup, m: Moment, inode: nat, chunk: Bytes)
    requires Consistent(setup, m) && inode in m.disk.data && inode !in m.disk.synced
    ensures Consistent(setup, m.(disk := Appended(m.disk, inode, chunk)))
  {
    DataChangeKeepsConsistency(setup, m, Appended(m.disk, inode, chunk));
  }

  /** One may rename onto an unprotected name, or the finished manifest of the pending generation onto the manifest. */
  ghost predicate Replaceable(setup: Setup, m: Moment, filename: string, data: Bytes) {
    || !Protected(m, filename)
    || (filename == MANIFEST && m.pending.Some? && data == setup.lib.render(ManifestOf(setup, m.pending.value)))
  }

  lemma ReplaceKeepsConsistency(setup: Setup, m: Moment, filename: string, unique: string, data: Bytes)
    requires Registered(setup) && Consistent(setup, m) && Replaceable(setup, m, filename, data)
    requires Holds(m.disk, m.disk.dir, TemporaryName(filename, unique), data)
    ensures Consistent(setup, m.(disk := Replaced(m.disk, TemporaryName(filename, unique), filename)))
  {
    var temporary := TemporaryName(filename, unique);
    TemporaryIsUnprotected(setup, m, filename, unique);
    if Protected(m, filename) {
      ManifestRenameKeepsConsistency(setup, m, temporary);
    } else {
      RenameKeepsConsistency(setup, m, temporary, filename);
    }
  }

  lemma RenameKeepsConsistency(setup: Setup, m: Moment, source: string, target: string)
    requires Consistent(setup, m) && source in m.disk.dir && !Protected(m, source) && !Protected(m, target)
    ensures Consistent(setup, m.(disk := Replaced(m.disk, source, target)))
  {
    forall n | Protected(m, n) ensures SameEntry(m.disk.dir, Replaced(m.disk, source, target).dir, n) {
      assert n != source && n != target;
    }
    RelinkKeepsConsistency(setup, m, Replaced(m.disk, source, target).dir);
  }

  lemma SyncKeepsConsistency(setup: Setup, m: Moment, inode: nat)
    requires Consistent(setup, m) && inode in m.disk.data
    ensures Consistent(setup, m.(disk := FileSynced(m.disk, inode)))
  {
    DataChangeKeepsConsistency(setup, m, FileSynced(m.disk, inode));
  }

  lemma UnlinkKeepsConsistency(setup: Setup, m: Moment, name: string)
    requires Consistent(setup, m) && !Protected(m, name)
    ensures Consistent(setup, m.(disk := Unlinked(m.disk, name)))
  {
    assert m.disk.dir == m.disk.window[|m.disk.window| - 1];
    RelinkKeepsConsistency(setup, m, m.disk.dir - {name});
  }

  /** Entries outside the temporary files and `name` are as they were, and no synced file changed. */
  ghost predicate Untouched(d: Disk, d': Disk, name: string) {
    KeepsSynced(d, d') && forall n :: Lasting(n) && n != name ==> SameEntry(d.dir, d'.dir, n)
  }

  ghost predicate OnlyEntryChanged(d: Disk, d': Disk, name: string) {
    KeepsSynced(d, d') && forall n :: n != name ==> SameEntry(d.dir, d'.dir, n)
  }

  lemma RenameLeavesRest(d: Disk, d1: Disk, d2: Disk, temporary: string, filename: string)
    requires OnlyEntryChanged(d, d1, temporary) && !Lasting(temporary) && Lasting(filename) && KeepsSynced(d1, d2)
    requires d2.dir == d1.dir || (temporary in d1.dir && d2.dir == Replaced(d1, temporary, filename).dir)
    ensures Untouched(d, d2, filename)
    ensures temporary in d1.dir && d2.dir == Replaced(d1, temporary, filename).dir ==>
              temporary !in d2.dir && d2.dir.Keys <= d.dir.Keys + {filename}
  {
    forall n | Lasting(n) && n != filename ensures SameEntry(d.dir, d2.dir, n) {
      assert SameEntry(d.dir, d1.dir, n);
    }
    forall n | n in d2.dir && n != filename && n != temporary ensures n in d.dir {
      assert SameEntry(d.dir, d1.dir, n);
    }
  }

  /** Names that are not those of temporary files. */
  predicate Lasting(name: string) { name == "" || name[0] != '.' }

  lemma GenerationNamesLast(setup: Setup, s: string, g: string)
    requires Registered(setup) && s in setup.registry
    ensures Lasting(GenerationFilename(s, g)) && Lasting(MANIFEST)
  {
  }

  predicate AllEncode(setup: Setup, stores: map<string, BundleImage>, nonce: Bytes) {
    forall s :: s in stores ==> EncodeSnapshot(setup.lib, s, stores[s], setup.key, nonce).Ok?
  }

  /** What a save may do to the pair of committed and pending generation. */
  ghost predicate Settling(stable: Option<Generation>, pending: Option<Generation>, stable': Option<Generation>,
                           pending': Option<Generation>) {
    OneOf(stable', stable, pending) && (pending' == None || pending' == pending)
  }

  /** From one moment to the next the committed generation stays, or the pending one takes its place; a generation
      becomes pending only when no other is. */
  ghost predicate Next(m: Moment, m': Moment) {
    || (m'.stable == m.stable && (m'.pending == m.pending || m'.pending.None? || m.pending.None?))
    || (m.pending.Some? && m'.stable == m.pending && m'.pending.None?)
  }

  ghost predicate NextAt(history: seq<Moment>, k: nat)
    requires 0 < k < |history|
  {
    Next(history[k - 1], history[k])
  }

  ghost predicate Chained(history: seq<Moment>) {
    forall k :: 0 < k < |history| ==> NextAt(history, k)
  }

  lemma ChainExtends(history: seq<Moment>, m: Moment)
    requires Chained(history) && history != [] && Next(history[|history| - 1], m)
    ensures Chained(history + [m])
  {
    forall k | 0 < k < |history + [m]| ensures NextAt(history + [m], k) {
      if k < |history| { assert NextAt(history, k); }
    }
  }

  /** The generations of the moments from `n` on are the ones there were before, or the one being saved. */
  ghost predicate Since(history: seq<Moment>, n: nat, stable: Option<Generation>, pending: Option<Generation>,
                        saved: Option<Generation>) {
    forall k :: n <= k < |history| ==> Among(history[k], stable, pending, saved)
  }

  ghost predicate Among(m: Moment, stable: Option<Generation>, pending: Option<Generation>, saved: Option<Generation>) {
    && (OneOf(m.stable, stable, pending) || (saved.Some? && m.stable == saved))
    && (m.pending.None? || m.pending == pending || m.pending == saved)
  }

  lemma SinceJoins(n: nat, h: seq<Moment>, m: Moment, h': seq<Moment>, stable: Option<Generation>,
                   pending: Option<Generation>)
    requires n <= |h| && h <= h' && Since(h, n, stable, pending, None) && Settling(stable, pending, m.stable, m.pending)
    requires Since(h', |h|, m.stable, m.pending, None)
    ensures Since(h', n, stable, pending, None)
  {
    forall k | n <= k < |h'| ensures Among(h'[k], stable, pending, None) {
      if k < |h| { assert h'[k] == h[k]; }
    }
  }

  lemma SinceFollows(history: seq<Moment>, n: nat, before: Moment, gen: Generation, e: Event)
    requires Since(history, n, before.stable, before.pending, Some(gen)) && Makes(Some(gen), e)
    ensures forall k :: n <= k < |history| ==> Follows(history[k], before, e)
  {
    forall k | n <= k < |history| ensures Follows(history[k], before, e) {
      assert Among(history[k], before.stable, before.pending, Some(gen));
    }
  }

  /** What becomes of a system call: it works (a write takes at most `amount` bytes), or it fails, perhaps after taking
      effect; and the random part of a temporary name drawn then. */
  datatype Fate = Fate(fails: bool, effect: bool, amount: nat, unique: string)

  /** No call from number `n` on fails. */
  ghost predicate Quiet(fates: nat -> Fate, n: nat) {
    forall k: nat :: n <= k ==> !fates(k).fails && fates(k).amount > 0
  }

  /** No random name from call `n` on is that of a file in the directory. */
  ghost predicate NewNames(fates: nat -> Fate, n: nat, dir: Directory) {
    forall k: nat, f :: n <= k ==> TemporaryName(f, fates(k).unique) !in dir
  }

  /** Writing a lasting file takes no new name. */
  lemma NamesStayNew(fates: nat -> Fate, n: nat, n': nat, dir: Directory, dir': Directory, name: string)
    requires NewNames(fates, n, dir) && n <= n' && dir'.Keys <= dir.Keys + {name} && Lasting(name)
    ensures NewNames(fates, n', dir')
  {
    forall k: nat, f | n' <= k ensures TemporaryName(f, fates(k).unique) !in dir' {
      assert TemporaryName(f, fates(k).unique)[0] == '.';
    }
  }

  class SnapshotDirectory {
    const setup: Setup
    const fates: nat -> Fate
    var calls: nat
    var disk: Disk
    ghost var stable: Option<Generation>
    ghost var pending: Option<Generation>
    ghost var history: seq<Moment>

    ghost function Now(): Moment
      reads this
    {
      Moment(disk, stable, pending)
    }

    /** Every moment so far, not just the present one, is one from which a crash does no harm, and the committed
        generation has only ever changed to the pending one. */
    ghost predicate Valid()
      reads this
    {
      && Registered(setup)
      && |history| > 0 && history[|history| - 1] == Now()
      && (forall k :: 0 <= k < |history| ==> Consistent(setup, history[k]))
      && Chained(history)
    }

    /** A new, empty directory. */
    constructor (setup: Setup, fates: nat -> Fate)
      requires Registered(setup)
      ensures Valid() && this.setup == setup && this.fates == fates && calls == 0
      ensures stable.None? && pending.None? && disk.dir == map[]
      ensures history == [Now()]
    {
      this.setup, this.fates, calls := setup, fates, 0;
      disk := Disk(map[], [map[]], map[], {}, 0);
      stable, pending := None, None;
      history := [Moment(Disk(map[], [map[]], map[], {}, 0), None, None)];
    }

    /** Nothing goes wrong from here on. */
    ghost predicate Calm()
      reads this
    {
      Quiet(fates, calls) && NewNames(fates, calls, disk.dir)
    }

    /** The next system call. */
    method Call() returns (fate: Fate)
      modifies this`calls
      ensures fate == fates(old(calls)) && calls == old(calls) + 1
    {
      fate := fates(calls);
      calls := calls + 1;
    }

    /** The next moment. */
    method Enter(d: Disk, ghost committed: Option<Generation>, ghost committing: Option<Generation>)
      requires Valid() && Consistent(setup, Moment(d, committed, committing))
      requires Next(Now(), Moment(d, committed, committing))
      modifies this`disk, this`stable, this`pending, this`history
      ensures Valid() && Now() == Moment(d, committed, committing) && history == old(history) + [Now()]
    {
      ChainExtends(history, Moment(d, committed, committing));
      disk, stable, pending := d, committed, committing;
      history := history + [Now()];
    }

    method Advance(d: Disk)
      requires Valid() && Consistent(setup, Now().(disk := d))
      modifies this`disk, this`stable, this`pending, this`history
      ensures Valid() && disk == d && stable == old(stable) && pending == old(pending)
      ensures history == old(history) + [Now()]
    {
      Enter(d, stable, pending);
    }

    /** `os.open(..., O_CREAT | O_EXCL)` of a temporary file. */
    method CreateExclusive(filename: string, unique: string) returns (ok: bool, inode: nat)
      requires Valid()
      modifies this
      ensures Valid() && old(history) <= history && stable == old(stable) && pending == old(pending)
      ensures Since(history, |old(history)|, old(stable), old(pending), None)
      ensures disk == old(disk) ||
              (TemporaryName(filename, unique) !in old(disk.dir) &&
               disk == Created(old(disk), TemporaryName(filename, unique)))
      ensures ok ==> inode == old(disk.next) && disk == Created(old(disk), TemporaryName(filename, unique))
      ensures old(calls) <= calls
      ensures Quiet(fates, old(calls)) && TemporaryName(filename, unique) !in old(disk.dir) ==> ok
    {
      var name := TemporaryName(filename, unique);
      inode := disk.next;
      var fate := Call();
      ok := false;
      if name in disk.dir { return; }
      ok := !fate.fails;
      if ok || fate.effect {
        TemporaryIsUnprotected(setup, Now(), filename, unique);
        CreateKeepsConsistency(setup, Now(), name);
        Advance(Created(disk, name));
      }
    }

    /** One `os.write`; zero stands for a failure too. */
    method WriteSome(inode: nat, rest: Bytes) returns (written: nat)
      requires Valid() && inode in disk.data && inode !in disk.synced && rest != []
      modifies this
      ensures Valid() && old(history) <= history && stable == old(stable) && pending == old(pending)
      ensures Since(history, |old(history)|, old(stable), old(pending), None)
      ensures written <= |rest|
      ensures written > 0 ==> disk == Appended(old(disk), inode, rest[..written])
      ensures written == 0 ==> disk == old(disk) || disk == Appended(old(disk), inode, rest)
      ensures old(calls) <= calls && (Quiet(fates, old(calls)) ==> written > 0)
    {
      var fate := Call();
      written := if fate.fails then 0 else if fate.amount > |rest| then |rest| else fate.amount;
      if written > 0 || (fate.fails && fate.effect) {
        var chunk := if fate.fails then rest else rest[..written];
        AppendKeepsConsistency(setup, Now(), inode, chunk);
        Advance(Appended(disk, inode, chunk));
      }
    }

    /** The write loop: each `os.write` takes some bytes from the front of what is left, or fails. */
    method WriteAll(inode: nat, data: Bytes) returns (ok: bool)
      requires Valid() && inode in disk.data && inode !in disk.synced && disk.data[inode] == []
      modifies this
      ensures Valid() && old(history) <= history && stable == old(stable) && pending == old(pending)
      ensures Since(history, |old(history)|, old(stable), old(pending), None)
      ensures disk.dir == old(disk.dir) && disk.next == old(disk.next) && KeepsSynced(old(disk), disk)
      ensures inode in disk.data && inode !in disk.synced
      ensures ok ==> disk.data[inode] == data
      ensures old(calls) <= calls && (Quiet(fates, old(calls)) ==> ok)
    {
      var position := 0;
      while position < |data|
        invariant 0 <= position <= |data| && old(calls) <= calls
        invariant Valid() && old(history) <= history && stable == old(stable) && pending == old(pending)
        invariant Since(history, |old(history)|, old(stable), old(pending), None)
        invariant disk.dir == old(disk.dir) && disk.next == old(disk.next) && KeepsSynced(old(disk), disk)
        invariant inode in disk.data && inode !in disk.synced
        invariant disk.data[inode] == data[..position]
      {
        var written := WriteSome(inode, data[position..]);
        if written <= 0 { return false; }
        assert data[..position] + data[position..][..written] == data[..position + written];
        position := position + written;
      }
      assert data[..|data|] == data;
      ok := true;
    }

    method SyncFile(inode: nat) returns (ok: bool)
      requires Valid() && inode in disk.data
      modifies this
      ensures Valid() && old(history) <= history && stable == old(stable) && pending == old(pending)
      ensures Since(history, |old(history)|, old(stable), old(pending), None)
      ensures disk == old(disk) || disk == FileSynced(old(disk), inode)
      ensures ok ==> disk == FileSynced(old(disk), inode)
      ensures old(calls) <= calls && (Quiet(fates, old(calls)) ==> ok)
    {
      var fate := Call();
      ok := !fate.fails;
      if ok || fate.effect {
        SyncKeepsConsistency(setup, Now(), inode);
        Advance(FileSynced(disk, inode));
      }
    }

    ghost predicate MayReplace(filename: string, data: Bytes)
      reads this
    {
      Replaceable(setup, Now(), filename, data)
    }

    /** `os.replace`; an error says nothing about whether the rename took place. */
    method Replace(filename: string, unique: string, data: Bytes) returns (ok: bool)
      requires Valid() && MayReplace(filename, data)
      requires Holds(disk, disk.dir, TemporaryName(filename, unique), data)
      modifies this
      ensures Valid() && old(history) <= history && stable == old(stable) && pending == old(pending)
      ensures Since(history, |old(history)|, old(stable), old(pending), None)
      ensures disk == old(disk) || disk == Replaced(old(disk), TemporaryName(filename, unique), filename)
      ensures ok ==> disk == Replaced(old(disk), TemporaryName(filename, unique), filename)
      ensures old(calls) <= calls && (Quiet(fates, old(calls)) ==> ok)
    {
      var fate := Call();
      ok := !fate.fails;
      if ok || fate.effect {
        ReplaceKeepsConsistency(setup, Now(), filename, unique, data);
        Advance(Replaced(disk, TemporaryName(filename, unique), filename));
      }
    }

    /** `os.fsync` of the directory: what it shows becomes all that a crash can bring back. */
    method SyncDirectory() returns (ok: bool)
      requires Valid()
      modifies this
      ensures Valid() && old(history) <= history
      ensures Since(history, |old(history)|, old(stable), old(pending), None)
      ensures Now() == old(Now()) || Now() == Settled(setup, old(Now()), DirectorySynced(old(disk)))
      ensures ok ==> Now() == Settled(setup, old(Now()), DirectorySynced(old(disk)))
      ensures old(calls) <= calls && (Quiet(fates, old(calls)) ==> ok)
    {
      var fate := Call();
      ok := !fate.fails;
      if ok || fate.effect {
        DirectorySyncKeepsConsistency(setup, Now());
        ghost var settled := Settled(setup, Now(), DirectorySynced(disk));
        Enter(DirectorySynced(disk), settled.stable, settled.pending);
      }
    }

    /** `os.unlink` of an unprotected name, a missing one being no error. */
    method Unlink(name: string) returns (ok: bool)
      requires Valid() && !Protected(Now(), name)
      modifies this
      ensures Valid() && old(history) <= history && stable == old(stable) && pending == old(pending)
      ensures Since(history, |old(history)|, old(stable), old(pending), None)
      ensures disk == old(disk) || disk == Unlinked(old(disk), name)
      ensures name !in old(disk.dir) ==> ok && disk == old(disk)
      ensures ok ==> name !in disk.dir
      ensures old(calls) <= calls && (Quiet(fates, old(calls)) ==> ok)
    {
      var fate := Call();
      if name !in disk.dir { return true; }
      ok := !fate.fails;
      if ok || fate.effect {
        UnlinkKeepsConsistency(setup, Now(), name);
        Advance(Unlinked(disk, name));
      }
    }

    /** The first half of `_atomic_write`: the data, complete and synced, under a temporary name. */
    method WriteTemporary(filename: string, unique: string, data: Bytes) returns (ok: bool)
      requires Valid()
      modifies this
      ensures Valid() && old(history) <= history && stable == old(stable) && pending == old(pending)
      ensures Since(history, |old(history)|, old(stable), old(pending), None)
      ensures OnlyEntryChanged(old(disk), disk, TemporaryName(filename, unique))
      ensures ok ==> Holds(disk, disk.dir, TemporaryName(filename, unique), data)
      ensures old(calls) <= calls
      ensures Quiet(fates, old(calls)) && TemporaryName(filename, unique) !in old(disk.dir) ==> ok
    {
      var inode;
      ok, inode := CreateExclusive(filename, unique);
      if !ok { return; }
      ok := WriteAll(inode, data);
      if !ok { return; }
      ok := SyncFile(inode);
    }

    /** The `try` part of `_atomic_write`. */
    method WriteAndRename(filename: string, unique: string, data: Bytes) returns (ok: bool)
      requires Valid() && MayReplace(filename, data) && Lasting(filename)
      modifies this
      ensures Valid() && old(history) <= history
      ensures Since(history, |old(history)|, old(stable), old(pending), None)
      ensures Settling(old(stable), old(pending), stable, pending)
      ensures Untouched(old(disk), disk, filename)
      ensures ok ==> Holds(disk, disk.dir, filename, data) && disk.window == [disk.dir]
      ensures ok ==> TemporaryName(filename, unique) !in disk.dir
      ensures ok ==> Now() == Settled(setup, Moment(disk, old(stable), old(pending)), disk)
      ensures ok ==> disk.dir.Keys <= old(disk.dir).Keys + {filename}
      ensures old(calls) <= calls
      ensures Quiet(fates, old(calls)) && TemporaryName(filename, unique) !in old(disk.dir) ==> ok
    {
      ghost var temporary := TemporaryName(filename, unique);
      assert temporary[0] == '.';
      ok := WriteTemporary(filename, unique, data);
      if !ok {
        RenameLeavesRest(old(disk), disk, disk, temporary, filename);
        return;
      }
      ghost var written, h := Now(), history;
      ok := RenameAndSync(filename, unique, data);
      RenameLeavesRest(old(disk), written.disk, disk, temporary, filename);
      SinceJoins(|old(history)|, h, written, history, old(stable), old(pending));
    }

    /** The rename that makes the file visible, and the sync that makes it last. */
    method RenameAndSync(filename: string, unique: string, data: Bytes) returns (ok: bool)
      requires Valid() && MayReplace(filename, data) && TemporaryName(filename, unique) != filename
      requires Holds(disk, disk.dir, TemporaryName(filename, unique), data)
      modifies this
      ensures Valid() && old(history) <= history
      ensures Since(history, |old(history)|, old(stable), old(pending), None)
      ensures Settling(old(stable), old(pending), stable, pending) && KeepsSynced(old(disk), disk)
      ensures disk.dir == old(disk.dir) ||
              disk.dir == Replaced(old(disk), TemporaryName(filename, unique), filename).dir
      ensures ok ==> disk.dir == Replaced(old(disk), TemporaryName(filename, unique), filename).dir
      ensures ok ==> Holds(disk, disk.dir, filename, data) && disk.window == [disk.dir]
      ensures ok ==> Now() == Settled(setup, Moment(disk, old(stable), old(pending)), disk)
      ensures old(calls) <= calls && (Quiet(fates, old(calls)) ==> ok)
    {
      ok := Replace(filename, unique, data);
      if !ok { return; }
      ok := SyncDirectory();
    }

    /** `_atomic_write`: on success the name holds the data, durably, and the directory has settled; on failure
        nothing but temporary files and the name itself can have changed. */
    method AtomicWrite(filename: string, data: Bytes) returns (ok: bool)
      requires Valid() && MayReplace(filename, data) && Lasting(filename)
      modifies this
      ensures Valid() && old(history) <= history
      ensures Since(history, |old(history)|, old(stable), old(pending), None)
      ensures Settling(old(stable), old(pending), stable, pending)
      ensures Untouched(old(disk), disk, filename)
      ensures ok ==> Holds(disk, disk.dir, filename, data) && disk.window == [disk.dir]
      ensures ok ==> Now() == Settled(setup, Moment(disk, old(stable), old(pending)), disk)
      ensures old(Calm()) ==> ok && Calm()
    {
      var unique := fates(calls).unique;
      ok := WriteAndRename(filename, unique, data);
      TemporaryIsUnprotected(setup, Now(), filename, unique);
      var cleaned := Unlink(TemporaryName(filename, unique));
      ok := ok && cleaned;
      if old(Calm()) { NamesStayNew(fates, old(calls), calls, old(disk.dir), disk.dir, filename); }
    }

    /** `_garbage_collect`: a committed name is never removed, and after a full pass no stale snapshot or
        temporary file is left. */
    method GarbageCollect(committed: set<string>) returns (ok: bool)
      requires Valid() && forall n :: Protected(Now(), n) ==> n in committed
      modifies this
      ensures Valid() && old(history) <= history && stable == old(stable) && pending == old(pending)
      ensures Since(history, |old(history)|, old(stable), old(pending), None)
      ensures forall n :: n in committed || !Disposable(n) ==> SameEntry(old(disk.dir), disk.dir, n)
      ensures ok ==> disk.dir.Keys == set n | n in old(disk.dir) && (n in committed || !Disposable(n))
      ensures old(Calm()) ==> ok
    {
      var names := disk.dir.Keys;
      var rest := names;
      while rest != {}
        invariant rest <= names && old(calls) <= calls
        invariant Valid() && old(history) <= history && stable == old(stable) && pending == old(pending)
        invariant Since(history, |old(history)|, old(stable), old(pending), None)
        invariant forall n :: n in committed || !Disposable(n) ==> SameEntry(old(disk.dir), disk.dir, n)
        invariant disk.dir.Keys == set n | n in names && (n in rest || n in committed || !Disposable(n))
        decreases rest
      {
        var name :| name in rest;
        rest := rest - {name};
        if name !in committed && Disposable(name) {
          ok := Unlink(name);
          if !ok { return; }
        }
      }
      ok := true;
    }

    ghost predicate FreshId(id: string)
      reads this
    {
      FreshAt(Now(), id)
    }

    method WriteService(gen: Generation, s: string) returns (ok: bool)
      requires Valid() && Addressed(setup, gen) && FreshId(gen.id) && s in setup.registry
      modifies this
      ensures Valid() && old(history) <= history
      ensures Since(history, |old(history)|, old(stable), old(pending), None)
      ensures Settling(old(stable), old(pending), stable, pending)
      ensures ok ==> pending.None? && disk.window == [disk.dir] && FileHeld(disk, gen, s)
      ensures ok ==> forall t :: t in setup.registry && FileHeld(old(disk), gen, t) ==> FileHeld(disk, gen, t)
      ensures old(Calm()) ==> ok && Calm()
    {
      GenerationNamesLast(setup, s, gen.id);
      FreshIsUnprotected(setup, Now(), s, gen.id);
      ok := AtomicWrite(GenerationFilename(s, gen.id), gen.files[s]);
      if ok { FilesStayHeld(setup, old(disk), disk, gen, s); }
    }

    /** The loop that writes one file per service. A non-empty service set is what makes the directory settle
        before the manifest is touched. */
    method WriteFiles(gen: Generation) returns (ok: bool)
      requires Valid() && Addressed(setup, gen) && FreshId(gen.id)
      modifies this
      ensures Valid() && old(history) <= history
      ensures Since(history, |old(history)|, old(stable), old(pending), None)
      ensures Settling(old(stable), old(pending), stable, pending)
      ensures ok ==> pending.None? && disk.window == [disk.dir] && Stored(disk, disk.dir, gen)
      ensures old(Calm()) ==> ok && Calm()
    {
      var i := 0;
      while i < |setup.services|
        invariant 0 <= i <= |setup.services|
        invariant Valid() && old(history) <= history
        invariant Since(history, |old(history)|, old(stable), old(pending), None)
        invariant Settling(old(stable), old(pending), stable, pending)
        invariant i > 0 ==> pending.None? && disk.window == [disk.dir]
        invariant old(Calm()) ==> Calm()
        invariant forall j :: 0 <= j < i ==> FileHeld(disk, gen, setup.services[j])
      {
        ghost var before, h := Now(), history;
        ok := WriteService(gen, setup.services[i]);
        SinceJoins(|old(history)|, h, before, history, old(stable), old(pending));
        if !ok { return; }
        i := i + 1;
      }
      AllHeldIsStored(setup, disk, gen);
      ok := true;
    }

    /** The manifest step: from here on the generation is the one being committed. */
    method CommitManifest(gen: Generation) returns (ok: bool)
      requires Valid() && Genuine(setup, gen)
      requires pending.None? && disk.window == [disk.dir] && Stored(disk, disk.dir, gen)
      modifies this
      ensures Valid() && old(history) <= history
      ensures Since(history, |old(history)|, old(stable), old(pending), Some(gen))
      ensures Settling(old(stable), Some(gen), stable, pending)
      ensures ok ==> stable == Some(gen) && pending.None? && disk.window == [disk.dir]
      ensures ok ==> Stored(disk, disk.dir, gen)
      ensures old(Calm()) ==> ok && Calm()
    {
      assert SafeDirectory(setup, Now(), disk.window[0]);
      ghost var begun := Now().(pending := Some(gen));
      assert SafeDirectory(setup, begun, disk.window[0]);
      Enter(disk, stable, Some(gen));
      ok := AtomicWrite(MANIFEST, setup.lib.render(ManifestOf(setup, gen)));
      if ok { assert SafeDirectory(setup, Now(), disk.window[0]); }
    }

    /** `save_service_snapshots` after the locks: encode everything, write the files, switch the manifest, collect
        garbage. Success means the new generation is the committed one and no crash can bring back another;
        failure leaves the old one, or the new one, but never a mixture. */
    method Save(stores: map<string, BundleImage>, generation: string, nonce: Bytes) returns (r: Result<()>)
      requires Lawful(setup.lib) && Valid() && stores.Keys == setup.registry.Keys && |nonce| == AES_NONCE_BYTES
      requires forall s :: s in stores ==> Accepted(stores[s], setup.registry[s])
      requires IsGenerationId(generation) && FreshId(generation)
      modifies this
      ensures Valid() && old(history) <= history
      ensures forall k :: |old(history)| <= k < |history| ==>
               Follows(history[k], old(Now()), SaveEvent(stores, generation, nonce))
      ensures r.Ok? ==> Saves(stable, generation, stores) && pending.None?
      ensures r.Ok? ==> Load(setup, disk) == Expected(setup, disk, stable)
      ensures r.Ok? ==> forall n :: n in disk.dir && (EndsWith(n, ".state") || EndsWith(n, ".tmp")) ==>
                                      n == MANIFEST || exists s :: s in stores && n == s + "." + generation + ".state"
      ensures old(Calm()) && AllEncode(setup, stores, nonce) ==> r.Ok?
      ensures OneOf(stable, old(stable), old(pending)) || Saves(stable, generation, stores)
      ensures pending == None || pending == old(pending) || Saves(pending, generation, stores)
      ensures r.Err? && r.reason != WriteFailed ==> history == old(history)
    {
      var encoded := EncodeAll(setup, stores, generation, nonce);
      if encoded.Err? { return Err(encoded.reason); }
      var ok := SaveGeneration(encoded.value);
      SinceFollows(history, |old(history)|, old(Now()), encoded.value, SaveEvent(stores, generation, nonce));
      r := if ok then Ok(()) else Err(WriteFailed);
      if ok { LoadReadsSurvivor(setup, Now()); }
    }

    method SaveGeneration(gen: Generation) returns (ok: bool)
      requires Valid() && Genuine(setup, gen) && FreshId(gen.id)
      modifies this
      ensures Valid() && old(history) <= history
      ensures Since(history, |old(history)|, old(stable), old(pending), Some(gen))
      ensures ok ==> stable == Some(gen) && pending.None?
      ensures OneOf(stable, old(stable), old(pending)) || stable == Some(gen)
      ensures pending == None || pending == old(pending) || pending == Some(gen)
      ensures ok ==> forall n :: n in disk.dir && Disposable(n) ==> n in CommittedNames(gen)
      ensures old(Calm()) ==> ok
    {
      ok := WriteFiles(gen);
      if !ok { return; }
      ok := CommitManifest(gen);
      if !ok { return; }
      CommittedCovers(Now(), gen);
      ok := GarbageCollect(CommittedNames(gen));
    }

    /** The machine stops; what comes back is decided by `choice` and `loss`. */
    method Crash(choice: string -> nat, loss: nat -> Bytes)
      requires Lawful(setup.lib) && Valid()
      modifies this
      ensures Valid() && old(history) <= history
      ensures Since(history, |old(history)|, old(stable), old(pending), None)
      ensures disk == Crashed(old(disk), choice, loss)
      ensures |history| == |old(history)| + 1
      ensures OneOf(stable, old(stable), old(pending)) && pending.None?
      ensures Load(setup, disk) == Expected(setup, disk, stable)
    {
      CrashKeepsConsistency(setup, Now(), choice, loss);
      ghost var settled := Settled(setup, Now(), Crashed(disk, choice, loss));
      LoadReadsSurvivor(setup, settled);
      Enter(Crashed(disk, choice, loss), settled.stable, settled.pending);
    }

    method Perform(e: Event) returns (r: Result<()>)
      requires Lawful(setup.lib) && Valid()
      requires e.SaveEvent? ==> AcceptableSave(setup, e) && FreshId(e.generation)
      modifies this
      ensures Valid() && old(history) <= history
      ensures forall k :: |old(history)| <= k < |history| ==> Follows(history[k], old(Now()), e)
      ensures e.SaveEvent? && r.Ok? ==> Saves(stable, e.generation, e.stores) && pending.None?
    {
      match e {
        case SaveEvent(stores, generation, nonce) =>
          r := Save(stores, generation, nonce);
        case CrashEvent(choice, loss) =>
          Crash(choice, loss);
          r := Ok(());
      }
    }

    /** The event after those that `results` and `ends` are about. */
    method PerformNext(events: seq<Event>, i: nat, ghost results: seq<Result<()>>, ghost ends: seq<nat>,
                       ghost start: Moment)
    returns (r: Result<()>)
      requires Lawful(setup.lib) && Valid() && Schedule(setup, events) && i < |events|
      requires IsLog(events[..i], results, history, ends) && ends[i] == |history|
      requires KnownTo(Now(), start, events[..i]) && (events[i].SaveEvent? ==> FreshAt(start, events[i].generation))
      modifies this
      ensures Valid() && old(history) <= history
      ensures IsLog(events[..i + 1], results + [r], history, ends + [|history|])
    {
      if events[i].SaveEvent? { FreshForNext(setup, Now(), start, events, i); }
      r := Perform(events[i]);
      LogExtends(events, i, results, old(history), ends, r, history);
    }

    /** A sequence of saves, failing at any call, and crashes. `results` are the saves' answers, and the moments of
        event `i` are those from `ends[i]` to `ends[i + 1]`. */
    method PerformAll(events: seq<Event>) returns (results: seq<Result<()>>, ghost ends: seq<nat>)
      requires Lawful(setup.lib) && Valid() && Schedule(setup, events)
      requires forall i :: 0 <= i < |events| && events[i].SaveEvent? ==> FreshId(events[i].generation)
      modifies this
      ensures Valid() && old(history) <= history && IsLog(events, results, history, ends)
      ensures ends[0] == |old(history)| && ends[|events|] == |history|
    {
      results, ends := [], [|history|];
      var i := 0;
      while i < |events|
        invariant 0 <= i <= |events| && |results| == i
        invariant Valid() && old(history) <= history
        invariant IsLog(events[..i], results, history, ends) && ends[0] == |old(history)| && ends[i] == |history|
      {
        LogKnown(events[..i], results, history, ends, i);
        var r := PerformNext(events, i, results, ends, old(Now()));
        results, ends := results + [r], ends + [|history|];
        i := i + 1;
      }
      assert events[..i] == events;
    }

    /** Whole runs. From every moment, the ones inside a save included, any crash is followed by a load of its
        committed or its pending generation. These were there before the run or were given to a save already begun;
        and once a save has answered that it succeeded, they are its own or later ones for ever. */
    method Run(events: seq<Event>) returns (results: seq<Result<()>>, ghost ends: seq<nat>)
      requires Lawful(setup.lib) && Valid() && Schedule(setup, events)
      requires forall i :: 0 <= i < |events| && events[i].SaveEvent? ==> FreshId(events[i].generation)
      modifies this
      ensures Valid() && old(history) <= history && IsLog(events, results, history, ends)
      ensures ends[0] == |old(history)| && ends[|events|] == |history|
      ensures forall k :: 0 <= k < |history| ==> Recoverable(setup, history[k])
      ensures AllKnown(events, history, ends, old(Now()))
      ensures NoneBefore(events, results, history, ends)
    {
      results, ends := PerformAll(events);
      AllRecoverable(setup, history);
      LogAllKnown(events, results, history, ends);
      LogNoneBefore(events, results, history, ends);
    }
  }

  lemma AllRecoverable(setup: Setup, history: seq<Moment>)
    requires Lawful(setup.lib) && Registered(setup) && forall k :: 0 <= k < |history| ==> Consistent(setup, history[k])
    ensures forall k :: 0 <= k < |history| ==> Recoverable(setup, history[k])
  {
    forall k | 0 <= k < |history| ensures Recoverable(setup, history[k]) {
      ConsistentIsRecoverable(setup, history[k]);
    }
  }

  predicate FreshAt(m: Moment, id: string) {
    (m.stable.Some? ==> m.stable.value.id != id) && (m.pending.Some? ==> m.pending.value.id != id)
  }

  // ---------------------------------------------------------------- logs of whole runs

  /** The generations of `m` are those of the moment before the event, or the one the event saves. */
  ghost predicate Follows(m: Moment, before: Moment, e: Event) {
    && (OneOf(m.stable, before.stable, before.pending) || Makes(m.stable, e))
    && (m.pending.None? || m.pending == before.pending || Makes(m.pending, e))
  }

  predicate Makes(gen: Option<Generation>, e: Event) {
    e.SaveEvent? && Saves(gen, e.generation, e.stores)
  }

  ghost predicate Succeeded(events: seq<Event>, results: seq<Result<()>>, i: nat)
    requires i < |events| && i < |results|
  {
    events[i].SaveEvent? && results[i].Ok?
  }

  ghost predicate Divided(ends: seq<nat>, n: nat, length: nat) {
    |ends| == n + 1 && ends[0] > 0 && ends[n] <= length && forall i, j :: 0 <= i < j <= n ==> ends[i] <= ends[j]
  }

  /** Event `i` with its answer and its moments. */
  ghost predicate LogEntry(events: seq<Event>, results: seq<Result<()>>, history: seq<Moment>, ends: seq<nat>, i: nat)
    requires |results| == |events| && Divided(ends, |events|, |history|) && i < |events|
  {
    && (forall k :: ends[i] <= k < ends[i + 1] ==> Follows(history[k], history[ends[i] - 1], events[i]))
    && (Succeeded(events, results, i) ==>
          Makes(history[ends[i + 1] - 1].stable, events[i]) && history[ends[i + 1] - 1].pending.None?)
  }

  ghost predicate IsLog(events: seq<Event>, results: seq<Result<()>>, history: seq<Moment>, ends: seq<nat>) {
    && |results| == |events| && Divided(ends, |events|, |history|)
    && forall i :: 0 <= i < |events| ==> LogEntry(events, results, history, ends, i)
  }

  lemma LogExtends(events: seq<Event>, n: nat, results: seq<Result<()>>, before: seq<Moment>, ends: seq<nat>,
                   r: Result<()>, history: seq<Moment>)
    requires n < |events| && IsLog(events[..n], results, before, ends) && ends[n] == |before| && before <= history
    requires forall k :: |before| <= k < |history| ==> Follows(history[k], before[|before| - 1], events[n])
    requires events[n].SaveEvent? && r.Ok? ==>
               Makes(history[|history| - 1].stable, events[n]) && history[|history| - 1].pending.None?
    ensures IsLog(events[..n + 1], results + [r], history, ends + [|history|])
  {
    var events', results', ends' := events[..n + 1], results + [r], ends + [|history|];
    forall i | 0 <= i < n + 1 ensures LogEntry(events', results', history, ends', i) {
      if i < n { assert LogEntry(events[..n], results, before, ends, i); }
    }
  }

  /** The generations of `m` were there at the start or were given to one of the events. */
  ghost predicate KnownTo(m: Moment, start: Moment, events: seq<Event>) {
    && (OneOf(m.stable, start.stable, start.pending) || SavedBy(m.stable, events))
    && (m.pending.None? || m.pending == start.pending || SavedBy(m.pending, events))
  }

  /** The generations of `m` were all given to one of the events. */
  ghost predicate NotBefore(m: Moment, events: seq<Event>) {
    SavedBy(m.stable, events) && (m.pending.None? || SavedBy(m.pending, events))
  }

  lemma KnownFurther(m: Moment, before: Moment, start: Moment, events: seq<Event>, e: Event)
    requires KnownTo(before, start, events) && Follows(m, before, e)
    ensures KnownTo(m, start, events + [e])
  {
    var all := events + [e];
    assert all[|events|] == e;
    SavedByExtends([before.stable, before.pending], events, [e]);
  }

  lemma NotBeforeFurther(m: Moment, before: Moment, events: seq<Event>, e: Event)
    requires NotBefore(before, events) && Follows(m, before, e)
    ensures NotBefore(m, events + [e])
  {
    var all := events + [e];
    assert all[|events|] == e;
    SavedByExtends([before.stable, before.pending], events, [e]);
  }

  lemma {:induction false} LogKnown(events: seq<Event>, results: seq<Result<()>>, history: seq<Moment>, ends: seq<nat>,
                                    n: nat)
    requires IsLog(events, results, history, ends) && n <= |events|
    ensures KnownTo(history[ends[n] - 1], history[ends[0] - 1], events[..n])
    decreases n, 0
  {
    if n > 0 {
      if ends[n - 1] < ends[n] {
        MomentKnown(events, results, history, ends, n - 1, ends[n] - 1);
      } else {
        LogKnown(events, results, history, ends, n - 1);
        assert events[..n] == events[..n - 1] + [events[n - 1]];
        KnownFurther(history[ends[n] - 1], history[ends[n] - 1], history[ends[0] - 1], events[..n - 1], events[n - 1]);
      }
    }
  }

  lemma {:induction false} MomentKnown(events: seq<Event>, results: seq<Result<()>>, history: seq<Moment>,
                                       ends: seq<nat>, i: nat, k: nat)
    requires IsLog(events, results, history, ends) && i < |events| && ends[i] <= k < ends[i + 1]
    ensures KnownTo(history[k], history[ends[0] - 1], events[..i + 1])
    decreases i, 1
  {
    LogKnown(events, results, history, ends, i);
    assert LogEntry(events, results, history, ends, i);
    assert events[..i + 1] == events[..i] + [events[i]];
    KnownFurther(history[k], history[ends[i] - 1], history[ends[0] - 1], events[..i], events[i]);
  }

  lemma {:induction false} LogNotBefore(events: seq<Event>, results: seq<Result<()>>, history: seq<Moment>,
                                        ends: seq<nat>, i: nat, n: nat)
    requires IsLog(events, results, history, ends) && i < n <= |events| && Succeeded(events, results, i)
    ensures NotBefore(history[ends[n] - 1], events[i..n])
    decreases n, 0
  {
    var m := history[ends[n] - 1];
    if n == i + 1 {
      assert LogEntry(events, results, history, ends, i);
      assert events[i..n][0] == events[i];
    } else if ends[n - 1] < ends[n] {
      MomentNotBefore(events, results, history, ends, i, n - 1, ends[n] - 1);
    } else {
      LogNotBefore(events, results, history, ends, i, n - 1);
      assert events[i..n] == events[i..n - 1] + [events[n - 1]];
      NotBeforeFurther(m, m, events[i..n - 1], events[n - 1]);
    }
  }

  lemma {:induction false} MomentNotBefore(events: seq<Event>, results: seq<Result<()>>, history: seq<Moment>,
                                           ends: seq<nat>, i: nat, j: nat, k: nat)
    requires IsLog(events, results, history, ends) && i < j < |events| && Succeeded(events, results, i)
    requires ends[j] <= k < ends[j + 1]
    ensures NotBefore(history[k], events[i..j + 1])
    decreases j, 1
  {
    LogNotBefore(events, results, history, ends, i, j);
    assert LogEntry(events, results, history, ends, j);
    assert events[i..j + 1] == events[i..j] + [events[j]];
    NotBeforeFurther(history[k], history[ends[j] - 1], events[i..j], events[j]);
  }

  /** At every moment of event `i` both generations were there at the start or given to an event up to `i`. */
  ghost predicate AllKnown(events: seq<Event>, history: seq<Moment>, ends: seq<nat>, start: Moment)
    requires Divided(ends, |events|, |history|)
  {
    forall i, k :: 0 <= i < |events| && ends[i] <= k < ends[i + 1] ==> KnownTo(history[k], start, events[..i + 1])
  }

  /** After a save that succeeded both generations were given to it or to a later event, at every moment. */
  ghost predicate NoneBefore(events: seq<Event>, results: seq<Result<()>>, history: seq<Moment>, ends: seq<nat>)
    requires |results| == |events| && Divided(ends, |events|, |history|)
  {
    forall i, j, k :: 0 <= i < j < |events| && Succeeded(events, results, i) && ends[j] <= k < ends[j + 1] ==>
      NotBefore(history[k], events[i..j + 1])
  }

  lemma LogAllKnown(events: seq<Event>, results: seq<Result<()>>, history: seq<Moment>, ends: seq<nat>)
    requires IsLog(events, results, history, ends)
    ensures AllKnown(events, history, ends, history[ends[0] - 1])
  {
    forall i, k | 0 <= i < |events| && ends[i] <= k < ends[i + 1]
      ensures KnownTo(history[k], history[ends[0] - 1], events[..i + 1])
    {
      MomentKnown(events, results, history, ends, i, k);
    }
  }

  lemma LogNoneBefore(events: seq<Event>, results: seq<Result<()>>, history: seq<Moment>, ends: seq<nat>)
    requires IsLog(events, results, history, ends)
    ensures NoneBefore(events, results, history, ends)
  {
    forall i, j, k | 0 <= i < j < |events| && Succeeded(events, results, i) && ends[j] <= k < ends[j + 1]
      ensures NotBefore(history[k], events[i..j + 1])
    {
      MomentNotBefore(events, results, history, ends, i, j, k);
    }
  }

  lemma FreshForNext(setup: Setup, now: Moment, start: Moment, events: seq<Event>, i: nat)
    requires Schedule(setup, events) && i < |events| && events[i].SaveEvent? && KnownTo(now, start, events[..i])
    requires FreshAt(start, events[i].generation)
    ensures FreshAt(now, events[i].generation)
  {
    if SavedBy(now.stable, events[..i]) { SavedIdsDiffer(setup, now.stable, events, i); }
    if SavedBy(now.pending, events[..i]) { SavedIdsDiffer(setup, now.pending, events, i); }
  }

  /** Crash here, restart and load: the outcome is that of the committed or of the pending generation. */
  ghost predicate Recoverable(setup: Setup, m: Moment)
    requires Registered(setup)
  {
    |m.disk.window| > 0 &&
    forall choice: string -> nat, loss: nat -> Bytes :: LoadsOneOf(setup, m, Crashed(m.disk, choice, loss))
  }

  lemma ConsistentIsRecoverable(setup: Setup, m: Moment)
    requires Lawful(setup.lib) && Registered(setup) && Consistent(setup, m)
    ensures Recoverable(setup, m)
  {
    forall choice: string -> nat, loss: nat -> Bytes ensures LoadsOneOf(setup, m, Crashed(m.disk, choice, loss)) {
      LoadAfterCrash(setup, m, choice, loss);
    }
  }

  datatype Event =
    | SaveEvent(stores: map<string, BundleImage>, generation: string, nonce: Bytes)
    | CrashEvent(choice: string -> nat, loss: nat -> Bytes)

  predicate AcceptableSave(setup: Setup, e: Event)
    requires e.SaveEvent?
  {
    && e.stores.Keys == setup.registry.Keys && |e.nonce| == AES_NONCE_BYTES && IsGenerationId(e.generation)
    && forall s :: s in e.stores ==> Accepted(e.stores[s], setup.registry[s])
  }

  /** `gen` is a generation made from exactly these bundles. */
  predicate Saves(gen: Option<Generation>, id: string, stores: map<string, BundleImage>) {
    gen.Some? && gen.value.id == id && gen.value.images == stores
  }

  ghost predicate SavedBy(gen: Option<Generation>, events: seq<Event>) {
    exists e :: e in events && e.SaveEvent? && Saves(gen, e.generation, e.stores)
  }

  ghost predicate Schedule(setup: Setup, events: seq<Event>) {
    && (forall i :: 0 <= i < |events| && events[i].SaveEvent? ==> AcceptableSave(setup, events[i]))
    && (forall i, j :: 0 <= i < j < |events| && events[i].SaveEvent? && events[j].SaveEvent? ==>
          events[i].generation != events[j].generation)
  }

  lemma SavedByExtends(gens: seq<Option<Generation>>, events: seq<Event>, more: seq<Event>)
    ensures forall gen :: gen in gens && (SavedBy(gen, events) || SavedBy(gen, more)) ==> SavedBy(gen, events + more)
  {
  }

  lemma SavedIdsDiffer(setup: Setup, gen: Option<Generation>, events: seq<Event>, i: nat)
    requires Schedule(setup, events) && i < |events| && events[i].SaveEvent? && SavedBy(gen, events[..i])
    ensures gen.Some? && gen.value.id != events[i].generation
  {
  }

  function CommittedNames(gen: Generation): set<string> {
    {MANIFEST} + set s | s in gen.files :: GenerationFilename(s, gen.id)
  }

  lemma CommittedCovers(m: Moment, gen: Generation)
    requires m.stable == Some(gen) && m.pending.None?
    ensures forall n :: Protected(m, n) ==> n in CommittedNames(gen)
  {
  }

  predicate Disposable(name: string) {
    EndsWith(name, ".state") || EndsWith(name, ".tmp")
  }

  predicate FileHeld(d: Disk, gen: Generation, s: string) {
    s in gen.files && Holds(d, d.dir, GenerationFilename(s, gen.id), gen.files[s])
  }

  lemma AllHeldIsStored(setup: Setup, d: Disk, gen: Generation)
    requires Registered(setup) && Addressed(setup, gen)
    requires forall j :: 0 <= j < |setup.services| ==> FileHeld(d, gen, setup.services[j])
    ensures Stored(d, d.dir, gen)
  {
  }

  lemma FilesStayHeld(setup: Setup, d: Disk, d': Disk, gen: Generation, s: string)
    requires Registered(setup) && Addressed(setup, gen)
    requires Untouched(d, d', GenerationFilename(s, gen.id)) && FileHeld(d', gen, s)
    ensures forall t :: t in setup.registry && FileHeld(d, gen, t) ==> FileHeld(d', gen, t)
  {
    forall t | t in setup.registry && FileHeld(d, gen, t) ensures FileHeld(d', gen, t) {
      if GenerationFilename(t, gen.id) == GenerationFilename(s, gen.id) {
        FilenamesInjective(t, gen.id, s, gen.id);
      } else {
        GenerationNamesLast(setup, t, gen.id);
        HoldsTransfer(d, d.dir, d', d'.dir, GenerationFilename(t, gen.id), gen.files[t]);
      }
    }
  }

  lemma FreshIsUnprotected(setup: Setup, m: Moment, s: string, id: string)
    requires Consistent(setup, m) && IsGenerationId(id)
    requires (m.stable.Some? ==> m.stable.value.id != id) && (m.pending.Some? ==> m.pending.value.id != id)
    ensures !Protected(m, GenerationFilename(s, id))
  {
    FilenameIsNotManifest(s, id);
    forall t, g | IsGenerationId(g) && GenerationFilename(t, g) == GenerationFilename(s, id) ensures g == id {
      FilenamesInjective(t, g, s, id);
    }
  }

  /** The encoding step; nothing is written when a service cannot be encoded. */
  method EncodeAll(setup: Setup, stores: map<string, BundleImage>, generation: string, nonce: Bytes)
    returns (r: Result<Generation>)
    requires Lawful(setup.lib) && Registered(setup) && stores.Keys == setup.registry.Keys && |nonce| == AES_NONCE_BYTES
    requires forall s :: s in stores ==> Accepted(stores[s], setup.registry[s])
    requires IsGenerationId(generation)
    ensures r.Ok? ==> Genuine(setup, r.value) && r.value.id == generation && r.value.images == stores
    ensures r.Err? ==>
              exists s :: s in stores && EncodeSnapshot(setup.lib, s, stores[s], setup.key, nonce) == Err(r.reason)
    ensures r.Err? ==> r.reason != WriteFailed
  {
    var encoded: map<string, Bytes> := map[];
    var i := 0;
    while i < |setup.services|
      invariant 0 <= i <= |setup.services|
      invariant forall j :: 0 <= j < i ==> setup.services[j] in encoded
      invariant forall s :: s in encoded ==> s in stores && Encoded(setup, s, stores[s], encoded[s])
    {
      var s := setup.services[i];
      var data := EncodeOne(setup, s, stores[s], nonce);
      if data.Err? { return Err(data.reason); }
      encoded := encoded[s := data.value];
      i := i + 1;
    }
    EncodedIsGenuine(setup, Generation(generation, stores, encoded));
    r := Ok(Generation(generation, stores, encoded));
  }

  lemma EncodedIsGenuine(setup: Setup, gen: Generation)
    requires Registered(setup) && IsGenerationId(gen.id) && gen.images.Keys == setup.registry.Keys
    requires forall j :: 0 <= j < |setup.services| ==> setup.services[j] in gen.files
    requires forall s :: s in gen.files ==> s in gen.images && Encoded(setup, s, gen.images[s], gen.files[s])
    ensures Genuine(setup, gen)
  {
    forall s ensures s in gen.files <==> s in setup.registry {
      if s in setup.registry { assert s in setup.services; }
    }
  }

  ghost predicate Encoded(setup: Setup, s: string, image: BundleImage, data: Bytes)
    requires s in setup.registry
  {
    0 < |data| <= MAX_FILE_BYTES && DecodeSnapshot(setup.lib, s, data, setup.registry[s], setup.key) == Ok(image)
  }

  method EncodeOne(setup: Setup, s: string, image: BundleImage, nonce: Bytes) returns (r: Result<Bytes>)
    requires Lawful(setup.lib) && s in setup.registry && |nonce| == AES_NONCE_BYTES &&
             Accepted(image, setup.registry[s])
    ensures r.Ok? ==> Encoded(setup, s, image, r.value)
    ensures r.Err? ==> EncodeSnapshot(setup.lib, s, image, setup.key, nonce) == Err(r.reason) && r.reason != WriteFailed
  {
    r := EncodeSnapshot(setup.lib, s, image, setup.key, nonce);
    if r.Ok? {
      SnapshotRoundTrip(setup.lib, s, image, setup.key, nonce);
      DecodeUndoesEncode(setup.lib, s, image, setup.registry[s], setup.key, nonce);
    }
  }
}
