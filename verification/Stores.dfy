/** The live stores: `AccountRegionBundle`, `RegionBundle` and the attribute descriptors. Dictionaries and locks
    carry reference numbers, so that who shares what is explicit: a write goes to the one dictionary with that
    number and shows wherever the number is used. */
module Stores {
  import opened BundleImages

  datatype Scope = Local | CrossRegion | CrossAccount

  // ---------------------------------------------------------------- reading and writing the graph

  function RegistrationOf(g: BundleImage): Registration {
    Registration(g.service, g.storeClass, g.validate)
  }

  /** Closed, and of the shape `_validate_bundle_topology` demands. */
  predicate Shaped(g: BundleImage) {
    ClosedImage(g) && TopologyAccepted(g, RegistrationOf(g))
  }

  /** What that check leaves open: no two accounts share a `_global` dictionary, and none is `_universal`. */
  predicate Separate(g: BundleImage) {
    SeparateGlobals(g) && forall a :: a in g.accounts ==> g.accounts[a].globalRef != g.universalRef
  }

  predicate SeparateGlobals(g: BundleImage) {
    forall a, b :: a in g.accounts && b in g.accounts && a != b ==> g.accounts[a].globalRef != g.accounts[b].globalRef
  }

  predicate Sound(g: BundleImage) {
    Shaped(g) && Separate(g)
  }

  predicate HasStore(g: BundleImage, account: string, region: string) {
    account in g.accounts && region in g.accounts[account].stores
  }

  /** The attributes a read of the given scope consults through one store. */
  function Read(g: BundleImage, scope: Scope, account: string, region: string): Attributes
    requires ClosedImage(g) && HasStore(g, account, region)
  {
    var store := g.accounts[account].stores[region];
    match scope
    case Local => store.locals
    case CrossRegion => g.dicts[store.globalRef]
    case CrossAccount => g.dicts[store.universalRef]
  }

  /** One attribute write through a store: into its own attributes, or into the dictionary it refers to. */
  function Written(g: BundleImage, scope: Scope, account: string, region: string, name: string,
                   value: Value): (g': BundleImage)
    requires ClosedImage(g) && HasStore(g, account, region)
    ensures g'.accounts.Keys == g.accounts.Keys && g'.dicts.Keys == g.dicts.Keys
  {
    var bundle := g.accounts[account];
    var store := bundle.stores[region];
    match scope
    case Local =>
      WithRegion(g, account, bundle.(stores := bundle.stores[region := store.(locals := store.locals[name := value])]))
    case CrossRegion => g.(dicts := g.dicts[store.globalRef := g.dicts[store.globalRef][name := value]])
    case CrossAccount => g.(dicts := g.dicts[store.universalRef := g.dicts[store.universalRef][name := value]])
  }

  function WithRegion(g: BundleImage, account: string, bundle: RegionImage): BundleImage {
    g.(accounts := g.accounts[account := bundle])
  }

  /** The stores that share an attribute written through (`account`, `region`). */
  predicate Shares(scope: Scope, account: string, region: string, account': string, region': string) {
    match scope
    case Local => account == account' && region == region'
    case CrossRegion => account == account'
    case CrossAccount => true
  }

  predicate SameAt(was: Attributes, now: Attributes, name: string) {
    (name in was <==> name in now) && (name in was ==> was[name] == now[name])
  }

  datatype Address = Address(scope: Scope, account: string, region: string, name: string)

  /** A write at `at` shows at `from` exactly if the two share the attribute; otherwise `from` sees no change. */
  predicate ShownProperly(g: BundleImage, g': BundleImage, at: Address, value: Value, from: Address)
    requires ClosedImage(g) && ClosedImage(g')
    requires HasStore(g, from.account, from.region) && HasStore(g', from.account, from.region)
  {
    var was, now := Read(g, from.scope, from.account, from.region), Read(g', from.scope, from.account, from.region);
    if at.scope == from.scope && at.name == from.name &&
        Shares(at.scope, at.account, at.region, from.account, from.region)
    then from.name in now && now[from.name] == value
    else SameAt(was, now, from.name)
  }

  lemma StoreOf(g: BundleImage, account: string, region: string)
    requires Shaped(g) && HasStore(g, account, region)
    ensures var bundle := g.accounts[account]; var store := bundle.stores[region];
            && RegionAccepted(g, account, bundle) && ClosedRegion(g.dicts.Keys, bundle)
            && StoreAccepted(g, account, bundle, region, store) && ClosedStore(g.dicts.Keys, store)
  {
  }

  /** Replacing one region bundle by another well-formed one for the same account and dictionary. */
  lemma WithRegionShaped(g: BundleImage, account: string, bundle: RegionImage)
    requires Shaped(g) && RegionAccepted(g, account, bundle) && ClosedRegion(g.dicts.Keys, bundle)
    ensures Shaped(WithRegion(g, account, bundle))
    ensures account in g.accounts && bundle.globalRef == g.accounts[account].globalRef && Separate(g) ==>
              Separate(WithRegion(g, account, bundle))
  {
  }

  lemma RegionAcceptedElsewhere(g: BundleImage, g': BundleImage, a: string, bundle: RegionImage)
    requires g' == g.(accounts := g'.accounts, dicts := g'.dicts)
    ensures RegionAccepted(g, a, bundle) <==> RegionAccepted(g', a, bundle)
  {
  }

  lemma DictsChanged(g: BundleImage, dicts: map<nat, Attributes>)
    requires Shaped(g) && dicts.Keys == g.dicts.Keys
    ensures Shaped(g.(dicts := dicts)) && (Separate(g) ==> Separate(g.(dicts := dicts)))
  {
  }

  lemma WriteKeepsShape(g: BundleImage, at: Address, value: Value)
    requires Shaped(g) && HasStore(g, at.account, at.region)
    ensures var g' := Written(g, at.scope, at.account, at.region, at.name, value);
            Shaped(g') && (Separate(g) ==> Separate(g'))
  {
    StoreOf(g, at.account, at.region);
    var g' := Written(g, at.scope, at.account, at.region, at.name, value);
    if at.scope.Local? {
      var bundle, bundle' := g.accounts[at.account], g'.accounts[at.account];
      forall r | r in bundle'.stores
        ensures StoreAccepted(g, at.account, bundle', r, bundle'.stores[r]) &&
                ClosedStore(g.dicts.Keys, bundle'.stores[r])
      {
        assert StoreAccepted(g, at.account, bundle, r, bundle.stores[r]) && ClosedStore(g.dicts.Keys, bundle.stores[r]);
      }
      WithRegionShaped(g, at.account, bundle');
    } else {
      DictsChanged(g, g'.dicts);
    }
  }

  /** A local write reaches the attributes of its own store and nothing else. */
  lemma LocalWriteReads(g: BundleImage, at: Address, value: Value, from: Address)
    requires ClosedImage(g) && at.scope.Local? && HasStore(g, at.account, at.region) &&
             HasStore(g, from.account, from.region)
    requires ClosedImage(Written(g, at.scope, at.account, at.region, at.name, value))
    ensures var g' := Written(g, at.scope, at.account, at.region, at.name, value);
            var was := Read(g, from.scope, from.account, from.region);
            && HasStore(g', from.account, from.region)
            && Read(g', from.scope, from.account, from.region) ==
                 if from.scope.Local? && Shares(Local, at.account, at.region, from.account, from.region)
                 then was[at.name := value] else was
  {
    var g' := Written(g, at.scope, at.account, at.region, at.name, value);
    var store, store' := g.accounts[from.account].stores[from.region], g'.accounts[from.account].stores[from.region];
    assert store'.globalRef == store.globalRef && store'.universalRef == store.universalRef;
  }

  /** A shared write reaches every reader of the dictionary with that reference number. */
  lemma SharedWriteReads(g: BundleImage, at: Address, value: Value, from: Address)
    requires Shaped(g) && !at.scope.Local? && HasStore(g, at.account, at.region) &&
             HasStore(g, from.account, from.region)
    requires ClosedImage(Written(g, at.scope, at.account, at.region, at.name, value))
    ensures var g' := Written(g, at.scope, at.account, at.region, at.name, value);
            var was := Read(g, from.scope, from.account, from.region);
            && HasStore(g', from.account, from.region)
            && Read(g', from.scope, from.account, from.region) ==
                 if !from.scope.Local? && RefOf(g, at.scope, at.account) == RefOf(g, from.scope, from.account)
                 then was[at.name := value] else was
  {
    StoreOf(g, at.account, at.region);
    StoreOf(g, from.account, from.region);
  }

  /** The dictionary that a non-local scope uses in an account. */
  function RefOf(g: BundleImage, scope: Scope, account: string): nat
    requires account in g.accounts
  {
    if scope.CrossRegion? then g.accounts[account].globalRef else g.universalRef
  }

  /** Separation as far as existing stores can tell. */
  ghost predicate SeparateInUse(g: BundleImage) {
    && (forall a, b :: InUse(g, a) && InUse(g, b) && a != b ==> g.accounts[a].globalRef != g.accounts[b].globalRef)
    && (forall a :: InUse(g, a) ==> g.accounts[a].globalRef != g.universalRef)
  }

  predicate InUse(g: BundleImage, account: string) {
    account in g.accounts && g.accounts[account].stores != map[]
  }

  /** Isolation: a local write is seen in its account and region only, a cross-region write in all and only that
      account's regions, and a cross-account write everywhere. */
  lemma WriteIsIsolated(g: BundleImage, at: Address, value: Value, from: Address)
    requires Shaped(g) && SeparateInUse(g) && HasStore(g, at.account, at.region) &&
             HasStore(g, from.account, from.region)
    ensures var g' := Written(g, at.scope, at.account, at.region, at.name, value);
            ClosedImage(g') && HasStore(g', from.account, from.region) && ShownProperly(g, g', at, value, from)
  {
    WriteKeepsShape(g, at, value);
    assert InUse(g, at.account) && InUse(g, from.account);
    if at.scope.Local? { LocalWriteReads(g, at, value, from); } else { SharedWriteReads(g, at, value, from); }
  }

  ghost predicate IsolatedAt(g: BundleImage, at: Address, value: Value, from: Address)
    requires ClosedImage(g) && HasStore(g, at.account, at.region) && HasStore(g, from.account, from.region)
  {
    var g' := Written(g, at.scope, at.account, at.region, at.name, value);
    ClosedImage(g') && HasStore(g', from.account, from.region) && ShownProperly(g, g', at, value, from)
  }

  ghost predicate Isolating(g: BundleImage)
    requires ClosedImage(g)
  {
    forall at: Address, value, from: Address ::
      HasStore(g, at.account, at.region) && HasStore(g, from.account, from.region) ==> IsolatedAt(g, at, value, from)
  }

  /** Two scopes on one dictionary: a write through the one changes what the other reads. */
  lemma SharedDictionaryLeaks(g: BundleImage, at: Address, from: Address) returns (value: Value)
    requires Shaped(g) && HasStore(g, at.account, at.region) && HasStore(g, from.account, from.region)
    requires at.name == from.name && at.scope.CrossRegion? && !from.scope.Local?
    requires at.account != from.account || from.scope.CrossAccount?
    requires RefOf(g, at.scope, at.account) == RefOf(g, from.scope, from.account)
    ensures !IsolatedAt(g, at, value, from)
  {
    var was := Read(g, from.scope, from.account, from.region);
    value := if at.name in was then was[at.name] + 1 else 0;
    WriteKeepsShape(g, at, value);
    SharedWriteReads(g, at, value, from);
  }

  /** The exact condition: a graph that passes the topology check isolates its accounts if and only if no two
      accounts in use share their `_global` dictionary, or one of them shares it with `_universal`. */
  lemma IsolationIffSeparate(g: BundleImage)
    requires Shaped(g)
    ensures Isolating(g) <==> SeparateInUse(g)
  {
    if SeparateInUse(g) {
      forall at: Address, value, from: Address |
        HasStore(g, at.account, at.region) && HasStore(g, from.account, from.region)
        ensures IsolatedAt(g, at, value, from)
      {
        WriteIsIsolated(g, at, value, from);
      }
    } else if a, b :| InUse(g, a) && InUse(g, b) && a != b && g.accounts[a].globalRef == g.accounts[b].globalRef {
      var r :| r in g.accounts[a].stores;
      var s :| s in g.accounts[b].stores;
      var at, from := Address(CrossRegion, a, r, "x"), Address(CrossRegion, b, s, "x");
      var value := SharedDictionaryLeaks(g, at, from);
      assert HasStore(g, at.account, at.region) && HasStore(g, from.account, from.region) &&
          !IsolatedAt(g, at, value, from);
    } else {
      var a :| InUse(g, a) && g.accounts[a].globalRef == g.universalRef;
      var r :| r in g.accounts[a].stores;
      var at, from := Address(CrossRegion, a, r, "x"), Address(CrossAccount, a, r, "x");
      var value := SharedDictionaryLeaks(g, at, from);
      assert HasStore(g, at.account, at.region) && HasStore(g, from.account, from.region) &&
          !IsolatedAt(g, at, value, from);
    }
  }

  /** Two accounts on one `_global` dictionary. */
  const LEAKING: BundleImage :=
    var store := (account: string) => StoreImage({0}, "sqs", account, "us-east-1", 1, 0, map[]);
    var bundle := (account: string) =>
        RegionImage("sqs", 0, account, true, 0, 1, 0, map["us-east-1" := store(account)]);
    BundleImage("sqs", 0, true, 0, 0,
                map["000000000001" := bundle("000000000001"), "000000000002" := bundle("000000000002")],
                map[0 := map[], 1 := map[]], 2)

  /** The topology check accepts it, and yet its accounts are not isolated. */
  lemma TopologyCheckAdmitsLeak()
    ensures Shaped(LEAKING) && Accepted(LEAKING, Registration("sqs", 0, true)) && !Isolating(LEAKING)
  {
    assert HasStore(LEAKING, "000000000001", "us-east-1") && HasStore(LEAKING, "000000000002", "us-east-1");
    assert InUse(LEAKING, "000000000001") && InUse(LEAKING, "000000000002");
    IsolationIffSeparate(LEAKING);
  }

  // ---------------------------------------------------------------- equal contents

  function Universal(g: BundleImage): Attributes
    requires ClosedImage(g)
  {
    g.dicts[g.universalRef]
  }

  function Global(g: BundleImage, account: string): Attributes
    requires ClosedImage(g) && account in g.accounts
  {
    g.dicts[g.accounts[account].globalRef]
  }

  predicate SameLocals(a: RegionImage, b: RegionImage) {
    a.stores.Keys == b.stores.Keys && forall r :: r in a.stores ==> a.stores[r].locals == b.stores[r].locals
  }

  /** Same accounts, same regions, same attributes in every scope, whatever the reference numbers. */
  predicate SameContents(g: BundleImage, h: BundleImage)
    requires ClosedImage(g) && ClosedImage(h)
  {
    && Universal(g) == Universal(h)
    && g.accounts.Keys == h.accounts.Keys
    && forall a :: a in g.accounts ==> Global(g, a) == Global(h, a) && SameLocals(g.accounts[a], h.accounts[a])
  }

  /** Graphs with the same contents cannot be told apart by reading attributes. */
  lemma SameContentsReadTheSame(g: BundleImage, h: BundleImage, scope: Scope, account: string, region: string)
    requires Shaped(g) && Shaped(h) && SameContents(g, h) && HasStore(g, account, region)
    ensures HasStore(h, account, region) && Read(g, scope, account, region) == Read(h, scope, account, region)
  {
  }

  // ---------------------------------------------------------------- the live bundle

  /** `re.match(r"\d{12}", account)`: twelve leading digits, anything may follow. */
  predicate StartsWithAccountId(account: string) {
    |account| >= 12 && forall i :: 0 <= i < 12 ==> '0' <= account[i] <= '9'
  }

  function NewRegion(g: BundleImage, account: string): RegionImage {
    RegionImage(g.service, g.storeClass, account, g.validate, g.lockRef, g.next, g.universalRef, map[])
  }

  function WithAccount(g: BundleImage, account: string): BundleImage {
    if account in g.accounts then g
    else WithRegion(g.(dicts := g.dicts[g.next := map[]], next := g.next + 1), account, NewRegion(g, account))
  }

  function NewStore(bundle: RegionImage, region: string): StoreImage {
    StoreImage({bundle.storeClass}, bundle.service, bundle.account, region, bundle.globalRef, bundle.universalRef,
               map[])
  }

  function WithStore(g: BundleImage, account: string, region: string): BundleImage
    requires account in g.accounts
  {
    var bundle := g.accounts[account];
    if region in bundle.stores then g
    else WithRegion(g, account, bundle.(stores := bundle.stores[region := NewStore(bundle, region)]))
  }

  lemma WithAccountSound(g: BundleImage, account: string)
    requires Sound(g)
    ensures Sound(WithAccount(g, account))
  {
    if account !in g.accounts {
      var h := g.(dicts := g.dicts[g.next := map[]], next := g.next + 1);
      assert Shaped(h) by {
        forall a | a in h.accounts
          ensures RegionAccepted(h, a, h.accounts[a]) && ClosedRegion(h.dicts.Keys, h.accounts[a])
        {
          assert RegionAccepted(g, a, g.accounts[a]) && ClosedRegion(g.dicts.Keys, g.accounts[a]);
          forall r | r in g.accounts[a].stores
            ensures StoreAccepted(h, a, h.accounts[a], r, h.accounts[a].stores[r]) &&
                    ClosedStore(h.dicts.Keys, h.accounts[a].stores[r])
          {
            assert StoreAccepted(g, a, g.accounts[a], r, g.accounts[a].stores[r]) &&
                ClosedStore(g.dicts.Keys, g.accounts[a].stores[r]);
          }
        }
      }
      WithRegionShaped(h, account, NewRegion(g, account));
      assert forall a :: a in g.accounts ==> g.accounts[a].globalRef != g.next by {
        assert forall a :: a in g.accounts ==> ClosedRegion(g.dicts.Keys, g.accounts[a]);
      }
    }
  }

  lemma WithStoreSound(g: BundleImage, account: string, region: string)
    requires Sound(g) && account in g.accounts
    ensures Sound(WithStore(g, account, region)) && HasStore(WithStore(g, account, region), account, region)
  {
    var bundle := g.accounts[account];
    assert RegionAccepted(g, account, bundle) && ClosedRegion(g.dicts.Keys, bundle);
    if region !in bundle.stores {
      var bundle' := bundle.(stores := bundle.stores[region := NewStore(bundle, region)]);
      forall r | r in bundle'.stores
        ensures StoreAccepted(g, account, bundle', r, bundle'.stores[r]) && ClosedStore(g.dicts.Keys, bundle'.stores[r])
      {
        if r != region {
          assert StoreAccepted(g, account, bundle, r, bundle.stores[r]) && ClosedStore(g.dicts.Keys, bundle.stores[r]);
        }
      }
      WithRegionShaped(g, account, bundle');
    }
  }

  predicate SameReads(g: BundleImage, g': BundleImage, account: string, region: string)
    requires ClosedImage(g) && ClosedImage(g') && HasStore(g, account, region) && HasStore(g', account, region)
  {
    && Read(g', Local, account, region) == Read(g, Local, account, region)
    && Read(g', CrossRegion, account, region) == Read(g, CrossRegion, account, region)
    && Read(g', CrossAccount, account, region) == Read(g, CrossAccount, account, region)
  }

  /** Every store is still there and reads the same in all scopes, and so does every account without one. */
  ghost predicate KeepsStores(g: BundleImage, g': BundleImage)
    requires ClosedImage(g) && ClosedImage(g')
  {
    && (forall a, r :: HasStore(g, a, r) ==> HasStore(g', a, r) && SameReads(g, g', a, r))
    && (forall a :: a in g.accounts ==> a in g'.accounts && Global(g', a) == Global(g, a))
    && Universal(g') == Universal(g)
  }

  lemma WithStoreKeeps(g: BundleImage, account: string, region: string)
    requires account in g.accounts && Sound(g) && Sound(WithStore(g, account, region))
    ensures KeepsStores(g, WithStore(g, account, region))
    ensures !HasStore(g, account, region) ==> FreshStore(g, WithStore(g, account, region), account, region)
  {
    var g' := WithStore(g, account, region);
    forall a, r | HasStore(g, a, r) ensures HasStore(g', a, r) && SameReads(g, g', a, r) {
      assert g'.accounts[a].stores[r] == g.accounts[a].stores[r];
    }
    assert ClosedRegion(g.dicts.Keys, g.accounts[account]) && RegionAccepted(g, account, g.accounts[account]);
  }

  /** A new store has no attributes of its own and shares those of its account and of the bundle. */
  predicate FreshStore(g: BundleImage, g': BundleImage, account: string, region: string)
    requires ClosedImage(g) && ClosedImage(g') && account in g.accounts
  {
    && HasStore(g', account, region) && Read(g', Local, account, region) == map[]
    && Read(g', CrossRegion, account, region) == Global(g, account)
    && Read(g', CrossAccount, account, region) == Universal(g)
  }

  lemma WithAccountKeeps(g: BundleImage, account: string)
    requires Sound(g) && Sound(WithAccount(g, account))
    ensures KeepsStores(g, WithAccount(g, account))
    ensures account !in g.accounts ==> Global(WithAccount(g, account), account) == map[]
  {
    var g' := WithAccount(g, account);
    forall a | a in g.accounts ensures ClosedRegion(g.dicts.Keys, g.accounts[a]) && g'.accounts[a] == g.accounts[a] { }
    forall a, r | HasStore(g, a, r) ensures HasStore(g', a, r) && SameReads(g, g', a, r) {
      assert ClosedStore(g.dicts.Keys, g.accounts[a].stores[r]);
    }
  }

  lemma EmptiedRegionSound(g: BundleImage, account: string, dicts: map<nat, Attributes>)
    requires Sound(g) && account in g.accounts && dicts.Keys == g.dicts.Keys
    ensures Sound(WithRegion(g.(dicts := dicts), account, g.accounts[account].(stores := map[])))
  {
    var bundle := g.accounts[account];
    assert RegionAccepted(g, account, bundle) && ClosedRegion(g.dicts.Keys, bundle);
    DictsChanged(g, dicts);
    RegionAcceptedElsewhere(g, g.(dicts := dicts), account, bundle.(stores := map[]));
    WithRegionShaped(g.(dicts := dicts), account, bundle.(stores := map[]));
  }

  class AccountRegionBundle {
    const validRegions: set<string>
    var graph: BundleImage

    /** Reachable bundles keep one lock and one `_universal` throughout and one `_global` per account. */
    ghost predicate Valid()
      reads this
    {
      Sound(graph)
    }

    constructor (service: string, storeClass: nat, validate: bool, validRegions: set<string>)
      ensures Valid() && RegistrationOf(graph) == Registration(service, storeClass, validate)
      ensures graph.accounts == map[] && Universal(graph) == map[]
    {
      this.validRegions := validRegions;
      graph := BundleImage(service, storeClass, validate, 0, 0, map[], map[0 := map[]], 1);
    }

    /** `AccountRegionBundle.__getitem__`: `false` stands for the `ValueError` on a malformed account id. */
    method GetAccount(account: string) returns (ok: bool)
      requires Valid()
      modifies this
      ensures Valid()
      ensures ok <==> !graph.validate || (|account| >= 12 && forall i :: 0 <= i < 12 ==> '0' <= account[i] <= '9')
      ensures graph == if ok then WithAccount(old(graph), account) else old(graph)
      ensures KeepsStores(old(graph), graph)
      ensures forall a, r :: HasStore(graph, a, r) ==> HasStore(old(graph), a, r)
      ensures graph.accounts.Keys == old(graph).accounts.Keys + if ok then {account} else {}
      ensures ok && account !in old(graph).accounts ==> Global(graph, account) == map[]
    {
      ok := !graph.validate || StartsWithAccountId(account);
      WithAccountSound(graph, account);
      WithAccountKeeps(graph, account);
      if ok && account !in graph.accounts {
        var created := NewRegion(graph, account);
        graph := graph.(dicts := graph.dicts[graph.next := map[]], next := graph.next + 1);
        graph := WithRegion(graph, account, created);
      }
    }

    /** `RegionBundle.__getitem__` of an account's bundle: `false` stands for the `ValueError` on an unknown region. */
    method GetStore(account: string, region: string, allowNonstandardRegions: bool) returns (ok: bool)
      requires Valid() && account in graph.accounts
      modifies this
      ensures Valid() && ok == (allowNonstandardRegions || !graph.validate || region in validRegions)
      ensures graph == if ok then WithStore(old(graph), account, region) else old(graph)
      ensures KeepsStores(old(graph), graph) && graph.accounts.Keys == old(graph).accounts.Keys
      ensures forall a, r :: HasStore(graph, a, r) <==>
                HasStore(old(graph), a, r) || (ok && a == account && r == region)
      ensures ok && !HasStore(old(graph), account, region) ==> FreshStore(old(graph), graph, account, region)
    {
      var bundle := graph.accounts[account];
      assert RegionAccepted(graph, account, bundle);
      ok := allowNonstandardRegions || !bundle.validate || region in validRegions;
      WithStoreSound(graph, account, region);
      WithStoreKeeps(graph, account, region);
      if ok {
        if region !in bundle.stores {
          var store := NewStore(bundle, region);
          graph := WithRegion(graph, account, bundle.(stores := bundle.stores[region := store]));
        }
      }
    }

    /** The descriptors' `__set__`. */
    method SetAttribute(at: Address, value: Value)
      requires Valid() && HasStore(graph, at.account, at.region)
      modifies this
      ensures Valid() && HasStore(graph, at.account, at.region)
      ensures graph == Written(old(graph), at.scope, at.account, at.region, at.name, value)
      ensures forall from: Address :: HasStore(old(graph), from.account, from.region) ==>
                HasStore(graph, from.account, from.region) && ShownProperly(old(graph), graph, at, value, from)
    {
      WriteKeepsShape(graph, at, value);
      forall from: Address | HasStore(graph, from.account, from.region)
        ensures var g' := Written(graph, at.scope, at.account, at.region, at.name, value);
                HasStore(g', from.account, from.region) && ShownProperly(graph, g', at, value, from)
      {
        WriteIsIsolated(graph, at, value, from);
      }
      graph := Written(graph, at.scope, at.account, at.region, at.name, value);
    }

    /** The descriptors' `__get__`: the first read stores the default where a write would have put it. */
    method GetAttribute(at: Address, default: Value) returns (value: Value)
      requires Valid() && HasStore(graph, at.account, at.region)
      modifies this
      ensures Valid() && HasStore(graph, at.account, at.region)
      ensures var was := Read(old(graph), at.scope, at.account, at.region);
              if at.name in was then value == was[at.name] && graph == old(graph)
              else value == default && graph == Written(old(graph), at.scope, at.account, at.region, at.name, default)
    {
      if at.name !in Read(graph, at.scope, at.account, at.region) { SetAttribute(at, default); }
      value := Read(graph, at.scope, at.account, at.region)[at.name];
    }

    /** `RegionBundle.reset`: the account's own data goes; the rest of the bundle keeps its contents, the
        cross-account attributes too unless the caller asks for them and the account has a store to reach them by. */
    method ResetRegion(account: string, resetUniversal: bool)
      requires Valid() && account in graph.accounts
      modifies this
      ensures Valid() && account in graph.accounts
      ensures graph == old(graph).(accounts := graph.accounts, dicts := graph.dicts)
      ensures graph.accounts == old(graph).accounts[account := old(graph).accounts[account].(stores := map[])]
      ensures Global(graph, account) == map[]
      ensures forall a :: a in graph.accounts && a != account ==> Global(graph, a) == Global(old(graph), a)
      ensures Universal(graph) ==
                if resetUniversal && old(graph).accounts[account].stores != map[] then map[] else Universal(old(graph))
    {
      var g := graph;
      var bundle := g.accounts[account];
      var dicts := ClearStores(g, account, resetUniversal);
      assert ClosedRegion(g.dicts.Keys, bundle);
      dicts := dicts[bundle.globalRef := map[]];
      EmptiedRegionSound(g, account, dicts);
      assert forall a :: a in g.accounts && a != account ==> ClosedRegion(g.dicts.Keys, g.accounts[a]);
      graph := WithRegion(g.(dicts := dicts), account, bundle.(stores := map[]));
    }

    /** `AccountRegionBundle.reset`: no data and no stores are left, whatever the documentation says about
        retaining them. */
    method Reset()
      requires Valid()
      modifies this
      ensures Valid() && RegistrationOf(graph) == RegistrationOf(old(graph))
      ensures graph.lockRef == old(graph).lockRef && graph.universalRef == old(graph).universalRef
      ensures graph.accounts == map[] && Universal(graph) == map[]
    {
      var rest := graph.accounts.Keys;
      while rest != {}
        invariant Valid() && rest <= graph.accounts.Keys
        invariant graph == old(graph).(accounts := graph.accounts, dicts := graph.dicts)
        decreases rest
      {
        var account :| account in rest;
        rest := rest - {account};
        ResetRegion(account, true);
      }
      var dicts := graph.dicts[graph.universalRef := map[]];
      DictsChanged(graph, dicts);
      graph := graph.(dicts := dicts);
      graph := graph.(accounts := map[]);
    }

    /** `_restore_bundle`: empty the bundle, copy the cross-account attributes, adopt the region bundles of the
        snapshot and link them to this bundle's lock and `_universal`. The result holds what the snapshot holds, has
        the demanded topology, and isolates accounts exactly as far as the snapshot's `_global`s were distinct. */
    method Restore(source: BundleImage)
      requires Valid() && ClosedImage(source) && Accepted(source, RegistrationOf(graph))
      modifies this
      ensures Shaped(graph) && RegistrationOf(graph) == RegistrationOf(old(graph))
      ensures SameContents(source, graph)
      ensures Separate(graph) <==> SeparateGlobals(source)
    {
      Reset();
      var base := graph.next;
      var dicts := Adopt(graph.dicts, source, base);
      var updated := dicts[graph.universalRef] + Universal(source);
      assert updated == Universal(source);
      graph := graph.(dicts := dicts[graph.universalRef := updated], next := base + source.next);
      LinkAccounts(source, base);
      RestoredShape(source, graph, base);
      RestoredSeparation(source, graph, base);
      RestoredContents(source, graph, base);
    }

    /** The loop of `_restore_bundle` over the snapshot's accounts. */
    method LinkAccounts(source: BundleImage, base: nat)
      requires graph.accounts == map[]
      modifies this
      ensures graph == old(graph).(accounts := graph.accounts)
      ensures graph.accounts.Keys == source.accounts.Keys
      ensures forall a :: a in source.accounts ==> graph.accounts[a] == Relinked(source.accounts[a], graph, base)
    {
      var rest := source.accounts.Keys;
      while rest != {}
        invariant rest <= source.accounts.Keys
        invariant graph == old(graph).(accounts := graph.accounts)
        invariant graph.accounts.Keys == source.accounts.Keys - rest
        invariant forall a :: a in graph.accounts ==> graph.accounts[a] == Relinked(source.accounts[a], graph, base)
        decreases rest
      {
        var account :| account in rest;
        rest := rest - {account};
        graph := WithRegion(graph, account, Relinked(source.accounts[account], graph, base));
      }
    }
  }

  /** The loop of `RegionBundle.reset` over the account's stores: their shared dictionaries are emptied. */
  method ClearStores(g: BundleImage, account: string, resetUniversal: bool) returns (dicts: map<nat, Attributes>)
    requires Sound(g) && account in g.accounts
    ensures dicts.Keys == g.dicts.Keys
    ensures forall ref :: ref in dicts && ref != g.accounts[account].globalRef && ref != g.universalRef ==>
             dicts[ref] == g.dicts[ref]
    ensures dicts[g.universalRef] ==
              if resetUniversal && g.accounts[account].stores != map[] then map[] else Universal(g)
  {
    var bundle := g.accounts[account];
    dicts := g.dicts;
    var rest := bundle.stores.Keys;
    while rest != {}
      invariant rest <= bundle.stores.Keys && dicts.Keys == g.dicts.Keys
      invariant forall ref :: ref in dicts && ref != bundle.globalRef && ref != g.universalRef ==>
                 dicts[ref] == g.dicts[ref]
      invariant dicts[g.universalRef] == if resetUniversal && rest != bundle.stores.Keys then map[] else Universal(g)
      decreases rest
    {
      var region :| region in rest;
      rest := rest - {region};
      StoreOf(g, account, region);
      var store := bundle.stores[region];
      dicts := dicts[store.globalRef := map[]];
      if resetUniversal { dicts := dicts[store.universalRef := map[]]; }
    }
  }

  /** The snapshot's dictionaries become objects of the running process, numbered from `base` on. */
  method Adopt(dicts: map<nat, Attributes>, source: BundleImage, base: nat) returns (adopted: map<nat, Attributes>)
    requires ClosedImage(source) && forall ref :: ref in dicts ==> ref < base
    ensures forall ref :: ref in dicts ==> ref in adopted && adopted[ref] == dicts[ref]
    ensures forall ref :: ref in source.dicts ==> base + ref in adopted && adopted[base + ref] == source.dicts[ref]
    ensures forall ref :: ref in adopted ==> ref < base + source.next
  {
    adopted := dicts;
    var rest := source.dicts.Keys;
    while rest != {}
      invariant rest <= source.dicts.Keys
      invariant forall ref :: ref in dicts ==> ref in adopted && adopted[ref] == dicts[ref]
      invariant forall ref :: ref in source.dicts && ref !in rest ==>
                 base + ref in adopted && adopted[base + ref] == source.dicts[ref]
      invariant forall ref :: ref in adopted ==> ref < base + source.next
      decreases rest
    {
      var ref :| ref in rest;
      rest := rest - {ref};
      adopted := adopted[base + ref := source.dicts[ref]];
    }
  }

  /** One pass of the restore loop over a region bundle and its stores. */
  function Relinked(bundle: RegionImage, target: BundleImage, base: nat): RegionImage {
    var global := base + bundle.globalRef;
    bundle.(lockRef := target.lockRef, globalRef := global, universalRef := target.universalRef,
            stores := map r | r in bundle.stores ::
                        bundle.stores[r].(globalRef := global, universalRef := target.universalRef))
  }

  ghost predicate IsRestored(source: BundleImage, g: BundleImage, base: nat)
    requires ClosedImage(source)
  {
    && IdentityAccepted(source, RegistrationOf(g)) && source.validate == g.validate
    && g.accounts.Keys == source.accounts.Keys
    && (forall a :: a in source.accounts ==> g.accounts[a] == Relinked(source.accounts[a], g, base))
    && g.universalRef < base && g.universalRef in g.dicts && g.dicts[g.universalRef] == Universal(source)
    && (forall ref :: ref in source.dicts ==> base + ref in g.dicts && g.dicts[base + ref] == source.dicts[ref])
    && (forall ref :: ref in g.dicts ==> ref < g.next)
  }

  lemma RestoredShape(source: BundleImage, g: BundleImage, base: nat)
    requires Shaped(source) && IsRestored(source, g, base)
    ensures Shaped(g)
  {
  }

  lemma RestoredSeparation(source: BundleImage, g: BundleImage, base: nat)
    requires ClosedImage(source) && IsRestored(source, g, base)
    ensures Separate(g) <==> SeparateGlobals(source)
  {
    forall a | a in source.accounts ensures g.accounts[a].globalRef == base + source.accounts[a].globalRef { }
  }

  lemma RestoredContents(source: BundleImage, g: BundleImage, base: nat)
    requires ClosedImage(source) && IsRestored(source, g, base) && ClosedImage(g)
    ensures SameContents(source, g)
  {
    forall a | a in source.accounts
      ensures Global(source, a) == Global(g, a) && SameLocals(source.accounts[a], g.accounts[a])
    {
      RelinkedContents(source.accounts[a], g, base);
      assert ClosedRegion(source.dicts.Keys, source.accounts[a]);
      var ref := source.accounts[a].globalRef;
      assert ref in source.dicts && g.dicts[base + ref] == source.dicts[ref];
    }
  }

  lemma RelinkedContents(bundle: RegionImage, target: BundleImage, base: nat)
    ensures SameLocals(bundle, Relinked(bundle, target, base))
    ensures Relinked(bundle, target, base).globalRef == base + bundle.globalRef
  {
  }
}
