/** Values of the account/region store graph: what `pickle.loads` hands back, with object identity kept as
    reference numbers, and the shape check a snapshot has to pass before it may replace a live bundle. */
module BundleImages {

  /** Attribute values are opaque to the stores. */
  type Value = int
  type Attributes = map<string, Value>

  /** `classes` are all the classes the store is an instance of. */
  datatype StoreImage = StoreImage(
    classes: set<nat>, service: string, account: string, region: string,
    globalRef: nat, universalRef: nat, locals: Attributes)

  datatype RegionImage = RegionImage(
    service: string, storeClass: nat, account: string, validate: bool,
    lockRef: nat, globalRef: nat, universalRef: nat, stores: map<string, StoreImage>)

  /** `dicts` holds the contents of every `_global` and `_universal` dictionary by reference number; numbers from
      `next` on are unused. */
  datatype BundleImage = BundleImage(
    service: string, storeClass: nat, validate: bool,
    lockRef: nat, universalRef: nat, accounts: map<string, RegionImage>, dicts: map<nat, Attributes>, next: nat)

  /** What the receiving bundle contributes to the comparison. */
  datatype Registration = Registration(service: string, storeClass: nat, validate: bool)

  predicate ClosedStore(refs: set<nat>, store: StoreImage) {
    store.globalRef in refs && store.universalRef in refs
  }

  predicate ClosedRegion(refs: set<nat>, bundle: RegionImage) {
    && bundle.globalRef in refs && bundle.universalRef in refs
    && forall r :: r in bundle.stores ==> ClosedStore(refs, bundle.stores[r])
  }

  /** Every reference leads to a dictionary. */
  predicate ClosedImage(image: BundleImage) {
    && image.universalRef in image.dicts
    && (forall ref :: ref in image.dicts ==> ref < image.next)
    && forall a :: a in image.accounts ==> ClosedRegion(image.dicts.Keys, image.accounts[a])
  }

  predicate IdentityAccepted(image: BundleImage, target: Registration) {
    image.service == target.service && image.storeClass == target.storeClass
  }

  /** `_validate_bundle_topology`. */
  predicate TopologyAccepted(image: BundleImage, target: Registration) {
    && image.validate == target.validate
    && forall a :: a in image.accounts ==> RegionAccepted(image, a, image.accounts[a])
  }

  predicate RegionAccepted(image: BundleImage, account: string, bundle: RegionImage) {
    && bundle.account == account
    && bundle.service == image.service
    && bundle.storeClass == image.storeClass
    && bundle.validate == image.validate
    && bundle.lockRef == image.lockRef
    && bundle.universalRef == image.universalRef
    && forall r :: r in bundle.stores ==> StoreAccepted(image, account, bundle, r, bundle.stores[r])
  }

  predicate StoreAccepted(image: BundleImage, account: string, bundle: RegionImage, region: string, store: StoreImage) {
    && image.storeClass in store.classes
    && store.service == image.service
    && store.account == account
    && store.region == region
    && store.globalRef == bundle.globalRef
    && store.universalRef == image.universalRef
  }

  predicate Accepted(image: BundleImage, target: Registration) {
    IdentityAccepted(image, target) && TopologyAccepted(image, target)
  }
}
