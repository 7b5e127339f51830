/** Who may change the product catalogue. Reading products is public; every
    other action needs an authenticated caller, and creating, updating or
    deleting a product further needs the caller to own the product's store.
    Ownership is the `Owners` relation given alongside the tables. */
module ProductAccess {
  import opened Basics
  import opened Models

  // ---------------------------------------------------------------------
  // Permissions (stores/views.py:15-24)

  datatype Action = List | Retrieve | Create | Update | PartialUpdate | Destroy

  datatype Permission = AllowAny | IsAuthenticated

  function PermissionFor(a: Action): (p: Permission)
    ensures p == AllowAny <==> a == List || a == Retrieve
  {
    if a == List || a == Retrieve then AllowAny else IsAuthenticated
  }

  /** The permission check that runs before any handler. */
  function Admitted(a: Action, caller: Option<UserId>): (ok: bool)
    ensures ok <==> a == List || a == Retrieve || caller.Some?
  {
    match PermissionFor(a)
    case AllowAny => true
    case IsAuthenticated => caller.Some?
  }

  // ---------------------------------------------------------------------
  // Request payloads and field validation (stores/models.py:11-17)

  /** The fields a request carries; a missing field is `None`. The store is
      the raw identifier the client sent, which need not name any store. */
  datatype ProductData = ProductData(
    store: Option<int>,
    name: Option<string>,
    description: Option<string>,
    originalPrice: Option<Cents>,
    isAvailable: Option<bool>)

  const NoFields := ProductData(None, None, None, None, None)

  /** `name` holds at most 255 characters. */
  const MaxNameLength: nat := 255

  /** `original_price` has ten digits, two of them after the point, so a
      price in cents has at most ten digits. */
  const PriceBound: int := 10_000_000_000

  /** `raw` names an existing store. */
  predicate StoreRef(w: World, raw: int) {
    raw >= 0 && raw as StoreId in w.stores
  }

  /** The checks the fields' declarations impose on every field that is
      present: the store exists, the name is non-blank and short enough, the
      price fits its digits. */
  predicate FieldsValid(w: World, d: ProductData) {
    && (d.store.Some? ==> StoreRef(w, d.store.value))
    && (d.name.Some? ==> 0 < |d.name.value| <= MaxNameLength)
    && (d.originalPrice.Some? ==> -PriceBound < d.originalPrice.value < PriceBound)
  }

  /** The fields without a default: store, name and price. */
  predicate HasRequired(d: ProductData) {
    d.store.Some? && d.name.Some? && d.originalPrice.Some?
  }

  function Or<T>(o: Option<T>, otherwise: T): (v: T)
    ensures o.Some? ==> v == o.value
    ensures o.None? ==> v == otherwise
  {
    match o
    case Some(x) => x
    case None => otherwise
  }

  /** `p` with every field present in `d` replaced. */
  function Apply(p: Product, d: ProductData): (q: Product)
    requires d.store.Some? ==> d.store.value >= 0
    ensures q.store == (if d.store.Some? then d.store.value as StoreId else p.store)
    ensures q.name == Or(d.name, p.name) && q.description == Or(d.description, p.description)
    ensures q.originalPrice == Or(d.originalPrice, p.originalPrice)
    ensures q.isAvailable == Or(d.isAvailable, p.isAvailable)
    ensures q.createdAt == p.createdAt
  {
    Product(if d.store.Some? then d.store.value as StoreId else p.store,
            Or(d.name, p.name), Or(d.description, p.description),
            Or(d.originalPrice, p.originalPrice), Or(d.isAvailable, p.isAvailable),
            p.createdAt)
  }

  lemma ApplyNothing(p: Product)
    ensures Apply(p, NoFields) == p
  {
  }

  // ---------------------------------------------------------------------
  // Outcomes

  const StoreRequiredMessage := "Store ID is required"
  const StoreNotFoundMessage := "Store not found"
  const CreateForbiddenMessage := "Only the store owner can create products"
  const UpdateForbiddenMessage := "Only the store owner can update this product"
  const DeleteForbiddenMessage := "Only the store owner can delete this product"

  datatype Outcome =
    | Created(id: ProductId)
    | Updated(id: ProductId)
    | Destroyed
    | Read
    | Unauthenticated
    | BadRequest(error: string)
    | Invalid
    | Forbidden(error: string)
    | NotFound(error: string)
    | ProductNotFound
  {
    function StatusCode(): int {
      match this
      case Created(_) => 201
      case Updated(_) => 200
      case Destroyed => 204
      case Read => 200
      case Unauthenticated => 401
      case BadRequest(_) => 400
      case Invalid => 400
      case Forbidden(_) => 403
      case NotFound(_) => 404
      case ProductNotFound => 404
    }

    /** The request went through to a handler that writes. */
    predicate Wrote() {
      Created? || Updated? || Destroyed?
    }
  }

  datatype Response = Response(outcome: Outcome, world: World)

  /** Only the product table and its counter differ. */
  predicate OnlyProductsChange(w: World, w': World) {
    && w'.users == w.users && w'.stores == w.stores && w'.promos == w.promos
    && w'.reservations == w.reservations && w'.logs == w.logs
    && w'.nextReservationId == w.nextReservationId
  }

  // ---------------------------------------------------------------------
  // Create (stores/views.py:26-48)

  /** The store id counts as absent when it is missing or zero. */
  predicate StoreGiven(d: ProductData) {
    d.store.Some? && d.store.value != 0
  }

  /** The product a successful create inserts: absent optional fields take
      their defaults, an empty description and availability. */
  function CreatedProduct(d: ProductData, now: Timestamp): (p: Product)
    requires HasRequired(d) && d.store.value >= 0
    ensures d.description.None? && d.isAvailable.None? ==>
      p == NewProduct(d.store.value as StoreId, d.name.value, d.originalPrice.value, now)
    ensures p.store == d.store.value as StoreId && p.createdAt == now
  {
    Product(d.store.value as StoreId, d.name.value, Or(d.description, ""),
            d.originalPrice.value, Or(d.isAvailable, true), now)
  }

  function CreateProduct(w: World, owners: Owners, caller: Option<UserId>, d: ProductData,
                         now: Timestamp): (r: Response)
    requires WellFormed(w)
    ensures r.outcome == Unauthenticated <==> !Admitted(Create, caller)
    ensures r.outcome == BadRequest(StoreRequiredMessage) <==> caller.Some? && !StoreGiven(d)
    ensures r.outcome == NotFound(StoreNotFoundMessage) <==>
      caller.Some? && StoreGiven(d) && !StoreRef(w, d.store.value)
    ensures r.outcome.Forbidden? <==>
      caller.Some? && StoreGiven(d) && StoreRef(w, d.store.value)
      && !Owns(owners, d.store.value as StoreId, caller.value)
    ensures r.outcome.Forbidden? ==> r.outcome.error == CreateForbiddenMessage
    ensures r.outcome.Created? <==>
      caller.Some? && StoreGiven(d) && StoreRef(w, d.store.value)
      && Owns(owners, d.store.value as StoreId, caller.value)
      && HasRequired(d) && FieldsValid(w, d)
    ensures !r.outcome.Created? ==> r.world == w
    ensures r.outcome.Created? ==>
      && r.outcome.id == w.nextProductId && r.outcome.id !in w.products
      && r.world.products == w.products[r.outcome.id := CreatedProduct(d, now)]
      && r.world.nextProductId == w.nextProductId + 1
      && OnlyProductsChange(w, r.world)
    ensures WellFormed(r.world)
  {
    if caller.None? then Response(Unauthenticated, w)
    else if !StoreGiven(d) then Response(BadRequest(StoreRequiredMessage), w)
    else if !StoreRef(w, d.store.value) then Response(NotFound(StoreNotFoundMessage), w)
    else if !Owns(owners, d.store.value as StoreId, caller.value) then
      Response(Forbidden(CreateForbiddenMessage), w)
    else if !HasRequired(d) || !FieldsValid(w, d) then Response(Invalid, w)
    else
      var id := w.nextProductId;
      var w' := w.(products := w.products[id := CreatedProduct(d, now)], nextProductId := id + 1);
      assert WellFormed(w') by {
        assert forall pid :: pid in w'.products ==>
          (w'.products[pid].store in w'.stores && pid < w'.nextProductId);
        assert forall i :: 0 <= i < |w'.logs| ==> LogRefsOk(w', w'.logs[i]) by {
          forall i | 0 <= i < |w'.logs| ensures LogRefsOk(w', w'.logs[i]) {
            assert LogRefsOk(w, w.logs[i]);
          }
        }
      }
      Response(Created(id), w')
  }

  // ---------------------------------------------------------------------
  // Update, partial update and destroy (stores/views.py:50-81)

  /** The owner check shared by the three product handlers: the caller must
      own the store the product is in now. */
  predicate OwnsProduct(w: World, owners: Owners, uid: UserId, pid: ProductId)
    requires pid in w.products
  {
    Owns(owners, w.products[pid].store, uid)
  }

  /** The default update once the owner check has passed: a full update
      needs every field without a default, a partial one any subset. */
  function Change(w: World, pid: ProductId, d: ProductData, full: bool): (r: Response)
    requires WellFormed(w) && pid in w.products
    ensures r.outcome.Updated? <==> (!full || HasRequired(d)) && FieldsValid(w, d)
    ensures !r.outcome.Updated? ==> r.outcome == Invalid && r.world == w
    ensures r.outcome.Updated? ==>
      && r.outcome.id == pid
      && r.world.products == w.products[pid := Apply(w.products[pid], d)]
      && r.world.nextProductId == w.nextProductId
      && OnlyProductsChange(w, r.world)
    ensures WellFormed(r.world)
  {
    if (full && !HasRequired(d)) || !FieldsValid(w, d) then Response(Invalid, w)
    else
      var w' := w.(products := w.products[pid := Apply(w.products[pid], d)]);
      assert WellFormed(w') by {
        assert forall i :: 0 <= i < |w'.logs| ==> LogRefsOk(w', w'.logs[i]) by {
          forall i | 0 <= i < |w'.logs| ensures LogRefsOk(w', w'.logs[i]) {
            assert LogRefsOk(w, w.logs[i]);
          }
        }
      }
      Response(Updated(pid), w')
  }

  /** Authentication, then the product lookup, then the owner check; the
      first that fails decides the outcome. */
  function Gate(w: World, owners: Owners, caller: Option<UserId>, pid: ProductId,
                forbidden: string): (o: Option<Outcome>)
    ensures o == Some(Unauthenticated) <==> caller.None?
    ensures o == Some(ProductNotFound) <==> caller.Some? && pid !in w.products
    ensures o == Some(Forbidden(forbidden)) <==>
      caller.Some? && pid in w.products && !OwnsProduct(w, owners, caller.value, pid)
    ensures o.None? <==>
      caller.Some? && pid in w.products && OwnsProduct(w, owners, caller.value, pid)
  {
    if caller.None? then Some(Unauthenticated)
    else if pid !in w.products then Some(ProductNotFound)
    else if !OwnsProduct(w, owners, caller.value, pid) then Some(Forbidden(forbidden))
    else None
  }

  /** PUT: replaces the given fields; store, name and price must be present. */
  function UpdateProduct(w: World, owners: Owners, caller: Option<UserId>, pid: ProductId,
                         d: ProductData): (r: Response)
    requires WellFormed(w)
    ensures r.outcome == Unauthenticated <==> !Admitted(Update, caller)
    ensures r.outcome == ProductNotFound <==> caller.Some? && pid !in w.products
    ensures r.outcome == Forbidden(UpdateForbiddenMessage) <==>
      caller.Some? && pid in w.products && !OwnsProduct(w, owners, caller.value, pid)
    ensures r.outcome.Updated? <==>
      caller.Some? && pid in w.products && OwnsProduct(w, owners, caller.value, pid)
      && HasRequired(d) && FieldsValid(w, d)
    ensures !r.outcome.Updated? ==> r.world == w
    ensures r.outcome.Updated? ==>
      r.world == w.(products := w.products[pid := Apply(w.products[pid], d)])
    ensures WellFormed(r.world)
  {
    match Gate(w, owners, caller, pid, UpdateForbiddenMessage)
    case Some(o) => Response(o, w)
    case None => Change(w, pid, d, true)
  }

  /** PATCH: replaces whichever fields are given. */
  function PartialUpdateProduct(w: World, owners: Owners, caller: Option<UserId>, pid: ProductId,
                                d: ProductData): (r: Response)
    requires WellFormed(w)
    ensures r.outcome == Unauthenticated <==> !Admitted(PartialUpdate, caller)
    ensures r.outcome == ProductNotFound <==> caller.Some? && pid !in w.products
    ensures r.outcome == Forbidden(UpdateForbiddenMessage) <==>
      caller.Some? && pid in w.products && !OwnsProduct(w, owners, caller.value, pid)
    ensures r.outcome.Updated? <==>
      caller.Some? && pid in w.products && OwnsProduct(w, owners, caller.value, pid)
      && FieldsValid(w, d)
    ensures !r.outcome.Updated? ==> r.world == w
    ensures r.outcome.Updated? ==>
      r.world == w.(products := w.products[pid := Apply(w.products[pid], d)])
    ensures WellFormed(r.world)
  {
    match Gate(w, owners, caller, pid, UpdateForbiddenMessage)
    case Some(o) => Response(o, w)
    case None => Change(w, pid, d, false)
  }

  /** DELETE: removes the product together with the promos and the
      reservations that refer to it. */
  function DestroyProduct(w: World, owners: Owners, caller: Option<UserId>,
                          pid: ProductId): (r: Response)
    requires WellFormed(w)
    ensures r.outcome == Unauthenticated <==> !Admitted(Destroy, caller)
    ensures r.outcome == ProductNotFound <==> caller.Some? && pid !in w.products
    ensures r.outcome == Forbidden(DeleteForbiddenMessage) <==>
      caller.Some? && pid in w.products && !OwnsProduct(w, owners, caller.value, pid)
    ensures r.outcome == Destroyed <==>
      caller.Some? && pid in w.products && OwnsProduct(w, owners, caller.value, pid)
    ensures r.outcome != Destroyed ==> r.world == w
    ensures r.outcome == Destroyed ==>
      && r.world.products == w.products - {pid}
      && (forall id :: id in r.world.promos <==> id in w.promos && w.promos[id].product != pid)
      && (forall id :: id in r.world.reservations <==>
            id in w.reservations && w.reservations[id].product != pid)
      && (forall id :: id in r.world.promos ==> r.world.promos[id] == w.promos[id])
      && (forall id :: id in r.world.reservations ==> r.world.reservations[id] == w.reservations[id])
      && (forall l :: l in r.world.logs <==>
            l in w.logs && !(l.flashPromo.Some? && l.flashPromo.value in PromosOn(w, {pid})))
      && r.world.users == w.users && r.world.stores == w.stores
    ensures WellFormed(r.world)
  {
    match Gate(w, owners, caller, pid, DeleteForbiddenMessage)
    case Some(o) => Response(o, w)
    case None => Response(Destroyed, DeleteProduct(w, pid))
  }

  /** A full update with every required field present does what the
      partial update with the same fields does. */
  lemma UpdateIsCompletePatch(w: World, owners: Owners, caller: Option<UserId>, pid: ProductId,
                              d: ProductData)
    requires WellFormed(w) && HasRequired(d)
    ensures UpdateProduct(w, owners, caller, pid, d) == PartialUpdateProduct(w, owners, caller, pid, d)
  {
  }

  /** The owner's empty patch succeeds and changes nothing. */
  lemma EmptyPatchChangesNothing(w: World, owners: Owners, uid: UserId, pid: ProductId)
    requires WellFormed(w) && pid in w.products && OwnsProduct(w, owners, uid, pid)
    ensures PartialUpdateProduct(w, owners, Some(uid), pid, NoFields) == Response(Updated(pid), w)
  {
    ApplyNothing(w.products[pid]);
    assert w.products[pid := w.products[pid]] == w.products;
  }

  // ---------------------------------------------------------------------
  // Confinement: an owner's requests leave other stores' products alone

  datatype Request =
    | CreateRequest(data: ProductData)
    | UpdateRequest(pid: ProductId, data: ProductData)
    | PartialUpdateRequest(pid: ProductId, data: ProductData)
    | DestroyRequest(pid: ProductId)
    | ReadRequest

  /** One request handled as the views handle it. */
  function Serve(w: World, owners: Owners, caller: Option<UserId>, req: Request,
                 now: Timestamp): (r: Response)
    requires WellFormed(w)
    ensures WellFormed(r.world)
    ensures !r.outcome.Wrote() ==> r.world == w
  {
    match req
    case CreateRequest(d) => CreateProduct(w, owners, caller, d, now)
    case UpdateRequest(pid, d) => UpdateProduct(w, owners, caller, pid, d)
    case PartialUpdateRequest(pid, d) => PartialUpdateProduct(w, owners, caller, pid, d)
    case DestroyRequest(pid) => DestroyProduct(w, owners, caller, pid)
    case ReadRequest => Response(Read, w)
  }

  /** The products in stores `uid` does not own. */
  function ForeignProducts(w: World, owners: Owners, uid: UserId): (m: map<ProductId, Product>)
    ensures forall pid :: pid in m <==> pid in w.products && !Owns(owners, w.products[pid].store, uid)
    ensures forall pid :: pid in m ==> m[pid] == w.products[pid]
  {
    map pid | pid in w.products && !Owns(owners, w.products[pid].store, uid) :: w.products[pid]
  }

  /** As written, an owner's update may move a product into a store that
      somebody else owns: the owner check looks only at the store the
      product is in before the update. */
  lemma UpdateMovesIntoForeignStore()
    ensures var u := User("owner", "regular", false, None, None, None);
            var s := Store("s", None, None, "", true, 0);
            var w := World(map[1 := u, 2 := u], map[1 := s, 2 := s],
                           map[0 := Product(1, "p", "", 100, true, 0)],
                           map[], map[], [], 0, 1);
            var owners := map[1 := 1, 2 := 2];
            var r := Serve(w, owners, Some(1), PartialUpdateRequest(0, NoFields.(store := Some(2))), 0);
            && WellFormed(w)
            && r.outcome == Updated(0)
            && ForeignProducts(r.world, owners, 1) != ForeignProducts(w, owners, 1)
  {
    var u := User("owner", "regular", false, None, None, None);
    var s := Store("s", None, None, "", true, 0);
    var w := World(map[1 := u, 2 := u], map[1 := s, 2 := s],
                   map[0 := Product(1, "p", "", 100, true, 0)],
                   map[], map[], [], 0, 1);
    var owners := map[1 := 1, 2 := 2];
    var r := Serve(w, owners, Some(1), PartialUpdateRequest(0, NoFields.(store := Some(2))), 0);
    assert 0 !in ForeignProducts(w, owners, 1);
    assert 0 in ForeignProducts(r.world, owners, 1);
  }

  /** The corrected update: when the request names a store, the caller must
      own that store too. */
  function GuardedUpdate(w: World, owners: Owners, caller: Option<UserId>, pid: ProductId,
                         d: ProductData, full: bool): (r: Response)
    requires WellFormed(w)
    ensures !r.outcome.Updated? ==> r.world == w
    ensures r.outcome.Updated? ==>
      && caller.Some? && pid in w.products && OwnsProduct(w, owners, caller.value, pid)
      && FieldsValid(w, d)
      && r.world == w.(products := w.products[pid := Apply(w.products[pid], d)])
      && Owns(owners, r.world.products[pid].store, caller.value)
    ensures WellFormed(r.world)
  {
    match Gate(w, owners, caller, pid, UpdateForbiddenMessage)
    case Some(o) => Response(o, w)
    case None =>
      if d.store.Some? && StoreRef(w, d.store.value)
         && !Owns(owners, d.store.value as StoreId, caller.value)
      then Response(Forbidden(UpdateForbiddenMessage), w)
      else Change(w, pid, d, full)
  }

  function ServeGuarded(w: World, owners: Owners, caller: Option<UserId>, req: Request,
                        now: Timestamp): (r: Response)
    requires WellFormed(w)
    ensures WellFormed(r.world)
  {
    match req
    case CreateRequest(d) => CreateProduct(w, owners, caller, d, now)
    case UpdateRequest(pid, d) => GuardedUpdate(w, owners, caller, pid, d, true)
    case PartialUpdateRequest(pid, d) => GuardedUpdate(w, owners, caller, pid, d, false)
    case DestroyRequest(pid) => DestroyProduct(w, owners, caller, pid)
    case ReadRequest => Response(Read, w)
  }

  /** With the corrected update, no request by `uid` adds, removes or
      changes a product of a store `uid` does not own. */
  lemma GuardedStepKeepsForeignProducts(w: World, owners: Owners, uid: UserId, req: Request,
                                        now: Timestamp)
    requires WellFormed(w)
    ensures ForeignProducts(ServeGuarded(w, owners, Some(uid), req, now).world, owners, uid)
         == ForeignProducts(w, owners, uid)
  {
    var w' := ServeGuarded(w, owners, Some(uid), req, now).world;
    var before := ForeignProducts(w, owners, uid);
    var after := ForeignProducts(w', owners, uid);
    if w' != w {
      match req
      case CreateRequest(d) =>
        var id := w.nextProductId;
        assert w'.products == w.products[id := CreatedProduct(d, now)];
        assert forall pid :: pid in after <==> pid in before by {
          forall pid ensures pid in after <==> pid in before {
            if pid == id {
              assert id !in w.products;
            }
          }
        }
      case UpdateRequest(pid, d) =>
        assert OwnsProduct(w, owners, uid, pid);
      case PartialUpdateRequest(pid, d) =>
        assert OwnsProduct(w, owners, uid, pid);
      case DestroyRequest(pid) =>
        assert OwnsProduct(w, owners, uid, pid);
        assert w'.products == w.products - {pid};
      case ReadRequest =>
    }
  }

  /** The world after `reqs`, all made by `uid`, handled in order. */
  function RunGuarded(w: World, owners: Owners, uid: UserId, reqs: seq<Request>,
                      now: Timestamp): (w': World)
    requires WellFormed(w)
    ensures WellFormed(w')
    decreases |reqs|
  {
    if reqs == [] then w
    else RunGuarded(ServeGuarded(w, owners, Some(uid), reqs[0], now).world, owners, uid,
                    reqs[1..], now)
  }

  lemma {:induction false} GuardedRunKeepsForeignProducts(w: World, owners: Owners, uid: UserId,
                                                          reqs: seq<Request>, now: Timestamp)
    requires WellFormed(w)
    ensures ForeignProducts(RunGuarded(w, owners, uid, reqs, now), owners, uid)
         == ForeignProducts(w, owners, uid)
    decreases |reqs|
  {
    if reqs != [] {
      var w1 := ServeGuarded(w, owners, Some(uid), reqs[0], now).world;
      GuardedStepKeepsForeignProducts(w, owners, uid, reqs[0], now);
      GuardedRunKeepsForeignProducts(w1, owners, uid, reqs[1..], now);
    }
  }
}
