/** The persisted entities of the marketplace (users, stores, products, flash
    promos, reservations and notification logs), their creation defaults, the
    world record that holds them, referential integrity, and the cascading
    deletes the foreign keys declare. */
module Models {
  import opened Basics

  type UserId = nat
  type StoreId = nat
  type ProductId = nat
  type PromoId = nat
  type ReservationId = nat

  // ---------------------------------------------------------------------
  // Users (users/models.py)

  const NewType: string := "new"
  const FrequentType: string := "frequent"
  const RegularType: string := "regular"

  /** A customer account. `userType` is an open string: the choice list
      (`new`, `frequent`, `regular`) is not enforced when a row is created. */
  datatype User = User(
    username: string,
    userType: string,
    isStaff: bool,
    lastNotificationSent: Option<Date>,
    latitude: Option<real>,
    longitude: Option<real>)

  /** A freshly created user: the given type or `regular`, never notified,
      no coordinates, not staff. */
  function NewUser(username: string, userType: Option<string>): (u: User)
    ensures u.username == username
    ensures userType.Some? ==> u.userType == userType.value
    ensures userType.None? ==> u.userType == RegularType
    ensures u.lastNotificationSent.None?
    ensures u.latitude.None? && u.longitude.None?
    ensures !u.isStaff
  {
    User(username, match userType case Some(t) => t case None => RegularType,
         false, None, None, None)
  }

  // ---------------------------------------------------------------------
  // Stores and products (stores/models.py)

  datatype Store = Store(
    name: string,
    latitude: Option<real>,
    longitude: Option<real>,
    address: string,
    isActive: bool,
    createdAt: Timestamp)

  function NewStore(name: string, address: string, now: Timestamp): (s: Store)
    ensures s.name == name && s.address == address && s.createdAt == now
    ensures s.isActive
    ensures s.latitude.None? && s.longitude.None?
  {
    Store(name, None, None, address, true, now)
  }

  /** Store ownership. The store table declares no owner column, yet the
      views read one; it is taken here as a relation given alongside the
      tables. A store missing from the map has no owner. */
  type Owners = map<StoreId, UserId>

  predicate Owns(owners: Owners, sid: StoreId, uid: UserId) {
    sid in owners && owners[sid] == uid
  }

  /** A product; it belongs to exactly one store. */
  datatype Product = Product(
    store: StoreId,
    name: string,
    description: string,
    originalPrice: Cents,
    isAvailable: bool,
    createdAt: Timestamp)

  function NewProduct(store: StoreId, name: string, originalPrice: Cents, now: Timestamp): (p: Product)
    ensures p.store == store && p.name == name && p.originalPrice == originalPrice
    ensures p.isAvailable && p.description == ""
    ensures p.createdAt == now
  {
    Product(store, name, "", originalPrice, true, now)
  }

  // ---------------------------------------------------------------------
  // Flash promos and reservations (promotions/models.py)

  /** A discounted offer on one product. Nothing relates `endTime` to
      `startTime`, nor `promoPrice` to the product's price; the segment tags
      are an arbitrary list of strings. */
  datatype FlashPromo = FlashPromo(
    product: ProductId,
    promoPrice: Cents,
    startTime: TimeOfDay,
    endTime: TimeOfDay,
    eligibleSegments: seq<string>,
    isActive: bool,
    createdAt: Timestamp,
    updatedAt: Timestamp)

  /** A freshly created promo: inactive and targeting no segment, whatever
      its window (an end before the start is stored as given). */
  function NewFlashPromo(product: ProductId, promoPrice: Cents, startTime: TimeOfDay,
                         endTime: TimeOfDay, now: Timestamp): (p: FlashPromo)
    ensures p.product == product && p.promoPrice == promoPrice
    ensures p.startTime == startTime && p.endTime == endTime
    ensures !p.isActive && p.eligibleSegments == []
    ensures p.createdAt == now && p.updatedAt == now
  {
    FlashPromo(product, promoPrice, startTime, endTime, [], false, now, now)
  }

  datatype ProductReservation = ProductReservation(
    product: ProductId,
    user: UserId,
    reservedUntil: Timestamp,
    isCompleted: bool,
    createdAt: Timestamp)

  function NewReservation(product: ProductId, user: UserId, reservedUntil: Timestamp,
                          now: Timestamp): (r: ProductReservation)
    ensures r.product == product && r.user == user && r.reservedUntil == reservedUntil
    ensures !r.isCompleted && r.createdAt == now
  {
    ProductReservation(product, user, reservedUntil, false, now)
  }

  // ---------------------------------------------------------------------
  // Notification logs (notifications/models.py)

  datatype DeliveryStatus = Sent | Delivered | Failed

  const FlashPromoType: string := "flash_promo"

  datatype NotificationLog = NotificationLog(
    user: UserId,
    store: StoreId,
    flashPromo: Option<PromoId>,
    notificationType: string,
    message: string,
    sentAt: Timestamp,
    deliveryStatus: DeliveryStatus)

  /** A log row created with only the required columns: type `flash_promo`,
      status `sent`, no promo. */
  function NewLog(user: UserId, store: StoreId, message: string, now: Timestamp): (l: NotificationLog)
    ensures l.user == user && l.store == store && l.message == message && l.sentAt == now
    ensures l.flashPromo.None?
    ensures l.notificationType == FlashPromoType && l.deliveryStatus == Sent
  {
    NotificationLog(user, store, None, FlashPromoType, message, now, Sent)
  }

  // ---------------------------------------------------------------------
  // The world

  /** Every table of the store. `nextReservationId` and `nextProductId` are
      the auto-increment counters of the tables rows are inserted into. */
  datatype World = World(
    users: map<UserId, User>,
    stores: map<StoreId, Store>,
    products: map<ProductId, Product>,
    promos: map<PromoId, FlashPromo>,
    reservations: map<ReservationId, ProductReservation>,
    logs: seq<NotificationLog>,
    nextReservationId: nat,
    nextProductId: nat)

  predicate LogRefsOk(w: World, l: NotificationLog) {
    && l.user in w.users
    && l.store in w.stores
    && (l.flashPromo.Some? ==> l.flashPromo.value in w.promos)
  }

  /** Every foreign key resolves, and the counters are above every key. */
  ghost predicate WellFormed(w: World) {
    && (forall pid :: pid in w.products ==> w.products[pid].store in w.stores && pid < w.nextProductId)
    && (forall id :: id in w.promos ==> w.promos[id].product in w.products)
    && (forall id :: id in w.reservations ==>
          && w.reservations[id].product in w.products
          && w.reservations[id].user in w.users
          && id < w.nextReservationId)
    && (forall i :: 0 <= i < |w.logs| ==> LogRefsOk(w, w.logs[i]))
  }

  /** The product a promo is for. */
  function PromoProduct(w: World, promoId: PromoId): Product
    requires WellFormed(w) && promoId in w.promos
  {
    w.products[w.promos[promoId].product]
  }

  /** The store a promo's product belongs to. */
  function PromoStore(w: World, promoId: PromoId): Store
    requires WellFormed(w) && promoId in w.promos
  {
    w.stores[PromoProduct(w, promoId).store]
  }

  // ---------------------------------------------------------------------
  // Cascading deletes

  /** The promos on any of the given products. */
  function PromosOn(w: World, products: set<ProductId>): set<PromoId> {
    set id | id in w.promos && w.promos[id].product in products
  }

  /** Delete a set of products together with their promos and reservations,
      and the logs that name one of those promos. */
  function RemoveProducts(w: World, gone: set<ProductId>): (w': World)
    ensures w'.products == w.products - gone
    ensures w'.promos == w.promos - PromosOn(w, gone)
    ensures forall id :: id in w'.reservations <==>
              id in w.reservations && w.reservations[id].product !in gone
    ensures forall id :: id in w'.reservations ==> w'.reservations[id] == w.reservations[id]
    ensures forall l :: l in w'.logs <==>
              l in w.logs && !(l.flashPromo.Some? && l.flashPromo.value in PromosOn(w, gone))
    ensures w'.users == w.users && w'.stores == w.stores
  {
    var promosGone := PromosOn(w, gone);
    w.(products := w.products - gone,
       promos := w.promos - promosGone,
       reservations := map id | id in w.reservations && w.reservations[id].product !in gone
                         :: w.reservations[id],
       logs := Filter(w.logs, (l: NotificationLog) =>
                 !(l.flashPromo.Some? && l.flashPromo.value in promosGone)))
  }

  /** The cascade leaves no dangling reference behind. */
  lemma RemoveProductsWellFormed(w: World, gone: set<ProductId>)
    requires WellFormed(w)
    ensures WellFormed(RemoveProducts(w, gone))
  {
    var w' := RemoveProducts(w, gone);
    forall id | id in w'.promos ensures w'.promos[id].product in w'.products {
      assert id !in PromosOn(w, gone);
    }
    forall i | 0 <= i < |w'.logs| ensures LogRefsOk(w', w'.logs[i]) {
      assert w'.logs[i] in w.logs;
    }
  }

  /** Deleting a product deletes its promos, its reservations and the logs of
      those promos; nothing else. */
  function DeleteProduct(w: World, pid: ProductId): (w': World)
    ensures pid !in w'.products
    ensures w'.products == w.products - {pid}
    ensures forall id :: id in w'.promos <==> id in w.promos && w.promos[id].product != pid
    ensures forall id :: id in w'.reservations <==>
              id in w.reservations && w.reservations[id].product != pid
    ensures forall id :: id in w'.promos ==> w'.promos[id] == w.promos[id]
    ensures forall id :: id in w'.reservations ==> w'.reservations[id] == w.reservations[id]
    ensures forall l :: l in w'.logs <==>
              l in w.logs && !(l.flashPromo.Some? && l.flashPromo.value in PromosOn(w, {pid}))
    ensures w'.users == w.users && w'.stores == w.stores
    ensures w'.nextReservationId == w.nextReservationId && w'.nextProductId == w.nextProductId
    ensures WellFormed(w) ==> WellFormed(w')
  {
    assert WellFormed(w) ==> WellFormed(RemoveProducts(w, {pid})) by {
      if WellFormed(w) {
        RemoveProductsWellFormed(w, {pid});
      }
    }
    RemoveProducts(w, {pid})
  }

  /** The products a store owns. */
  function ProductsOf(w: World, sid: StoreId): set<ProductId> {
    set pid | pid in w.products && w.products[pid].store == sid
  }

  /** Deleting a store deletes every product of it (and, through them, their
      promos, their reservations and the logs of those promos) and every log
      that names the store; every other row stays as it was. */
  function DeleteStore(w: World, sid: StoreId): (w': World)
    ensures sid !in w'.stores && w'.stores == w.stores - {sid}
    ensures forall pid :: pid in w'.products <==> pid in w.products && w.products[pid].store != sid
    ensures forall id :: id in w'.promos <==>
              id in w.promos && w.promos[id].product !in ProductsOf(w, sid)
    ensures forall id :: id in w'.reservations <==>
              id in w.reservations && w.reservations[id].product !in ProductsOf(w, sid)
    ensures forall id :: id in w'.products ==> w'.products[id] == w.products[id]
    ensures forall id :: id in w'.promos ==> w'.promos[id] == w.promos[id]
    ensures forall id :: id in w'.reservations ==> w'.reservations[id] == w.reservations[id]
    ensures forall l :: l in w'.logs <==>
              l in w.logs && l.store != sid
              && !(l.flashPromo.Some? && l.flashPromo.value in PromosOn(w, ProductsOf(w, sid)))
    ensures w'.users == w.users
    ensures w'.nextReservationId == w.nextReservationId && w'.nextProductId == w.nextProductId
    ensures WellFormed(w) ==> WellFormed(w')
  {
    var w1 := RemoveProducts(w, ProductsOf(w, sid));
    var w' := w1.(stores := w1.stores - {sid},
                  logs := Filter(w1.logs, (l: NotificationLog) => l.store != sid));
    assert WellFormed(w) ==> WellFormed(w') by {
      if WellFormed(w) {
        RemoveProductsWellFormed(w, ProductsOf(w, sid));
        forall i | 0 <= i < |w'.logs| ensures LogRefsOk(w', w'.logs[i]) {
          assert w'.logs[i] in w1.logs;
        }
      }
    }
    w'
  }

  /** Deleting a user deletes that user's reservations and logs. */
  function DeleteUser(w: World, uid: UserId): (w': World)
    ensures w'.users == w.users - {uid}
    ensures forall id :: id in w'.reservations <==>
              id in w.reservations && w.reservations[id].user != uid
    ensures forall id :: id in w'.reservations ==> w'.reservations[id] == w.reservations[id]
    ensures forall l :: l in w'.logs <==> l in w.logs && l.user != uid
    ensures w'.products == w.products && w'.promos == w.promos && w'.stores == w.stores
    ensures w'.nextReservationId == w.nextReservationId && w'.nextProductId == w.nextProductId
    ensures WellFormed(w) ==> WellFormed(w')
  {
    var w' := w.(
      users := w.users - {uid},
      reservations := map id | id in w.reservations && w.reservations[id].user != uid
                        :: w.reservations[id],
      logs := Filter(w.logs, (l: NotificationLog) => l.user != uid));
    assert WellFormed(w) ==> WellFormed(w') by {
      if WellFormed(w) {
        forall i | 0 <= i < |w'.logs| ensures LogRefsOk(w', w'.logs[i]) {
          assert w'.logs[i] in w.logs;
        }
      }
    }
    w'
  }

  /** Deleting a promo deletes the logs that name it. */
  function DeletePromo(w: World, id: PromoId): (w': World)
    ensures w'.promos == w.promos - {id}
    ensures forall l :: l in w'.logs <==> l in w.logs && l.flashPromo != Some(id)
    ensures w'.reservations == w.reservations && w'.products == w.products
    ensures w'.users == w.users && w'.stores == w.stores
    ensures w'.nextReservationId == w.nextReservationId && w'.nextProductId == w.nextProductId
    ensures WellFormed(w) ==> WellFormed(w')
  {
    var w' := w.(
      promos := w.promos - {id},
      logs := Filter(w.logs, (l: NotificationLog) => l.flashPromo != Some(id)));
    assert WellFormed(w) ==> WellFormed(w') by {
      if WellFormed(w) {
        forall i | 0 <= i < |w'.logs| ensures LogRefsOk(w', w'.logs[i]) {
          assert w'.logs[i] in w.logs;
        }
      }
    }
    w'
  }
}
