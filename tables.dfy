/** The store and user records the routes of backend/src/routes/stores.js read. */
module Tables {
  import opened Wrappers
  import Auth

  /** A store row; `ownerId` is `null` for a store nobody owns. */
  datatype Store = Store(id: int, name: string, email: Option<string>, address: string, ownerId: Option<int>)

  /** The public columns of a user row. */
  datatype User = User(id: int, name: string, email: string, role: Auth.Role)

  const StoreNotFound := "Store not found"

  /** Store ids are a primary key. */
  ghost predicate UniqueStoreIds(stores: seq<Store>)
  {
    forall i, j :: 0 <= i < j < |stores| ==> stores[i].id != stores[j].id
  }

  /** `prisma.store.findUnique({ where: { id } })`. */
  function FindStore(stores: seq<Store>, id: int): (r: Option<Store>)
    ensures r.Some? ==> r.value in stores && r.value.id == id
    ensures r.None? ==> forall s :: s in stores ==> s.id != id
  {
    if stores == [] then None
    else if stores[0].id == id then Some(stores[0])
    else FindStore(stores[1..], id)
  }

  /** The user row with a given id, as a relation `include` looks it up. */
  function FindUser(users: seq<User>, id: int): (r: Option<User>)
    ensures r.Some? ==> r.value in users && r.value.id == id
    ensures r.None? ==> forall u :: u in users ==> u.id != id
  {
    if users == [] then None
    else if users[0].id == id then Some(users[0])
    else FindUser(users[1..], id)
  }
}
