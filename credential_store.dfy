/** Credential store gateway: the `admins` and `drivers` collections of the
    remote document database, as the session code reads and writes them. */
module CredentialStore {
  import opened Wrappers

  datatype Role = Admin | Driver

  /** A stored identity. An absent `salt` or `passwordHash` field is the empty
      string: both are falsy in the tests the session code makes. */
  datatype Identity = Identity(id: string, name: string, salt: string, passwordHash: string)

  /** Both collections, each in the order the database returns its documents. */
  datatype Store = Store(admins: seq<Identity>, drivers: seq<Identity>)

  /** The collection a role's identities live in: `userType === 'driver' ? 'drivers' : 'admins'`. */
  function Collection(store: Store, role: Role): seq<Identity>
  {
    if role == Driver then store.drivers else store.admins
  }

  /** `salt && passwordHash`: the identity can authenticate on this path. */
  predicate HasCredentials(identity: Identity)
  {
    identity.salt != "" && identity.passwordHash != ""
  }

  /** `where('name', '==', name).limit(1)`: the position of the first document with that name. */
  function FindByName(docs: seq<Identity>, name: string): (r: Option<nat>)
    ensures r.Some? ==> r.value < |docs| && docs[r.value].name == name
    ensures r.Some? ==> forall k :: 0 <= k < r.value ==> docs[k].name != name
    ensures r.None? ==> forall k :: 0 <= k < |docs| ==> docs[k].name != name
  {
    if docs == [] then None
    else if docs[0].name == name then Some(0)
    else match FindByName(docs[1..], name)
      case None => None
      case Some(k) => Some(k + 1)
  }

  /** `doc(id).get()`: the position of the document with that id, if it exists. */
  function FindById(docs: seq<Identity>, id: string): (r: Option<nat>)
    ensures r.Some? ==> r.value < |docs| && docs[r.value].id == id
    ensures r.None? ==> forall k :: 0 <= k < |docs| ==> docs[k].id != id
  {
    if docs == [] then None
    else if docs[0].id == id then Some(0)
    else match FindById(docs[1..], id)
      case None => None
      case Some(k) => Some(k + 1)
  }

  /** `update({ passwordHash, salt })` on one document: only those two fields of
      that document change. */
  function UpdateCredentials(store: Store, role: Role, index: nat, salt: string, hash: string): (r: Store)
    requires index < |Collection(store, role)|
    ensures |Collection(r, role)| == |Collection(store, role)|
    ensures Collection(r, role)[index] == Collection(store, role)[index].(salt := salt, passwordHash := hash)
    ensures forall k :: 0 <= k < |Collection(r, role)| && k != index ==> Collection(r, role)[k] == Collection(store, role)[k]
    ensures role == Driver ==> r.admins == store.admins
    ensures role == Admin ==> r.drivers == store.drivers
  {
    var docs := Collection(store, role);
    var updated := docs[index := docs[index].(salt := salt, passwordHash := hash)];
    if role == Driver then store.(drivers := updated) else store.(admins := updated)
  }
}
