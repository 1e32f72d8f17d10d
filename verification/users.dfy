/** The user registry canister: user records keyed by principal (a
    `BTreeMap<Principal, User>`), with register, get and list. The canister's
    clock is a `time` parameter of `RegisterUser`. */
module Users {
  import opened Wrappers
  import opened Bytes
  import opened Ordered

  /** A principal, by its raw bytes. */
  type Principal = seq<byte>

  datatype User = User(id: Principal, username: string, bio: Option<string>, joinedAt: nat)

  type Registry = map<Principal, User>

  /** A registry and the `bool` `register_user` returned. */
  datatype Registered = Registered(registry: Registry, ok: bool)

  /** Each user is stored under its own principal. */
  predicate WellKeyed(r: Registry) {
    forall p :: p in r ==> r[p].id == p
  }

  /** `register_user`: always succeeds; stores a fresh record under `id`,
      replacing any earlier one, and leaves every other user alone. */
  function RegisterUser(r: Registry, id: Principal, username: string, bio: Option<string>, time: nat): (res: Registered)
    ensures res.ok
    ensures res.registry.Keys == r.Keys + {id}
    ensures res.registry[id] == User(id, username, bio, time)
    ensures forall p :: p in r && p != id ==> res.registry[p] == r[p]
    ensures WellKeyed(r) ==> WellKeyed(res.registry)
  {
    Registered(r[id := User(id, username, bio, time)], true)
  }

  /** `get_user`: the record registered under `id`, which in a well-keyed
      registry is the user with that principal. */
  function GetUser(r: Registry, id: Principal): (u: Option<User>)
    ensures u.Some? <==> id in r
    ensures u.Some? ==> u.value == r[id]
    ensures WellKeyed(r) && u.Some? ==> u.value.id == id
  {
    if id in r then Some(r[id]) else None
  }

  /** Registering a principal again overwrites the first registration. */
  lemma RegisterOverwrites(r: Registry, id: Principal, u1: string, b1: Option<string>, t1: nat,
                           u2: string, b2: Option<string>, t2: nat)
    ensures RegisterUser(RegisterUser(r, id, u1, b1, t1).registry, id, u2, b2, t2)
         == RegisterUser(r, id, u2, b2, t2)
  {
    var once := RegisterUser(r, id, u2, b2, t2).registry;
    var twice := RegisterUser(RegisterUser(r, id, u1, b1, t1).registry, id, u2, b2, t2).registry;
    assert forall p :: p in once ==> twice[p] == once[p];
  }

  /** The ids of a sequence of users increase strictly: key order, and no
      user twice. */
  ghost predicate IdsIncreasing(us: seq<User>) {
    forall i, j :: 0 <= i < j < |us| ==> BytesLess(us[i].id, us[j].id)
  }

  /** `list_users`: every registered user exactly once, in ascending
      principal order. */
  function ListUsers(r: Registry): (us: seq<User>)
    ensures |us| == |r|
    ensures forall u :: u in us <==> u in r.Values
    ensures WellKeyed(r) ==> IdsIncreasing(us)
    ensures WellKeyed(r) ==> forall i, j :: 0 <= i < j < |us| ==> us[i] != us[j]
  {
    BytesOrder();
    var ks := SortedKeys(r.Keys, BytesLess);
    var us := Values(r, BytesLess);
    assert WellKeyed(r) ==> IdsIncreasing(us) by {
      if WellKeyed(r) {
        forall i, j | 0 <= i < j < |us|
          ensures BytesLess(us[i].id, us[j].id)
        {
          assert us[i].id == ks[i] && us[j].id == ks[j];
        }
      }
    }
    assert WellKeyed(r) ==> forall i, j :: 0 <= i < j < |us| ==> us[i] != us[j] by {
      if WellKeyed(r) {
        forall i, j | 0 <= i < j < |us|
          ensures us[i] != us[j]
        {
          assert BytesLess(us[i].id, us[j].id);
        }
      }
    }
    us
  }

  /** Registering a new principal lists one more user; re-registering keeps
      the count. */
  lemma ListGrows(r: Registry, id: Principal, username: string, bio: Option<string>, time: nat)
    ensures |ListUsers(RegisterUser(r, id, username, bio, time).registry)|
         == |ListUsers(r)| + (if id in r then 0 else 1)
  {
    var r' := RegisterUser(r, id, username, bio, time).registry;
    if id in r {
      assert r'.Keys == r.Keys;
    } else {
      assert r'.Keys == r.Keys + {id};
    }
  }
}
