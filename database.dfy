/** The relational store the handlers share through their `session`: the user,
    role and product tables, each held as the sequence of its rows in storage
    order (so `.first()`, `OFFSET` and `LIMIT` have a definite meaning), with
    unique primary keys. Connection and transaction plumbing is not modelled:
    a committed change is an assignment to a table. */
module Database {
  import opened Common
  import opened UserModels
  import opened ProductModels

  predicate UniqueUserIds(users: seq<User>) {
    forall i, j :: 0 <= i < j < |users| ==> users[i].id != users[j].id
  }

  predicate UniqueRoleIds(roles: seq<Role>) {
    forall i, j :: 0 <= i < j < |roles| ==> roles[i].id != roles[j].id
  }

  predicate UniqueProductIds(products: seq<Product>) {
    forall i, j :: 0 <= i < j < |products| ==> products[i].id != products[j].id
  }

  class Db {
    var users: seq<User>
    var roles: seq<Role>
    var products: seq<Product>

    /** Primary keys are unique in every table. */
    ghost predicate Valid()
      reads this
    {
      UniqueUserIds(users) && UniqueRoleIds(roles) && UniqueProductIds(products)
    }

    constructor (users: seq<User>, roles: seq<Role>, products: seq<Product>)
      requires UniqueUserIds(users) && UniqueRoleIds(roles) && UniqueProductIds(products)
      ensures Valid()
      ensures this.users == users && this.roles == roles && this.products == products
    {
      this.users := users;
      this.roles := roles;
      this.products := products;
    }
  }

  // ---------- Primary-key lookups: `session.get(Model, id)` ----------

  function UserIndex(users: seq<User>, id: string): (r: Option<nat>)
    ensures r.Some? ==> r.value < |users| && users[r.value].id == id
    ensures r.None? <==> forall j :: 0 <= j < |users| ==> users[j].id != id
  {
    FirstIndex(users, (u: User) => u.id == id)
  }

  function FindUser(users: seq<User>, id: string): (r: Option<User>)
    ensures r.Some? ==> r.value in users && r.value.id == id
    ensures r.None? <==> forall j :: 0 <= j < |users| ==> users[j].id != id
  {
    match UserIndex(users, id)
    case None => None
    case Some(i) => Some(users[i])
  }

  function FindRole(roles: seq<Role>, id: string): (r: Option<Role>)
    ensures r.Some? ==> r.value in roles && r.value.id == id
    ensures r.None? <==> forall j :: 0 <= j < |roles| ==> roles[j].id != id
  {
    match FirstIndex(roles, (x: Role) => x.id == id)
    case None => None
    case Some(i) => Some(roles[i])
  }

  function ProductIndex(products: seq<Product>, id: string): (r: Option<nat>)
    ensures r.Some? ==> r.value < |products| && products[r.value].id == id
    ensures r.None? <==> forall j :: 0 <= j < |products| ==> products[j].id != id
  {
    FirstIndex(products, (p: Product) => p.id == id)
  }

  /** With unique keys the row found by id is the only row with that id. */
  lemma UserIndexUnique(users: seq<User>, id: string, j: nat)
    requires UniqueUserIds(users) && j < |users| && users[j].id == id
    ensures UserIndex(users, id) == Some(j)
  {
  }

  lemma ProductIndexUnique(products: seq<Product>, id: string, j: nat)
    requires UniqueProductIds(products) && j < |products| && products[j].id == id
    ensures ProductIndex(products, id) == Some(j)
  {
  }

  // ---------- Deleting by primary key: `session.delete(row)` ----------

  function RemoveUser(users: seq<User>, id: string): (r: seq<User>)
    ensures forall u :: u in r <==> u in users && u.id != id
    ensures forall u :: multiset(r)[u] == if u.id != id then multiset(users)[u] else 0
  {
    Filter(users, (u: User) => u.id != id)
  }

  function RemoveProduct(products: seq<Product>, id: string): (r: seq<Product>)
    ensures forall p :: p in r <==> p in products && p.id != id
    ensures forall p :: multiset(r)[p] == if p.id != id then multiset(products)[p] else 0
  {
    Filter(products, (p: Product) => p.id != id)
  }

  /** `ondelete="CASCADE"` on `product.owner_id`: deleting a user also
      deletes every product it owns, and no other. */
  function RemoveOwnedProducts(products: seq<Product>, ownerId: string): (r: seq<Product>)
    ensures forall p :: p in r <==> p in products && p.ownerId != ownerId
    ensures forall p :: multiset(r)[p] == if p.ownerId != ownerId then multiset(products)[p] else 0
  {
    Filter(products, (p: Product) => p.ownerId != ownerId)
  }

  /** Removing rows keeps the remaining keys unique. */
  lemma {:induction false} FilterKeepsUniqueUsers(users: seq<User>, keep: User -> bool)
    requires UniqueUserIds(users)
    ensures UniqueUserIds(Filter(users, keep))
    decreases |users|
  {
    if users != [] {
      FilterKeepsUniqueUsers(users[1..], keep);
      var rest := Filter(users[1..], keep);
      assert Filter(users, keep) == if keep(users[0]) then [users[0]] + rest else rest;
      if keep(users[0]) {
        forall u | u in rest ensures u.id != users[0].id {
          var k :| 0 <= k < |users[1..]| && users[1..][k] == u;
          assert users[k + 1] == u;
        }
        PrependUserKeepsUnique(users[0], rest);
      }
    }
  }

  lemma {:induction false} FilterKeepsUniqueProducts(products: seq<Product>, keep: Product -> bool)
    requires UniqueProductIds(products)
    ensures UniqueProductIds(Filter(products, keep))
    decreases |products|
  {
    if products != [] {
      FilterKeepsUniqueProducts(products[1..], keep);
      var rest := Filter(products[1..], keep);
      assert Filter(products, keep) == if keep(products[0]) then [products[0]] + rest else rest;
      if keep(products[0]) {
        forall p | p in rest ensures p.id != products[0].id {
          var k :| 0 <= k < |products[1..]| && products[1..][k] == p;
          assert products[k + 1] == p;
        }
        PrependProductKeepsUnique(products[0], rest);
      }
    }
  }

  lemma PrependUserKeepsUnique(u: User, rest: seq<User>)
    requires UniqueUserIds(rest) && forall v :: v in rest ==> v.id != u.id
    ensures UniqueUserIds([u] + rest)
  {
    forall i, j | 0 <= i < j < |[u] + rest| ensures ([u] + rest)[i].id != ([u] + rest)[j].id {
      assert ([u] + rest)[j] == rest[j - 1];
      if i > 0 {
        assert ([u] + rest)[i] == rest[i - 1];
      } else {
        assert rest[j - 1] in rest;
      }
    }
  }

  lemma PrependProductKeepsUnique(p: Product, rest: seq<Product>)
    requires UniqueProductIds(rest) && forall q :: q in rest ==> q.id != p.id
    ensures UniqueProductIds([p] + rest)
  {
    forall i, j | 0 <= i < j < |[p] + rest| ensures ([p] + rest)[i].id != ([p] + rest)[j].id {
      assert ([p] + rest)[j] == rest[j - 1];
      if i > 0 {
        assert ([p] + rest)[i] == rest[i - 1];
      } else {
        assert rest[j - 1] in rest;
      }
    }
  }

  /** Replacing a row by one with the same key keeps keys unique. */
  lemma ReplaceKeepsUniqueUsers(users: seq<User>, i: nat, u: User)
    requires UniqueUserIds(users) && i < |users| && u.id == users[i].id
    ensures UniqueUserIds(users[i := u])
  {
  }

  lemma ReplaceKeepsUniqueProducts(products: seq<Product>, i: nat, p: Product)
    requires UniqueProductIds(products) && i < |products| && p.id == products[i].id
    ensures UniqueProductIds(products[i := p])
  {
  }
}
