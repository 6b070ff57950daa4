/** Runs of several calls on the store and the providers, each stating the outcome
    the storefront's screens rely on. */
module Scenarios {
  import opened Types
  import opened Text
  import opened Db
  import opened Api
  import opened ProductContext

  /** On a store with no users a first signup succeeds, and a second signup with the
      same contact in another case, with spaces around it, is refused, leaving the
      one user. */
  method SignupTwice(s: Store, t1: nat, t2: nat, name: string, contact: string, password: string,
                     p: string, b: string, q: string, otherPassword: string)
    returns (first: Result<User>, second: Result<User>)
    requires s.users == Some([])
    requires AllSpaces(p) && AllSpaces(q) && Lower(b) == Lower(contact)
    modifies s
    ensures first.Ok? && first.value.contact == NormalizeContact(contact) && first.value.role == RegularUser
    ensures second == Err(UserAlreadyExists)
    ensures s.users == Some([first.value]) && s.session == Some(first.value)
  {
    first := s.Signup(name, contact, password, t1);
    assert [] + [first.value] == [first.value];
    SignupRejectsRespelling([], name, contact, password, t1, p, b, q);
    second := s.Signup(name, p + b + q, otherPassword, t2);
  }

  /** After a first signup on a store with no users, a login with the contact in
      another case, with spaces around it, and the right password finds the new
      user, and a wrong password is refused. */
  method LoginAfterSignup(s: Store, now: nat, name: string, contact: string, password: string,
                          p: string, b: string, q: string, wrongPassword: string)
    returns (first: Result<User>, login: Result<User>, wrong: Result<User>)
    requires s.users == Some([])
    requires AllSpaces(p) && AllSpaces(q) && Lower(b) == Lower(contact)
    requires wrongPassword != password
    modifies s
    ensures first.Ok? && login == first
    ensures wrong == Err(InvalidCredentials)
  {
    first := s.Signup(name, contact, password, now);
    assert [] + [first.value] == [first.value];
    SignupThenLoginRespelled([], name, contact, password, now, p, b, q);
    login := s.Login(p + b + q, password);
    SignupThenWrongPassword([], name, contact, password, now, wrongPassword);
    wrong := s.Login(contact, wrongPassword);
  }

  /** After a reset the catalog reads as the seed catalog, the users as the admin
      alone, the orders as empty, and the bank details as the default. */
  method ResetThenRead(s: Store) returns (ps: seq<Product>, us: seq<User>, os: seq<Order>, b: BankDetails)
    modifies s
    ensures ps == s.catalog && us == [s.admin] && os == [] && b == DefaultBank && !b.isLinked
  {
    s.ResetDatabase();
    ps := s.GetAllProducts();
    us := s.GetAllUsers();
    os := s.GetAllOrders();
    b := s.GetBankDetails();
  }

  /** Orders placed one after another read back newest first. */
  method OrdersNewestFirst(catalog: seq<Product>, loadedAt: int, a: Order, b: Order, c: Order, t1: nat, t2: nat, t3: nat)
    returns (all: seq<Order>)
    requires CatalogOk(catalog)
    ensures |all| == 3
    ensures all[0] == c.(id := DecimalString(t3), createdAt := t3)
    ensures all[1] == b.(id := DecimalString(t2), createdAt := t2)
    ensures all[2] == a.(id := DecimalString(t1), createdAt := t1)
  {
    var s := new Store(catalog, loadedAt, None, None, None, None, None);
    var ra := s.CreateOrder(a, t1);
    var rb := s.CreateOrder(b, t2);
    var rc := s.CreateOrder(c, t3);
    all := s.GetAllOrders();
  }

  /** Creating a product under an id no stored product has, then updating it,
      returns the created entity and leaves it in the catalog exactly once. */
  method CreateThenUpdate(catalog: seq<Product>, loadedAt: int, stored: seq<Product>, x: Product, now: nat)
    returns (created: Product, updated: Result<Product>, all: seq<Product>)
    requires CatalogOk(catalog)
    requires forall i :: 0 <= i < |stored| ==> stored[i].id != DecimalString(now)
    ensures created == x.(id := DecimalString(now))
    ensures updated == Ok(created)
    ensures all == stored + [created]
  {
    var s := new Store(catalog, loadedAt, None, Some(stored), None, None, None);
    created := s.CreateProduct(x, now);
    ghost var ps := stored + [created];
    assert Read(s.products, []) == ps;
    assert ps[|stored|].id == created.id;
    updated := s.UpdateProduct(created);
    assert ProductIndex(ps, created.id) == |stored| by {
      assert forall j :: 0 <= j < |stored| ==> ps[j].id != created.id;
    }
    assert ps[|stored| := created] == ps;
    all := s.GetAllProducts();
  }

  /** With the products key absent, the provider's list (the seed catalog, as
      `getAll` reads it) and the stored list (the empty list, as `create` reads it)
      part ways after the first add. */
  method AddOverAbsentKey(catalog: seq<Product>, loadedAt: int, x: Product, now: nat)
    returns (local: seq<Product>, stored: Option<seq<Product>>)
    requires CatalogOk(catalog)
    ensures local == catalog + [x.(id := DecimalString(now))]
    ensures stored == Some([x.(id := DecimalString(now))])
    ensures stored != Some(local)
  {
    var s := new Store(catalog, loadedAt, None, None, None, None, None);
    var provider := new ProductProvider(s);
    provider.FetchProducts();
    provider.AddProduct(x, now);
    local := provider.products;
    stored := s.products;
    assert [] + [x.(id := DecimalString(now))] == [x.(id := DecimalString(now))];
    var k :| 0 <= k < |catalog| && catalog[k].id == "102";
    assert |local| == |catalog| + 1 > 1;
  }

  /** Seeding twice leaves users and products as seeding once did. */
  method SeedTwice(s: Store)
    requires s.Valid()
    modifies s
    ensures s.users == Some(SeedUsers(Read(old(s.users), []), s.admin))
    ensures s.products == Some(SeedProducts(Read(old(s.products), []), s.catalog))
  {
    s.InitializeDatabase();
    SeedUsersIdempotent(Read(old(s.users), []), s.admin);
    SeedProductsIdempotent(Read(old(s.products), []), s.catalog);
    s.InitializeDatabase();
  }

  /** On a store seeded over an absent users key the seeded administrator cannot be
      deleted, and the users are left as they were. */
  method AdminProtected(s: Store) returns (r: Result<()>, us: seq<User>)
    requires s.Valid() && s.users == None
    modifies s
    ensures r == Err(CannotDeleteAdmin)
    ensures us == [s.admin]
  {
    s.InitializeDatabase();
    SeedUsersExtends([], s.admin);
    r := s.DeleteUser("admin-1");
    us := s.GetAllUsers();
  }
}
