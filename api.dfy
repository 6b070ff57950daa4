/** The mock back end of services/api.ts as an object: one field per storage key,
    each endpoint a method that reads a whole collection (falling back to that
    endpoint's default), changes it, and writes it back. `None` in a field is a key
    that is absent or holds nothing readable. Latency is not modelled; each call is
    one atomic step. */
module Api {
  import opened Types
  import opened Collections
  import opened Text
  import opened Db

  class Store {
    /** MOCK_PRODUCTS, the seed catalog. */
    const catalog: seq<Product>
    /** INITIAL_ADMIN, built once when the module is loaded. */
    const admin: User

    var users: Option<seq<User>>
    var products: Option<seq<Product>>
    var orders: Option<seq<Order>>
    var session: Option<User>
    var bank: Option<BankDetails>

    ghost predicate Valid()
      reads this
    {
      CatalogOk(catalog) && admin.id == "admin-1" && admin.role == Admin
    }

    /** No two stored users share a lowercased contact. */
    ghost predicate ContactsUnique()
      reads this
    {
      UniqueContacts(Read(users, []))
    }

    /** The module is loaded at time `loadedAt` over whatever the browser's storage
        already holds. */
    constructor (catalog: seq<Product>, loadedAt: int,
                 users: Option<seq<User>>, products: Option<seq<Product>>,
                 orders: Option<seq<Order>>, session: Option<User>, bank: Option<BankDetails>)
      requires CatalogOk(catalog)
      ensures Valid()
      ensures this.catalog == catalog && admin == InitialAdmin(loadedAt)
      ensures this.users == users && this.products == products && this.orders == orders
      ensures this.session == session && this.bank == bank
    {
      this.catalog := catalog;
      this.admin := InitialAdmin(loadedAt);
      this.users := users;
      this.products := products;
      this.orders := orders;
      this.session := session;
      this.bank := bank;
    }

    /** `initializeDatabase`: make sure the admin exists (matching contacts case-
        insensitively), seed an empty catalog, and otherwise patch the images of
        products '519' and '102', writing only when something changed. */
    method InitializeDatabase()
      modifies this`users, this`products
      ensures users == Some(SeedUsers(Read(old(users), []), admin))
      ensures products == Some(SeedProducts(Read(old(products), []), catalog))
      ensures old(ContactsUnique()) ==> ContactsUnique()
    {
      var us := Read(users, []);
      if !ContactTaken(us, Lower(admin.contact)) {
        us := us + [admin];
        users := Some(us);
      }
      if old(ContactsUnique()) {
        SeedUsersKeepsUnique(Read(old(users), []), admin);
      }

      var ps := Read(products, []);
      if |ps| == 0 {
        products := Some(catalog);
      } else {
        var updated := PatchCatalog(ps, catalog);
        if ps != updated {
          products := Some(updated);
        }
      }
    }

    // -------------------------------------------------------------------------
    // auth

    /** `auth.me`: the stored session, or null. */
    method Me() returns (r: Option<User>)
      ensures r == session
    {
      r := session;
    }

    /** `auth.login`: the first user whose lowercased contact is the trimmed,
        lowercased input and whose password is the given one becomes the session;
        without one the call fails and nothing changes. */
    method Login(contact: string, password: string) returns (r: Result<User>)
      modifies this`session
      ensures var us := Read(users, []); var c := NormalizeContact(contact);
        && (r.Ok? <==> exists i :: 0 <= i < |us| && Lower(us[i].contact) == c && us[i].password == Some(password))
        && (r.Ok? ==> r.value in us && Lower(r.value.contact) == c && r.value.password == Some(password))
        && (r.Ok? ==> r.value == FindByCredentials(us, c, password).value && session == Some(r.value))
        && (r.Err? ==> r.error == InvalidCredentials && session == old(session))
    {
      var normalized := NormalizeContact(contact);
      var us := Read(users, []);
      var user := FindByCredentials(us, normalized, password);
      if user.None? {
        return Err(InvalidCredentials);
      }
      session := user;
      r := Ok(user.value);
    }

    /** `auth.signup`: fails when the normalised contact is already taken; otherwise
        appends a user with role 'user' and the normalised contact, and logs in. */
    method Signup(name: string, contact: string, password: string, now: nat) returns (r: Result<User>)
      modifies this`users, this`session
      ensures var us := Read(old(users), []); var c := NormalizeContact(contact);
        && (r.Err? <==> exists i :: 0 <= i < |us| && Lower(us[i].contact) == c)
        && (r.Err? ==> r.error == UserAlreadyExists && users == old(users) && session == old(session))
        && (r.Ok? ==> r.value == NewUser(name, contact, password, now)
                      && r.value.contact == c && r.value.role == RegularUser
                      && users == Some(us + [r.value]) && session == Some(r.value))
      ensures old(ContactsUnique()) ==> ContactsUnique()
    {
      var normalized := NormalizeContact(contact);
      var us := Read(users, []);
      if ContactTaken(us, normalized) {
        return Err(UserAlreadyExists);
      }
      var newUser := NewUser(name, contact, password, now);
      if old(ContactsUnique()) {
        SignupKeepsUnique(us, name, contact, password, now);
      }
      us := us + [newUser];
      users := Some(us);
      session := Some(newUser);
      r := Ok(newUser);
    }

    /** `auth.logout`: removes the session key. */
    method Logout()
      modifies this`session
      ensures session == None
    {
      session := None;
    }

    /** `auth.deleteAccount`: removes every user with the id (no admin guard) and
        removes the session key whoever holds it. */
    method DeleteAccount(userId: string)
      modifies this`users, this`session
      ensures users == Some(WithoutUser(Read(old(users), []), userId))
      ensures session == None
      ensures old(ContactsUnique()) ==> ContactsUnique()
    {
      var us := Read(users, []);
      var newUsers := WithoutUser(us, userId);
      if old(ContactsUnique()) {
        WithoutUserKeepsUnique(us, userId);
      }
      users := Some(newUsers);
      session := None;
    }

    // -------------------------------------------------------------------------
    // products

    /** `products.getAll`: an absent key reads as the seed catalog. */
    method GetAllProducts() returns (r: seq<Product>)
      ensures products.None? ==> r == catalog
      ensures products.Some? ==> r == products.value
    {
      r := Read(products, catalog);
    }

    /** `products.create`: appends the product under an id taken from the clock and
        returns it; an absent key reads as the empty list here. */
    method CreateProduct(product: Product, now: nat) returns (r: Product)
      modifies this`products
      ensures r == product.(id := DecimalString(now))
      ensures products == Some(Read(old(products), []) + [r])
    {
      var ps := Read(products, []);
      var newProduct := product.(id := DecimalString(now));
      ps := ps + [newProduct];
      products := Some(ps);
      r := newProduct;
    }

    /** `products.update`: replaces the first entry with the product's id, or fails
        when there is none. */
    method UpdateProduct(product: Product) returns (r: Result<Product>)
      modifies this`products
      ensures var ps := Read(old(products), []);
        && (r.Err? <==> forall i :: 0 <= i < |ps| ==> ps[i].id != product.id)
        && (r.Err? ==> r.error == ProductNotFound && products == old(products))
        && (r.Ok? ==> r.value == product && products.Some? && |products.value| == |ps|)
        && (r.Ok? ==> var k := ProductIndex(ps, product.id);
              && 0 <= k && ps[k].id == product.id
              && (forall j :: 0 <= j < k ==> ps[j].id != product.id)
              && products.value == ps[k := product])
    {
      var ps := Read(products, []);
      var index := ProductIndex(ps, product.id);
      if index == -1 {
        return Err(ProductNotFound);
      }
      ps := ps[index := product];
      products := Some(ps);
      r := Ok(product);
    }

    /** `products.delete`: removes every entry with the id; an absent key reads as
        the empty list, so it is written back empty. */
    method DeleteProduct(id: string)
      modifies this`products
      ensures products == Some(WithoutProduct(Read(old(products), []), id))
    {
      var ps := Read(products, []);
      products := Some(WithoutProduct(ps, id));
    }

    // -------------------------------------------------------------------------
    // orders

    /** `orders.getAll` */
    method GetAllOrders() returns (r: seq<Order>)
      ensures orders.None? ==> r == []
      ensures orders.Some? ==> r == orders.value
    {
      r := Read(orders, []);
    }

    /** `orders.getUserOrders`: exactly the stored orders placed by the user, in
        stored order. */
    method GetUserOrders(userId: string) returns (r: seq<Order>)
      ensures forall i :: 0 <= i < |r| ==> r[i].userId == userId && r[i] in Read(orders, [])
      ensures forall o :: o in Read(orders, []) && o.userId == userId ==> o in r
      ensures r == OrdersOf(Read(orders, []), userId)
    {
      var os := Read(orders, []);
      r := OrdersOf(os, userId);
    }

    /** `orders.create`: stores a copy of the order with an id and creation time
        from the clock on top of the older orders, and returns it. */
    method CreateOrder(order: Order, now: nat) returns (r: Order)
      modifies this`orders
      ensures r == order.(id := DecimalString(now), createdAt := now)
      ensures r.items == order.items && r.total == order.total
      ensures r.status == order.status && r.paymentMethod == order.paymentMethod
      ensures orders == Some([r] + Read(old(orders), []))
    {
      var os := Read(orders, []);
      var newOrder := order.(id := DecimalString(now), createdAt := now);
      orders := Some([newOrder] + os);
      r := newOrder;
    }

    // -------------------------------------------------------------------------
    // users

    /** `users.getAll` */
    method GetAllUsers() returns (r: seq<User>)
      ensures users.None? ==> r == []
      ensures users.Some? ==> r == users.value
    {
      r := Read(users, []);
    }

    /** `users.delete`: refuses when the first user with the id is an admin;
        otherwise removes every user with the id. */
    method DeleteUser(id: string) returns (r: Result<()>)
      modifies this`users
      ensures var us := Read(old(users), []); var found := FindUser(us, id);
        && (r.Err? <==> found.Some? && found.value.role == Admin)
        && (r.Err? ==> r.error == CannotDeleteAdmin && users == old(users))
        && (r.Ok? ==> users == Some(WithoutUser(us, id)))
      ensures old(ContactsUnique()) ==> ContactsUnique()
    {
      var us := Read(users, []);
      var found := FindUser(us, id);
      if found.Some? && found.value.role == Admin {
        return Err(CannotDeleteAdmin);
      }
      if old(ContactsUnique()) {
        WithoutUserKeepsUnique(us, id);
      }
      users := Some(WithoutUser(us, id));
      r := Ok(());
    }

    // -------------------------------------------------------------------------
    // settings

    /** `settings.getBankDetails`: an absent key reads as all-empty and unlinked. */
    method GetBankDetails() returns (r: BankDetails)
      ensures bank.None? ==> r == DefaultBank && !r.isLinked
      ensures bank.Some? ==> r == bank.value
    {
      r := Read(bank, DefaultBank);
    }

    /** `settings.saveBankDetails`: overwrites the record wholesale and returns it. */
    method SaveBankDetails(details: BankDetails) returns (r: BankDetails)
      modifies this`bank
      ensures bank == Some(details) && r == details
    {
      bank := Some(details);
      r := details;
    }

    /** `settings.resetDatabase`: removes every key and seeds again, leaving the
        admin alone, the seed catalog, no orders, no session and no bank details. */
    method ResetDatabase()
      modifies this
      ensures users == Some([admin]) && products == Some(catalog)
      ensures orders == None && session == None && bank == None
      ensures ContactsUnique()
    {
      products := None;
      orders := None;
      users := None;
      session := None;
      bank := None;
      InitializeDatabase();
      assert !ContactTaken([], Lower(admin.contact));
      assert SeedUsers([], admin) == [admin];
    }
  }
}
