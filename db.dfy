/** The value-level part of the mock back end (services/api.ts): its constants, the
    read-with-default of a storage key, and the collection transforms each endpoint
    applies between reading a collection and writing it back, with their properties. */
module Db {
  import opened Types
  import opened Collections
  import opened Text

  const AdminContact: string := "admin@freshmarket.com"

  /** INITIAL_ADMIN; its join time is the moment the module was loaded. */
  function InitialAdmin(loadedAt: int): User
  {
    User("admin-1", "Super Admin", AdminContact, Some("admin"), Admin, loadedAt)
  }

  /** What the bank key reads as when it is absent. */
  const DefaultBank: BankDetails := BankDetails("", "", "", "", "", false)

  /** `getStorage(key, default)`: a key that is absent (or holds nothing readable)
      reads as the caller's default. */
  function Read<T>(slot: Option<T>, default: T): T
  {
    match slot
    case Some(v) => v
    case None => default
  }

  /** The seed catalog's facts the store relies on: distinct ids, and entries
      '102' and '519' (the two products the start-up patch re-syncs). */
  predicate CatalogOk(catalog: seq<Product>)
  {
    && UniqueIds(catalog)
    && (exists i :: 0 <= i < |catalog| && catalog[i].id == "102")
    && (exists i :: 0 <= i < |catalog| && catalog[i].id == "519")
  }

  predicate UniqueIds(ps: seq<Product>)
  {
    forall i, j :: 0 <= i < j < |ps| ==> ps[i].id != ps[j].id
  }

  /** No two users share a contact once lowercased. */
  predicate UniqueContacts(us: seq<User>)
  {
    forall i, j :: 0 <= i < j < |us| ==> Lower(us[i].contact) != Lower(us[j].contact)
  }

  // ---------------------------------------------------------------------------
  // Users and sessions

  /** `contact.trim().toLowerCase()`: the result is already lower case, and it is
      what remains of the input after trimming. */
  function NormalizeContact(contact: string): (r: string)
    ensures Lower(r) == r
    ensures |r| == |Trim(contact)| <= |contact|
  {
    LowerIdempotent(Trim(contact));
    Lower(Trim(contact))
  }

  /** Contacts that differ only in case normalise alike. */
  lemma NormalizeIgnoresCase(a: string, b: string)
    requires Lower(a) == Lower(b)
    ensures NormalizeContact(a) == NormalizeContact(b)
  {
    TrimLowerCommutes(a);
    TrimLowerCommutes(b);
  }

  /** Spaces around a contact do not change its normal form. */
  lemma NormalizeIgnoresSurroundingSpaces(p: string, a: string, q: string)
    requires AllSpaces(p) && AllSpaces(q)
    ensures NormalizeContact(p + a + q) == NormalizeContact(a)
  {
    TrimIgnoresSurroundingSpaces(p, a, q);
  }

  /** A respelling of a contact: the same letters up to case, wrapped in spaces. */
  lemma NormalizeRespelling(p: string, b: string, q: string, contact: string)
    requires AllSpaces(p) && AllSpaces(q) && Lower(b) == Lower(contact)
    ensures NormalizeContact(p + b + q) == NormalizeContact(contact)
  {
    NormalizeIgnoresSurroundingSpaces(p, b, q);
    NormalizeIgnoresCase(b, contact);
  }

  /** `users.some(u => u.contact.toLowerCase() === c)` */
  predicate ContactTaken(us: seq<User>, c: string)
  {
    Any(us, (u: User) => Lower(u.contact) == c)
  }

  /** `users.find(u => u.contact.toLowerCase() === c && u.password === password)` */
  function FindByCredentials(us: seq<User>, c: string, password: string): Option<User>
  {
    Find(us, (u: User) => Lower(u.contact) == c && u.password == Some(password))
  }

  /** `users.find(u => u.id === id)` */
  function FindUser(us: seq<User>, id: string): Option<User>
  {
    Find(us, (u: User) => u.id == id)
  }

  /** `users.filter(u => u.id !== id)` */
  function WithoutUser(us: seq<User>, id: string): seq<User>
  {
    Filter(us, (u: User) => u.id != id)
  }

  /** The record signup stores: role 'user', contact normalised, id and join time
      taken from the clock. */
  function NewUser(name: string, contact: string, password: string, now: nat): User
  {
    User(DecimalString(now), name, NormalizeContact(contact), Some(password), RegularUser, now)
  }

  /** The users collection after the admin-seeding step of `initializeDatabase`. */
  function SeedUsers(us: seq<User>, admin: User): seq<User>
  {
    if ContactTaken(us, Lower(admin.contact)) then us else us + [admin]
  }

  // ---------------------------------------------------------------------------
  // Products and orders

  /** `products.findIndex(p => p.id === id)` */
  function ProductIndex(ps: seq<Product>, id: string): int
  {
    FirstIndex(ps, (p: Product) => p.id == id)
  }

  /** `MOCK_PRODUCTS.find(m => m.id === id)` */
  function FindProduct(ps: seq<Product>, id: string): Option<Product>
  {
    Find(ps, (p: Product) => p.id == id)
  }

  /** `products.filter(p => p.id !== id)` */
  function WithoutProduct(ps: seq<Product>, id: string): seq<Product>
  {
    Filter(ps, (p: Product) => p.id != id)
  }

  /** `orders.filter(o => o.userId === userId)` */
  function OrdersOf(os: seq<Order>, userId: string): seq<Order>
  {
    Filter(os, (o: Order) => o.userId == userId)
  }

  /** The start-up patch of one stored product: products '519' and '102' get the
      catalog's image when theirs differs; nothing else is touched. */
  function PatchImage(p: Product, catalog: seq<Product>): (r: Product)
    ensures r.(image := p.image) == p
    ensures r != p ==>
      && (p.id == "519" || p.id == "102")
      && FindProduct(catalog, p.id).Some?
      && r.image == FindProduct(catalog, p.id).value.image
    ensures (p.id == "519" || p.id == "102") && FindProduct(catalog, p.id).Some? ==>
      r.image == FindProduct(catalog, p.id).value.image
  {
    var mock519 := FindProduct(catalog, "519");
    var mock102 := FindProduct(catalog, "102");
    if p.id == "519" && mock519.Some? && p.image != mock519.value.image then
      p.(image := mock519.value.image)
    else if p.id == "102" && mock102.Some? && p.image != mock102.value.image then
      p.(image := mock102.value.image)
    else
      p
  }

  /** `products.map(...)` with the patch above. */
  function PatchCatalog(ps: seq<Product>, catalog: seq<Product>): seq<Product>
  {
    Map(ps, (p: Product) => PatchImage(p, catalog))
  }

  /** The products collection after the seeding step of `initializeDatabase`. */
  function SeedProducts(ps: seq<Product>, catalog: seq<Product>): seq<Product>
  {
    if |ps| == 0 then catalog else PatchCatalog(ps, catalog)
  }

  // ---------------------------------------------------------------------------
  // Seeding

  /** After seeding, some user's lowercased contact is the admin's. */
  lemma SeedUsersHasAdmin(us: seq<User>, admin: User)
    ensures ContactTaken(SeedUsers(us, admin), Lower(admin.contact))
  {
    var r := SeedUsers(us, admin);
    if !ContactTaken(us, Lower(admin.contact)) {
      assert r[|r| - 1] == admin;
    }
  }

  /** Seeding users keeps what was there, in order, and appends at most the admin. */
  lemma SeedUsersExtends(us: seq<User>, admin: User)
    ensures var r := SeedUsers(us, admin);
      && r[..|us|] == us
      && (r == us || r == us + [admin])
      && (r == us <==> ContactTaken(us, Lower(admin.contact)))
  {
  }

  /** A second seeding of the users appends no further admin. */
  lemma SeedUsersIdempotent(us: seq<User>, admin: User)
    ensures SeedUsers(SeedUsers(us, admin), admin) == SeedUsers(us, admin)
  {
    SeedUsersHasAdmin(us, admin);
  }

  /** Seeding the admin keeps contacts pairwise distinct. */
  lemma SeedUsersKeepsUnique(us: seq<User>, admin: User)
    requires UniqueContacts(us)
    ensures UniqueContacts(SeedUsers(us, admin))
  {
    var r := SeedUsers(us, admin);
    if !ContactTaken(us, Lower(admin.contact)) {
      forall i, j | 0 <= i < j < |r| ensures Lower(r[i].contact) != Lower(r[j].contact) {
        if j == |us| {
          assert r[i] == us[i];
        }
      }
    }
  }

  /** The patch leaves length, order, ids and every field but the image alone, and a
      changed image is the catalog's. */
  lemma PatchCatalogShape(ps: seq<Product>, catalog: seq<Product>)
    ensures var r := PatchCatalog(ps, catalog);
      && |r| == |ps|
      && (forall i :: 0 <= i < |ps| ==> r[i].(image := ps[i].image) == ps[i])
      && (forall i :: 0 <= i < |ps| && r[i] != ps[i] ==>
            && (ps[i].id == "519" || ps[i].id == "102")
            && FindProduct(catalog, ps[i].id).Some?
            && r[i].image == FindProduct(catalog, ps[i].id).value.image)
  {
  }

  /** Patching twice is patching once. */
  lemma PatchCatalogIdempotent(ps: seq<Product>, catalog: seq<Product>)
    ensures PatchCatalog(PatchCatalog(ps, catalog), catalog) == PatchCatalog(ps, catalog)
  {
    var r := PatchCatalog(ps, catalog);
    var rr := PatchCatalog(r, catalog);
    forall i | 0 <= i < |ps| ensures rr[i] == r[i] {
      assert r[i].id == ps[i].id;
    }
  }

  /** In a catalog with distinct ids, the entry found for an id is the one at hand. */
  lemma FindProductInUnique(ps: seq<Product>, i: int)
    requires UniqueIds(ps) && 0 <= i < |ps|
    ensures FindProduct(ps, ps[i].id) == Some(ps[i])
  {
    var k := FirstIndex(ps, (p: Product) => p.id == ps[i].id);
    assert 0 <= k;
    assert ps[k].id == ps[i].id;
  }

  /** The catalog is already patched: patching it against itself changes nothing. */
  lemma PatchCatalogFixesCatalog(catalog: seq<Product>)
    requires UniqueIds(catalog)
    ensures PatchCatalog(catalog, catalog) == catalog
  {
    var r := PatchCatalog(catalog, catalog);
    forall i | 0 <= i < |catalog| ensures r[i] == catalog[i] {
      FindProductInUnique(catalog, i);
    }
  }

  /** Seeding the products twice is seeding them once. */
  lemma SeedProductsIdempotent(ps: seq<Product>, catalog: seq<Product>)
    requires UniqueIds(catalog)
    ensures SeedProducts(SeedProducts(ps, catalog), catalog) == SeedProducts(ps, catalog)
  {
    if |ps| == 0 {
      PatchCatalogFixesCatalog(catalog);
    } else {
      PatchCatalogIdempotent(ps, catalog);
    }
  }

  /** After seeding, products '519' and '102', wherever they are, carry the catalog's
      image. */
  lemma SeedProductsSyncsImages(ps: seq<Product>, catalog: seq<Product>, i: int)
    requires CatalogOk(catalog)
    requires 0 <= i < |SeedProducts(ps, catalog)|
    requires SeedProducts(ps, catalog)[i].id in {"519", "102"}
    ensures FindProduct(catalog, SeedProducts(ps, catalog)[i].id).Some?
    ensures SeedProducts(ps, catalog)[i].image == FindProduct(catalog, SeedProducts(ps, catalog)[i].id).value.image
  {
    if |ps| == 0 {
      FindProductInUnique(catalog, i);
    } else {
      var r := PatchCatalog(ps, catalog);
      assert r[i].id == ps[i].id;
      var id := ps[i].id;
      if id == "519" {
        var k :| 0 <= k < |catalog| && catalog[k].id == "519";
        assert FindProduct(catalog, id).Some? by { assert !(catalog[k].id != id); }
      } else {
        var k :| 0 <= k < |catalog| && catalog[k].id == "102";
        assert FindProduct(catalog, id).Some? by { assert !(catalog[k].id != id); }
      }
    }
  }

  /** Patching keeps product ids, hence their distinctness. */
  lemma SeedProductsKeepsUniqueIds(ps: seq<Product>, catalog: seq<Product>)
    requires UniqueIds(ps) && UniqueIds(catalog)
    ensures UniqueIds(SeedProducts(ps, catalog))
  {
    var r := SeedProducts(ps, catalog);
    if |ps| != 0 {
      forall i, j | 0 <= i < j < |r| ensures r[i].id != r[j].id {
        assert r[i].id == ps[i].id && r[j].id == ps[j].id;
      }
    }
  }

  // ---------------------------------------------------------------------------
  // Accounts

  /** A signup that passed the existence check keeps contacts pairwise distinct. */
  lemma SignupKeepsUnique(us: seq<User>, name: string, contact: string, password: string, now: nat)
    requires UniqueContacts(us)
    requires !ContactTaken(us, NormalizeContact(contact))
    ensures UniqueContacts(us + [NewUser(name, contact, password, now)])
  {
    var nu := NewUser(name, contact, password, now);
    var r := us + [nu];
    forall i, j | 0 <= i < j < |r| ensures Lower(r[i].contact) != Lower(r[j].contact) {
      if j == |us| {
        assert r[i] == us[i];
        assert Lower(nu.contact) == NormalizeContact(contact);
      }
    }
  }

  /** Once a contact is registered, a signup with any contact of the same normal
      form finds it taken. */
  lemma SignupRejectsVariant(us: seq<User>, name: string, contact: string, password: string, now: nat, other: string)
    requires NormalizeContact(other) == NormalizeContact(contact)
    ensures ContactTaken(us + [NewUser(name, contact, password, now)], NormalizeContact(other))
  {
    var r := us + [NewUser(name, contact, password, now)];
    assert Lower(r[|us|].contact) == NormalizeContact(other);
  }

  /** After a signup, logging in with the same password and any contact of the
      same normal form finds exactly the new user. */
  lemma SignupThenLogin(us: seq<User>, name: string, contact: string, password: string, now: nat, other: string)
    requires !ContactTaken(us, NormalizeContact(contact))
    requires NormalizeContact(other) == NormalizeContact(contact)
    ensures FindByCredentials(us + [NewUser(name, contact, password, now)], NormalizeContact(other), password)
         == Some(NewUser(name, contact, password, now))
  {
    var nu := NewUser(name, contact, password, now);
    var r := us + [nu];
    var p := (u: User) => Lower(u.contact) == NormalizeContact(other) && u.password == Some(password);
    assert p(r[|us|]);
    forall j | 0 <= j < |us| ensures !p(r[j]) {
      assert r[j] == us[j];
    }
  }

  /** Once a contact is registered, a signup with the same letters in any case,
      with any spaces around them, finds it taken. */
  lemma SignupRejectsRespelling(us: seq<User>, name: string, contact: string, password: string, now: nat,
                                p: string, b: string, q: string)
    requires AllSpaces(p) && AllSpaces(q) && Lower(b) == Lower(contact)
    ensures ContactTaken(us + [NewUser(name, contact, password, now)], NormalizeContact(p + b + q))
  {
    NormalizeRespelling(p, b, q, contact);
    SignupRejectsVariant(us, name, contact, password, now, p + b + q);
  }

  /** After a signup, logging in with the same password and the contact respelt in
      any case, with any spaces around it, finds exactly the new user. */
  lemma SignupThenLoginRespelled(us: seq<User>, name: string, contact: string, password: string, now: nat,
                                 p: string, b: string, q: string)
    requires !ContactTaken(us, NormalizeContact(contact))
    requires AllSpaces(p) && AllSpaces(q) && Lower(b) == Lower(contact)
    ensures FindByCredentials(us + [NewUser(name, contact, password, now)], NormalizeContact(p + b + q), password)
         == Some(NewUser(name, contact, password, now))
  {
    NormalizeRespelling(p, b, q, contact);
    SignupThenLogin(us, name, contact, password, now, p + b + q);
  }

  /** After a signup, logging in with the new contact and a different password fails. */
  lemma SignupThenWrongPassword(us: seq<User>, name: string, contact: string, password: string, now: nat, wrong: string)
    requires !ContactTaken(us, NormalizeContact(contact))
    requires wrong != password
    ensures FindByCredentials(us + [NewUser(name, contact, password, now)], NormalizeContact(contact), wrong) == None
  {
    var r := us + [NewUser(name, contact, password, now)];
    forall j | 0 <= j < |us| ensures Lower(r[j].contact) != NormalizeContact(contact) {
      assert r[j] == us[j];
    }
  }

  /** With distinct contacts, the user a login finds is the only one with that contact. */
  lemma LoginMatchIsOnlyOne(us: seq<User>, c: string, password: string, i: int)
    requires UniqueContacts(us)
    requires FindByCredentials(us, c, password).Some?
    requires 0 <= i < |us| && Lower(us[i].contact) == c
    ensures FindByCredentials(us, c, password) == Some(us[i])
  {
    var k := FirstIndex(us, (u: User) => Lower(u.contact) == c && u.password == Some(password));
    assert Lower(us[k].contact) == Lower(us[i].contact);
  }

  /** Removing users keeps contacts pairwise distinct. */
  lemma WithoutUserKeepsUnique(us: seq<User>, id: string)
    requires UniqueContacts(us)
    ensures UniqueContacts(WithoutUser(us, id))
  {
    var key := (u: User) => Lower(u.contact);
    FilterKeepsDistinct(us, (u: User) => u.id != id, key);
    var r := WithoutUser(us, id);
    assert DistinctBy(r, key);
    forall i, j | 0 <= i < j < |r| ensures Lower(r[i].contact) != Lower(r[j].contact) {
      assert key(r[i]) != key(r[j]);
    }
  }

  /** Removing an id that no user has changes nothing. */
  lemma WithoutAbsentUser(us: seq<User>, id: string)
    requires forall i :: 0 <= i < |us| ==> us[i].id != id
    ensures WithoutUser(us, id) == us
  {
    FilterKeepsAll(us, (u: User) => u.id != id);
  }

  // ---------------------------------------------------------------------------
  // Catalog edits and orders

  /** Removing products keeps ids distinct. */
  lemma WithoutProductKeepsUniqueIds(ps: seq<Product>, id: string)
    requires UniqueIds(ps)
    ensures UniqueIds(WithoutProduct(ps, id))
  {
    var key := (p: Product) => p.id;
    FilterKeepsDistinct(ps, (p: Product) => p.id != id, key);
    var r := WithoutProduct(ps, id);
    forall i, j | 0 <= i < j < |r| ensures r[i].id != r[j].id {
      assert key(r[i]) != key(r[j]);
    }
  }

  /** Removing an id that no product has changes nothing. */
  lemma WithoutAbsentProduct(ps: seq<Product>, id: string)
    requires forall i :: 0 <= i < |ps| ==> ps[i].id != id
    ensures WithoutProduct(ps, id) == ps
  {
    FilterKeepsAll(ps, (p: Product) => p.id != id);
  }

  /** Replacing an entry by one with the same id keeps ids distinct. */
  lemma ReplaceKeepsUniqueIds(ps: seq<Product>, k: int, x: Product)
    requires UniqueIds(ps) && 0 <= k < |ps| && ps[k].id == x.id
    ensures UniqueIds(ps[k := x])
  {
  }

  /** Appending a product whose id is new keeps ids distinct. */
  lemma AppendKeepsUniqueIds(ps: seq<Product>, x: Product)
    requires UniqueIds(ps) && forall i :: 0 <= i < |ps| ==> ps[i].id != x.id
    ensures UniqueIds(ps + [x])
  {
  }

  /** A user's orders after a new order is put on top: the new one first when it is
      theirs, then their older orders in stored order. */
  lemma OrdersOfPrepend(o: Order, os: seq<Order>, userId: string)
    ensures OrdersOf([o] + os, userId) == (if o.userId == userId then [o] else []) + OrdersOf(os, userId)
  {
    var keep := (x: Order) => x.userId == userId;
    FilterAppend([o], os, keep);
    assert Filter([o], keep) == (if o.userId == userId then [o] else []) by {
      assert [o][1..] == [];
    }
  }
}
