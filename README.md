# Kashmir Fresh storefront: the mock back end and its two providers

This Dafny project models the persistence and session layer of the storefront. In the
app, `services/api.ts` acts as a REST back end over the browser's key-value storage.
Five keys hold the users, the products, the orders, the current session and the bank
details. Every endpoint reads a whole collection, changes it and writes it back. Two
React providers keep an in-memory copy of part of that state. `ProductProvider` holds
the product list and a loading flag. `AuthProvider` holds the signed-in user and a
loading flag.

The files:

- `types.dfy` (module `Types`): the records and enumerations of `types.ts`, the
  bank-details record, and the four errors the API throws.
- `collections.dfy` (module `Collections`): the array methods the endpoints use
  (`filter`, `map`, `findIndex` and `find` as recursive functions, `some` as an
  existential predicate), with lemmas on order and distinctness.
- `text.dfy` (module `Text`): `toLowerCase` and `trim` on contacts, and the decimal
  `toString` that turns a clock reading into an id, with the value its digits denote.
- `db.dfy` (module `Db`): the constants (`INITIAL_ADMIN`, the default bank details) and
  `getStorage`'s read-with-default. It also has the transform each endpoint applies
  between reading and writing: seeding, image patching, the new-user record, and the
  filters and lookups. It holds the lemmas about all of these.
- `api.dfy` (module `Api`): class `Store`, with one field per storage key and one
  method per endpoint. `None` in a field means the key is absent or unreadable, so it
  reads as the caller's default.
- `product_context.dfy` and `auth_context.dfy`: the two providers as classes that hold
  a reference to the store.
- `scenarios.dfy` (module `Scenarios`): runs of several calls on a store, each stating
  the outcome the storefront's screens rely on.

Behaviours kept as written:

- `products.getAll` reads an absent products key as the seed catalog. `create`,
  `update` and `delete` read it as the empty list. `Scenarios.AddOverAbsentKey` shows
  the result: the provider's list and the stored list part ways.
- `auth.deleteAccount` has no admin guard. It removes the session whoever holds it.
  `users.delete` refuses only when the first user with the id has role `admin`.
  Sub-admins can be deleted.
- `users.delete` checks only the first user with the given id. A later duplicate that is
  an admin is removed along with the rest.
- `initializeDatabase` guarantees at least one user with the admin's contact. It does
  not remove duplicates that were already stored.
- `products.update` replaces only the first entry with the id. The provider's updater
  replaces every entry with it. `ProductContext.ReplaceFirstIsReplaceAll` proves the two
  agree when ids are distinct.

## Model

| member | source | states |
|---|---|---|
| `Collections.Filter` | services/api.ts:174 | the result has only elements of the input that satisfy the predicate, and every such element is in it; a result as long as the input is the input (multiplicity: `Collections.FilterSubMultiset`; order: `Collections.FilterAppend`) |
| `Collections.FilterSubMultiset` | services/api.ts:174 | filtering repeats no element more often than the input holds it |
| `Collections.Map` | services/api.ts:59 | same length as the input; each entry is the function applied to the entry at that index |
| `Collections.FirstIndex` | services/api.ts:163 | -1 exactly when no element satisfies the predicate; otherwise an index that satisfies it, with no earlier one that does |
| `Collections.Find` | services/api.ts:99 | none exactly when no element satisfies the predicate; otherwise the element at the first satisfying index |
| `Collections.FilterAppend` | services/api.ts:189 | filtering a concatenation is concatenating the filtered parts, so relative order is kept |
| `Collections.FilterKeepsAll` | services/api.ts:174 | a filter that rejects nothing returns its input unchanged |
| `Collections.FilterKeepsDistinct` | services/api.ts:215 | a key that is distinct across a list stays distinct across any filtering of it |
| `Text.Lower` | services/api.ts:96 | same length as the input; each character is lowered (ASCII letters) |
| `Text.Trim` | services/api.ts:96 | the result is the slice after the leading spaces; every character outside it is a space; it neither starts nor ends with one |
| `Text.LeadingSpaces` | services/api.ts:96 | the run `trim` removes at the start: every character before it is a space and the next one is not |
| `Text.TrailingSpaces` | services/api.ts:96 | the run `trim` removes at the end: every character after it is a space and the one before is not |
| `Text.TrimUnique` | services/api.ts:96 | any slice with only spaces outside it and no space at either end is the trimmed string, so the three properties of `Text.Trim` determine it |
| `Text.TrimLowerCommutes` | services/api.ts:96 | trimming then lowering gives what lowering then trimming gives |
| `Text.TrimIgnoresSurroundingSpaces` | services/api.ts:96 | spaces added on either side of a string do not change its trim |
| `Text.DecimalString` | services/api.ts:117 | a non-empty string of decimal digits, with no leading zero unless the number is 0 (its value: `Text.DecimalStringValue`) |
| `Text.DecimalStringValue` | services/api.ts:117 | the digits of the decimal string of n, read most significant first, denote n |
| `Text.DecimalStringInjective` | services/api.ts:154 | two clock readings with the same decimal string are equal, so distinct readings give distinct ids (a corollary of `Text.DecimalStringValue`) |
| `Db.NormalizeContact` | services/api.ts:109 | the normalised contact is already lower case and has the length of the trimmed input |
| `Db.NormalizeIgnoresCase` | services/api.ts:96 | two contacts equal up to case normalise alike |
| `Db.NormalizeIgnoresSurroundingSpaces` | services/api.ts:109 | spaces around a contact do not change its normal form |
| `Db.NormalizeRespelling` | services/api.ts:109 | the contact respelt in another case, with any spaces around it, has the contact's normal form |
| `Db.Read` | services/api.ts:29-36 | `getStorage`: the stored value when the key holds one, the caller's default otherwise; each endpoint's default is stated in its `Api.Store` row |
| `Db.InitialAdmin` | services/api.ts:15-22 | the seeded administrator: id 'admin-1', role admin, password 'admin', joined at module load; `Api.Store.constructor` fixes it once and `Scenarios.AdminProtected` shows it cannot be deleted |
| `Db.NewUser` | services/api.ts:116-122 | the record signup stores: the clock's id and join time, role 'user', the caller's name and password, the normalised contact; stated in the `Api.Store.Signup` contract |
| `Db.ContactTaken` | services/api.ts:112 | `some` over lowercased stored contacts; `Db.SignupRejectsRespelling` and `Api.Store.Signup` state what it decides |
| `Db.SeedUsers` | services/api.ts:45-50 | the admin-seeding step; its properties are `Db.SeedUsersHasAdmin`, `Db.SeedUsersExtends`, `Db.SeedUsersIdempotent` and `Db.SeedUsersKeepsUnique` |
| `Db.PatchCatalog` | services/api.ts:57-81 | the image re-sync of products '519' and '102'; its properties are `Db.PatchCatalogShape`, `Db.PatchCatalogIdempotent` and `Db.PatchCatalogFixesCatalog` |
| `Db.SeedProducts` | services/api.ts:52-81 | the product-seeding step; its properties are `Db.SeedProductsIdempotent`, `Db.SeedProductsSyncsImages` and `Db.SeedProductsKeepsUniqueIds` |
| `Db.PatchImage` | services/api.ts:59-75 | only the image may change; a changed image belongs to product '519' or '102' and equals the catalog entry's image; such a product always ends with the catalog's image |
| `Db.SeedUsersHasAdmin` | services/api.ts:45-50 | after seeding, some user's lowercased contact is the admin's lowercased contact |
| `Db.SeedUsersExtends` | services/api.ts:45-50 | seeding keeps the stored users in order; it appends the admin exactly when no contact matched, and nothing otherwise |
| `Db.SeedUsersIdempotent` | services/api.ts:45-50 | a second seeding appends no further admin |
| `Db.SeedUsersKeepsUnique` | services/api.ts:45-50 | seeding the admin keeps lowercased contacts pairwise distinct |
| `Db.PatchCatalogShape` | services/api.ts:57-81 | the patch keeps the length, the order and every field except the image; a changed image belongs to '519' or '102' and is the catalog's |
| `Db.PatchCatalogIdempotent` | services/api.ts:59-75 | patching twice is patching once |
| `Db.PatchCatalogFixesCatalog` | services/api.ts:52-81 | with distinct ids, the seed catalog is a fixed point of the patch |
| `Db.SeedProductsIdempotent` | services/api.ts:52-81 | seeding the products twice gives what seeding once gives (an empty list becomes the catalog; otherwise the patch) |
| `Db.SeedProductsSyncsImages` | services/api.ts:57-81 | after seeding, every product '519' or '102' has the seed catalog's image for its id |
| `Db.SeedProductsKeepsUniqueIds` | services/api.ts:52-81 | seeding keeps product ids distinct |
| `Db.SignupKeepsUnique` | services/api.ts:107-128 | a signup that passed the existence check keeps lowercased contacts pairwise distinct |
| `Db.SignupRejectsVariant` | services/api.ts:109-114 | after a signup, any contact with the same normal form is found taken |
| `Db.SignupThenLogin` | services/api.ts:94-128 | after a signup, a login with the same password and any contact of the same normal form finds exactly the new user |
| `Db.SignupRejectsRespelling` | services/api.ts:107-114 | after a signup, the contact respelt in another case, with any spaces around it, is found taken |
| `Db.SignupThenLoginRespelled` | services/api.ts:94-128 | after a signup, a login with the same password and the contact respelt in another case, with any spaces around it, finds exactly the new user |
| `Db.SignupThenWrongPassword` | services/api.ts:94-128 | after a signup, a login with the new contact and another password finds no user |
| `Db.LoginMatchIsOnlyOne` | services/api.ts:94-104 | with distinct contacts, the user a login finds is the only one with that contact |
| `Db.WithoutUserKeepsUnique` | services/api.ts:135-141 | removing users by id keeps lowercased contacts distinct |
| `Db.WithoutAbsentUser` | services/api.ts:138 | removing an id that no user has changes nothing |
| `Db.WithoutProductKeepsUniqueIds` | services/api.ts:171-176 | removing products by id keeps ids distinct |
| `Db.WithoutAbsentProduct` | services/api.ts:171-176 | deleting an id that no product has changes nothing |
| `Db.ReplaceKeepsUniqueIds` | services/api.ts:160-169 | replacing an entry by one with the same id keeps ids distinct |
| `Db.AppendKeepsUniqueIds` | services/api.ts:151-158 | appending a product whose id is new keeps ids distinct |
| `Db.OrdersOfPrepend` | services/api.ts:186-199 | a user's orders after a new order goes on top: the new one first if it is theirs, then their older orders in stored order |
| `Api.Store.constructor` | services/api.ts:15-22 | the store starts over whatever storage holds; the admin record is built once, at load time |
| `Api.Store.InitializeDatabase` | services/api.ts:43-82 | users become the seeded users and products the seeded products; distinct contacts stay distinct; other keys are untouched |
| `Api.Store.Me` | services/api.ts:89-92 | returns the stored session, or none |
| `Api.Store.Login` | services/api.ts:94-105 | succeeds exactly when some user has the normalised contact and the password; the session is then that first user; otherwise "Invalid credentials" and the session is unchanged |
| `Api.Store.Signup` | services/api.ts:107-128 | "User already exists" exactly when a stored contact matches case-insensitively, with nothing changed; otherwise appends one user (role 'user', normalised contact) and makes it the session; distinct contacts stay distinct |
| `Api.Store.Logout` | services/api.ts:130-133 | the session is removed |
| `Api.Store.DeleteAccount` | services/api.ts:135-141 | every user with the id is removed, with no admin guard; the session is removed unconditionally |
| `Api.Store.GetAllProducts` | services/api.ts:146-149 | an absent products key reads as the seed catalog |
| `Api.Store.CreateProduct` | services/api.ts:151-158 | returns the product under the clock's id, appended at the end of the stored list (an absent key reads as empty) |
| `Api.Store.UpdateProduct` | services/api.ts:160-169 | "Product not found" exactly when no entry has the id, with nothing changed; otherwise only the first match is replaced and the length is kept |
| `Api.Store.DeleteProduct` | services/api.ts:171-176 | every entry with the id is removed, in order; an absent key is written back empty |
| `Api.Store.GetAllOrders` | services/api.ts:181-184 | an absent orders key reads as empty |
| `Api.Store.GetUserOrders` | services/api.ts:186-190 | exactly the stored orders with that user id, in stored order |
| `Api.Store.CreateOrder` | services/api.ts:192-199 | the stored copy gets the clock's id and time; items, total, status and payment method are kept; it goes before every older order |
| `Api.Store.GetAllUsers` | services/api.ts:204-207 | an absent users key reads as empty |
| `Api.Store.DeleteUser` | services/api.ts:209-216 | "Cannot delete admin" exactly when the first user with the id is an admin, with nothing changed; otherwise every user with the id is removed |
| `Api.Store.GetBankDetails` | services/api.ts:221-231 | an absent bank key reads as all-empty fields, not linked |
| `Api.Store.SaveBankDetails` | services/api.ts:233-237 | the record is overwritten wholesale and returned |
| `Api.Store.ResetDatabase` | services/api.ts:239-248 | afterwards users are the admin alone, products the seed catalog, and there are no orders, session or bank details |
| `ProductContext.ReplaceFirstIsReplaceAll` | context/ProductContext.tsx:47 | with distinct ids, replacing the first match (as the store does) equals replacing every match (as the provider does) |
| `ProductContext.ReplaceById` | context/ProductContext.tsx:47 | the provider's `map` that replaces every entry with the result's id; `ProductContext.ReplaceFirstIsReplaceAll` relates it to the store's update |
| `ProductContext.ProductProvider.constructor` | context/ProductContext.tsx:16-17 | the provider starts with an empty list and loading on |
| `ProductContext.ProductProvider.FetchProducts` | context/ProductContext.tsx:19-29 | the local list becomes exactly what `getAll` returns; loading ends |
| `ProductContext.ProductProvider.AddProduct` | context/ProductContext.tsx:35-42 | the store's returned product is appended locally; equal lists stay equal, and coherence holds when the new id is fresh |
| `ProductContext.ProductProvider.UpdateProduct` | context/ProductContext.tsx:44-51 | on "Product not found" the local list and the store are unchanged; otherwise every local entry with the id is replaced; coherence is preserved |
| `ProductContext.ProductProvider.DeleteProduct` | context/ProductContext.tsx:53-60 | every local entry with the id is removed, in order, matching the store; coherence is preserved |
| `AuthContext.AuthProvider.constructor` | context/AuthContext.tsx:17-18 | the provider starts signed out with loading on |
| `AuthContext.AuthProvider.InitAuth` | context/AuthContext.tsx:20-36 | the store is seeded first; then the user is the stored session; loading ends |
| `AuthContext.AuthProvider.Login` | context/AuthContext.tsx:38-50 | true exactly when the credentials match a stored user, and then the user is that user and equals the session; false leaves the user and session unchanged; loading ends |
| `AuthContext.AuthProvider.Signup` | context/AuthContext.tsx:52-69 | false exactly when the contact is taken, with the user unchanged; otherwise true, with the new user signed in and equal to the session; loading ends |
| `AuthContext.AuthProvider.Logout` | context/AuthContext.tsx:71-74 | afterwards the user is null and the session removed, however often it runs |
| `AuthContext.AuthProvider.DeleteProfile` | context/AuthContext.tsx:76-84 | nothing when signed out; otherwise that id is removed from the users, the session removed and the user cleared |
| `Scenarios.SignupTwice` | services/api.ts:107-128 | on a store with no users, a signup succeeds, and a second signup with the contact in another case and with spaces around it fails with "User already exists", leaving the one user |
| `Scenarios.LoginAfterSignup` | services/api.ts:94-105 | after a signup on a store with no users, a login with the contact in another case and with spaces around it finds the new user; a wrong password fails with "Invalid credentials" |
| `Scenarios.ResetThenRead` | services/api.ts:221-248 | after a reset, the reads give the seed catalog, the admin alone, no orders and the default bank details |
| `Scenarios.OrdersNewestFirst` | services/api.ts:192-199 | orders A, B, C placed in turn read back as C, B, A |
| `Scenarios.CreateThenUpdate` | services/api.ts:151-169 | with a fresh id, updating a just-created product returns it, and the catalog holds it once, at the end |
| `Scenarios.AddOverAbsentKey` | services/api.ts:146-158 | with the products key absent, after one add the provider holds catalog plus the new product while the store holds only the new product |
| `Scenarios.SeedTwice` | services/api.ts:43-82 | running the seeding twice leaves users and products as one run does |
| `Scenarios.AdminProtected` | services/api.ts:209-216 | after seeding over an absent users key, deleting 'admin-1' fails with "Cannot delete admin" and the admin remains the only user |

## Left out

- Latency: `delay` (`setTimeout`, `Math.random`) is a no-op, and each awaited call is one atomic step. Interleaving of async calls, several tabs and lost writes are not modelled.
- Storage and serialisation: `localStorage`, `JSON.stringify` and `JSON.parse` are replaced by typed fields. A key that is absent, empty or unparseable is `None`. Write failures (a full storage quota) are not modelled, so `create`, `delete`, `saveBankDetails` and the providers' fetch, add and delete always succeed.
- Clock: `Date.now()` is the parameter `now`. The source reads the clock twice for the id and the timestamp of one record; the model reads it once.
- Text.Lower: lowers only the ASCII letters A-Z. JavaScript's `toLowerCase` also maps other Unicode letters, and for a few it changes the length.
- Numbers: prices, ratings and order totals are JavaScript floating-point numbers; here they are opaque integers. No arithmetic is done on them in this layer.
- Seed catalog: the contents of `MOCK_PRODUCTS` (constants.ts) are not transcribed. The store takes the catalog as a constructor argument. It requires only distinct ids and entries '102' and '519'.
- Api.Store.SaveBankDetails: the source accepts any value; the model accepts only a bank-details record.
- React machinery: `createContext`, `useState`, `useEffect`, the mount-time fetch and seeding order between the two providers, and the `useAuth`/`useProducts` guards are not modelled. Console logging in the `catch` blocks is dropped.
- UI components (`App.tsx`, `components/*.tsx`) and the generative-text service (`services/geminiService.ts`) are not part of this model.
