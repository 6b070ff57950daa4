/** The product provider of context/ProductContext.tsx: a local copy of the product
    list and a loading flag, each updater a store call followed by the matching list
    transform; a call that fails leaves the local list alone. */
module ProductContext {
  import opened Types
  import opened Collections
  import opened Text
  import opened Db
  import opened Api

  /** `prev.map(p => p.id === result.id ? result : p)`: every entry with the
      result's id is replaced. */
  function ReplaceById(ps: seq<Product>, x: Product): seq<Product>
  {
    Map(ps, (p: Product) => if p.id == x.id then x else p)
  }

  /** With distinct ids, the store's replacement of the first match and the local
      replacement of every match give the same list. */
  lemma ReplaceFirstIsReplaceAll(ps: seq<Product>, x: Product)
    requires UniqueIds(ps)
    requires 0 <= ProductIndex(ps, x.id)
    ensures ps[ProductIndex(ps, x.id) := x] == ReplaceById(ps, x)
  {
    var k := ProductIndex(ps, x.id);
    var local := ReplaceById(ps, x);
    forall i | 0 <= i < |ps| ensures ps[k := x][i] == local[i] {
      if i != k {
        assert ps[i].id != ps[k].id;
      }
    }
  }

  class ProductProvider {
    const api: Store
    var products: seq<Product>
    var isLoading: bool

    /** The local list is the stored one, and its ids are distinct. */
    ghost predicate Coherent()
      reads this, api
    {
      api.products == Some(products) && UniqueIds(products)
    }

    /** The provider mounts with an empty list, loading. */
    constructor (api: Store)
      ensures this.api == api && products == [] && isLoading
    {
      this.api := api;
      products := [];
      isLoading := true;
    }

    /** `fetchProducts`: the local list becomes what `products.getAll` returns, and
        loading ends. */
    method FetchProducts()
      modifies this`products, this`isLoading
      ensures products == Read(api.products, api.catalog)
      ensures !isLoading
    {
      isLoading := true;
      var data := api.GetAllProducts();
      products := data;
      isLoading := false;
    }

    /** `addProduct`: the product the store returns is appended locally. */
    method AddProduct(product: Product, now: nat)
      modifies this`products, api`products
      ensures products == old(products) + [product.(id := DecimalString(now))]
      ensures api.products == Some(Read(old(api.products), []) + [product.(id := DecimalString(now))])
      ensures old(api.products) == Some(old(products)) ==> api.products == Some(products)
      ensures old(Coherent()) && (forall i :: 0 <= i < |old(products)| ==> old(products)[i].id != DecimalString(now))
        ==> Coherent()
    {
      var newProduct := api.CreateProduct(product, now);
      if old(Coherent()) && forall i :: 0 <= i < |products| ==> products[i].id != newProduct.id {
        AppendKeepsUniqueIds(products, newProduct);
      }
      products := products + [newProduct];
    }

    /** `updateProduct`: on success every local entry with the id is replaced; when
        the store reports no such product the local list is unchanged. */
    method UpdateProduct(updated: Product)
      modifies this`products, api`products
      ensures var stored := Read(old(api.products), []);
        && ((forall i :: 0 <= i < |stored| ==> stored[i].id != updated.id) ==>
              products == old(products) && api.products == old(api.products))
        && ((exists i :: 0 <= i < |stored| && stored[i].id == updated.id) ==>
              products == ReplaceById(old(products), updated)
              && api.products == Some(stored[ProductIndex(stored, updated.id) := updated]))
      ensures old(Coherent()) ==> Coherent()
    {
      var result := api.UpdateProduct(updated);
      if result.Err? {
        return;
      }
      ghost var stored := Read(old(api.products), []);
      if old(Coherent()) {
        ReplaceFirstIsReplaceAll(stored, updated);
        ReplaceKeepsUniqueIds(stored, ProductIndex(stored, updated.id), updated);
      }
      products := ReplaceById(products, result.value);
    }

    /** `deleteProduct`: every local entry with the id is removed. */
    method DeleteProduct(id: string)
      modifies this`products, api`products
      ensures products == WithoutProduct(old(products), id)
      ensures api.products == Some(WithoutProduct(Read(old(api.products), []), id))
      ensures old(Coherent()) ==> Coherent()
    {
      api.DeleteProduct(id);
      if old(Coherent()) {
        WithoutProductKeepsUniqueIds(products, id);
      }
      products := WithoutProduct(products, id);
    }
  }
}
