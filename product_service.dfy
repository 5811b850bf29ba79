/**
 * The product store: the full product list fetched from the backend, the view the list
 * page shows (the full list filtered by a search term) and the product selected for an
 * edit or a delete. The backend is an oracle: each write call is told whether the server
 * accepted it, and each re-fetch is told what the server answered.
 */
module ProductService {

  import opened Nullable
  import opened ProductModel

  /** The search predicate: the lower-cased name contains the lower-cased term. */
  predicate NameMatches(p: Product, term: string): (r: bool)
    ensures r <==> exists i :: OccursAt(Lower(p.name), Lower(term), i)
    ensures term == "" ==> r
  {
    IncludesEmpty(Lower(p.name));
    Includes(Lower(p.name), Lower(term))
  }

  /** `products.filter(...)` with the search predicate: the matching products, in list order. */
  function Search(products: seq<Product>, term: string): (r: seq<Product>)
    ensures |r| <= |products|
    ensures forall p :: p in r <==> p in products && NameMatches(p, term)
  {
    if products == [] then []
    else (if NameMatches(products[0], term) then [products[0]] else []) + Search(products[1..], term)
  }

  /** Filtering distributes over concatenation, so the relative order of products is kept. */
  lemma {:induction false} SearchAppend(a: seq<Product>, b: seq<Product>, term: string)
    ensures Search(a + b, term) == Search(a, term) + Search(b, term)
  {
    if a == [] {
      assert a + b == b;
    } else {
      assert (a + b)[0] == a[0];
      assert (a + b)[1..] == a[1..] + b;
      SearchAppend(a[1..], b, term);
    }
  }

  /** A one-product list is kept exactly when its product matches. */
  lemma SearchSingleton(p: Product, term: string)
    ensures Search([p], term) == if NameMatches(p, term) then [p] else []
  {
    assert [p][1..] == [];
  }

  /** When every product matches, the view is the whole list, in its order. */
  lemma {:induction false} SearchAllMatch(products: seq<Product>, term: string)
    requires forall i :: 0 <= i < |products| ==> NameMatches(products[i], term)
    ensures Search(products, term) == products
  {
    if products != [] {
      SearchAllMatch(products[1..], term);
      assert [products[0]] + products[1..] == products;
    }
  }

  /** An empty search term yields the full list. */
  lemma SearchEmptyTerm(products: seq<Product>)
    ensures Search(products, "") == products
  {
    forall i | 0 <= i < |products|
      ensures NameMatches(products[i], "")
    {
      IncludesEmpty(Lower(products[i].name));
    }
    SearchAllMatch(products, "");
  }

  /** A term that matches no name yields an empty view. */
  lemma SearchNoMatch(products: seq<Product>, term: string)
    requires forall i :: 0 <= i < |products| ==> !NameMatches(products[i], term)
    ensures Search(products, term) == []
  {
  }

  /** Searching the view again with the same term changes nothing. */
  lemma SearchIdempotent(products: seq<Product>, term: string)
    ensures Search(Search(products, term), term) == Search(products, term)
  {
    var r := Search(products, term);
    assert forall i :: 0 <= i < |r| ==> r[i] in r;
    SearchAllMatch(r, term);
  }

  /** The term's case does not matter: a lower-cased term gives the same view. */
  lemma {:induction false} SearchLowerTerm(products: seq<Product>, term: string)
    ensures Search(products, Lower(term)) == Search(products, term)
  {
    LowerIdempotent(term);
    if products != [] {
      SearchLowerTerm(products[1..], term);
    }
  }

  /** The HTTP requests the store issues. */
  datatype Request =
    | GetAll                          // GET  /bp/products
    | Post(body: Product)             // POST /bp/products
    | Put(id: string, body: Product)  // PUT  /bp/products/{id}
    | Delete(id: string)              // DELETE /bp/products/{id}

  /** The server's answer to a write: a 2xx status or an error status. */
  datatype WriteOutcome = Accepted | Rejected

  /** The server's answer to the list request. */
  datatype FetchOutcome = Fetched(data: seq<Product>) | FetchFailed

  class ProductStore {
    /** `productsSubject`: the full list, as last fetched. */
    var products: seq<Product>
    /** `filterProductsSubject`: the list the list page shows. */
    var filtered: seq<Product>
    /** `selectedProductSubject`: the product an edit or delete acts on. */
    var selected: Option<Product>
    /** Every request sent to the backend, oldest first. */
    var requests: seq<Request>
    /** The term the view was last computed with; a re-fetch resets it to "". */
    ghost var viewTerm: string

    /** The view is always the full list filtered by the current term. */
    ghost predicate Valid()
      reads this
    {
      filtered == Search(products, viewTerm)
    }

    /** Construction starts from empty lists and no selection and sends one list request. */
    constructor (initial: FetchOutcome)
      ensures Valid()
      ensures selected == None
      ensures requests == [GetAll]
      ensures initial.Fetched? ==> products == initial.data && filtered == initial.data
      ensures initial.FetchFailed? ==> products == [] && filtered == []
    {
      products, filtered, selected, requests := [], [], None, [GetAll];
      viewTerm := "";
      if initial.Fetched? {
        products, filtered := initial.data, initial.data;
      }
      new;
      SearchEmptyTerm(products);
    }

    method SelectProduct(product: Option<Product>)
      requires Valid()
      modifies this`selected
      ensures Valid()
      ensures selected == product
    {
      selected := product;
    }

    /** Recomputes the view from the full list, never from the previous view. */
    method SearchProduct(term: string)
      requires Valid()
      modifies this`filtered, this`viewTerm
      ensures Valid()
      ensures filtered == Search(products, term)
    {
      filtered := Search(products, term);
      viewTerm := term;
    }

    /** `getProducts().subscribe(...)`: one list request; an answer replaces both lists. */
    method Refetch(fetch: FetchOutcome)
      requires Valid()
      modifies this`products, this`filtered, this`requests, this`viewTerm
      ensures Valid()
      ensures requests == old(requests) + [GetAll]
      ensures fetch.Fetched? ==> products == fetch.data && filtered == fetch.data
      ensures fetch.FetchFailed? ==> products == old(products) && filtered == old(filtered)
    {
      requests := requests + [GetAll];
      if fetch.Fetched? {
        products, filtered := fetch.data, fetch.data;
        viewTerm := "";
        SearchEmptyTerm(products);
      }
    }

    /** One write request; only an accepted write is followed by one re-fetch. */
    method Send(request: Request, write: WriteOutcome, fetch: FetchOutcome)
      requires Valid()
      modifies this`products, this`filtered, this`requests, this`viewTerm
      ensures Valid()
      ensures requests == old(requests) + [request] + (if write.Accepted? then [GetAll] else [])
      ensures write.Accepted? && fetch.Fetched? ==> products == fetch.data && filtered == fetch.data
      ensures write.Rejected? || fetch.FetchFailed? ==>
        products == old(products) && filtered == old(filtered)
    {
      requests := requests + [request];
      if write.Accepted? {
        Refetch(fetch);
      }
    }

    method AddProduct(product: Product, write: WriteOutcome, fetch: FetchOutcome)
      requires Valid()
      modifies this`products, this`filtered, this`requests, this`viewTerm
      ensures Valid()
      ensures requests == old(requests) + [Post(product)] + (if write.Accepted? then [GetAll] else [])
      ensures write.Accepted? && fetch.Fetched? ==> products == fetch.data && filtered == fetch.data
      ensures write.Rejected? || fetch.FetchFailed? ==>
        products == old(products) && filtered == old(filtered)
    {
      Send(Post(product), write, fetch);
    }

    /** The request targets the id of the product passed in. */
    method UpdateProduct(product: Product, write: WriteOutcome, fetch: FetchOutcome)
      requires Valid()
      modifies this`products, this`filtered, this`requests, this`viewTerm
      ensures Valid()
      ensures requests == old(requests) + [Put(product.id, product)]
                          + (if write.Accepted? then [GetAll] else [])
      ensures write.Accepted? && fetch.Fetched? ==> products == fetch.data && filtered == fetch.data
      ensures write.Rejected? || fetch.FetchFailed? ==>
        products == old(products) && filtered == old(filtered)
    {
      Send(Put(product.id, product), write, fetch);
    }

    /**
     * Deletes the selected product; `sent` is None where the code returns `null`
     * because nothing is selected, and then no request is made.
     */
    method DeleteProduct(write: WriteOutcome, fetch: FetchOutcome) returns (sent: Option<Request>)
      requires Valid()
      modifies this`products, this`filtered, this`requests, this`viewTerm
      ensures Valid()
      ensures selected.None? ==> sent == None && requests == old(requests)
      ensures selected.Some? ==> sent == Some(Delete(selected.value.id))
      ensures selected.Some? ==>
        requests == old(requests) + [Delete(selected.value.id)]
                    + (if write.Accepted? then [GetAll] else [])
      ensures selected.Some? && write.Accepted? && fetch.Fetched? ==>
        products == fetch.data && filtered == fetch.data
      ensures selected.None? || write.Rejected? || fetch.FetchFailed? ==>
        products == old(products) && filtered == old(filtered)
    {
      if selected.None? {
        return None;
      }
      var request := Delete(selected.value.id);
      Send(request, write, fetch);
      sent := Some(request);
    }
  }
}
