/**
 * The create/update page. It reads the router's URL once to decide whether it edits the
 * selected product or registers a new one, mirrors the service's selection, and on submit or
 * cancel hands the product to the service, clears the selection and returns to the list.
 * The service and the router are stand-ins that record the calls made to them.
 */
module ProductPage {

  import opened Nullable
  import opened ProductModel

  /** The commands passed to `router.navigate`. */
  type Route = seq<string>

  const ListRoute: Route := ["/products"]
  const UpdateUrl := "/products/update"
  const RegisterTitle := "Formulario de Registro"
  const UpdateTitle := "Actualizar Producto"

  /** The product service calls the page makes. */
  datatype ServiceCall =
    | SelectCall(selection: Option<Product>)
    | UpdateCall(product: Product)
    | AddCall(product: Product)

  /** The product service as the page sees it: its selection and the calls made to it. */
  class ServiceProbe {
    var selected: Option<Product>
    var calls: seq<ServiceCall>

    constructor (selected: Option<Product>)
      ensures this.selected == selected && calls == []
    {
      this.selected := selected;
      calls := [];
    }

    method SelectProduct(product: Option<Product>)
      modifies this
      ensures selected == product && calls == old(calls) + [SelectCall(product)]
    {
      selected := product;
      calls := calls + [SelectCall(product)];
    }

    method UpdateProduct(product: Product)
      modifies this`calls
      ensures calls == old(calls) + [UpdateCall(product)]
    {
      calls := calls + [UpdateCall(product)];
    }

    method AddProduct(product: Product)
      modifies this`calls
      ensures calls == old(calls) + [AddCall(product)]
    {
      calls := calls + [AddCall(product)];
    }
  }

  /** The router: the current URL and every navigation requested. */
  class RouterProbe {
    const url: string
    var navigations: seq<Route>

    constructor (url: string)
      ensures this.url == url && navigations == []
    {
      this.url := url;
      navigations := [];
    }

    method Navigate(route: Route)
      modifies this`navigations
      ensures navigations == old(navigations) + [route]
    {
      navigations := navigations + [route];
    }
  }

  class ProductComponent {
    var title: string
    var edit: bool
    var selectedProduct: Option<Product>
    const router: RouterProbe
    const service: ServiceProbe

    /** The subscription to `selectedProduct$` keeps the page's copy equal to the service's. */
    ghost predicate Valid()
      reads this, service
    {
      selectedProduct == service.selected
    }

    /** Subscribing delivers the current selection at once; edit mode comes from the URL. */
    constructor (router: RouterProbe, service: ServiceProbe)
      ensures Valid()
      ensures this.router == router && this.service == service
      ensures selectedProduct == service.selected
      ensures edit <==> router.url == UpdateUrl
      ensures title == RegisterTitle
    {
      this.router := router;
      this.service := service;
      title := RegisterTitle;
      selectedProduct := service.selected;
      edit := router.url == UpdateUrl;
    }

    /** In edit mode without a selection, go back to the list; in edit mode retitle the page. */
    method NgOnInit()
      requires Valid()
      modifies this`title, router`navigations
      ensures Valid()
      ensures router.navigations
              == old(router.navigations) + (if edit && selectedProduct.None? then [ListRoute] else [])
      ensures edit ==> title == UpdateTitle
      ensures !edit ==> title == old(title)
    {
      if selectedProduct.None? && edit {
        router.Navigate(ListRoute);
      }
      if edit {
        title := UpdateTitle;
      }
    }

    /** Cancel: clear the selection and go back to the list. */
    method ClearSelectProduct()
      requires Valid()
      modifies this`selectedProduct, service, router`navigations
      ensures Valid()
      ensures service.selected == None
      ensures service.calls == old(service.calls) + [SelectCall(None)]
      ensures router.navigations == old(router.navigations) + [ListRoute]
    {
      service.SelectProduct(None);
      selectedProduct := service.selected;
      router.Navigate(ListRoute);
    }

    /** Submit: exactly one of update (edit mode) or add, then the same as a cancel. */
    method OnSubmitForm(product: Product)
      requires Valid()
      modifies this`selectedProduct, service, router`navigations
      ensures Valid()
      ensures service.selected == None
      ensures service.calls == old(service.calls)
              + [if edit then UpdateCall(product) else AddCall(product), SelectCall(None)]
      ensures router.navigations == old(router.navigations) + [ListRoute]
    {
      if edit {
        service.UpdateProduct(product);
      } else {
        service.AddProduct(product);
      }
      ClearSelectProduct();
    }
  }
}
