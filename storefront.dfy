/**
 * The storefront's state as one object: the catalog with its derived
 * category list and filtered view, the filter criteria, the cart, the
 * notifications and the header's scroll state. Each method is one of the
 * event handlers and replaces the fields that handler sets.
 */
module Storefront {
  import opened Catalog
  import opened Filters
  import opened Cart
  import opened Notifications

  /** Scrolling down past this offset hides the header. */
  const HEADER_HEIGHT_THRESHOLD: int := 150

  const REMOVED_MESSAGE: string := "Producto eliminado del carrito"
  const CLEARED_MESSAGE: string := "Carrito vaciado"

  function AddedMessage(name: string): string {
    name + " agregado al carrito"
  }

  /** What reading the saved cart yields: no entry, text that does not parse, or parsed line items. */
  datatype StoredCart = NoEntry | Malformed | Parsed(items: seq<CartItem>)

  class Storefront {
    var allProducts: seq<Product>
    var filteredProducts: seq<Product>
    var categories: seq<string>
    var cart: seq<CartItem>
    var filters: FiltersState
    var notifications: seq<Notification>
    var isHeaderVisible: bool
    var lastScrollY: int

    /** The derived views agree with the catalog and the criteria they are computed from. */
    ghost predicate Valid()
      reads this
    {
      filteredProducts == Filtered(allProducts, filters) && categories == Categories(allProducts)
    }

    constructor ()
      ensures Valid()
      ensures allProducts == [] && filteredProducts == [] && categories == []
      ensures cart == [] && filters == INITIAL_FILTERS && notifications == []
      ensures isHeaderVisible && lastScrollY == 0
    {
      allProducts, filteredProducts, categories := [], [], [];
      cart, filters, notifications := [], INITIAL_FILTERS, [];
      isHeaderVisible, lastScrollY := true, 0;
    }

    /** The sum of the quantities in the cart. */
    function TotalCartItems(): int
      reads this
    {
      Total(cart)
    }

    /** How many of the shown products are on offer. */
    function ProductsOnOfferCount(): nat
      reads this
    {
      OnOfferCount(filteredProducts)
    }

    /** Recomputes the filtered view after the catalog or the criteria changed. */
    method Refilter()
      modifies this`filteredProducts
      ensures filteredProducts == Filtered(allProducts, filters)
    {
      filteredProducts := FilterProducts(allProducts, filters);
    }

    /** Installs a processed catalog together with the categories and the filtered view it implies. */
    method SetCatalog(products: seq<Product>)
      modifies this`allProducts, this`categories, this`filteredProducts
      ensures Valid()
      ensures allProducts == products
    {
      allProducts := products;
      categories := Categories(products);
      Refilter();
    }

    /** Start-up ingestion of the raw catalog. */
    method LoadCatalog(raw: seq<RawProduct>)
      modifies this`allProducts, this`categories, this`filteredProducts
      ensures Valid()
      ensures allProducts == IngestAll(raw)
    {
      var processedProducts := IngestAll(raw);
      SetCatalog(processedProducts);
    }

    /** `handleSetFilters`: merge a partial update into the criteria. */
    method SetFilters(patch: FiltersPatch)
      requires Valid()
      modifies this`filters, this`filteredProducts
      ensures Valid()
      ensures filters == Merge(old(filters), patch)
    {
      filters := Merge(filters, patch);
      Refilter();
    }

    /** `handlePriceRangeChange`: replace the price range only. */
    method SetPriceRange(priceRange: PriceRange)
      requires Valid()
      modifies this`filters, this`filteredProducts
      ensures Valid()
      ensures filters == old(filters).(priceRange := priceRange)
    {
      filters := filters.(priceRange := priceRange);
      Refilter();
    }

    /** `clearFilters`: back to the initial criteria. */
    method ClearFilters()
      requires Valid()
      modifies this`filters, this`filteredProducts
      ensures Valid()
      ensures filters == INITIAL_FILTERS
      ensures PricedWithinSlider(allProducts) ==> filteredProducts == allProducts
    {
      filters := INITIAL_FILTERS;
      Refilter();
      if PricedWithinSlider(allProducts) {
        InitialFiltersShowAll(allProducts);
      }
    }

    /** The mobile filter dialog's "apply": replace the criteria wholesale. */
    method ApplyFilters(applied: FiltersState)
      requires Valid()
      modifies this`filters, this`filteredProducts
      ensures Valid()
      ensures filters == applied
    {
      filters := applied;
      Refilter();
    }

    /** Start-up rehydration of the saved cart: only parsed contents replace the cart. */
    method RestoreCart(stored: StoredCart)
      modifies this`cart
      ensures cart == if stored.Parsed? then stored.items else old(cart)
    {
      if stored.Parsed? {
        cart := stored.items;
      }
    }

    /** `addNotification`, with the clock reading `now` as the id. */
    method AddNotification(message: string, kind: Kind, now: int)
      modifies this`notifications
      ensures notifications == old(notifications) + [Notification(now, message, kind)]
    {
      notifications := notifications + [Notification(now, message, kind)];
    }

    /** The auto-dismiss timer or the close button for the notification `id`. */
    method DismissNotification(id: int)
      modifies this`notifications
      ensures notifications == Dismiss(old(notifications), id)
      ensures forall n :: n in notifications <==> n in old(notifications) && n.id != id
    {
      DismissRemovesOnlyId(notifications, id);
      notifications := Dismiss(notifications, id);
    }

    /** `removeFromCart`: drop the id and always announce the removal. */
    method RemoveFromCart(id: string, now: int)
      modifies this`cart, this`notifications
      ensures cart == RemoveItem(old(cart), id)
      ensures forall item :: item in cart <==> item in old(cart) && item.product.id != id
      ensures UniqueIds(old(cart)) ==> UniqueIds(cart)
      ensures notifications == old(notifications) + [Notification(now, REMOVED_MESSAGE, Error)]
    {
      RemoveDropsOnlyId(cart, id);
      if UniqueIds(cart) { RemoveKeepsUnique(cart, id); }
      cart := RemoveItem(cart, id);
      AddNotification(REMOVED_MESSAGE, Error, now);
    }

    /** `updateCartQuantity`: a quantity of zero or less is a removal, anything else is set. */
    method UpdateCartQuantity(id: string, quantity: int, now: int)
      modifies this`cart, this`notifications
      ensures cart == UpdateQuantity(old(cart), id, quantity)
      ensures UniqueIds(old(cart)) ==> UniqueIds(cart)
      ensures notifications == if quantity <= 0
        then old(notifications) + [Notification(now, REMOVED_MESSAGE, Error)]
        else old(notifications)
    {
      if quantity <= 0 {
        RemoveFromCart(id, now);
        return;
      }
      if UniqueIds(cart) { UpdateKeepsUnique(cart, id, quantity); }
      cart := SetQuantity(cart, id, quantity);
    }

    /** `addToCart`: find-or-append, then announce the product. */
    method AddToCart(product: Product, now: int)
      modifies this`cart, this`notifications
      ensures cart == AddItem(old(cart), product)
      ensures UniqueIds(old(cart)) ==> UniqueIds(cart) && TotalCartItems() == old(TotalCartItems()) + 1
      ensures notifications == old(notifications) + [Notification(now, AddedMessage(product.name), Success)]
    {
      AddKeepsIds(cart, product);
      if UniqueIds(cart) { AddTotal(cart, product); }
      cart := AddItem(cart, product);
      AddNotification(AddedMessage(product.name), Success, now);
    }

    /** `clearCart`: empty the cart and announce it. */
    method ClearCart(now: int)
      modifies this`cart, this`notifications
      ensures cart == [] && TotalCartItems() == 0
      ensures notifications == old(notifications) + [Notification(now, CLEARED_MESSAGE, Success)]
    {
      cart := [];
      AddNotification(CLEARED_MESSAGE, Success, now);
    }

    /** The scroll listener: hide the header exactly when scrolling down past the threshold. */
    method OnScroll(currentScrollY: int)
      modifies this`isHeaderVisible, this`lastScrollY
      ensures !isHeaderVisible <==> currentScrollY > old(lastScrollY) && currentScrollY > HEADER_HEIGHT_THRESHOLD
      ensures lastScrollY == currentScrollY
    {
      if currentScrollY > lastScrollY && currentScrollY > HEADER_HEIGHT_THRESHOLD {
        isHeaderVisible := false;
      } else {
        isHeaderVisible := true;
      }
      lastScrollY := currentScrollY;
    }
  }
}
