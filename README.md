# LiluTecno storefront state, modelled in Dafny

The LiluTecno storefront is a client-side shop. Its root component, `App.tsx`,
holds all the state that is not presentation: the product catalog, the category
list and filtered view derived from it, the filter criteria, the shopping cart,
the notification toasts and the scroll state that shows or hides the header.
This project models that state and the handlers that change it, and proves
what they promise.

- `wrappers.dfy` (`Wrappers`): `Option`, for JavaScript fields that may be `undefined`.
- `seqs.dfy` (`Seqs`): the stable filter behind every `Array.prototype.filter` in the
  component, the subsequence relation, and the first-occurrence de-duplication of a `Set`.
- `text.dfy` (`Text`): `trim`, `split(',')` and its inverse `join`, ASCII `toLowerCase`,
  `includes`, and the string ordering and sort used for the category list.
- `catalog.dfy` (`Catalog`): raw and processed products, image normalisation, the category list.
- `filters.dfy` (`Filters`): the filter criteria, the one-pass reference predicate, the
  staged `filterProducts`, and the "on offer" count.
- `cart.dfy` (`Cart`): line items and the pure cart operations (find-or-append, set
  quantity, remove, total), with their lemmas.
- `notifications.dfy` (`Notifications`): the toast list and dismissal by id.
- `storefront.dfy` (`Storefront`): the class `Storefront`, whose fields are the component's
  state and whose methods are its handlers. `Valid()` says the filtered view and the
  category list agree with the catalog and the criteria they are derived from.

Where the component calls something the model cannot see, that becomes a parameter:
`Date.now()` is the `now` argument of every handler that posts a notification, `window.scrollY`
is the argument of `OnScroll`, and the outcome of reading the saved cart is a `StoredCart` value.

Two behaviours of the code are easy to miss, and the model follows the code in both:
a product whose summary is present but empty is matched on its name only (`p.summary &&` treats
`""` as absent), and normalisation can leave a product with no images, in which case the cart
line's `image` is `None` (JavaScript's `undefined`).

## Model

| member | source | states |
|---|---|---|
| `Seqs.Filter` | App.tsx:91-101 | the stable `Array.prototype.filter` never lengthens its input; its membership, counts and order are stated by the three lemmas below |
| `Seqs.FilterMembers` | App.tsx:91-101 | an element is in `s.filter(keep)` exactly when it is in `s` and satisfies `keep` |
| `Seqs.FilterCounts` | App.tsx:91-101 | `filter` keeps each kept element exactly as often as it occurs and drops the rest, so it never duplicates |
| `Seqs.FilterIsSubsequence` | App.tsx:91-101 | the result of `filter` is a subsequence of its input: nothing is added or reordered |
| `Seqs.FilterConcat` | App.tsx:123 | filtering distributes over concatenation |
| `Seqs.FilterFuse` | App.tsx:87-101 | two filters in sequence equal one filter by the conjunction, which justifies the staged narrowing |
| `Seqs.FilterKeepsAll` | App.tsx:87-101 | a filter whose predicate holds on every element returns its input unchanged |
| `Seqs.FilterDropsAll` | App.tsx:100-102 | a filter whose predicate holds on no element returns the empty list |
| `Seqs.FilterIdempotent` | App.tsx:91-101 | filtering twice by the same predicate equals filtering once |
| `Seqs.Dedup` | App.tsx:36 | `[...new Set(xs)]` holds every element of `xs` and each exactly once |
| `Text.Trim` | App.tsx:33 | `trim` leaves no whitespace at either end and removes only whitespace runs at the two ends |
| `Text.TrimTrimmed` | App.tsx:33 | trimming a string with no whitespace at either end gives it back |
| `Text.Split` | App.tsx:33 | `split(',')` gives at least one piece, no piece contains the separator, and joining the pieces gives the input back |
| `Text.SplitJoin` | App.tsx:33 | splitting a join of separator-free pieces gives the pieces back, so split and join are inverse |
| `Text.Lower` | App.tsx:90-93 | `toLowerCase` keeps the length, leaves no capital letter, keeps every other character, and turns each capital into its small letter |
| `Text.LowerIdempotent` | App.tsx:90-93 | lower-casing an already lower-cased string changes nothing |
| `Text.Join` | App.tsx:33 | `join(',')`, the inverse of `split(',')`: stated by `Text.Split` and `Text.SplitJoin` |
| `Text.Contains` | App.tsx:92-93 | `includes`: characterised by `Text.ContainsIff` |
| `Text.ContainsIff` | App.tsx:92-93 | `includes` holds exactly when the term occurs at some position of the string |
| `Text.Sort` | App.tsx:36 | `sort()` returns a sorted permutation of its input |
| `Text.SortedPermutationUnique` | App.tsx:36 | two sorted arrangements of the same strings are equal, so any sorting algorithm gives the same list |
| `Catalog.NormalizeImages` | App.tsx:33 | every image is non-empty, trimmed and comma-free; an image is kept exactly when it is a non-empty trimmed piece, as many times as that piece occurs; the images stay in order |
| `Catalog.NormalizeEmpty` | App.tsx:33 | an empty image string gives a product with no images |
| `Catalog.NormalizeJoined` | App.tsx:33 | normalising well-formed images joined by commas gives exactly those images back |
| `Catalog.Ingest` | App.tsx:31-34 | for every record: the images are the record's normalised image string, each non-empty, trimmed and comma-free, and every other field is the record's own (the product written back equals the record with its images re-joined) |
| `Catalog.IngestExport` | App.tsx:31-34 | the other direction of the round trip: a product whose images are well formed, written back as a record, is ingested to itself |
| `Catalog.IngestAll` | App.tsx:31-34 | one processed product per raw record, the k-th being the ingestion of the k-th record, so catalog order is kept |
| `Catalog.IngestAllExport` | App.tsx:31-34 | the whole catalog, written back as records, is ingested to itself in the same order |
| `Catalog.Categories` | App.tsx:36 | the category list is sorted, holds every product's category exactly once, and nothing else |
| `Catalog.CategoriesDetermined` | App.tsx:36 | the category list is the only sorted list that holds each category exactly once |
| `Filters.Merge` | App.tsx:110-112 | `{ ...prev, ...patch }`: its meaning is stated by the four lemmas below |
| `Filters.MergeNoChanges` | App.tsx:110-112 | an empty patch keeps the criteria as they were |
| `Filters.MergeWholePatch` | App.tsx:110-112 | a patch carrying every field gives exactly those criteria, so setting every field is applying the whole criteria |
| `Filters.MergeThen` | App.tsx:110-112 | two patches in turn equal their combination, later fields winning, applied once |
| `Filters.MergeIdempotent` | App.tsx:110-112 | applying the same patch twice is applying it once |
| `Filters.SearchHit` | App.tsx:91-94 | the name, or the present non-empty summary, contains the lower-cased term: stated through `Filters.FilteredSpec` |
| `Filters.Matches` | App.tsx:89-102 | all four criteria together: the predicate that `Filters.FilteredSpec` and `Filters.FilterProducts` are stated by |
| `Filters.Filtered` | App.tsx:85-104 | the one-pass reference list: stated by `Filters.FilteredSpec` and matched by `Filters.FilterProducts` |
| `Filters.SearchTermCaseIgnored` | App.tsx:89-90 | the search is case-insensitive in the term: lower-casing the term first changes no product's outcome |
| `Filters.ProductCaseIgnored` | App.tsx:91-93 | the search is case-insensitive in the product: lower-casing its name and summary changes nothing |
| `Filters.FilteredSpec` | App.tsx:89-102 | a product is shown exactly when it matches the search term (if set), the category (if set), the price range and the stock rule (if set); counts are preserved and catalog order is kept |
| `Filters.FilterProducts` | App.tsx:85-104 | the staged narrowing by search, category, price and stock gives exactly the one-pass reference list |
| `Filters.FilteredIdempotent` | App.tsx:85-104 | filtering an already filtered list with the same criteria changes nothing |
| `Filters.InitialFiltersShowAll` | constants.ts:7-12 | with the initial criteria every product priced in `[0, 5000000]` is shown, in order |
| `Filters.StockOnlyNarrows` | App.tsx:100-102 | turning on "in stock only" removes exactly the products with no stock from the current list |
| `Filters.OutOfStockTelevisionHidden` | App.tsx:100-102 | a catalog holding only an out-of-stock TV shows nothing when "in stock only" is set |
| `Filters.OnOffer` | App.tsx:163 | a present, non-zero old price above the price: counted by `Filters.OnOfferCountSingle` |
| `Filters.OnOfferCount` | App.tsx:163 | the on-offer count is at most the number of shown products, and zero exactly when none is on offer |
| `Filters.OnOfferCountConcat` | App.tsx:163 | the count of two lists laid end to end is the sum of their counts |
| `Filters.OnOfferCountSingle` | App.tsx:163 | one product counts 1 exactly when it is on offer, else 0; with the previous row this fixes the count of every list |
| `Cart.FirstImage` | App.tsx:147 | `product.images[0]`, or `None` for a product without images: stated by `Cart.AddNew` |
| `Cart.NewItem` | App.tsx:147 | the new line item of quantity 1: stated by `Cart.AddNew` |
| `Cart.AddItem` | App.tsx:140-149 | find-or-append: stated by `Cart.AddExisting`, `Cart.AddNew`, `Cart.AddKeepsIds` and `Cart.AddTotal` |
| `Cart.RemoveItem` | App.tsx:123 | filter by id: stated by `Cart.RemoveDropsOnlyId`, `Cart.RemoveAt` and `Cart.RemoveKeepsUnique` |
| `Cart.UpdateQuantity` | App.tsx:127-136 | remove or set: stated by the `Cart.Update…` lemmas |
| `Cart.Total` | App.tsx:162 | the left reduce of the quantities: stated by `Cart.TotalAppend` and `Cart.TotalReplace` |
| `Cart.Find` | App.tsx:141 | `find` by id returns the first matching line item, or none exactly when no item has that id |
| `Cart.SetQuantity` | App.tsx:132-136 | setting a quantity keeps the length and the ids in order |
| `Cart.Increment` | App.tsx:143-145 | incrementing keeps the length and the ids in order |
| `Cart.AddExisting` | App.tsx:142-145 | adding a product already in the cart raises that one line's quantity by 1 and leaves every other line where it was |
| `Cart.AddNew` | App.tsx:146-148 | adding a new product appends one line with quantity 1 and the product's first image |
| `Cart.AddKeepsIds` | App.tsx:139-149 | adding keeps the id order, appends the id only when it is new, and keeps ids unique |
| `Cart.AddTotal` | App.tsx:162 | each add raises the total item count by exactly 1 |
| `Cart.AddTwiceToEmpty` | App.tsx:139-149 | adding one product twice to an empty cart gives one line of quantity 2 |
| `Cart.TotalAppend` | App.tsx:162 | the total of a concatenation is the sum of the totals |
| `Cart.TotalReplace` | App.tsx:162 | replacing one line changes the total by the difference of the quantities |
| `Cart.TotalExample` | App.tsx:162 | a cart with quantities 2 and 1 has total 3 |
| `Cart.RemoveDropsOnlyId` | App.tsx:122-123 | removal leaves no line with the id, keeps every other line as often as it occurred and in order, and changes nothing when the id is absent |
| `Cart.RemoveAt` | App.tsx:123 | in a cart with unique ids, removal deletes exactly the line at the id's index and lowers the total by its quantity |
| `Cart.RemoveKeepsUnique` | App.tsx:123 | removal keeps ids unique |
| `Cart.UpdateSetsQuantity` | App.tsx:132-136 | a positive quantity replaces the quantity of the one matching line and adjusts the total accordingly |
| `Cart.UpdateAbsentUnchanged` | App.tsx:132-136 | a positive update of an absent id leaves the cart as it is |
| `Cart.UpdateNonPositiveRemoves` | App.tsx:128-131 | a quantity of zero or less gives the same cart as removing the id |
| `Cart.UpdateKeepsUnique` | App.tsx:127-136 | updating keeps ids unique |
| `Cart.OperationsKeepPositive` | App.tsx:122-149 | add, update and remove keep every quantity positive |
| `Notifications.Dismiss` | App.tsx:81 | filter by id: stated by the four lemmas below |
| `Notifications.DismissRemovesOnlyId` | App.tsx:236 | dismissal removes every toast with the id and only those, keeping each other toast as often as it occurred and in order, and nothing when the id is absent |
| `Notifications.DismissTwice` | App.tsx:81 | the timer firing after a manual close changes nothing |
| `Notifications.PushThenDismiss` | App.tsx:79-81 | the timer of a freshly posted toast with an unused id restores the list as it was before the post |
| `Notifications.DismissOtherKeepsPushed` | App.tsx:79-81 | dismissing another id leaves a posted toast at the end |
| `Storefront.Storefront.constructor` | App.tsx:18-28 | the initial state: empty catalog, views, cart and notifications, initial criteria, header visible, last scroll 0 |
| `Storefront.Storefront.TotalCartItems` | App.tsx:162 | `Cart.Total` of the current cart |
| `Storefront.Storefront.ProductsOnOfferCount` | App.tsx:163 | `Filters.OnOfferCount` of the shown products |
| `Storefront.Storefront.Refilter` | App.tsx:106-108 | the filtered view is recomputed from the catalog and criteria |
| `Storefront.Storefront.SetCatalog` | App.tsx:35-37 | installing a catalog sets the categories and the filtered view it implies |
| `Storefront.Storefront.LoadCatalog` | App.tsx:30-38 | start-up ingestion: the catalog is the processed raw records, and the derived views agree with it |
| `Storefront.Storefront.SetFilters` | App.tsx:110-112 | the criteria become the merge of old criteria and patch; the view follows |
| `Storefront.Storefront.SetPriceRange` | App.tsx:114-116 | only the price range changes; the view follows |
| `Storefront.Storefront.ClearFilters` | App.tsx:118-120 | the criteria return to the initial ones, and then every product priced on the slider is shown |
| `Storefront.Storefront.ApplyFilters` | App.tsx:225-228 | the criteria are replaced wholesale; the view follows |
| `Storefront.Storefront.RestoreCart` | App.tsx:40-50 | only successfully parsed saved contents replace the cart; no entry or malformed text leaves it as it was |
| `Storefront.Storefront.AddNotification` | App.tsx:77-79 | posting appends exactly one toast with the clock reading as its id and leaves earlier toasts unchanged |
| `Storefront.Storefront.DismissNotification` | App.tsx:236 | the toast list loses exactly the toasts with that id |
| `Storefront.Storefront.RemoveFromCart` | App.tsx:122-125 | the cart loses the id, ids stay unique, and an error toast is posted even when the id was absent |
| `Storefront.Storefront.UpdateCartQuantity` | App.tsx:127-137 | zero or less behaves as removal, toast included; otherwise the quantity is set and no toast is posted |
| `Storefront.Storefront.AddToCart` | App.tsx:139-151 | find-or-append, ids stay unique, the total rises by 1, and a success toast names the product |
| `Storefront.Storefront.ClearCart` | App.tsx:153-156 | the cart is empty, its total is zero, and a success toast is posted |
| `Storefront.Storefront.OnScroll` | App.tsx:57-67 | the header is hidden exactly when the new offset exceeds the last one (scrolling down) and exceeds 150; the last offset is updated every time |

## Left out

- Saving the cart on every change (App.tsx:52-54) and `JSON.parse`/`JSON.stringify`: the codec is a library the model cannot see; reading back is the `StoredCart` parameter of `RestoreCart`, and the removal of a malformed entry from storage is not modelled.
- The cart round trip through storage: it depends on the JSON codec, which is not modelled.
- The 3000 ms auto-dismiss timer and `Date.now()` (App.tsx:78-82): timing is not modelled; the timer's callback is `DismissNotification`, the clock reading is the `now` parameter, and two toasts posted in the same millisecond share an id exactly as in the code.
- Listener registration and teardown (App.tsx:70-74), JSX rendering (App.tsx:165-240), the modal flags and the selected product (App.tsx:22-24, 158-160): presentation only.
- React's scheduling of state updates: each handler's update takes effect immediately, in call order.
- `components/Header.tsx` (interval and timeout driven carousel over DOM geometry), `vite.config.ts` and the link constants of `constants.ts`: no data logic; `MAX_PRICE` and `INITIAL_FILTERS` are written into `Filters`.
- `Text.Lower`: lower-cases ASCII letters only, not the full Unicode case mapping of `toLowerCase`.
- `Text.Sort`: compares strings by code point, whereas JavaScript compares UTF-16 code units; the two orders differ only between characters above U+FFFF and those in U+E000 to U+FFFF.
- Prices, stock, quantities and scroll offsets are integers; JavaScript numbers are floating point.
- `Cart.AddExisting`: requires unique ids; with duplicate ids the code's `map` changes every matching line, not one.
- `Cart.RemoveAt`: requires unique ids; with duplicates the filter removes every matching line, not only the slice at the found index.
- `Cart.UpdateSetsQuantity`: requires unique ids; with duplicates every matching line gets the new quantity.
- `Cart.AddTotal`: requires unique ids; a cart restored from storage may hold duplicates, and then `map` increments every duplicate line.
- `Storefront.Storefront.AddToCart`: promises the total rises by 1 only when the ids were unique, for the same reason.
