# Product catalogue front end: store, form and create/update page

A Dafny model of the core of an Angular front end for a product catalogue. The model covers three parts:

- **The product store (`ProductService`).** It holds the full product list, the filtered view the list page shows, and the product selected for an edit or a delete. Searching recomputes the view from the full list. Every accepted write is followed by exactly one re-fetch, which replaces both lists.
- **The product form (`FormProductComponent`).** The id control is checked for uniqueness against the backend. Only ids longer than two characters are sent, and only the answer to the newest request is applied (switch-latest). The answer merges an `idValidation` flag into the control's error dictionary, or removes it from there. The form also derives the revision date from the release date and emits the product on submit.
- **The create/update page (`ProductComponent`).** The page decides from the URL whether it edits or registers. It redirects an edit that has nothing selected. On submit it calls exactly one of update or add, then clears the selection and returns to the list.

The backend is an oracle. Each write is told whether the server accepted it (`WriteOutcome`). Each list request is told what came back (`FetchOutcome`). Each uniqueness check is answered through `CheckAnswered` or `CheckFailed`, naming the request it answers. The page's service and router are recorders (`ServiceProbe`, `RouterProbe`) that keep the calls made to them.

Files:
- `nullable.dfy`: the null-or-value type.
- `product_model.dfy`: the product record, ASCII lower-casing and substring search.
- `product_service.dfy`: the search filter and the store class.
- `form_product.dfy`: the error-dictionary handler, the form class and `getSearchErrors`.
- `revision_date.dfy`: the calendar arithmetic of `calcdate_revision`.
- `product_page.dfy`: the page class.

The model follows the code in these less obvious behaviours:
- **A release date of Feb 29 is revised to Mar 1 of the next year.** `setFullYear` on Feb 29, applied to a year that is not a leap year, rolls over in this way.
- **A date string naming a day past the end of its month is accepted.** For example, `2023-02-30` reads as Mar 2. This is how the V8 `Date` parser behaves.
- **A failed uniqueness check ends the id subscription.** The subscription has no error handler, so the check is not merely skipped: no later id is ever checked.
- **A failed write is not reported back.** The subscription has no error handler, so the error does not reach the caller. The store is left unchanged.
- **Deleting does not clear the selection.**

## Model

| member | source | states |
|---|---|---|
| ProductModel.Includes | src/app/modules/product/services/product.service.ts:50 | `includes` is true exactly when the term occurs at some position of the string |
| ProductModel.Lower | src/app/modules/product/services/product.service.ts:50 | lower-casing keeps the length and maps each character to its lower-case form |
| ProductService.NameMatches | src/app/modules/product/services/product.service.ts:50 | a product matches exactly when the lower-cased term occurs somewhere in its lower-cased name; the empty term matches every product |
| ProductService.Search | src/app/modules/product/services/product.service.ts:48-51 | a product is in the view exactly when it is in the list and its lower-cased name contains the lower-cased term |
| ProductService.SearchAppend | src/app/modules/product/services/product.service.ts:49-51 | filtering a concatenation is concatenating the filtered parts, so list order is kept |
| ProductService.SearchSingleton | src/app/modules/product/services/product.service.ts:49-51 | a single product is kept exactly when it matches |
| ProductService.SearchAllMatch | src/app/modules/product/services/product.service.ts:49-51 | when every name matches, the view is the whole list in its order |
| ProductService.SearchEmptyTerm | src/app/modules/product/services/product.service.ts:49-51 | the empty term yields the full list |
| ProductService.SearchNoMatch | src/app/modules/product/services/product.service.spec.ts:139-158 | a term that matches no name yields an empty view |
| ProductService.SearchIdempotent | src/app/modules/product/services/product.service.ts:47-53 | searching the view again with the same term gives the same view |
| ProductService.SearchLowerTerm | src/app/modules/product/services/product.service.ts:50 | the term's case does not matter: searching with the lower-cased term gives the same view |
| ProductService.ProductStore.constructor | src/app/modules/product/services/product.service.ts:13-27 | no selection, one list request, and both lists empty or equal to the fetched list |
| ProductService.ProductStore.SelectProduct | src/app/modules/product/services/product.service.ts:43-45 | the selection becomes exactly the argument, `null` included, and nothing else changes |
| ProductService.ProductStore.SearchProduct | src/app/modules/product/services/product.service.ts:47-54 | the view becomes the full list filtered by the term; the list, selection and requests are untouched |
| ProductService.ProductStore.Refetch | src/app/modules/product/services/product.service.ts:24-41 | one list request; an answer replaces both lists, so any search is dropped; a failure changes nothing |
| ProductService.ProductStore.Send | src/app/modules/product/services/product.service.ts:56-123 | the shape every write shares: the request is logged, and only an accepted write is followed by one list request whose answer replaces both lists |
| ProductService.ProductStore.AddProduct | src/app/modules/product/services/product.service.ts:56-76 | one POST of the product, followed by one list request only if it was accepted; a rejected write leaves both lists |
| ProductService.ProductStore.UpdateProduct | src/app/modules/product/services/product.service.ts:78-98 | one PUT to the given product's id, followed by one list request only if accepted |
| ProductService.ProductStore.DeleteProduct | src/app/modules/product/services/product.service.ts:100-123 | with no selection, returns null and sends nothing; otherwise one DELETE of the selected id, then a re-fetch only if accepted |
| FormProduct.ApplyCheck | src/app/modules/product/components/form-product/form-product.component.ts:61-76 | a true answer sets `idValidation: true` and a false one removes it, giving null when no key remains; every other entry is kept |
| FormProduct.SetFlagOverrides | src/app/modules/product/components/form-product/form-product.component.ts:64-65 | setting the flag erases any difference in the flag between two dictionaries |
| FormProduct.ApplyCheckIgnoresFlag | src/app/modules/product/components/form-product/form-product.component.ts:61-76 | the handler's result depends only on the entries other than `idValidation` |
| FormProduct.LastAnswerWins | src/app/modules/product/components/form-product/form-product.component.ts:61-76 | applying two answers in turn is the same as applying only the second |
| FormProduct.SetThenClear | src/app/modules/product/components/form-product/form-product.component.ts:63-72 | setting then clearing the flag on errors without it gives them back, or null for `{}` |
| FormProduct.NoErrors | src/app/modules/product/components/form-product/form-product.component.ts:73-74 | with no errors, a false answer leaves null and a true one gives just the flag |
| FormProduct.MergeWithRequired | src/app/modules/product/components/form-product/form-product.component.spec.ts:182-202 | `{required}` becomes `{required, idValidation}` and goes back to `{required}` |
| FormProduct.ReachesCheck | src/app/modules/product/components/form-product/form-product.component.ts:57 | an id passes the filter exactly when it is non-null and at least three characters long |
| FormProduct.GetSearchErrors | src/app/modules/product/components/form-product/form-product.component.ts:87-90 | the `search` control's errors when it exists, otherwise null |
| FormProduct.ProductFormComponent.constructor | src/app/modules/product/components/form-product/form-product.component.ts:39-52 | the controls hold the product's fields, or null without one; the id is disabled exactly in edit mode, and then has no errors |
| FormProduct.ProductFormComponent.SetId | src/app/modules/product/components/form-product/form-product.component.ts:53-55 | an edit of the id sets its value and its validators' errors |
| FormProduct.ProductFormComponent.IdSettled | src/app/modules/product/components/form-product/form-product.component.ts:56-58 | a settled id is sent to the check exactly when it is longer than 2 and the subscription is open; otherwise nothing is sent or cancelled |
| FormProduct.ProductFormComponent.CheckAnswered | src/app/modules/product/components/form-product/form-product.component.ts:58-76 | only the answer to the newest request changes the errors, through the handler; stale answers are discarded |
| FormProduct.ProductFormComponent.CheckFailed | src/app/modules/product/components/form-product/form-product.component.ts:58-60 | a failure of the newest request ends the subscription; the errors are unchanged |
| FormProduct.ProductFormComponent.FormValue | src/app/modules/product/components/form-product/form-product.component.ts:83 | the form value holds every control's value under its own key, the id included exactly when its control is enabled |
| FormProduct.ProductFormComponent.OnSubmit | src/app/modules/product/components/form-product/form-product.component.ts:80-85 | the emitted id is the id control's value in both modes; the other fields are the control values |
| FormProduct.ProductFormComponent.CalcDateRevision | src/app/modules/product/components/form-product/form-product.component.ts:96-102 | the revision control gets the release date plus one year; on an Invalid Date nothing changes; other controls are untouched |
| RevisionDate.DaysInMonth | src/app/modules/product/components/form-product/form-product.component.ts:97-98 | every month has 28 to 31 days, and February has 29 exactly in leap years |
| RevisionDate.Normalize | src/app/modules/product/components/form-product/form-product.component.ts:97 | always a real calendar day; an existing day is kept, and an overflowing one moves into the next month, keeping the count of days from the first of the month |
| RevisionDate.AddOneYear | src/app/modules/product/components/form-product/form-product.component.ts:98 | the same month and day one year on, except that Feb 29 becomes Mar 1 |
| RevisionDate.ParseIsoDate | src/app/modules/product/components/form-product/form-product.component.ts:97 | a parsed date is a real calendar day with a four-digit year |
| RevisionDate.ReadFields | src/app/modules/product/components/form-product/form-product.component.ts:97 | the fields read are a four-digit year, a month 1..12 and a day 1..31 |
| RevisionDate.FormatIsoDate | src/app/modules/product/components/form-product/form-product.component.ts:100 | ten characters for a four-digit year and thirteen for the six-digit form, with the dashes before the month and the day |
| RevisionDate.RevisionOf | src/app/modules/product/components/form-product/form-product.component.ts:96-100 | no revision exactly when the release is a non-null string that is an Invalid Date |
| RevisionDate.ReadFormat | src/app/modules/product/components/form-product/form-product.component.ts:97-100 | reading the fields of a formatted date gives its year, month and day back, even for a day past the end of its month |
| RevisionDate.ParseFormat | src/app/modules/product/components/form-product/form-product.component.ts:97-100 | parsing a formatted date gives the date back |
| RevisionDate.FormatParse | src/app/modules/product/components/form-product/form-product.component.ts:97-100 | a string naming a real day is exactly the formatted form of what it parses to |
| RevisionDate.RevisionOfFormatted | src/app/modules/product/components/form-product/form-product.component.ts:96-101 | the revision of a formatted four-digit-year day is the formatted day one year on |
| RevisionDate.RevisionSameDayNextYear | src/app/modules/product/components/form-product/form-product.component.ts:96-101 | for any day but Feb 29, the revision is the same month and day a year later |
| RevisionDate.RevisionOfLeapDay | src/app/modules/product/components/form-product/form-product.component.ts:96-101 | a Feb 29 release gets a Mar 1 revision the next year |
| RevisionDate.ExampleJanuaryFirst | src/app/modules/product/components/form-product/form-product.component.spec.ts:131-135 | 2023-01-01 gives 2024-01-01 |
| RevisionDate.ExampleNullRelease | src/app/modules/product/components/form-product/form-product.component.ts:97 | a null release date reads as the epoch and gives 1971-01-01 |
| RevisionDate.ExampleLastYear | src/app/modules/product/components/form-product/form-product.component.ts:100 | 9999-12-31 gives the six-digit form +010000-12-31 |
| RevisionDate.ExampleBadMonth | src/app/modules/product/components/form-product/form-product.component.ts:97-100 | month 13 is an Invalid Date, and no revision is written |
| RevisionDate.ExampleFebruaryThirtieth | src/app/modules/product/components/form-product/form-product.component.ts:97 | 2023-02-30 reads as 2023-03-02 |
| RevisionDate.YearTenThousand | src/app/modules/product/components/form-product/form-product.component.ts:100 | the year 10000 is written as +010000 |
| ProductPage.ProductComponent.constructor | src/app/modules/product/pages/product/product.component.ts:21-30 | the page mirrors the service's selection; edit mode holds exactly when the URL is `/products/update`; the title starts as the registration title |
| ProductPage.ProductComponent.NgOnInit | src/app/modules/product/pages/product/product.component.ts:32-35 | navigates to the list exactly when in edit mode without a selection; in edit mode the title becomes the update title either way |
| ProductPage.ProductComponent.ClearSelectProduct | src/app/modules/product/pages/product/product.component.ts:37-40 | the selection is null on both sides, after one `selectProduct(null)` and one navigation to the list |
| ProductPage.ProductComponent.OnSubmitForm | src/app/modules/product/pages/product/product.component.ts:42-47 | exactly one of update (edit mode) or add, then the selection is cleared and the page goes to the list |

## Left out

- HTTP transport is not modelled: URLs, the API base URL, the `map`/`catchError` re-throw and the server's error messages. Writes and fetches are the oracle answers described above.
- Store operations are atomic: each write runs together with its server answer and its re-fetch, and the constructor runs together with its initial fetch. Interleavings with other operations, such as a search arriving before the re-fetch or the first fetch completes, are not modelled.
- `getProducts` is modelled only as it is used, through `Refetch` and the constructor. The `Observable` it returns to other callers is out of scope.
- `verificationID` is not a store method here. The form records the ids it sends (`checksSent`), and answers arrive as inputs.
- The 500 ms debounce is out of scope because it is timing. It is reduced to an abstract "quiet period over" event (`IdSettled`) that uses the id's current value.
- `SetId` does not model Angular's own validators. The validators (`minLength`, `maxLength`, `required`) that recompute the id's errors on every change are framework behaviour; their result is an input.
- Error details are reduced to a flag or a length bound. JavaScript error objects can carry arbitrary values.
- Error dictionaries are unordered maps. The insertion order of JavaScript object keys is not modelled.
- FormProduct.ReachesCheck: lengths are counted in characters (Unicode scalar values), not in the UTF-16 code units of the JavaScript `length`; an id with a character outside the Basic Multilingual Plane, such as `a` followed by one emoji, is sent by the code but not by the model.
- ProductModel.Lower: lower-cases ASCII letters only. Unicode case mapping of `toLowerCase` is not modelled.
- `calcdate_revision` reads the local time zone as UTC. Time zone and DST effects of mixing `getFullYear` with `toISOString` are not modelled.
- ParseIsoDate: only the `YYYY-MM-DD` form is read. Any other string counts as an Invalid Date, although the JavaScript `Date` accepts many more formats.
- `currentDate` is out of scope because it reads the system clock.
- `formControlType` is out of scope: it returns a framework control object.
- `ngOnDestroy` and the release of subscriptions are out of scope: they are resource lifetime, not behaviour.
- Dependency injection, templates and rendering are out of scope.
- The page's selection mirror is shown only for changes the page makes itself. Selection changes made by other parts of the application are outside the page.
- The dropdown component, the list page's page-size slice, the input and select components and the test files are not part of this model.
