# AutoDesk dealership front end — a Dafny model

This project models the client-side logic of the AutoDesk (AutoMax) car dealership web
application, a React front end over a hosted table store with authentication. It covers:

- the storefront catalogue pipeline of `/tienda` (`Catalog`, `Tienda`): brand filter, then
  case-insensitive search over the car name and its brand's name, then one of five sort keys. The
  brand filter is kept in step with the `brand` URL parameter. `PriceOrder` relates the two
  price orders;
- the home page's brand pills and filtered count (`Home`);
- the back-office editors for car models and brands (`AdminModels`, `AdminBrands`). These are
  state machines over `isDialogOpen`, the edited row and the form buffer. They run against an
  abstract store (`Store`): two tables keyed by id, a request log, and writes that can fail;
- the mappings between stored nullable columns, form text and write payloads (`Forms`);
- the per-brand model count of `/marcas` (`Marcas`), an imperative counting loop over a map;
- the back-office access guard and sign-out (`AdminLayout`), and the sign-in page's validation,
  error translation and navigation (`Auth`), over the shared browser state (`Session`). The
  observable output of `Session` is the current path;
- the row shapes of the database (`Entities`). Nullable columns become `Option`.

Pages whose handlers change state step by step are classes whose methods carry `modifies`
clauses. The data fetches and the sign-in and sign-up handlers are split in two: one method
for the part up to the `await` (it issues the request and logs it) and one for the part after
it (it takes the response as a parameter). The back-office submit and delete handlers and
sign-out are single methods: the write, its reply and what follows happen in one step. The
decisions outside the browser are inputs:

- whether the store refuses a request (`refusal`);
- the user's answer to `confirm` (`confirmed`);
- the new row's id and timestamp;
- the current year;
- whether a text is a well-formed e-mail address (`isEmail`).

The store itself rejects a duplicate primary key, a second brand with the same name, and a car
model whose brand does not exist.

## Model

| member | source | states |
|---|---|---|
| Text.LowerChar | src/pages/Tienda.tsx:62-63 | upper-case ASCII letters are shifted by 32, everything else is kept, and the result is never upper-case |
| Text.Lower | src/pages/Tienda.tsx:62-63 | lower-casing keeps the length and lower-cases each character |
| Text.LowerIdempotent | src/pages/Tienda.tsx:62-63 | lower-casing twice is lower-casing once |
| Text.ContainsIff | src/pages/Tienda.tsx:62-63 | `includes` holds exactly when the needle occurs at some position |
| Text.ContainsEmpty | src/pages/Tienda.tsx:60 | every text includes the empty term |
| Text.ContainsPrefix | src/pages/admin/AdminBrands.tsx:80 | a text includes each of its prefixes |
| Text.ContainsSuffix | src/pages/Auth.tsx:96 | a text includes each of its suffixes |
| Catalog.Filter | src/pages/Tienda.tsx:52-65 | `filter` returns no more elements than it got, each taken from the input and satisfying the predicate |
| Catalog.FilterIsSubsequence | src/pages/Tienda.tsx:52-65 | a filtered list is a subsequence of its input: order kept, nothing invented |
| Catalog.FilterCounts | src/pages/Tienda.tsx:52-65 | a filter keeps every copy of an element that passes and drops every copy of one that fails |
| Catalog.FilterKeepsAll | src/pages/Tienda.tsx:60 | a filter whose predicate holds everywhere returns its input |
| Catalog.ByBrandSpec | src/pages/Tienda.tsx:54-57 | `"all"` returns the list unchanged; any other selection keeps exactly the cars with that `brand_id`, each with all its copies; the result is a subsequence |
| Catalog.ByBrandUnknown | src/pages/Tienda.tsx:54-57 | a selection no car carries leaves an empty list |
| Catalog.BySearchSpec | src/pages/Tienda.tsx:59-65 | an empty term filters nothing; otherwise a car is kept exactly when the lower-cased term occurs in its lower-cased name or in its brand's lower-cased name; the result is a subsequence |
| Catalog.ParseSortKey | src/pages/Tienda.tsx:68-83 | each of the four sort values selects its own order, and every other value (including `newest`) selects none |
| Catalog.NameCompareAntisymmetric | src/pages/Tienda.tsx:76 | swapping the names negates the comparison |
| Catalog.NameCompareTransitive | src/pages/Tienda.tsx:76 | the name order is transitive |
| Catalog.LeqTotal | src/pages/Tienda.tsx:68-80 | any two cars are ordered one way or the other under each key |
| Catalog.LeqTransitive | src/pages/Tienda.tsx:68-80 | each key's order is transitive |
| Catalog.InsertPermutes | src/pages/Tienda.tsx:68-80 | inserting adds exactly that element |
| Catalog.InsertSorted | src/pages/Tienda.tsx:68-80 | inserting into a sorted list keeps it sorted |
| Catalog.SortByCorrect | src/pages/Tienda.tsx:68-80 | the sort returns a permutation of its input, of the same length, sorted by the key |
| Catalog.SortPriceAsc | src/pages/Tienda.tsx:69-71 | `price-asc` output is non-decreasing in price |
| Catalog.SortPriceDesc | src/pages/Tienda.tsx:72-74 | `price-desc` output is non-increasing in price |
| Catalog.SortByPermutes | src/pages/Tienda.tsx:68-80 | the sort returns a permutation of its input |
| Catalog.SortBySorted | src/pages/Tienda.tsx:68-80 | the sort returns a sequence ordered by the key |
| PriceOrder.PriceOrdersPermute | src/pages/Tienda.tsx:69-74 | `price-asc` and `price-desc` hold the same cars, as many as the input |
| PriceOrder.PricesPermute | src/pages/Tienda.tsx:69-74 | two permutations of each other carry the same prices, counted with repetition |
| PriceOrder.SortedIntsEqual | src/pages/Tienda.tsx:69-74 | two non-decreasing price lists holding the same values are equal, so the price order is unique up to ties |
| PriceOrder.PricesMirrored | src/pages/Tienda.tsx:69-74 | a permutation ordered by non-decreasing price has the prices of one ordered by non-increasing price, read back to front |
| PriceOrder.PriceDescReversesPriceAsc | src/pages/Tienda.tsx:69-74 | the `i`-th price under `price-desc` is the `i`-th from the end under `price-asc`, for every `i` |
| Catalog.SortNameAsc | src/pages/Tienda.tsx:75-77 | `name` output is ordered by name |
| Catalog.SortYearDesc | src/pages/Tienda.tsx:78-80 | `year` output is non-increasing in year |
| Catalog.SortBySortedIsIdentity | src/pages/Tienda.tsx:68-80 | an already sorted list is returned as it is |
| Catalog.SortByIdempotent | src/pages/Tienda.tsx:68-80 | sorting twice is sorting once |
| Catalog.FilterCons | src/pages/Tienda.tsx:52-65 | filtering distributes over putting an element in front |
| Catalog.InsertStable | src/pages/Tienda.tsx:68-80 | inserting an element keeps the order of every group of tied elements |
| Catalog.SortByStable | src/pages/Tienda.tsx:68-80 | the sort is stable: cars that tie under the key keep their fetched relative order |
| Catalog.TiesWithIsTiedClass | src/pages/Tienda.tsx:68-80 | the cars tied with a given car form a tied group |
| Catalog.SubsequenceTransitive | src/pages/Tienda.tsx:52-65 | a subsequence of a subsequence is a subsequence |
| Catalog.ViewSpec | src/pages/Tienda.tsx:52-83 | the shown list holds every selected car as many times as the fetched list and nothing else; it is sorted for the four keys, and a subsequence of the fetched list (fetch order, newest first) otherwise |
| Catalog.ViewDefault | src/pages/Tienda.tsx:16-18 | with the initial state (`all`, no term, `newest`) the fetched list is shown as it is |
| Catalog.ViewIdempotent | src/pages/Tienda.tsx:52-83 | running the pipeline on its own output changes nothing |
| Catalog.RangerHiluxScenario | src/pages/Tienda.tsx:68-80 | two concrete cars come out in the expected order under `price-asc`, `year` and `price-desc` |
| Tienda.BrandFromParams | src/pages/Tienda.tsx:16 | the filter is `all` exactly when the parameter is absent, empty or `all`; otherwise it is the parameter |
| Tienda.WithBrand | src/pages/Tienda.tsx:42-50 | `all` removes the parameter, any other value sets it, and every other parameter is kept |
| Tienda.BrandParamRoundTrip | src/pages/Tienda.tsx:42-50 | a non-empty brand written to the URL reads back as itself; the empty value reads back as `all` |
| Tienda.TiendaPage.constructor | src/pages/Tienda.tsx:13-19 | the filter starts from the URL, with no term, `newest`, empty lists, loading |
| Tienda.TiendaPage.FetchCompleted | src/pages/Tienda.tsx:30-40 | each list is replaced only when its response carried data; loading ends; nothing else changes |
| Tienda.TiendaPage.HandleBrandChange | src/pages/Tienda.tsx:42-50 | the selection becomes the value and the URL is rewritten so that it reads back as the selection |
| Tienda.TiendaPage.SyncFromParams | src/pages/Tienda.tsx:25-28 | a non-empty `brand` parameter overwrites the selection, and a URL without one keeps it |
| Tienda.TiendaPage.SetSearchTerm | src/pages/Tienda.tsx:102 | the term becomes the typed text |
| Tienda.TiendaPage.SetSortBy | src/pages/Tienda.tsx:119 | the sort value becomes the chosen entry |
| Tienda.TiendaPage.Visible | src/pages/Tienda.tsx:52-83 | the rendered list is no longer than the fetched one, and each car in it is fetched and selected |
| Tienda.PickBrandThenNavigate | src/pages/Tienda.tsx:25-50 | picking a brand, then the URL effect, leaves that brand selected and in the URL |
| Home.HighlightedBrandPillsCount | src/pages/Index.tsx:65-74 | with distinct ids, one brand pill is highlighted when the selection is a loaded brand, and none otherwise |
| Home.ExactlyOnePillHighlighted | src/pages/Index.tsx:58-74 | exactly one pill is highlighted iff the selection is `all` or a loaded brand, and never more than one |
| Home.HomePage.constructor | src/pages/Index.tsx:11-14 | empty lists, `all`, loading |
| Home.HomePage.FetchCompleted | src/pages/Index.tsx:20-30 | each list is replaced only when its response carried data; loading ends |
| Home.HomePage.ClickAll | src/pages/Index.tsx:60 | the selection is `all`, and its pill is highlighted |
| Home.HomePage.ClickBrand | src/pages/Index.tsx:69 | the selection is that brand's id, and exactly one pill is highlighted |
| Home.HomePage.FilteredCars | src/pages/Index.tsx:32-34 | `all` gives the fetched list; otherwise exactly the selected brand's cars in fetched order; the count line is its length |
| Store.NewCarModel | src/pages/admin/AdminModels.tsx:77 | an inserted car model gets its id and creation time, and its fuel type and transmission are always set |
| Store.PatchCarModel | src/pages/admin/AdminModels.tsx:64-68 | an update keeps id and creation time and takes every other column from the payload |
| Store.NewBrand | src/pages/admin/AdminBrands.tsx:69-75 | an inserted brand gets its id and creation time |
| Store.PatchBrand | src/pages/admin/AdminBrands.tsx:48-55 | a brand update keeps id and creation time |
| Store.DeletedCarModelNotListed | src/pages/admin/AdminModels.tsx:92-98 | the listing fetched after a delete does not show the deleted model |
| Store.StoredCarModelListed | src/pages/admin/AdminModels.tsx:63-85 | the listing fetched after a successful write shows the stored model |
| Store.DeletedBrandNotListed | src/pages/admin/AdminBrands.tsx:96-110 | the listing fetched after a delete does not show the deleted brand |
| Store.StoredBrandListed | src/pages/admin/AdminBrands.tsx:47-90 | the listing fetched after a successful write shows the stored brand |
| Store.Backend.constructor | src/types/database.ts:1-21 | a store holding the given tables, with no request issued yet; tables keyed by row id with unique brand names give a valid store |
| Store.Backend.Select | src/pages/admin/AdminModels.tsx:39-42 | a select is logged and changes no table |
| Store.Backend.InsertCarModel | src/pages/admin/AdminModels.tsx:77 | the insert is logged; it fails on a refusal, a taken id or a missing brand, and otherwise stores the new row; the store stays keyed by id with unique brand names |
| Store.Backend.UpdateCarModel | src/pages/admin/AdminModels.tsx:64-68 | the update is logged; it fails on a refusal, or on a missing brand when a row has the id; an update matching no row writes nothing and reports no error; otherwise the row is patched |
| Store.Backend.DeleteCarModel | src/pages/admin/AdminModels.tsx:92 | the delete is logged and removes the row unless refused |
| Store.Backend.InsertBrand | src/pages/admin/AdminBrands.tsx:69-75 | the insert is logged; it fails on a refusal, a taken id or a taken name, and otherwise stores the new brand |
| Store.Backend.UpdateBrand | src/pages/admin/AdminBrands.tsx:48-55 | the update is logged; it fails on a refusal or a name taken by another brand, and otherwise patches the brand if it exists |
| Store.Backend.DeleteBrand | src/pages/admin/AdminBrands.tsx:96-99 | the delete is logged and removes the brand unless refused; car models are untouched |
| Store.DuplicateMessagesSayDuplicate | src/pages/admin/AdminBrands.tsx:80 | both uniqueness errors mention `duplicate` |
| Forms.NullIfEmpty | src/pages/admin/AdminModels.tsx:59-60 | `value \|\| null` is null exactly for the empty text, and otherwise the text itself |
| Forms.OrDefault | src/pages/admin/AdminModels.tsx:108-111 | `value \|\| fallback` gives the fallback for null and for the empty text, and the value otherwise |
| Forms.OrEmptyAfterNullIfEmpty | src/pages/admin/AdminModels.tsx:59-60 | typed text survives the trip to null and back |
| Forms.NullIfEmptyAfterOrEmpty | src/pages/admin/AdminModels.tsx:110-111 | a stored nullable text survives the trip through the form exactly when it is not `''` |
| Forms.DefaultModelForm | src/pages/admin/AdminModels.tsx:21-30 | the blank form: no brand, no name, the current year, price 0, `Gasolina`, `Automática`, empty texts |
| Forms.ModelPayloadOf | src/pages/admin/AdminModels.tsx:52-61 | six fields are copied verbatim, and the two optional texts are null exactly when empty |
| Forms.ModelFormOf | src/pages/admin/AdminModels.tsx:102-115 | the edit form copies the model, with the fuel and transmission defaults for null or `''` and `''` for null texts |
| Forms.ModelEditRoundTrip | src/pages/admin/AdminModels.tsx:52-115 | an unchanged edit writes the defaults for a missing fuel type or transmission and turns `''` texts to null, and writes the row back unchanged exactly when none of that applies |
| Forms.ModelFormRoundTrip | src/pages/admin/AdminModels.tsx:52-115 | a submitted form, stored and opened for edit, shows the same fields |
| Forms.EmptyBrandForm | src/pages/admin/AdminBrands.tsx:19 | the blank brand form is all empty |
| Forms.BrandPayloadOf | src/pages/admin/AdminBrands.tsx:71-75 | the name is copied, and the optional texts are null exactly when empty |
| Forms.BrandFormOf | src/pages/admin/AdminBrands.tsx:113-121 | the edit form copies the name and shows null texts as `''` |
| Forms.BrandEditRoundTrip | src/pages/admin/AdminBrands.tsx:47-121 | an unchanged brand edit writes the brand back, except that stored `''` texts become null |
| Forms.BrandFormRoundTrip | src/pages/admin/AdminBrands.tsx:69-121 | a submitted brand form, stored and opened for edit, shows the same fields |
| AdminModels.SubmitRequest | src/pages/admin/AdminModels.tsx:63-86 | edit mode updates by the edited model's id, create mode inserts, and the payload is the form's |
| AdminModels.AdminModelsPage.constructor | src/pages/admin/AdminModels.tsx:16-30 | empty lists, closed dialog, create mode, blank form, loading |
| AdminModels.AdminModelsPage.StartFetch | src/pages/admin/AdminModels.tsx:37-42 | loading, and both selects issued |
| AdminModels.AdminModelsPage.FetchCompleted | src/pages/admin/AdminModels.tsx:44-46 | each list is replaced only when its response carried data; loading ends |
| AdminModels.AdminModelsPage.OpenEditDialog | src/pages/admin/AdminModels.tsx:102-115 | edit mode for the model, the form filled from it, dialog open |
| AdminModels.AdminModelsPage.CloseDialog | src/pages/admin/AdminModels.tsx:117-130 | dialog closed, create mode, blank form |
| AdminModels.AdminModelsPage.NewModel | src/pages/admin/AdminModels.tsx:147-149 | a new model always starts from the blank form in create mode |
| AdminModels.AdminModelsPage.SetDialogOpen | src/pages/admin/AdminModels.tsx:147 | the dialog's own control changes only the open flag |
| AdminModels.AdminModelsPage.EditForm | src/pages/admin/AdminModels.tsx:184 | a control's change replaces the form buffer |
| AdminModels.AdminModelsPage.HandleSubmit | src/pages/admin/AdminModels.tsx:49-87 | an incomplete form does nothing; otherwise exactly one write is issued; a failure shows the store's message and changes nothing on the page; a success stores the row, re-fetches both lists and closes the dialog |
| AdminModels.AdminModelsPage.HandleDelete | src/pages/admin/AdminModels.tsx:89-100 | a declined confirmation issues nothing and changes nothing; a confirmed delete is issued, and only a successful one removes the row and re-fetches |
| AdminModels.EditAndResubmit | src/pages/admin/AdminModels.tsx:49-130 | opening a canonical stored model and submitting it unchanged leaves the table as it was and closes the dialog |
| AdminBrands.InsertErrorText | src/pages/admin/AdminBrands.tsx:80-82 | a create error mentioning `duplicate` becomes the taken-name message; any other is shown as it is |
| AdminBrands.TakenNameShowsNameExists | src/pages/admin/AdminBrands.tsx:69-84 | creating a brand under a stored name fails with the uniqueness error, shown as the taken-name message |
| AdminBrands.SubmitRequest | src/pages/admin/AdminBrands.tsx:47-75 | edit mode updates by the edited brand's id, create mode inserts, and the payload is the form's |
| AdminBrands.AdminBrandsPage.constructor | src/pages/admin/AdminBrands.tsx:15-19 | empty list, closed dialog, create mode, blank form, loading |
| AdminBrands.AdminBrandsPage.StartFetch | src/pages/admin/AdminBrands.tsx:26-31 | loading, and the select issued |
| AdminBrands.AdminBrandsPage.FetchCompleted | src/pages/admin/AdminBrands.tsx:33-41 | data replaces the list and an error shows the load-failure toast, each independently; loading ends |
| AdminBrands.AdminBrandsPage.OpenEditDialog | src/pages/admin/AdminBrands.tsx:113-121 | edit mode for the brand, the form filled from it, dialog open |
| AdminBrands.AdminBrandsPage.CloseDialog | src/pages/admin/AdminBrands.tsx:123-127 | dialog closed, create mode, blank form |
| AdminBrands.AdminBrandsPage.NewBrand | src/pages/admin/AdminBrands.tsx:136-138 | a new brand always starts from the blank form in create mode |
| AdminBrands.AdminBrandsPage.SetDialogOpen | src/pages/admin/AdminBrands.tsx:136 | the dialog's own control changes only the open flag |
| AdminBrands.AdminBrandsPage.EditForm | src/pages/admin/AdminBrands.tsx:155 | a control's change replaces the form buffer |
| AdminBrands.AdminBrandsPage.HandleSubmit | src/pages/admin/AdminBrands.tsx:44-91 | an incomplete form does nothing; otherwise exactly one write is issued; a failed update shows the store's message, a failed create its translation; a failure changes nothing on the page; a success stores the brand, re-fetches and closes the dialog |
| AdminBrands.AdminBrandsPage.HandleDelete | src/pages/admin/AdminBrands.tsx:93-111 | a declined confirmation issues nothing and changes nothing; a confirmed delete is issued, and only a successful one removes the brand and re-fetches |
| AdminBrands.CreateTakenName | src/pages/admin/AdminBrands.tsx:69-84 | creating a brand under a stored name leaves the table, the form and the dialog as they were |
| Marcas.TotalRemove | src/pages/Marcas.tsx:27-30 | the sum of the counts does not depend on the order the keys are taken out in |
| Marcas.TotalUpdate | src/pages/Marcas.tsx:29 | setting one count changes the sum by the difference |
| Marcas.ModelCount | src/pages/Marcas.tsx:59 | a brand without an entry counts 0, and one with an entry counts its value |
| Marcas.CountByBrand | src/pages/Marcas.tsx:26-31 | a brand id is a key exactly when some row carries it; each count is the number of rows with that id; the counts add up to the number of rows |
| Marcas.MarcasPage.constructor | src/pages/Marcas.tsx:9-11 | no brands, no counts, loading |
| Marcas.MarcasPage.FetchCompleted | src/pages/Marcas.tsx:17-35 | brands are replaced only when their response carried data; the counts are rebuilt from the car rows when they arrived and kept otherwise; loading ends |
| Marcas.MarcasPage.CardCount | src/pages/Marcas.tsx:59 | a brand with no models shows 0 |
| Marcas.FetchThenShow | src/pages/Marcas.tsx:24-59 | after a fetch each card shows the number of rows of its brand, and 0 for a brand without models |
| Session.App.constructor | src/pages/admin/AdminLayout.tsx:8-10 | the session is not yet known, no user, at the opened path, not busy, no call made |
| Session.App.SessionChanged | src/pages/admin/AdminLayout.tsx:8 | the provider's report ends loading and sets the user |
| Session.App.Navigate | src/pages/admin/AdminLayout.tsx:14 | navigation sets the current path |
| AdminLayout.LayoutRender | src/pages/admin/AdminLayout.tsx:18-28 | the loader exactly while loading, nothing exactly when loaded without a user, the sidebar exactly when loaded with one; no role is checked |
| AdminLayout.GuardTarget | src/pages/admin/AdminLayout.tsx:12-16 | the guard redirects, always to `/auth`, exactly when the layout renders nothing |
| AdminLayout.ActiveCountDistinct | src/pages/admin/AdminLayout.tsx:41 | over entries with distinct paths, exactly the entry equal to the current path is highlighted, and none when no entry matches |
| AdminLayout.ActiveItems | src/pages/admin/AdminLayout.tsx:35-41 | one sidebar entry is highlighted on each of the three back-office paths and none elsewhere; the dashboard entry is not highlighted on `/admin/marcas` |
| AdminLayout.GuardEffect | src/pages/admin/AdminLayout.tsx:12-16 | the effect moves to `/auth` exactly when loaded without a user, and moves nobody otherwise |
| AdminLayout.HandleSignOut | src/pages/admin/AdminLayout.tsx:30-33 | sign-out is called and the session cleared before the navigation to `/`; the shared state stays valid even while a sign-in call is still outstanding |
| AdminLayout.VisitWithoutSession | src/pages/admin/AdminLayout.tsx:12-28 | a visitor without a session sees the loader, then is sent to `/auth`, and the back office is never rendered |
| AdminLayout.VisitWithSession | src/pages/admin/AdminLayout.tsx:12-28 | a visitor with a session stays on the requested path and sees the back office |
| Auth.FirstIssue | src/pages/Auth.tsx:46 | the shown message is the first issue, and there is none exactly when there are no issues |
| Auth.ValidateLogin | src/pages/Auth.tsx:13-16 | login passes exactly with a well-formed e-mail and a password of at least 6 characters, and reports the e-mail rule before the password rule |
| Auth.ValidateSignup | src/pages/Auth.tsx:18-20 | sign-up passes exactly when the login rules hold and the name has at least 2 characters, reporting e-mail, then password, then name |
| Auth.SignupExtendsLogin | src/pages/Auth.tsx:18-20 | a login-rule failure gives the same message on sign-up, and sign-up passes only where login passes |
| Auth.LoginErrorMessage | src/pages/Auth.tsx:57-64 | only the exact `Invalid login credentials` text is translated |
| Auth.SignupErrorMessage | src/pages/Auth.tsx:94-103 | any text containing `already registered` is translated, and every other is shown as it is |
| Auth.ExactVersusContains | src/pages/Auth.tsx:57-103 | a longer text ending in the credentials message is not translated on login, while one ending in `already registered` is translated on sign-up |
| Auth.RenderAuth | src/pages/Auth.tsx:31-35 | with a user present the page renders nothing and navigates to `/admin`; otherwise it shows the forms and stays |
| Auth.HandleLogin | src/pages/Auth.tsx:37-54 | a busy page, a hidden form or an empty required field does nothing; a rejected form shows the first message and calls nothing; a valid one turns busy and calls sign-in once |
| Auth.LoginReturned | src/pages/Auth.tsx:53-71 | busy ends; an error is shown translated and nobody moves; success greets and navigates to `/admin` |
| Auth.HandleSignup | src/pages/Auth.tsx:74-91 | as for login, with the name rule, calling sign-up |
| Auth.SignupReturned | src/pages/Auth.tsx:90-110 | busy ends; an error is shown translated and nobody moves; success navigates to `/admin` |
| Auth.DoubleSubmit | src/pages/Auth.tsx:53-55 | a second submit while the first call is outstanding calls nothing |

## Left out

- Network I/O, promises and React rendering. The fetches, `handleLogin` and `handleSignup` are two methods each, before and after the `await`; the handlers listed on the next line are one method each. Responses, refusals, confirmations, ids, timestamps and the current year are parameters. Interleavings of several outstanding requests are not modelled.
- AdminModels.AdminModelsPage.HandleSubmit, AdminModels.AdminModelsPage.HandleDelete, AdminBrands.AdminBrandsPage.HandleSubmit, AdminBrands.AdminBrandsPage.HandleDelete and AdminLayout.HandleSignOut run as one step from the click to the reply. What can happen between the write and its reply is not captured: user actions on the page, a second submit or delete, a re-render.
- The hosted store's own behaviour beyond the three constraints above. Row-level security, `on delete` policies between brands and car models, and the ordering of select results (`order('name')`, `order('created_at')`) are not modelled. A select response is whatever sequence the caller passes.
- The `useAuth` hook and the provider's session handling are not part of this model. A session change is the `SessionChanged` event.
- Catalog.NameCompare: `localeCompare` is modelled as code-point lexicographic order, not locale collation.
- Text.Lower: `toLowerCase` is modelled on ASCII letters only.
- Auth.ValidateLogin: the e-mail rule is the caller's predicate `isEmail`, not zod's regular expression. Lengths count characters, not UTF-16 code units.
- Auth.HandleLogin: the browser's `type="email"` check before submission is not modelled separately from `isEmail`.
- Forms.ModelPayloadOf: `year` and `price` are integers. `parseInt`/`parseFloat` of an empty or malformed field (NaN) and fractional prices are not modelled.
- Forms.ModelFormComplete: of the browser's `required` checks, only the required brand selection and name are modelled. The numeric ones cannot fail on an integer.
- The `type="url"` check on the image and logo fields is not modelled.
- The admin Dashboard, price and date formatting, skeleton loaders, toasts' display timing and all styling are left out.
- The row types `Profile` and `UserRole` are transcribed, but no modelled page reads them: the back office checks only that a user is present.
