# flight-tracker, modelled in Dafny

The repository has two parts, and this project models the core of each.

**The flight tracker (`main.go`).** A request holds a list of tickets `[origin, destination]` and a source airport.
- `createRouteMap` builds a route map from the tickets: each origin is mapped to the destinations of its tickets, sorted ascending with `strings.Compare`.
- `DFSearch` walks that map destructively, depth first, from the source. It takes the first remaining ticket of the current airport and recurses on its destination. When the airport has no tickets left, it appends the airport to the route.
- `reverseStrings` reverses the route in place.
- `findRoutes` chains the three.

**The service catalogue (`service/`).**
- The HTTP handler turns the `page` query parameter into a page number with `strconv.Atoi`. It promotes 0 to page 1 and refuses page numbers that are not positive.
- It answers an error with the status code chosen by `getStatusCode`.
- The use cases compute the row offset of a page and map stored rows (`ent.Service`, `ent.Version`) to API records.
- `getSortType` picks a sort column. `Remove` passes a delete error on.

The Dafny modules:

- `GoStrings` (`strings.dfy`): `strings.Compare` and `strings.Contains`. Each is proved against a reference definition: lexicographic order, and "occurs at some position".
- `Sorting` (`sorting.dfy`): what `sort.Slice` with the `strings.Compare(..) == -1` comparator guarantees. The result is the unique ascending permutation, so the instability of Go's sort cannot be observed.
- `Itinerary` (`itinerary.dfy`): `main.go`.
  - `CreateRouteMap` and `ReverseStrings` are imperative methods, proved against the functions `RouteMap` and `Reversed`.
  - `DFSearch` is a recursive method of the class `RouteSearch`. The class holds the route map the search consumes and the route it appends to through a pointer.
  - `DFSearch` is proved against `Walk`, a function that states what one call leaves in the map and which airports it appends.
- `GoInts` (`goints.dfy`): Go's 64-bit `int` and its wrap-around.
- `Strconv` (`strconv.dfy`): `strconv.Atoi` as Go implements it on a 64-bit platform. That is a fast path for 1 to 18 bytes and `ParseInt`/`ParseUint` otherwise, with exact overflow behaviour. `strconv` is the Go standard library, not part of the repository.
- `Domain` (`domain.dfy`): the records of `service/domain.go` and the stored entities.
- `Handler` (`handler.dfy`): `getStatusCode` and the page handling of `Fetch` in `service/handler.go`.
- `Usecase` (`usecase.dfy`): `Fetch`, `mapService`, `getSortType`, `Remove` and `FetchVersions` in `service/usecase.go`.
  - The repository is an interface the model cannot see.
  - Each repository query is a function argument that gives the repository's answer (rows or nil, and an error or nil).

## Model

| member | source | states |
|---|---|---|
| GoStrings.Compare | main.go:103 | strings.Compare yields -1, 0 or 1, and 0 exactly when the strings are equal |
| GoStrings.CompareFlip | main.go:103 | swapping the operands negates the comparison |
| GoStrings.CompareTransitive | main.go:102-104 | "sorts no later than" is transitive, so the comparator is a valid order for sort.Slice |
| GoStrings.LessIsLexicographic | main.go:102-104 | the less function of the sort holds exactly when the first string is a proper prefix of the second or smaller at the first differing position (both directions) |
| GoStrings.ContainsIffOccurs | service/handler.go:205-209 | strings.Contains holds exactly when the fragment occupies some window of the message |
| Sorting.Insert | main.go:101-105 | inserting into an ascending list gives an ascending list holding one more copy of the element |
| Sorting.Sort | main.go:101-105 | the sorted list is ascending and a permutation of the input |
| Sorting.SortedPermutationUnique | main.go:101-105 | two ascending permutations of the same strings are equal, so how the sort orders ties cannot be observed |
| Sorting.SortAscending | main.go:101-105 | sorting a list that is already ascending leaves it unchanged |
| Itinerary.RouteMap | main.go:93-108 | the route map has a key exactly for each ticket origin, every list is ascending, and each list is a permutation of the destinations of that origin's tickets |
| Itinerary.AppendedGroups | main.go:96-99 | after the append loop the keys are the origins and each list holds that origin's destinations in ticket order |
| Itinerary.NoOriginNoDestinations | main.go:96-99 | an airport no ticket leaves collects no destinations |
| Itinerary.RouteMapCounts | main.go:93-108 | for every origin k and destination d, list k holds d as many times as the ticket k->d occurs |
| Itinerary.RouteMapEdges | main.go:93-108 | the route map holds exactly the destinations of the tickets, one per ticket |
| Itinerary.CreateRouteMap | main.go:93-108 | the loops build RouteMap(tickets), an empty request gives the empty map, and the map holds one entry per ticket |
| Itinerary.PopConsumesOne | main.go:83-84 | taking the head of a non-empty list removes exactly that one ticket from the map |
| Itinerary.Walk | main.go:81-90 | one search never adds tickets to the map |
| Itinerary.WalkUnfold | main.go:82-87 | one loop iteration consumes at least one ticket, and the search goes on from the same airport in the map the first leg left |
| Itinerary.WalkKeepsKeys | main.go:81-90 | the search adds no key to the map and removes none |
| Itinerary.WalkShrinksLists | main.go:84 | every list of the map afterwards is a suffix of the list before |
| Itinerary.WalkKeepsSorted | main.go:84 | lists that were ascending stay ascending |
| Itinerary.WalkExhausts | main.go:82 | when the search returns, no ticket leaves the airport it started from |
| Itinerary.WalkEmits | main.go:82-89 | the appended airports plus the tickets left over are the tickets given plus the start airport, and the route grows by one plus the number of tickets used |
| Itinerary.WalkEndsAt | main.go:89 | the last airport appended is the one the search started from |
| Itinerary.RouteSearch.DFSearch | main.go:81-90 | the map becomes Walk's map and the route grows by Walk's airports; keys are kept, lists only lose their front, the start airport has no ticket left, the route grew by 1 plus the tickets used, and it ends with the start airport |
| Itinerary.RouteSearch.constructor | main.go:72-74 | the search starts with the given route map and an empty route |
| Itinerary.ReversedLength | main.go:111-121 | reversal keeps the length |
| Itinerary.ReversedIndex | main.go:111-121 | position k of the reversal holds position n-1-k of the original |
| Itinerary.ReversedTwice | main.go:111-121 | reversing twice gives back the original |
| Itinerary.ReversedPermutes | main.go:111-121 | reversal is a permutation |
| Itinerary.ReverseStrings | main.go:111-121 | the swap loop leaves the array holding the reversal of its old contents |
| Itinerary.ToArray | main.go:75-77 | the route filled by the search is handed to the reversal unchanged |
| Itinerary.RouteMapOrderFree | main.go:93-108 | the same tickets in any order give the same route map: same keys, and each list equal element for element |
| Itinerary.ItineraryOrderFree | main.go:71-78 | the itinerary does not depend on the order of the tickets in the request |
| Itinerary.FindRoutes | main.go:71-78 | the answer is ItineraryOf(tickets, source); it starts at the source and has at most one airport per ticket plus one |
| Itinerary.ItineraryStartsAtSource | main.go:71-78 | the itinerary is non-empty and starts at the source |
| Itinerary.ItineraryLength | main.go:71-78 | the itinerary length plus the tickets left unused is the number of tickets plus one |
| Itinerary.ItineraryUsesTickets | main.go:71-78 | apart from the source, every airport of the itinerary is the destination of its own ticket |
| Itinerary.ItineraryWithoutDepartures | main.go:71-78 | when no ticket leaves the source, the itinerary is the source alone |
| Itinerary.ItineraryNeedNotBeTrail | main.go:71-108 | with tickets a->b and a->c (b before c) the answer from a is a, c, b, which is not a trail through the tickets |
| GoInts.Wrap64 | service/usecase.go:22 | the wrapped value is the int64 congruent to the exact one modulo 2^64, and equal to it when it fits |
| GoInts.WrapProduct | service/usecase.go:22 | wrapping the left factor first does not change the wrapped product |
| Strconv.DigitRun | service/handler.go:58 | the longest prefix made of decimal digits |
| Strconv.ScanUint | service/handler.go:58 | the digit loop of ParseUint never leaves the uint64 range |
| Strconv.ScanUintSpec | service/handler.go:58 | the digit loop returns the value of the leading digits, a range error when that value exceeds uint64 (before any later garbage is seen), and otherwise a syntax error if anything but digits follows |
| Strconv.Atoi | service/handler.go:58 | Atoi yields an int64, and 0 on a syntax error |
| Strconv.FastPathAgrees | service/handler.go:58 | the fast path of Atoi returns what ParseInt returns on every string it handles |
| Strconv.ParseIntOfNumeral | service/handler.go:58 | ParseInt of a signed numeral is its value clamped to int64, with a range error exactly when it does not fit |
| Strconv.AtoiOfNumeral | service/handler.go:58 | Atoi of a signed numeral is its value clamped to int64, with a range error exactly when it does not fit |
| Strconv.AtoiOfNonNumeral | service/handler.go:58 | any other string gives 0 with a syntax error, unless its leading digits exceed uint64; then it gives the int64 bound of its sign with a range error |
| Strconv.AtoiOfDecimal | service/handler.go:58 | Atoi reads back the decimal numeral of every non-negative int64 |
| Handler.StatusCode | service/handler.go:198-214 | the status is one of 200, 404, 409 and 500, and it is 200 exactly when there is no error |
| Handler.StatusOfMessage | service/handler.go:204-213 | 500 exactly when the message mentions "Server Error" or neither "not found" nor "already exist"; 404 exactly when it mentions "not found" and not "Server Error"; 409 exactly when it mentions only "already exist" |
| Handler.NormalizePage | service/handler.go:55-67 | an accepted page is between 1 and the largest int64 with 12 items per page; a rejection is 404 "not valid", and it happens exactly when Atoi yields a negative number |
| Handler.PageOfNumeral | service/handler.go:55-67 | "0" is page 1, a positive numeral is that page (clamped to int64), and a negative numeral is refused |
| Handler.PageOfNonNumeral | service/handler.go:55-67 | a missing or malformed parameter is page 1, unless its leading digits exceed uint64: then it is the last int64 page, or refused when it starts with '-' |
| Handler.PageRoundTrip | service/handler.go:55-67 | the decimal numeral of any page from 1 to the largest int64 is served as that page |
| Usecase.PageOffset | service/usecase.go:22 | the offset is (page-1)*itemsPerPage when that fits in int64, and congruent to it modulo 2^64 in any case |
| Usecase.FirstPageOffset | service/usecase.go:22 | page 1 starts at row 0 |
| Usecase.PagesTile | service/usecase.go:22 | while nothing wraps, page p+1 starts itemsPerPage rows after page p |
| Usecase.LastPageOffsetWraps | service/usecase.go:22 | the largest page the handler accepts wraps around to offset -24 |
| Usecase.Fetch | service/usecase.go:21-35 | the repository is asked for the wrapped offset; its error comes back with a nil list, otherwise the list is every row mapped by mapService, in order, with no error |
| Usecase.MapService | service/usecase.go:132-144 | every column of the row is copied (the version count as the number of versions), and the error is nil |
| Usecase.MapServiceBijective | service/usecase.go:132-144 | a Service record is the image of a row exactly when the row is the record's own columns |
| Usecase.SortType | service/usecase.go:146-156 | the column is id, title or description; title exactly for "title" and description exactly for "description" |
| Usecase.Remove | service/usecase.go:84-94 | Remove answers with exactly the repository's delete error, nil when the delete succeeded |
| Usecase.MapVersion | service/usecase.go:105-109 | id, name and update time are copied, and the creation time is the zero time |
| Usecase.MapVersionForgetsCreation | service/usecase.go:105-109 | two rows give the same Version exactly when they differ at most in their creation time |
| Usecase.FetchVersions | service/usecase.go:96-114 | a nil slice is answered with nil and the repository's error; any other slice, even one that came with an error, is mapped row by row in order, with no error |

## Left out

- The HTTP layer: `main`, `Track` (JSON decoding, the 60-second context), the echo routing and the JSON responses. They are I/O; `findRoutes` is modelled from its arguments.
- The handlers and use cases other than those above: `FetchByID`, `Create`, `Update`, `Delete`, `CreateVersion` and `FetchVersions` in the handler, and the `ServiceInterface` wiring. They only pass values between the repository and HTTP.
- `service/repository.go`, the ent client and the database. Each repository query is a function argument of the model.
- `fmt.Println` output, `context.Context` and cancellation. None of them changes a returned value.
- A ticket with fewer than two elements makes `createRouteMap` panic. A `Ticket` always has an origin and a destination, and elements after the second are ignored as in the source.
- A nil `*ent.Service` or `*ent.Version` in a repository answer makes the mapping panic. Rows are values in the model.
- Itinerary.ItineraryNeedNotBeTrail: the model does not claim that the answer is an Eulerian trail, or the lexicographically smallest one, when one exists. The search emits an airport once its tickets run out, as Hierholzer's algorithm does, but neither property is proved; only the counterexample for a request without a trail is.
- Itinerary.RouteSearch.DFSearch: the depth of Go's recursion stack is not modelled.
- Itinerary.ToArray: `reverseStrings` swaps inside the route slice itself and returns it. The model copies the route into an array, so sharing between the slice and its backing array is not modelled.
- Sorting.Sort: `sort.Slice`'s own algorithm (pattern-defeating quicksort) is not modelled, only its guarantee. By SortedPermutationUnique that guarantee fixes the result.
- Strconv.Atoi: strings are sequences of characters rather than UTF-8 bytes. The byte length only picks between the fast and the slow path, and the two agree (FastPathAgrees).
- GoInts: `int` is taken to be 64 bits wide, as on the platforms Go targets for this service.
- Usecase.SortType: the column names come from the generated `ent/service` package, which is not part of this model. They are taken as "id", "title" and "description", the schema's field names.
- Usecase.PagesTile: stated for non-negative page sizes only; the handler always passes 12.
