# Food web mutation engine

A model of the graph core of a food-web program written in C. The web is an
array of organisms. Each organism has a name and an ordered list of prey
indices, its outgoing predator-to-prey edges. An organism's position in the
array is its identity. Two operations change the web:

- `buildWeb` adds one edge. It checks both indices against `[0, numOrgs)`.
  If one is out of range, it rejects the call and changes nothing. Otherwise
  it appends the prey index to the end of the predator's list. Duplicates and
  self-loops are accepted.
- `extinction` removes one organism. It checks the index the same way. It then
  shifts every later organism down one slot and decrements the count. Last, it
  rebuilds every survivor's prey list: entries equal to the removed index are
  dropped, larger entries are decremented, and order is kept.

The project has two modules:

- `WebSpec` (`web_spec.dfy`) holds the values. It has the `Org` datatype, the
  whole-web invariant `IndicesValid`, and the operations as functions on
  `seq<Org>`: `AddEdge`, `Extinct` and the per-list repair `RepairPrey`. It
  also holds the lemmas about them. There is a reference definition of the
  repair: drop the removed index with `Without`, then renumber. A round trip
  through `Lift`, the inverse renumbering, recovers the filtered list.
- `FoodWeb` (`food_web.dfy`) holds the program's state. Class `Web` keeps an
  `array<Org>` and the live count `numOrgs`. `BuildWeb` and `Extinction`
  update them in place with the source's loops. Each method is proved to
  leave exactly the value its `WebSpec` function gives. `Valid()` includes
  the index-validity invariant, so both methods preserve it. The inner loop of
  the prey-list rebuild is the method `RebuildPreyList`.

The comment at main.c:56-80 asks `extinction` to allocate a fresh, smaller
array, or `NULL` when the last organism goes. The code does neither. It
shifts in place and keeps the old array (main.c:90-95). The model follows the
code: `Extinction` ensures `web == old(web)`, and only the live prefix
`web[..numOrgs]` shrinks.

After an extinction of organism `k`, the value `k` can still occur in prey
lists. It then names the organism formerly at `k + 1`. `RepairPreyEntries`
states this exactly: `Count(RepairPrey(s, k), k) == Count(s, k + 1)`. What no
longer occurs is any reference to the removed organism; `RepairRoundTrip`
states that.

## Model

| member | source | states |
|---|---|---|
| `WebSpec.AddEdge` | main.c:27-41 | Out-of-range indices leave the web equal to the input. In-range indices give the predator its old list with the prey appended at the end and its name kept. Every other organism is unchanged and the web keeps its size. |
| `WebSpec.AddEdgePreservesValid` | main.c:27-41 | Adding an edge keeps every prey entry of every organism inside `[0, numOrgs)`. |
| `WebSpec.AddEdgeKeepsDuplicates` | main.c:33-41 | An accepted edge always adds one more occurrence of the prey index to the predator's list, even if the index is already there or is the predator itself. The count of every other value is unchanged. |
| `WebSpec.InvalidAddEdgeIdempotent` | main.c:27-30 | Repeating a rejected edge insertion still leaves the web as it was. |
| `WebSpec.RepairPrey` | main.c:98-116 | A survivor's new prey count is its old count minus the occurrences of the removed index. |
| `WebSpec.Without` | main.c:101-104 | Reference filter: its length is the old length minus the occurrences of `k`. It holds exactly the old entries other than `k`. |
| `WebSpec.RepairIsRenumberedWithout` | main.c:101-111 | The repaired list equals the old list with the removed index dropped and every remaining entry renumbered, position by position. |
| `WebSpec.RepairRoundTrip` | main.c:98-116 | Mapping the repaired list back to the old numbering gives the old list without the removed index, in the same order. |
| `WebSpec.LiftRenumber` | main.c:105-106 | Decrementing entries above `k` can be undone for every entry other than `k`. |
| `WebSpec.RepairPreyMembers` | main.c:101-111 | `v` is in the repaired list iff `v < k` and `v` was in the old list, or `v >= k` and `v + 1` was in the old list. |
| `WebSpec.RepairPreyEntries` | main.c:101-111 | Entries below `k` are kept. Entries above `k` come back one lower. The new occurrences of `k` are exactly the old occurrences of `k + 1`. |
| `WebSpec.RepairPreyInRange` | main.c:102-106 | If every old entry lies in `[0, n)` and `k` does too, every repaired entry lies in `[0, n - 1)`. |
| `WebSpec.Extinct` | main.c:86-116 | The web shrinks by one. The organism at `p < k` stays at `p`. The organism at `p > k` moves to `p - 1` with its name. Each survivor's prey list is the repair of its own old list, and the removed organism's list is gone. |
| `WebSpec.ExtinctPreservesValid` | main.c:98-116 | If every prey entry indexed the web before an extinction, every prey entry indexes the shrunk web afterwards. |
| `WebSpec.ExtinctionExample` | main.c:45-118 | Concrete case: A eats B and C, B eats C. Removing B gives A eating C at its new index 1, and the names become A and C. |
| `FoodWeb.RebuildPreyList` | main.c:99-115 | The list built by the copy loop is exactly `RepairPrey` of the survivor's old list. |
| `FoodWeb.Web.constructor` | main.c:137-147 | A web of `|names|` organisms, each with its name and an empty prey list. The invariant holds. |
| `FoodWeb.Web.BuildWeb` | main.c:12-42 | Reports success iff both indices lie in `[0, numOrgs)`. The new web is `AddEdge` of the old one, so it is unchanged on rejection. The count stays the same and the invariant is kept. |
| `FoodWeb.Web.Extinction` | main.c:45-118 | Reports success iff `index` lies in `[0, numOrgs)`. On success, the count drops by one and the live organisms are `Extinct` of the old ones. On rejection, both are unchanged. The same array is kept and the invariant is preserved. |

## Left out

- `main` (main.c:129-244) is not modelled: it reads counts, names and index pairs with `scanf`, prints prompts and reports, and frees memory. The constructor stands in for its set-up loop (main.c:137-147). Note that main.c:201 reads `web[extInd].name` before `extinction` checks the index.
- `printPrey` (main.c:121-127) only formats output.
- The apex-predator, producer, most-flexible-eater, tastiest-food, height and vore-type reports are not modelled. The source has only `//TODO` comments for them (main.c:171-195, 210-234).
- The rejection messages printed by `printf` (main.c:28, 82) become the `ok: false` result of `BuildWeb` and `Extinction`.
- Memory management is not modelled: `malloc`, `realloc`, `free`, and `NULL` versus an allocated buffer. An empty `seq` stands for a `NULL` prey list. A zero-length array stands for the `NULL` web that `main` keeps when there are no organisms (main.c:137-140).
- Names are opaque strings. The fixed 20-character buffer and its unbounded `scanf("%s")` fill (main.c:6, 144) are not modelled.
- `int` overflow is not modelled: indices and counts are unbounded integers. Every index the code stores has been checked against the count first.
- The C `buildWeb` takes the count `numOrg` as an argument. The model reads it from the object instead, because `main` always passes the live count (main.c:159).
