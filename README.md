# Nikrome race map: checkpoint table and route fallback

This project models the logic of the `NikromeMap` Angular component of a
single-page race map (a half marathon up the Mont Ventoux). The component
loads a results table (`headers` and rows of string cells). When the user
clicks a checkpoint popup, `openModal` builds a modal table from it:

- it finds the columns by name with `indexOf`;
- it replaces the generic `Temps` column with the clicked checkpoint's column;
- it projects every row onto five columns;
- it splits the projected rows into men and women using the original row's
  `Class/Sx` cell, which must contain `(M)` or `(F)`;
- it counts the runners whose checkpoint cell holds a time (not empty, and
  not `--` after trimming);
- it titles the modal `"<checkpoint> - <withTime>/<total>"`.

`drawRouteAlongRoads` asks the OSRM routing service for a road route through
the checkpoints. If the answer has `code === 'Ok'` and a non-empty `routes`
list, it draws the first route solid, with each `[lng, lat]` pair swapped to
`[lat, lng]`. In every other case, including any exception, it draws a dashed
straight line through the checkpoints in their order.

Modules:

- `Wrappers`: `Option`, standing for a JavaScript value that may be `undefined`.
- `JsText`: the JavaScript built-ins used:
  - `Array.prototype.indexOf`;
  - element reads (`row[idx]`, which gives `undefined` outside the array, -1 included);
  - `String.prototype.includes`;
  - `String.prototype.trim`, with the ECMAScript whitespace and line-terminator set;
  - decimal rendering of a count inside a template literal.
- `CheckpointFilter`: the computation inside `openModal`, as functions on
  sequences, with the lemmas about it.
- `RouteRenderer`: the path choice of `drawRouteAlongRoads`, as a function of
  how the lookup settled.
- `NikromeMapComponent`:
  - the class `NikromeMap`, with the component's fields and its methods that
    update them;
  - a `MapSurface` class that records the polylines added to the map.

The one in-place step of `openModal`, `headerIndices[1] = columnIndex`, is
kept as an array write in `NikromeMap.OpenModal`.

Behaviour of the code that a reader might not expect, proved in the model:

- A checkpoint name missing from the header is not a no-op. The modal
  still opens, every time cell is `undefined`, and the count is 0
  (`AbsentCheckpointCountsNobody`). Only missing data makes the click a no-op.
- A row whose `Class/Sx` cell has neither marker is in neither group
  (`UnmarkedRowInNoGroup`, with the one-row instance `UnmarkedRowExample`).
- A row whose `Class/Sx` cell has both markers is in both groups
  (`DoublyMarkedRowInBothGroups`). So the two groups together can hold more
  rows than the data (`DoublyMarkedRowExample`). The bound "men + women ≤ total" does not
  hold for this code. Each group alone is bounded by the total.
- A route whose `geometry.coordinates` is missing makes the property read
  throw inside the `try`. The `catch` then draws the dashed fallback.

## Model

| member | source | states |
|---|---|---|
| `JsText.IndexOf` | src/app/nikrome-map/nikrome-map.ts:101-104 | the result is -1 exactly when the value is absent; otherwise it is a position holding the value with no earlier occurrence |
| `JsText.IndexOfFirst` | src/app/nikrome-map/nikrome-map.ts:101-104 | the first position holding a value is the one returned |
| `JsText.IncludedCharsOccur` | src/app/nikrome-map/nikrome-map.ts:117 | every character of an included pattern occurs in the string |
| `JsText.IncludesIffOccurs` | src/app/nikrome-map/nikrome-map.ts:117 | `Includes` is true exactly when the pattern occurs at some position of the string |
| `JsText.Trim` | src/app/nikrome-map/nikrome-map.ts:131 | the trimmed string is empty or starts and ends with a non-whitespace character, and is no longer than the input |
| `JsText.TrimPadded` | src/app/nikrome-map/nikrome-map.ts:131 | trimming a core padded by whitespace on both sides gives back exactly that core |
| `JsText.TrimIdempotent` | src/app/nikrome-map/nikrome-map.ts:131 | trimming twice is trimming once |
| `JsText.NatToString` | src/app/nikrome-map/nikrome-map.ts:134 | a rendered count is a non-empty string of decimal digits with no leading zero |
| `JsText.DecimalValueOfNatToString` | src/app/nikrome-map/nikrome-map.ts:134 | reading the rendered digits back gives the count |
| `JsText.NatToStringInjective` | src/app/nikrome-map/nikrome-map.ts:134 | distinct counts render differently |
| `CheckpointFilter.Indices` | src/app/nikrome-map/nikrome-map.ts:114-125 | the kept positions are strictly increasing, in range, all marked, and include every marked position |
| `CheckpointFilter.Select` | src/app/nikrome-map/nikrome-map.ts:114-125 | an index-based `filter` keeps exactly the elements at the marked positions, in their original order |
| `CheckpointFilter.IndicesNone` | src/app/nikrome-map/nikrome-map.ts:129-132 | a filter whose test never passes keeps nothing |
| `CheckpointFilter.IndicesComplement` | src/app/nikrome-map/nikrome-map.ts:128-132 | the rows a test keeps and the rows its negation keeps add up to all rows |
| `CheckpointFilter.HeaderIndicesListed` | src/app/nikrome-map/nikrome-map.ts:101-106 | `HeaderIndices` lists the column indices of `Nom`, the checkpoint (in place of `Temps`), `Class/Sx`, `Class/Cat` and `Vit.`, in that order |
| `CheckpointFilter.ProjectedRowShape` | src/app/nikrome-map/nikrome-map.ts:101-111 | every row of `ProjectAll` has five cells; slot 1 holds the clicked checkpoint's cell; every other slot holds the cell under the column named `Nom`, `Class/Sx`, `Class/Cat` or `Vit.` |
| `CheckpointFilter.ProjectedRowValues` | src/app/nikrome-map/nikrome-map.ts:101-111 | when rows are as long as the header and every named column exists, each projected cell is present and is the row's value under the first column of that name |
| `CheckpointFilter.GroupIsMarkedRows` | src/app/nikrome-map/nikrome-map.ts:113-125 | a `Group` (its `ProjectAll` filtered by the marker mask) is the projections of exactly the rows whose `Class/Sx` cell is present, non-empty and contains the marker, in original order, and it is no longer than the data |
| `CheckpointFilter.GroupsBounded` | src/app/nikrome-map/nikrome-map.ts:113-125 | the men's and the women's groups of `CheckpointView` are each no longer than the data |
| `CheckpointFilter.RunnersWithTimeSplit` | src/app/nikrome-map/nikrome-map.ts:127-132 | `RunnersWithTime` is at most the total, and with the runners without one they make up the total |
| `CheckpointFilter.RunnersWithTimeCountsTimedRows` | src/app/nikrome-map/nikrome-map.ts:127-132 | a row is counted by `RunnersWithTime` exactly when its checkpoint cell (`CellAt`) is present, non-empty and not `--` after trimming |
| `CheckpointFilter.AbsentCheckpointCountsNobody` | src/app/nikrome-map/nikrome-map.ts:101-132 | for a checkpoint missing from the header, nobody is counted and every projected time cell is `undefined` |
| `CheckpointFilter.ViewHeaders` | src/app/nikrome-map/nikrome-map.ts:102 | the headers of `CheckpointView` are `Nom`, `Temps`, `Class/Sx`, `Class/Cat`, `Vit.`, whatever the data |
| `CheckpointFilter.TitleDeterminesCounts` | src/app/nikrome-map/nikrome-map.ts:134 | two `Title`s for one checkpoint are equal only when both counts are equal |
| `CheckpointFilter.DigitsSlashSplit` | src/app/nikrome-map/nikrome-map.ts:134 | the two counts joined by a slash in the title can be split back apart |
| `CheckpointFilter.MarkedRowShown` | src/app/nikrome-map/nikrome-map.ts:113-125 | the projection of any row whose `Class/Sx` cell contains the marker is an element of that marker's `Group` |
| `CheckpointFilter.UnmarkedRowInNoGroup` | src/app/nikrome-map/nikrome-map.ts:113-125 | in any table, a row whose `Class/Sx` cell has neither marker is kept by neither the men's nor the women's filter |
| `CheckpointFilter.DoublyMarkedRowInBothGroups` | src/app/nikrome-map/nikrome-map.ts:113-125 | in any table, a row whose `Class/Sx` cell has both markers is kept by both filters and its projection is in both groups |
| `CheckpointFilter.UnmarkedRowExample` | src/app/nikrome-map/nikrome-map.ts:113-125 | on a one-row table whose `Class/Sx` cell is `7`, both groups are empty |
| `CheckpointFilter.DoublyMarkedRowExample` | src/app/nikrome-map/nikrome-map.ts:113-125 | on a one-row table whose `Class/Sx` cell is `(M)(F)`, men plus women is 2, more than the one row |
| `CheckpointFilter.StEsteveExample` | src/app/nikrome-map/nikrome-map.ts:98-137 | on a two-runner table, `CheckpointView` for `StEsteve` gives the man's row with his checkpoint time, the woman's row, and the title `StEsteve - 1/2` |
| `RouteRenderer.SwapAxes` | src/app/nikrome-map/nikrome-map.ts:154 | one output pair per input pair, each with its two coordinates exchanged |
| `RouteRenderer.StraightLine` | src/app/nikrome-map/nikrome-map.ts:166 | one vertex per checkpoint, in order, latitude first |
| `RouteRenderer.RoutedPath` | src/app/nikrome-map/nikrome-map.ts:152-162 | with an `Ok` code and a first route with coordinates, the `RoutePath` line is solid and its vertex i is the swapped pair i of that route |
| `RouteRenderer.FallbackPath` | src/app/nikrome-map/nikrome-map.ts:163-185 | otherwise (an exception, another code, no routes, missing coordinates) the `RoutePath` line is dashed and passes through the checkpoints in order, one vertex each |
| `RouteRenderer.SwapAxesInvolution` | src/app/nikrome-map/nikrome-map.ts:154 | swapping the axes twice gives back the input pairs |
| `RouteRenderer.RoutedPathRecoversResponse` | src/app/nikrome-map/nikrome-map.ts:152-154 | the solid `RoutePath` line, swapped back, is exactly the route OSRM returned |
| `RouteRenderer.SwapExample` | src/app/nikrome-map/nikrome-map.ts:152-154 | the route `[[5.0,44.0],[5.1,44.1]]` is drawn as `[[44.0,5.0],[44.1,5.1]]` |
| `NikromeMapComponent.NikromeMap.constructor` | src/app/nikrome-map/nikrome-map.ts:19-25 | the modal starts closed and empty, with no data loaded |
| `NikromeMapComponent.NikromeMap.ReceiveRunnerData` | src/app/nikrome-map/nikrome-map.ts:30-31 | the loaded data is stored and the modal fields are untouched |
| `NikromeMapComponent.NikromeMap.OpenModal` | src/app/nikrome-map/nikrome-map.ts:98-137 | without data nothing changes and the modal stays closed; with data the title, headers and both groups become the checkpoint's view of the data, the modal opens, and the data is not modified |
| `NikromeMapComponent.NikromeMap.CloseModal` | src/app/nikrome-map/nikrome-map.ts:139-141 | only `isModalOpen` changes, to false |
| `NikromeMapComponent.NikromeMap.DrawRouteAlongRoads` | src/app/nikrome-map/nikrome-map.ts:143-187 | exactly one polyline is added: the road route when usable, otherwise the dashed straight line |
| `NikromeMapComponent.MapSurface.AddPolyline` | src/app/nikrome-map/nikrome-map.ts:157-162 | the polyline is appended to those already on the map |
| `NikromeMapComponent.OpenModalTwice` | src/app/nikrome-map/nikrome-map.ts:98-137 | without data two clicks change nothing; with data a second click on the same checkpoint leaves the modal as the first click left it, the checkpoint's view of the data; the data is never modified |

## Left out

- Map set-up in `initMap` is not modelled: the tile layer, icons, markers, popups, `featureGroup` and `fitBounds`. These are calls into the Leaflet global `L`.
- The deferred DOM query that wires popup clicks to checkpoints by position is not modelled. It is event scheduling and DOM plumbing. `OpenModal` takes the checkpoint name as a parameter.
- The HTTP load of the dataset and the OSRM `fetch` and `response.json()` are network I/O. Only their outcomes are modelled: `ReceiveRunnerData` takes the parsed dataset, and `DrawRouteAlongRoads` takes a `Response`. `initMap`, which the load callback also starts, is not modelled.
- Building the OSRM URL is not modelled. It formats floating-point coordinates as text.
- The polyline style constants (colour, weight, opacity, line join) and the `console.error` logging are not modelled. The only style kept is the `dashed` flag.
- The modal presentational component, the route table and the scraping script `test.js` are not part of this model.
- OSRM bodies of unexpected shape are only partly modelled. A `null` body makes `data.code` throw, which is the `Threw` case. A `routes` value that is not an array, and coordinate entries that are not number pairs, are outside the model.
- Strings are sequences of Unicode scalar values, not UTF-16 code units. This does not change `includes` with the ASCII markers, and it does not change `trim`, whose whitespace characters are all single code units.
- Coordinates are `real`. Nothing is computed on them; they are only reordered.
