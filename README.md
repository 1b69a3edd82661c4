# Madrid metro graph and several-routes search

A Dafny model of `nuevo.py`, the program that builds an undirected, attributed graph of the Madrid
metro and then lists several cheapest routes between two stations by name.

The graph has three parts. Nodes are station codes, normalised with `strip().upper()`, each with
its display name. Edges are kept in a map from the unordered pair of codes (`{a, b}`) to an edge
record. A node colour map completes the graph.

The pair map gives at most one edge per pair, as in a `networkx.Graph`. Each edge record holds four
attributes: `transfer` (`transbordo`), `line` (`linea`), `time` (`tiempo`) and `color`. A repeated
`add_edge` merges into the existing record; the model writes that merge out.

Modules:

- `Wrappers` is the optional value used for `dict.get` and for parses that fail.
- `Text` covers Python's `str.strip`, `str.upper`, `str.split`, `int()` and the `"h:m:s"` duration
  parse of the time builder.
- `Order` covers Python's comparison of strings and lists (the order of the heap's `(cost, path)`
  tuples) and a stable sort by an integer key.
- `Network` holds the edge record, the builders and the class `Metro`. `Metro`'s methods update the
  graph in place, in the order the program calls them: `constructor`, then `AddSegments`,
  `AddTimes`, `AddTransfers`, `AddManualTransfer`, `AddBranch` and `ColorNodes`.
  - Each method's new state is tied to a pure function of the old state.
  - Link and time writes are an ordered fold, so the last write wins.
  - Transfer and branch writes are a set of pairs stamped at once. Their loops go over groups, whose
    order does not matter.
- `Routing` holds the search: one best-first enumeration of simple paths per (origin alias,
  destination alias) pair, over a heap modelled as a set of `(cost, path)` entries. All pairs share
  one cap of `count` routes. It also covers the route listing: ranking by time, times per leg, and
  minutes and seconds.

Behaviour of the program worth noting:

- A walking transfer between two namesake codes also overwrites an existing line edge between
  them: it sets `transfer` and `time := 240` and keeps the line and colour (`nuevo.py:95`).
- A time row whose codes are both nodes but have no edge creates one: `transfer` false, no line,
  colour `gray` (`nuevo.py:85`).
- Names are looked up upper-cased but not trimmed. The name-to-codes map is keyed by the raw name
  (`nuevo.py:91, 99, 131`).
- `int()` skips only tab, line feed, vertical tab, form feed, carriage return and space around an
  ASCII field, not the separators U+001C to U+001F that `strip()` removes (`Text.IsIntSpace`). A time
  cell led by one of them is rejected, and its row skipped.
- A time cell must be plain `HH:MM:SS` text (`Text.DurationOfDigits`). A pandas time difference
  written as text, such as `0 days 00:01:30`, is rejected, because its first field `0 days 00` is
  not an integer (`Text.DurationDaysRejected`). A table holding only such cells would add no time.
- Times may be negative: `int()` accepts a sign. The cost-order properties of the search are
  therefore stated under `NonNegative(edges)`.
- Branch edges get no time of their own (`nuevo.py:113`). A missing time counts as 0 in the search.
- The search has no global bound on explored paths and no deduplication across alias pairs. Its
  only cap is the number `count` of routes collected.
  - Termination is proved from the finite number of simple paths over the nodes.
  - The `visitados` test never fires, because each path is pushed at most once. The model proves
    this with an assertion and keeps `visited` as ghost state.

## Model

| member | source | states |
|---|---|---|
| Text.StripLeft | nuevo.py:45 | Python's `str.lstrip()`: drops the leading characters that `isspace` accepts |
| Text.StripRight | nuevo.py:45 | Python's `str.rstrip()`: drops the trailing characters that `isspace` accepts |
| Text.Strip | nuevo.py:45 | Python's `str.strip()` with no argument: `rstrip` of `lstrip` |
| Text.Normalize | nuevo.py:45 | `str(x).strip().upper()`, the normalisation of every station code |
| Text.IsIntSpace | nuevo.py:75 | the space `int()` skips around its digits: `isspace` without U+001C to U+001F |
| Text.ParseInt | nuevo.py:75 | Python's `int(s)`: optional sign, ASCII digits with single underscores between them, surrounding space other than U+001C to U+001F; `None` where `int()` raises `ValueError` |
| Text.ParseDuration | nuevo.py:74-79 | the `try` block of the time builder: split on `:`, exactly three fields, each read by `int()`, combined as `h*3600 + m*60 + s`; `None` for the `ValueError` branch |
| Text.StripLeftShape | nuevo.py:45 | `lstrip` drops exactly a prefix of whitespace and stops at a non-space character or at the end |
| Text.StripRightShape | nuevo.py:45 | `rstrip` drops exactly a suffix of whitespace and stops at a non-space character or at the start |
| Text.StripShape | nuevo.py:45 | the result of `strip()` neither starts nor ends with whitespace |
| Text.UpperChar | nuevo.py:45 | an upper-cased character is not lower case, and is whitespace exactly when the original was |
| Text.Upper | nuevo.py:45 | `upper()` keeps the length and leaves no lower-case letter |
| Text.NormalizeShape | nuevo.py:45 | a normalised code is trimmed and has no lower-case letter |
| Text.StripTrimmed | nuevo.py:45 | `strip()` leaves a trimmed string unchanged |
| Text.UpperNoLower | nuevo.py:45 | `upper()` leaves a string with no lower-case letter unchanged |
| Text.NormalizeIdempotent | nuevo.py:90 | normalising an already normalised code changes nothing, so the transfer builder's re-normalisation of the table is harmless |
| Text.StripLeftSpaces | nuevo.py:45 | leading whitespace does not change `lstrip`'s result |
| Text.StripRightSpaces | nuevo.py:45 | trailing whitespace does not change `rstrip`'s result |
| Text.StripLeftAppend | nuevo.py:45 | once `lstrip` has reached a non-space, appending text just extends the result |
| Text.NormalizeIgnoresPadding | nuevo.py:45 | codes that differ only in surrounding whitespace name the same node |
| Text.Split | nuevo.py:75 | `split(':')` always yields at least one field |
| Text.SplitCount | nuevo.py:75 | `split` yields one more field than there are separators |
| Text.SplitPieces | nuevo.py:75 | no field contains the separator, and joining the fields gives back the string |
| Text.SplitAfterField | nuevo.py:75 | a separator-free first field followed by the separator splits off as the first field |
| Text.SplitLastField | nuevo.py:75 | a string without the separator splits into itself alone |
| Text.SplitJoin | nuevo.py:75 | splitting the join of separator-free fields gives back those fields |
| Text.DigitsAreBody | nuevo.py:75 | a non-empty run of ASCII digits is a digit string `int()` accepts |
| Text.DigitChar | nuevo.py:75 | the character of a digit value is a digit with that value |
| Text.NatText | nuevo.py:75 | the decimal text of a number is a non-empty run of digits |
| Text.DigitsValueNatText | nuevo.py:75 | reading the decimal text of `n` digit by digit gives `n` |
| Text.ParseIntNatText | nuevo.py:75 | `int()` of the decimal text of `n` is `n` |
| Text.ParseIntNegative | nuevo.py:75 | `int()` of `-` followed by the decimal text of `n` is `-n` |
| Text.SplitThree | nuevo.py:75 | `a:b:c` with colon-free fields splits into exactly `[a, b, c]` |
| Text.NatTextHasNoColon | nuevo.py:75 | decimal text never contains `:` |
| Text.ParseIntDigits | nuevo.py:75 | `int()` of a non-empty run of ASCII digits, leading zeros included, is its decimal value |
| Text.ParseIntSeparator | nuevo.py:75-78 | `int()` rejects a field led by U+001C, which `isspace` counts as space but the integer parser does not skip |
| Text.DurationOfDigits | nuevo.py:74-76 | three runs of ASCII digits `HH:MM:SS`, zero-padded or not, convert to `HH*3600 + MM*60 + SS` seconds |
| Text.DurationDaysRejected | nuevo.py:74-79 | a cell written as `0 days 00:01:30` raises `ValueError` (`None`), so its row is skipped |
| Text.DurationPadded | nuevo.py:74-76 | the zero-padded cell `00:01:30` converts to 90 seconds |
| Text.DurationOfFields | nuevo.py:74-76 | the text `h:m:s` of any three naturals converts to `h*3600 + m*60 + s` seconds |
| Text.DurationNeedsThreeFields | nuevo.py:75-79 | a string without exactly two colons raises `ValueError` (`None`), so its row is skipped |
| Order.LexIrreflexive | nuevo.py:147 | Python's sequence `<` over a strict total order is irreflexive |
| Order.LexTransitive | nuevo.py:147 | Python's sequence `<` over a strict total order is transitive |
| Order.LexTotal | nuevo.py:147 | two different sequences are comparable under Python's sequence `<` |
| Order.PrefixLexLess | nuevo.py:147 | a proper prefix compares below the sequence it starts |
| Order.LexOrder | nuevo.py:147 | the lexicographic extension of a strict total order is a strict total order |
| Order.StrLessOrder | nuevo.py:147 | Python's `str < str` is a strict total order |
| Order.PathLessOrder | nuevo.py:147 | Python's `<` on lists of codes, the heap's tie-break, is a strict total order |
| Order.InsertBy | nuevo.py:50 | inserting one element adds one to the length |
| Order.InsertByMultiset | nuevo.py:50 | insertion adds exactly the element inserted |
| Order.InsertBySorted | nuevo.py:50 | insertion into a sorted sequence keeps it sorted |
| Order.InsertByWithKey | nuevo.py:50 | insertion puts the new element after every element with the same key |
| Order.SortBy | nuevo.py:50 | the stable sort keeps the length, sorts by key, is a permutation, and keeps equal-key elements in input order |
| Network.LinkEdge | nuevo.py:59-64 | the segment `add_edge`: `transfer` false, line `L` + the line number, that line's colour or `gray`; the time kept |
| Network.TimeEdge | nuevo.py:81-85 | the time write: sets `time` on an existing edge, or creates a gray edge with no line and `transfer` false |
| Network.Stamp | nuevo.py:95-113 | the transfer `add_edge` (`transfer` true, time 240) or the branch one (`transfer` false, line `R` and its colour); other attributes kept |
| Network.SegmentWrites | nuevo.py:50-56 | one itinerary's stops sorted by sequence number, then each stop linked to the next on the earlier stop's line |
| Network.TimeWrites | nuevo.py:67-79 | one time write per row whose duration parses, in row order, between the row's two normalised codes |
| Network.Stamped | nuevo.py:92-95 | every pair of a set stamped once, every other edge kept |
| Network.CrossPairs | nuevo.py:99-101 | every pair of a code of one list with a code of the other, both nodes |
| Network.NamesakePairs | nuevo.py:91-94 | the pairs `i < j` of each name's group whose codes are both nodes, as `combinations(codigos, 2)` with the `has_node` guard |
| Network.OnlyTransfers | nuevo.py:105-106 | `solo_transbordos`: every edge at the code is a transfer, vacuously for an isolated code |
| Network.BranchPairs | nuevo.py:108-113 | the cross pairs of the qualifying origin aliases and the qualifying destination aliases, judged on the graph before the call |
| Network.Branched | nuevo.py:104-113 | `agregar_ramal`: the branch pairs stamped with line `R` |
| Network.LinesAt | nuevo.py:120-125 | the lines of the non-transfer edges at a node, `None` discarded |
| Network.NodeColor | nuevo.py:126 | the colour of a node's one line, or `#444444` for none or several |
| Network.Colors | nuevo.py:118-126 | `asignar_color_nodos`: `NodeColor` for every node |
| Network.Aliases | nuevo.py:99 | the name-to-codes lookup of the upper-cased name, `[]` for an unknown name |
| Network.StampIdempotent | nuevo.py:95 | re-adding a transfer or branch edge with the same attributes changes nothing |
| Network.ApplyWrites | nuevo.py:58-85 | line and time writes never remove an edge, and only create edges between nodes |
| Network.ApplyWritesAppend | nuevo.py:49-85 | applying two batches of writes is applying the first, then the second |
| Network.ApplyWritesFrame | nuevo.py:81-85 | a pair no write applies to keeps its edge, or its absence |
| Network.LastWriteWins | nuevo.py:82-83 | a pair's final edge is its last applicable write over the edge that write found |
| Network.LinkTimeCommute | nuevo.py:83 | setting a time keeps the line attributes and setting line attributes keeps the time, in either order |
| Network.LinkWrites | nuevo.py:54-56 | an itinerary of `n` stops gives `n - 1` consecutive pairs, none for fewer than two stops |
| Network.SegmentWritesLink | nuevo.py:50-62 | the `i`-th write of an itinerary links its `i`-th and `i+1`-th stops by stop order, with the line `"L"` + the line of the `i`-th stop |
| Network.TimeWritesAppend | nuevo.py:67 | time rows are processed one after another, each independently |
| Network.TimeWritesSkip | nuevo.py:77-79 | a row whose duration does not parse contributes nothing |
| Network.MalformedRowIgnored | nuevo.py:72-79 | removing a malformed time row leaves the resulting graph exactly as it was |
| Network.TimedRowSetsTime | nuevo.py:80-85 | a row read as `t` seconds between two nodes leaves their pair with time `t`: an existing edge keeps its other attributes, a missing one becomes a gray edge with no line, and no other pair changes |
| Network.StampedNothing | nuevo.py:92-95 | stamping no pairs changes nothing |
| Network.StampedOne | nuevo.py:95 | stamping one pair rewrites only that pair's edge |
| Network.StampedUnion | nuevo.py:92-95 | stamping two sets of pairs one after the other is stamping their union |
| Network.CrossPairsSnoc | nuevo.py:99 | the cross pairs of one more origin code are the old ones plus that code's pairs |
| Network.CrossPairsRowSnoc | nuevo.py:100-101 | one more destination code adds its pair exactly when both codes are nodes |
| Network.GroupByName | nuevo.py:91 | every group of the name-to-codes map is non-empty |
| Network.GroupByNameSpec | nuevo.py:91 | a name has a group exactly when some row has it, and the group lists those rows' codes in row order |
| Network.NodeNames | nuevo.py:44-46 | every normalised code of the table is a node |
| Network.NodeNamesFromRows | nuevo.py:44-46 | every node comes from some row of the table |
| Network.NodeNamesLastRow | nuevo.py:44-46 | a node's name is that of the last row with its code |
| Network.Qualifying | nuevo.py:105-109 | an alias qualifies for the branch exactly when every edge at it is a transfer (vacuously so for an isolated node) |
| Network.NodeColorOneLine | nuevo.py:120-126 | a node touched by exactly one line `l` through non-transfer edges gets `l`'s colour, `#444444` when `l` has none |
| Network.NodeColorNotOneLine | nuevo.py:120-126 | a node touched by no line or by several gets `#444444` |
| Network.NodeColorLocal | nuevo.py:120-124 | a node's colour depends only on the edges at that node |
| Network.NewWalkKeepsColors | nuevo.py:120-124 | a new transfer edge changes no node's colour |
| Network.NamesakePairsAdd | nuevo.py:92-95 | the pairs of one more group are the old pairs plus the pairs within that group |
| Network.CodesNamedHas | nuevo.py:91 | every row's code appears in the group of its name |
| Network.CodesNamedPair | nuevo.py:91-93 | two rows with the same name give two codes of the group, in row order (a pair of `combinations`) |
| Network.NamesakesJoined | nuevo.py:89-96 | after the transfer builder, two namesake codes that are nodes have an edge with `transfer` set, time 240, and line and colour kept from before |
| Network.CrossJoined | nuevo.py:98-102 | after the manual transfer, every cross pair of node aliases of the two names is a transfer edge with time 240 |
| Network.ManualUnknownName | nuevo.py:99-100 | the manual transfer with an unknown name changes nothing |
| Network.BranchEdgeShape | nuevo.py:108-113 | each branch pair joins a qualifying origin alias to a qualifying destination alias, and ends with `transfer` false, line `R` and its earlier time |
| Network.BranchQualifiersShrink | nuevo.py:105-113 | a code that qualifies after branch edges qualified before, and none of those edges touches it |
| Network.CrossPairsNone | nuevo.py:101 | origin codes that are not nodes yield no pairs |
| Network.BranchTwice | nuevo.py:104-113 | a second call of the branch builder adds and changes nothing |
| Network.Metro.constructor | nuevo.py:42-47 | the graph starts with a node per normalised code, named by its last row, and no edges or colours |
| Network.Metro.AddSegments | nuevo.py:49-64 | the edges become the line writes of every itinerary applied in order |
| Network.Metro.LinkStops | nuevo.py:54-64 | the edges become the line writes of the consecutive stops applied in order |
| Network.Metro.AddTimes | nuevo.py:66-85 | the edges become the time writes of the rows that parse, applied in order |
| Network.Metro.WriteTimes | nuevo.py:67-85 | the same, with the duration parse given as a parameter |
| Network.Metro.WriteTime | nuevo.py:68-85 | one row: a time is set on an existing edge, an edge is created, or nothing happens |
| Network.Metro.StampWithin | nuevo.py:93-95 | every pair of distinct node codes of a group becomes a transfer edge, and no other pair changes |
| Network.Metro.StampCross | nuevo.py:99-102 | every cross pair of node codes is stamped, and no other pair changes |
| Network.Metro.StampRow | nuevo.py:100-102 | one origin code's row of cross pairs is stamped |
| Network.Metro.AddTransfers | nuevo.py:89-96 | returns the name-to-codes map, and stamps every namesake pair of nodes as a transfer edge |
| Network.Metro.AddManualTransfer | nuevo.py:98-102 | stamps every cross pair of the two names' node aliases as a transfer edge |
| Network.Metro.AddBranch | nuevo.py:104-113 | joins every qualifying origin alias to every qualifying destination alias, qualification judged before any edge is added |
| Network.Metro.ColorNodes | nuevo.py:118-126 | every node's colour becomes the colour of its lines |
| Routing.EntryLess | nuevo.py:147 | Python's `<` on `(cost, path)` tuples: cost first, then the paths as lists of strings |
| Routing.Weight | nuevo.py:162 | `G[a][b].get("tiempo", 0)`: the edge's time, 0 when it has none |
| Routing.PathCost | nuevo.py:162 | the accumulated cost of a path: the sum of its edges' weights |
| Routing.Neighbors | nuevo.py:159 | `G.neighbors(n)`: the nodes that share an edge with `n` |
| Routing.Children | nuevo.py:159-162 | the entries pushed for a popped path: one per neighbour of its last code not on the path, at the cost plus that edge's weight |
| Routing.EntryLessOrder | nuevo.py:147 | the heap's `(cost, path)` order is a strict total order, so its minimum is unique |
| Routing.PopMin | nuevo.py:147 | `heappop` returns an entry of the heap below every other entry |
| Routing.PathCostPrefix | nuevo.py:161-162 | with no negative time, a path costs at least as much as any prefix |
| Routing.WalkExtend | nuevo.py:159-162 | a simple path extended by an adjacent node not on it is a simple path whose parent is the original |
| Routing.Expand | nuevo.py:159-162 | the inner loop pushes exactly one child per neighbour not already on the path |
| Routing.InitialState | nuevo.py:145-146 | the heap holding only the origin, at cost 0, satisfies every search invariant |
| Routing.StepQueue | nuevo.py:147-162 | after one pop, every queued entry is a simple path from the origin with its cost, not popped yet, whose parent was popped |
| Routing.StepBatch | nuevo.py:151-157 | the collected routes stay exactly the popped paths that reach the destination, each collected once |
| Routing.NoEarlyArrival | nuevo.py:155-157 | no proper prefix of a simple route reaches the destination |
| Routing.StepCover | nuevo.py:147-162 | every simple path from the origin stays popped, has a queued prefix, or is cut off by a prefix that reached the destination |
| Routing.ChildCovered | nuevo.py:159-162 | a path going one node beyond the popped path has that prefix queued |
| Routing.StepOrder | nuevo.py:147-162 | with no negative time, collected routes stay in cost order and no dearer than any queued entry |
| Routing.Step | nuevo.py:147-162 | one iteration keeps all invariants and pops a simple path not popped before |
| Routing.ExhaustedFindsAll | nuevo.py:149 | when the heap runs dry, every simple route from the origin to the destination has been collected |
| Routing.UncollectedCostMore | nuevo.py:147-162 | with no negative time, a route not collected costs at least as much as every collected one |
| Routing.DistinctInArrangements | nuevo.py:160 | a simple path over the nodes is one of the finitely many arrangements of nodes |
| Routing.SearchPair | nuevo.py:144-162 | one alias pair: at most `room` routes, each a simple route from `o` to `d` with its cost, all distinct; all routes when fewer than `room`; with no negative time in cost order, and no route left out is cheaper |
| Routing.SearchDone | nuevo.py:149-162 | the invariants at loop exit give the pair search's guarantees: soundness, completeness when the heap ran dry, cost order |
| Routing.AppendBatch | nuevo.py:143-156 | appending a pair's routes keeps the per-pair guarantees, the cap and completeness |
| Routing.SearchOrigin | nuevo.py:144-162 | one origin alias searched against every destination alias in order |
| Routing.Untag | nuevo.py:143-156 | with duplicate-free alias lists, routes with the same two ends come from the same pair search |
| Routing.FindRoutes | nuevo.py:130-162 | unknown origin or destination name; otherwise at most `count` routes; each a simple path between an origin and a destination alias, with its cost; when fewer than `count`, every such route; with duplicate-free aliases, all distinct, and with no negative time, routes with the same ends in cost order |
| Routing.CodesNamedAreNodes | nuevo.py:91 | every code of a name's group is a node of the graph built from the same rows |
| Routing.AliasesAreNodes | nuevo.py:230-246 | in the program, every alias of a name is a node, as the search requires |
| Routing.Ranked | nuevo.py:167 | the listing order is sorted by time, is a permutation of the routes found, and keeps ties in collection order |
| Routing.MinutesSeconds | nuevo.py:168 | `t // 60` and `t % 60` split `t` into minutes and a remainder in `[0, 60)` |
| Routing.LegsSum | nuevo.py:172-175 | the leg times of a route add up to its cost |
| Routing.Report | nuevo.py:169-176 | for a path of nodes, each stop's name, the time of each leg, and the running total, which ends at the route's cost |

## Left out

- File reading (`cargar_datos`), the `input` loop of `main`, plotting (`dibujar_grafo`,
  `obtener_posiciones`) and its geometry. They are I/O and floating point.
- `print` calls are reduced to the values they show: the outcome of a search, the ranked routes
  and the report of one route. The number formatting of the minutes and seconds is left out, as is
  the warning printed for a time row whose duration does not parse (`nuevo.py:78`); the row is
  skipped without a trace.
- `LINEA_NOMBRES` is left out: its texts are shown only in the plot legend.
- The `groupby('CODIGOITINERARIO')` of the line builder is left out. `Network.Metro.AddSegments`
  receives the itineraries already grouped, and expects them in ascending itinerary code, the
  order `groupby` visits them (`nuevo.py:51`). That order matters: when two itineraries share a
  pair, the later one's line write wins (`Network.LastWriteWins`). The sort of each itinerary's stops by `NUMEROORDEN`
  is modelled as a stable sort.
- Only ASCII digits are accepted by `int()`; Python also accepts other Unicode decimal digits.
- Text.ParseInt: accepts digit strings of any length. CPython 3.11 and later raise `ValueError`
  for a decimal string of more than 4300 digits, leading zeros included (`sys.int_max_str_digits`,
  a setting of the interpreter), and the time row would then be skipped.
- Text.ParseDuration: inherits the same unbounded field length from `Text.ParseInt`.
- Text.ParseIntDigits: holds for digit runs of any length; under the 4300-digit limit of CPython
  3.11 and later it holds only for runs of at most that many digits.
- Text.DurationOfDigits: likewise holds for fields of any length, not only up to 4300 digits.
- Text.DurationOfFields: likewise holds for naturals of any number of digits.
- `upper()` is modelled on ASCII and Latin-1. Characters whose upper case changes length (`ß`) or
  lies outside Latin-1 are not modelled.
- Missing values (`NaN`) in the tables, and a duration cell that is not a string, are left out.
  The latter raises `AttributeError` rather than `ValueError`, and the program stops.
- The transfer builder's rewrite of the caller's station table is left out; it is effectively
  idempotent, by `Text.NormalizeIdempotent`.
- The geometry attribute of nodes is left out.
- The internals of networkx are replaced by the pair-keyed edge map. A self-loop `(a, a)` is the
  one-element key `{a}`.
- Network.Metro.AddBranch: requires every alias of both names to be a node. For a code that is not
  a node, `G.neighbors` in `solo_transbordos` raises, and the program stops.
- Routing.FindRoutes: requires every origin alias to be a node once the destination is known. For
  an alias `o` that is not a node, the source raises in `G.neighbors` when it pops the one-stop path
  `[o]` in the search of a pair `(o, d)` with `d != o` while fewer than `count` routes have been
  collected. It does not raise when `o` is paired only with itself, or when the cap is already
  reached (`count` not positive, or filled by earlier pairs). The program meets this precondition
  (`Routing.AliasesAreNodes`).
- Routing.FindRoutes: takes `count` as an argument with no default. The source's default is 3,
  and the program's one call (`nuevo.py:246`) relies on it, so that call is `count == 3`.
- Routing.SearchPair: keeps `visitados` only as ghost state, because it never prunes a path.
- Routing.FindRoutes: states distinctness and cost order only for duplicate-free alias lists.
  When an alias is listed twice, its pair is searched twice, and the same routes can be collected
  again.
