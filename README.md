# metal-archives scraper and ego-graph core, in Dafny

This project models the computational core of a scraper for the
metal-archives site and its band-similarity visualiser:

- **The ego-graph pipeline** (`graph_viz/make_ego.py`, `graph_viz/make_ego2.py`).
  - An undirected, weighted similarity graph is built from
    `(band_id, similar_to_id, score)` rows, and band ids are renamed to
    band names.
  - For a band it takes:
    - the ego graph: every band within `ego_radius` hops, with the induced edges;
    - the `1/weight` costs;
    - minimum-cost paths from the band (Dijkstra).
  - It scores every band by the terms along its path and keeps the best 250
    by an order-statistic threshold, then drops isolated bands.
  - It rescales the scores into radii in [3, 10] and derives a radial-force
    factor and edge stroke widths in [1.5, 4].
  - It assembles the data written as JSON. In the second variant it stores
    the paths on the nodes and builds a response.
- **The genre tokenizer** (`genreTokenizer.py`). It normalises whitespace,
  drops parenthesised groups, splits at commas, and applies the
  bag-of-words split with its literal replacements, drop set and three
  token maps. On top of that come the `RuntimeError` and `ValueError`
  checks.
- **The URL id extractors and `flatten`** (`utils.py`).
- **The request schedules of the two list scrapers** (`band_scraper.py`,
  `review_list_scraper.py`). This covers:
  - the letter list;
  - the `YYYYMM` parsing and the month enumeration;
  - one request at start 0, then `n_do` pages, all multiples of the page
    size, so the request guard never fails;
  - the total-record sum and the reported row count;
  - the day, time and percentage fields of a review row.

How the model is organised:

- **Pure code becomes functions.** The pure parts are functions with lemmas.
  - The tokenizer and the text helpers: `GenreTokenizer`, `GenreTokenize`, `Text`.
  - Graph building, relabelling and ego extraction: `Graphs`.
  - Dijkstra: `ShortestPaths`, with its correctness proof.
  - The stages of `setNodeRadii`, `setEdgeStrokeWidth`, `writeJSON` and
    `makeResponse`, as functions on a graph state.
- **The mutated networkx graph is a class.** `AttrGraphs.AttrGraph` keeps a
  node order, node attribute records and edge attribute records. Its
  methods update one node, every node, every edge, or remove a node.
  `EgoGraphs` in both variants is a class too, over the fields the source
  sets and deletes.
- **Every loop of the source becomes a method with invariants.** Each is
  proved equal to a specification function: the invweight loop, the
  radius loops, trimming, dropping isolated nodes, the path loop of
  `setShortestPathTo`, the tokenizer's checks, the scrapers' loops and the
  writing of review rows.
- **Calls the model cannot make become parameters:**
  - the database queries;
  - `np.exp(np.sum(np.log(ws))/len(ws))`, the aggregate `agg`;
  - `x ** 0.33`, the compressor `compress` (any map of [0, 1] into itself
    fixing 0 and 1);
  - `datetime.date.today()`;
  - the `iTotalRecords` of each first response.

## Model

| member | source | states |
|---|---|---|
| Utils.GetBandIdFromBandUrl | utils.py:15-21 | The id is present exactly when the text after the last `/` is all ASCII digits; it is then that text's value and never negative. |
| Utils.GetAlbumIdFromAlbumUrl | utils.py:23-24 | The same contract as the band id. |
| Utils.GetUserIdFromReviewUrl | utils.py:26-27 | The same contract as the band id. |
| Utils.BandIdRoundTrip | utils.py:15-21 | `prefix + "/" + decimal(n)` yields `n`, for every prefix and every n ≥ 0. |
| Utils.TrailingSlashHasNoId | utils.py:17-19 | A URL ending in `/` has no id. |
| Utils.NonDigitHasNoId | utils.py:17-19 | A last segment holding any non-digit has no id. |
| Utils.IdExtractorsAgree | utils.py:23-27 | The album and user extractors agree with the band extractor on every input. |
| Utils.Flatten | utils.py:35-40 | The length of the result is the sum of the sublist lengths. |
| Utils.FlattenMembers | utils.py:35-40 | An item is in the result exactly when it is in some sublist. |
| Utils.FlattenAppend | utils.py:35-40 | Flattening distributes over concatenation, so order is kept. |
| Utils.FlatMapMember | genreTokenizer.py:9-10 | Every element of a flat map is some element of the image of some input. |
| Utils.FlattenExample | utils.py:37-38 | `[['a','b'],['c']]` flattens to `['a','b','c']`. |
| Text.Split | utils.py:17 | `str.split(c)` gives at least one piece, and no piece contains `c`. |
| Text.JoinSplit | utils.py:17 | Joining the pieces with `c` gives back the text. |
| Text.SplitJoin | genreTokenizer.py:100 | Splitting a join of `c`-free pieces gives back the pieces. |
| Text.SplitAround | genreTokenizer.py:100 | Splitting at a separator splits each side. |
| Text.SplitNoSep | genreTokenizer.py:100 | A text without the separator is one piece. |
| Text.LastPieceAfterSep | utils.py:17 | The last piece is the text after the last separator. |
| Text.Words | review_list_scraper.py:149 | `str.split()` gives only non-empty words. |
| Text.WordsAround | review_list_scraper.py:149 | Splitting at a whitespace character splits each side. |
| Text.WordsOfWord | review_list_scraper.py:149 | A non-empty word without whitespace is its own split. |
| Text.LStrip | genreTokenizer.py:128 | The result is a suffix that starts with a non-space, and only whitespace was removed. |
| Text.RStrip | genreTokenizer.py:128 | The result is a prefix that ends with a non-space, and only whitespace was removed. |
| Text.StripIsSlice | genreTokenizer.py:128 | `strip()` is a slice of the text whose ends are not whitespace. |
| Text.StripEnds | genreTokenizer.py:128 | A further `rstrip()` after `strip()` changes nothing. |
| Text.Lower | genreTokenizer.py:98 | The length is kept, and each character is lowered. |
| Text.DecimalValue | utils.py:21 | The decimal text of n reads back as n. |
| Text.ZeroPadValue | review_list_scraper.py:66 | Zero padding gives digits, at least the width, with the same value. |
| Text.ParseInt | review_list_scraper.py:28 | `int()` succeeds exactly on digit strings. |
| Text.ParseDecimal | review_list_scraper.py:28 | Parsing a decimal gives back the number. |
| GenreTokenizer.Allgrams | genreTokenizer.py:5-7 | No piece of `allgrams` contains a space, and joining the pieces with spaces gives back the text. |
| GenreTokenizer.CollapseWhitespace | genreTokenizer.py:18 | After `re.sub(r'\s+', ' ')` every whitespace is `' '` and no two spaces are adjacent; the result starts with a space exactly when the text starts with whitespace. |
| GenreTokenizer.CollapseKeepsNonSpace | genreTokenizer.py:18 | The non-whitespace characters are kept in order. |
| GenreTokenizer.CollapseFixed | genreTokenizer.py:18 | Text that is already single-spaced is unchanged. |
| GenreTokenizer.NormalizeWhitespace | genreTokenizer.py:124-128 | The result has single spaces only and no leading or trailing whitespace. |
| GenreTokenizer.NormalizeKeepsNonSpace | genreTokenizer.py:124-128 | It keeps every non-whitespace character, in order. |
| GenreTokenizer.NormalizeIdempotent | genreTokenizer.py:124-128 | A second application changes nothing. |
| GenreTokenizer.CloseAt | genreTokenizer.py:19 | The lazy `.*?\)` ends at the first `)`, with no line break before it; with no match and no line break there is no `)`. |
| GenreTokenizer.DropParenGroups | genreTokenizer.py:19 | Every character of the result of `re.sub(r'\(.*?\)', '')` is a character of the text. |
| GenreTokenizer.DropParenGroupsLeavesNone | genreTokenizer.py:19 | On text without line breaks, no `(` is followed later by a `)` afterwards. |
| GenreTokenizer.DropParenGroupsPlain | genreTokenizer.py:19 | Text without `(` is unchanged. |
| GenreTokenizer.RemoveParens | genreTokenizer.py:130-134 | The result has no whitespace at either end. |
| GenreTokenizer.RemoveParensLeavesNone | genreTokenizer.py:130-134 | Without line breaks, no `(...)` group survives. |
| GenreTokenizer.RemoveParensPlain | genreTokenizer.py:130-134 | Text without `(` is only stripped. |
| GenreTokenizer.ReplaceAllRemovesChar | genreTokenizer.py:387 | Replacing a one-character pattern by text without it removes the character, as for `'​'`. |
| GenreTokenizer.ReplaceAllAbsent | genreTokenizer.py:390-392 | A pattern with a character the text lacks leaves the text unchanged. |
| GenreTokenizer.ReplaceAllPrefix | genreTokenizer.py:390-392 | A prefix without the pattern's first character is kept. |
| GenreTokenizer.ApplyReplacementsSnoc | genreTokenizer.py:379-392 | The replacements apply in list order, each to the result of the previous ones. |
| GenreTokenizer.Keep | genreTokenizer.py:400-402 | Every kept token is outside the drop set and comes from the input, and every input token outside the drop set is kept. |
| GenreTokenizer.KeepAppend | genreTokenizer.py:402 | The filter distributes over concatenation, so kept tokens stay in input order with their multiplicity. |
| GenreTokenizer.KeepOne | genreTokenizer.py:402 | One token is kept exactly when it is not in the drop set. |
| GenreTokenizer.SplitBagOfWords | genreTokenizer.py:372-479 | The method returns the bag-of-words tokens of the text. |
| GenreTokenizer.MapTokenListAppend | genreTokenizer.py:451-452 | `map_token_list` distributes over concatenation. |
| GenreTokenizer.MapTokenListUnmapped | genreTokenizer.py:451-452 | Tokens none of which is a key are unchanged. |
| GenreTokenizer.MapTokenListOne | genreTokenizer.py:451-452 | A one-token list maps to the token's mapping, or to the token itself. |
| GenreTokenizer.MapTokenListGood | genreTokenizer.py:451-452 | A map whose values are clean keeps clean tokens clean. |
| GenreTokenizer.SlashSpaceSplitsClean | genreTokenizer.py:397 | No piece of the `/` then `' '` splits contains `' '` or `/`. |
| GenreTokenizer.BagOfWordsGood | genreTokenizer.py:397-477 | No output token contains `' '` or `/`, or is in the drop set. |
| GenreMapFacts.MapsAreGood | genreTokenizer.py:406-472 | Every value of the three maps is free of `' '`, `/` and drop-set words. |
| GenreMapFacts.NeoclassicalEntries | genreTokenizer.py:406-449 | `neoclassical` → `neoclassic` → `new`, `classic`; neither of these is a big-boy key. |
| GenreMapFacts.DeathcoreEntries | genreTokenizer.py:468-472 | `deathcore` is only a big-boy key, mapped to `deathcore`, `death`, `metal`, `hardcore`. |
| GenreMapFacts.PostRockEntries | genreTokenizer.py:406-449 | `post-rock` is a core-map key giving `post`, `rock`. |
| GenreMapFacts.RockRollEntries | genreTokenizer.py:406-472 | `rock` and `roll` are keys of no map. |
| GenreTokenizerExamples.ThroughMaps | genreTokenizer.py:475-477 | A single token goes through the three maps in order. |
| GenreTokenizerExamples.NeoclassicalExample | genreTokenizer.py:475-477 | `neoclassical` ends as `['new','classic']`. |
| GenreTokenizerExamples.DeathcoreExample | genreTokenizer.py:475-477 | `deathcore` ends as `['deathcore','death','metal','hardcore']`. |
| GenreTokenizerExamples.PostRockReplaced | genreTokenizer.py:379-392 | The replacements turn `post rock` into `post-rock`. |
| GenreTokenizerExamples.PostRockExample | genreTokenizer.py:372-479 | `splitBagOfWords("post rock")` is `['post','rock']`. |
| GenreTokenizerExamples.RockNRollReplaced | genreTokenizer.py:379-392 | The replacements turn `rock 'n' roll` into `rock roll`. |
| GenreTokenizerExamples.RockNRollExample | genreTokenizer.py:372-479 | `splitBagOfWords("rock 'n' roll")` is `['rock','roll']`. |
| GenreTokenize.FindParenOrComma | genreTokenizer.py:103-106 | The loop finds a piece with `(`, `)` or `,` exactly when there is one. |
| GenreTokenize.BagOfWordsOfPieces | genreTokenizer.py:109-110 | It gives the concatenated bag-of-words tokens of the pieces. |
| GenreTokenize.FindBadToken | genreTokenizer.py:116-120 | It finds a bad or one-character token exactly when there is one. |
| GenreTokenize.Tokenize | genreTokenizer.py:97-122 | The method's result equals the specification of `tokenize`, errors included. |
| GenreTokenize.BagTokensPrefix | genreTokenizer.py:110 | The tokens of the pieces are the tokens of each piece, in order. |
| GenreTokenize.BagTokensComma | genreTokenizer.py:100-110 | The tokens of `x,y` are those of `x` followed by those of `y`. |
| GenreTokenize.BagTokensGood | genreTokenizer.py:110 | Every token of the pieces is clean. |
| GenreTokenize.PieceCheckIsParen | genreTokenizer.py:100-106 | After the comma split the check fires exactly when `(` or `)` remains. |
| GenreTokenize.CleanTextNoGroupLeft | genreTokenizer.py:98-99 | After lowering, normalising and paren removal, no `(...)` group is left. |
| GenreTokenize.CheckTokensOk | genreTokenizer.py:116-120 | The check passes exactly when no token is `''`, `n'` or `'n'` and none has length 1. |
| GenreTokenize.TokenizeRuntimeError | genreTokenizer.py:103-120 | `RuntimeError` exactly when a paren survives, or the method is bag-of-words and a bad token appears. |
| GenreTokenize.TokenizeValueError | genreTokenizer.py:111-114 | `ValueError` exactly when no paren survives and the method is unknown. |
| GenreTokenize.TokenizeOk | genreTokenizer.py:97-122 | On success the method is bag-of-words, and the tokens are those of the comma pieces of the cleaned text, all clean and each longer than one character. |
| Pagination.ExtraRequests | band_scraper.py:73 | `n_do = max(0, T-dl)//dl + 1` is at least 1. |
| Pagination.RequestGuard | band_scraper.py:99-101 | `makeRequest` accepts a start exactly when it is a multiple of the page size. |
| Pagination.RequestPages | band_scraper.py:64-83 | The per-key loop issues the requests `0, dl, …, n_do·dl`. |
| Pagination.PageRequestsShape | band_scraper.py:79-81 | There are `n_do + 1` requests, the first at 0 and the last at `n_do·dl`. |
| Pagination.ScheduleStartsAreMultiples | review_list_scraper.py:104-106 | Every start of a schedule is a non-negative multiple of the page size, so the guard never raises. |
| Pagination.ScheduleAppend | band_scraper.py:59-83 | The schedule of two key lists is the concatenation of their schedules. |
| Pagination.SumTotalsAppend | band_scraper.py:58-70 | The total over two key lists is the sum of their totals. |
| Pagination.ScheduleAroundKey | band_scraper.py:59-83 | Each key's pages stand in one block, in key order. |
| Pagination.ExtraRequestsCoverTotal | band_scraper.py:73-81 | `(n_do + 1)·dl ≥ T`, so every record is fetched. |
| Pagination.LastPageEmptyExactly | band_scraper.py:73-81 | The last request starts at or past the end exactly when `T ≤ dl` or `T` is a multiple of `dl`. |
| BandScraper.Init | band_scraper.py:26-40 | The letters are those of the mode. |
| BandScraper.LettersShape | band_scraper.py:31-35 | A full run uses 28 letters: `NBR`, `~`, then `A`…`Z` in order. A test run uses `A`, `B`. |
| BandScraper.NDo | band_scraper.py:73-75 | In test mode the count is at most 2; otherwise it is `max(0,T-500)//500 + 1`. |
| BandScraper.Run | band_scraper.py:58-88 | The requests are the schedule over the letters, `total_records_sum` is the sum of the first totals, and the reported rows are that sum + 1. |
| BandScraper.FullRunCoversRecords | band_scraper.py:73-81 | Outside test mode `(n_do+1)·500 ≥ T`. |
| ReviewListScraper.FirstOfMonth | review_list_scraper.py:28 | `datetime.date(y, m, 1)` succeeds exactly for year 1..9999 and month 1..12. |
| ReviewListScraper.ParseYYYYMM | review_list_scraper.py:28 | The date is day 1 with year `int(s[0:4])` and month `int(s[4:6])`; it fails exactly when a parse or the date does. |
| ReviewListScraper.ParseYYYYMMRoundTrip | review_list_scraper.py:28 | The zero-padded `YYYYMM` of a valid year and month parses back to it. |
| ReviewListScraper.Init | review_list_scraper.py:28-33 | `start` is parsed; `stop` is parsed, or is today when empty; it fails exactly when a present text fails. |
| ReviewListScraper.MonthRange | review_list_scraper.py:63-64 | `range(lo, hi)` for one year gives `(year, lo+i)` for each i. |
| ReviewListScraper.MonthsOrdered | review_list_scraper.py:62-64 | The visited months are strictly increasing and lie in 1..12. |
| ReviewListScraper.MonthsSpan | review_list_scraper.py:62-64 | When start ≤ stop there are `12·Δy + Δm + 1` months, from start to stop. |
| ReviewListScraper.NoMonthsWhenStartAfterStop | review_list_scraper.py:62 | No month is visited when the start year is after the stop year. |
| ReviewListScraper.LabelReadsBack | review_list_scraper.py:66 | `'{:04d}-{:02d}'` has 7 characters with `-` at index 4, and reads back its year and month. |
| ReviewListScraper.LabelsAppend | review_list_scraper.py:66 | The labels of two month lists are concatenated. |
| ReviewListScraper.RunYear | review_list_scraper.py:63-88 | The inner loop visits one year's months and issues their schedule and total. |
| ReviewListScraper.Run | review_list_scraper.py:54-93 | The visited months are all the months from start to stop. The requests are the schedule of their labels, the sum is the sum of the first totals, and the reported rows are that sum + 1. |
| ReviewListScraper.ParseDay | review_list_scraper.py:149 | `IndexError` with fewer than two words; otherwise the second word's `int()`. |
| ReviewListScraper.ParseTime | review_list_scraper.py:150 | It succeeds exactly on two `:` pieces of digits, giving their values. |
| ReviewListScraper.ParsePercentage | review_list_scraper.py:152 | `int(s[:-1])`: it succeeds exactly when the text without its last character is digits. |
| ReviewListScraper.DayOfMonthText | review_list_scraper.py:149 | `'<month> <day>'` reads back the day. |
| ReviewListScraper.TimeText | review_list_scraper.py:150 | `'<h>:<m>'` reads back the hour and the minute. |
| ReviewListScraper.TimeWithThreePartsFails | review_list_scraper.py:150 | Three `:` parts raise. |
| ReviewListScraper.PercentageText | review_list_scraper.py:152 | A number followed by any one character reads back the number. |
| ReviewListScraper.RowFieldExamples | review_list_scraper.py:138-144 | `'January 31'` gives 31, `'23:18'` gives (23, 18), and `'67%'` gives 67. |
| ReviewListScraper.ParseRow | review_list_scraper.py:148-152 | A row parses exactly when it has at least seven fields and its day, time and percentage fields parse, and then holds their values; otherwise the error is that of the first failing step in source order: IndexError for a missing field, or the error of the day, time or percentage parse. |
| ReviewListScraper.WriteReviewData | review_list_scraper.py:148-152 | The rows written are the parses of a prefix of the data; it stops at the first failing row with that row's error. |
| Graphs.AddEdge | graph_viz/make_ego.py:45 | `add_edge` keeps the node order and appends new endpoints. |
| Graphs.AddEdgeAt | graph_viz/make_ego.py:45 | After adding an edge, the nodes are the old ones plus the endpoints; the adjacency is the old one plus the new edge, in both directions, with its weight. |
| Graphs.AddEdgeValid | graph_viz/make_ego.py:45 | Adding an edge keeps the graph symmetric and well formed. |
| Graphs.Build | graph_viz/make_ego.py:44-45 | The graph built from the rows is well formed. |
| Graphs.BuildNodes | graph_viz/make_ego.py:44-45 | The nodes are exactly the endpoints of the rows. |
| Graphs.BuildEdges | graph_viz/make_ego.py:44-45 | Two bands are adjacent exactly when some row joins them, and the weight is the last such row's score. |
| Graphs.LastScoreSymmetric | graph_viz/make_ego.py:45 | The edge is undirected. |
| Graphs.RelabelEdges | graph_viz/make_ego.py:46 | Renaming keeps every edge and its weight. |
| Graphs.RelabelNodes | graph_viz/make_ego.py:46 | Every renamed node comes from a node. |
| Graphs.RelabelValid | graph_viz/make_ego.py:46 | Under an injective renaming the graph stays well formed. |
| Graphs.WithinWalk | graph_viz/make_ego.py:50 | Each node within k hops is reached by a walk of at most k edges. |
| Graphs.WalkWithin | graph_viz/make_ego.py:50 | The end of a walk of at most k edges is within k hops. |
| Graphs.InducedValid | graph_viz/make_ego.py:50 | The induced subgraph is well formed. |
| Graphs.EgoGraph | graph_viz/make_ego.py:50 | `nx.ego_graph` raises `NodeNotFound` exactly for an unknown centre; otherwise it gives a well-formed graph holding the centre. |
| Graphs.EgoGraphNodes | graph_viz/make_ego.py:50 | A node is in the ego graph exactly when a walk of at most `radius` edges reaches it. |
| Graphs.EgoGraphEdges | graph_viz/make_ego.py:50 | Between ego nodes the edges and weights are those of the graph. |
| Graphs.EgoConnected | graph_viz/make_ego.py:50 | Every ego node is reached from the centre inside the ego graph. |
| AttrGraphs.FromGraphValid | graph_viz/make_ego.py:50 | The attribute graph of a graph is well formed. |
| AttrGraphs.DegreeZero | graph_viz/make_ego.py:142 | `degree == 0` exactly when the node has no neighbour. |
| AttrGraphs.DropNodes | graph_viz/make_ego.py:137 | Removing nodes keeps the others in order. |
| AttrGraphs.DropValid | graph_viz/make_ego.py:137 | Removing nodes keeps the graph well formed. |
| AttrGraphs.DropTwice | graph_viz/make_ego.py:131-143 | Two removals equal one removal of the union. |
| AttrGraphs.DropNothing | graph_viz/make_ego.py:131-137 | Removing no node changes nothing. |
| AttrGraphs.DropNodesCount | graph_viz/make_ego.py:131-137 | The node count falls by the number removed. |
| AttrGraphs.UpdateEdgesSymmetric | graph_viz/make_ego.py:80-81 | Updating every edge with one function keeps the edges undirected. |
| AttrGraphs.EdgeListMember | graph_viz/make_ego.py:206-211 | `G.edges()` lists an edge exactly once, in node order. |
| AttrGraphs.EdgeListDistinct | graph_viz/make_ego.py:206-211 | No edge is listed twice. |
| AttrGraphs.EdgeListOnce | graph_viz/make_ego.py:206-211 | Each edge appears in one direction and not in both. |
| AttrGraphs.EdgeListEdges | graph_viz/make_ego.py:206-211 | Every listed pair is an edge. |
| AttrGraphs.AttrGraph.constructor | graph_viz/make_ego.py:50 | The object holds the attribute graph of the ego graph. |
| AttrGraphs.AttrGraph.UpdateEachNode | graph_viz/make_ego.py:88-89 | Its loop applies one update to every node's attributes, and nothing else changes. |
| AttrGraphs.AttrGraph.UpdateEachEdge | graph_viz/make_ego.py:80-81 | Its loop applies one update to every edge's attributes, and nothing else changes. |
| AttrGraphs.AttrGraph.SetNode | graph_viz/make_ego.py:113-116 | Setting one node's attributes changes nothing else. |
| AttrGraphs.AttrGraph.RemoveNode | graph_viz/make_ego.py:137 | `remove_node` removes the node and its edges. |
| ShortestPaths.Better | graph_viz/make_ego.py:84 | One of two candidates, none only when both are none, and never costlier. |
| ShortestPaths.CostNonNegative | graph_viz/make_ego.py:84 | Under positive costs a path cost is ≥ 0, and > 0 for a path with an edge. |
| ShortestPaths.CostGlue | graph_viz/make_ego.py:84 | Joined paths add their costs. |
| ShortestPaths.CutCycle | graph_viz/make_ego.py:84 | Cutting a repeated node out of a path gives a shorter path that costs no more. |
| ShortestPaths.ShortWalk | graph_viz/make_ego.py:84 | Every path has a path, no costlier, with at most one node per graph node. |
| ShortestPaths.LevelSound | graph_viz/make_ego.py:84 | Every table entry is a real path from the source with its cost. |
| ShortestPaths.LevelOptimal | graph_viz/make_ego.py:84 | After k rounds no path of at most k edges is cheaper than its entry. |
| ShortestPaths.LevelSource | graph_viz/make_ego.py:84 | The source keeps the entry (0, [source]). |
| ShortestPaths.DijkstraCorrect | graph_viz/make_ego.py:84 | `single_source_dijkstra` on positive costs gives, for each node, a path from the source to it with its cost; no path to it is cheaper, and every reachable node has an entry. |
| EgoPaths.InvWeightsFacts | graph_viz/make_ego.py:80-81 | The invweight loop raises `ZeroDivisionError` exactly on a zero weight; otherwise it keeps nodes, data, edges and weights and sets `invweight = 1/weight`. |
| EgoPaths.CostsOfInverse | graph_viz/make_ego2.py:64-68 | The costs Dijkstra reads are `1/weight`. |
| EgoPaths.PathTableCorrect | graph_viz/make_ego.py:80-84 | On positive weights there is a table of cheapest `1/weight` paths from the centre, with the centre at (0, [centre]); a negative weight is not modelled. |
| EgoPaths.SetInvWeights | graph_viz/make_ego.py:80-81 | The loop's new graph state, or its error, is that of the invweight specification. |
| Extrema.MinReal | graph_viz/make_ego.py:147 | `min()` is a member and bounds every element. |
| Extrema.MaxReal | graph_viz/make_ego.py:148 | `max()` is a member and bounds every element. |
| Extrema.MinInt | graph_viz/make_ego.py:176 | `min()` is a member and bounds every element. |
| Extrema.MaxInt | graph_viz/make_ego.py:177 | `max()` is a member and bounds every element. |
| Partition.KthCounts | graph_viz/make_ego.py:129 | `np.partition(xs, k)[k]` is the element with at most k elements below it and more than k at or below it. |
| Partition.KthUnique | graph_viz/make_ego.py:129 | At most one value has that property. |
| Partition.WithoutLength | graph_viz/make_ego.py:129 | Removing a value removes exactly its copies. |
| NodeRadii.RescaleBounds | graph_viz/make_ego.py:155 | `(x-lo)/max(1, hi-lo)` lies in [0, 1]; it is 0 at lo, and 1 at hi when `hi - lo ≥ 1`. |
| NodeRadii.InitRadiiFacts | graph_viz/make_ego.py:88-92 | Every node gets radius 3 and the centre 12.5; a missing centre raises `KeyError`. |
| NodeRadii.TermsPositive | graph_viz/make_ego.py:109 | Each term `weight/degree·0.1^(i-1)` along a path of edges is positive. |
| NodeRadii.SetScoresFacts | graph_viz/make_ego.py:94-116 | Each node with a path of two or more nodes gets the aggregate of its terms as score and the path; the centre and unreached nodes are unchanged. |
| NodeRadii.ScoreListEmpty | graph_viz/make_ego.py:125 | The score list is empty exactly when no node has a score. |
| NodeRadii.TrimError | graph_viz/make_ego.py:125-129 | The trim fails exactly when the index is not below the number of scores: with `IndexError` exactly when nothing is scored (the partition of an empty list is empty and `[ind]` fails), and with `ValueError` from `np.partition` when some nodes are scored but no more than the index. |
| NodeRadii.TrimCount | graph_viz/make_ego.py:125-137 | Trimming drops exactly the nodes scored below the limit. With at most 250 nodes nothing is dropped; otherwise at least 250 remain. |
| NodeRadii.TrimNodes | graph_viz/make_ego.py:131-137 | A node stays exactly when it has no score or a score at least the limit. |
| NodeRadii.TrimKeeps | graph_viz/make_ego.py:131-137 | A kept node keeps its data and its edges to kept nodes. |
| NodeRadii.DropIsolatedFacts | graph_viz/make_ego.py:140-143 | Exactly the nodes of degree 0 go, and the others keep their data and edges, so one pass suffices. |
| NodeRadii.NormaliseError | graph_viz/make_ego.py:147-158 | `min()` raises `ValueError` exactly when no node is scored; otherwise only scored radii change. |
| NodeRadii.NormaliseRange | graph_viz/make_ego.py:150-158 | Every scored radius lies in [3, 10]. |
| NodeRadii.NormaliseLeast | graph_viz/make_ego.py:150-158 | A least-scored node gets radius 3. |
| NodeRadii.NormaliseGreatest | graph_viz/make_ego.py:150-158 | A greatest-scored node gets radius 10 when the scores span at least 1. |
| NodeRadii.FactorFacts | graph_viz/make_ego.py:161-165 | The factor lies in [0, 1]; it is 1 at radius 3 and 0 from radius 10 on, so 0 for the centre. |
| NodeRadii.ForceFacts | graph_viz/make_ego.py:161-165 | The factor step succeeds exactly when every node has a radius, and it sets only the factor. |
| NodeRadii.LinearRadiiRange | graph_viz/make_ego.py:64-76 | `linear_indeg` gives every node a radius in [3, 10] from its weighted degree, and changes nothing else. |
| NodeRadii.LinearRadiiError | graph_viz/make_ego.py:68 | `min()` raises `ValueError` exactly on an empty graph. |
| NodeRadii.LinearRadiiLeast | graph_viz/make_ego.py:73-74 | A node of least weighted degree gets radius 3. |
| NodeRadii.LinearRadiiGreatest | graph_viz/make_ego.py:73-74 | Unless all weighted degrees are equal, a node of greatest weighted degree gets radius 10. |
| RadiiPipeline.Stages | graph_viz/make_ego.py:78-165 | The `shortest_path` branch is the composition of its stages, in source order. |
| RadiiPipeline.RadiiNoIsolated | graph_viz/make_ego.py:140-143 | After the branch every remaining node, the centre included, has an edge. |
| RadiiPipeline.RadiiPaths | graph_viz/make_ego.py:84-116 | A stored path runs from the centre to the node, is a path of edges, and no path between them is cheaper under `1/weight`. |
| RadiiPipeline.RadiiScores | graph_viz/make_ego.py:107-113 | A stored score is the aggregate of positive terms, one per edge of the path, with degrees of the untrimmed ego graph. |
| RadiiPipeline.RadiiCentre | graph_viz/make_ego.py:92-100 | The centre has radius 12.5, factor 0, and no score and no path. |
| RadiiPipeline.RadiiRanges | graph_viz/make_ego.py:147-165 | Every node has a radius, in [3, 10] unless it is the centre, and a factor in [0, 1]. |
| RadiiPipeline.RadiiTrim | graph_viz/make_ego.py:125-137 | The trim keeps every node when there are at most 250, and at least 250 otherwise; every kept score is at least the limit. |
| RadiiPipeline.RadiiSubgraph | graph_viz/make_ego.py:131-143 | The result is a subgraph of the ego graph with its weights. |
| RadiiPipeline.RadiiLoneCentre | graph_viz/make_ego.py:125-129 | For a centre without neighbours nothing is scored, so indexing the partition of the empty score list raises `IndexError` before the isolated-node pass. |
| StrokeWidths.WidthBounds | graph_viz/make_ego.py:183-190 | A width lies in [1.5, 4]; it is 1.5 at the least weight, and 4 at the greatest when the weights differ. |
| StrokeWidths.StrokeWidthsError | graph_viz/make_ego.py:174-196 | `ValueError` exactly for an unknown method or a graph without edges. |
| StrokeWidths.StrokeWidthsKeeps | graph_viz/make_ego.py:179-193 | Only the `stroke_width` of the edges changes, the same in both directions. |
| StrokeWidths.WidthOf | graph_viz/make_ego.py:176-193 | An edge's width is that of its weight between the least and the greatest weight. |
| StrokeWidths.StrokeWidthsRange | graph_viz/make_ego.py:183-190 | Every width lies in [1.5, 4]. |
| StrokeWidths.StrokeWidthsLeast | graph_viz/make_ego.py:176-190 | An edge of least weight gets 1.5. |
| StrokeWidths.StrokeWidthsGreatest | graph_viz/make_ego.py:177-190 | When the weights differ, an edge of greatest weight gets 4. |
| EgoJson.JsonDataError | graph_viz/make_ego.py:198-217 | The data fails exactly on a missing `radius`, `force_radial_factor` or `stroke_width` (`KeyError`), or on a graph without nodes or edges (`ValueError`). |
| EgoJson.JsonNodes | graph_viz/make_ego.py:199-204 | Each node has exactly one entry, at its place in the node order, with its name, radius, factor and path (`[]` when it has none). |
| EgoJson.JsonLinks | graph_viz/make_ego.py:206-211 | Every edge has a link, in one direction, with its width and with its weight as `sim_score`. |
| EgoJson.JsonLinksOnce | graph_viz/make_ego.py:206-211 | No edge is linked in both directions. |
| EgoJson.JsonLinksDistinct | graph_viz/make_ego.py:206-211 | No link comes twice. |
| EgoJson.JsonLinkIsEdge | graph_viz/make_ego.py:206-211 | Every link is an edge. |
| EgoJson.JsonBounds | graph_viz/make_ego.py:213-217 | `min_radius`/`max_radius` and `min_sim_score`/`max_sim_score` bound every entry and are attained. |
| MakeEgo.BandMapKeys | graph_viz/make_ego.py:37 | The id→name dict has exactly the ids of the band rows as keys. |
| MakeEgo.BandMapLast | graph_viz/make_ego.py:37 | For an id given several times, the dict keeps the last name. |
| MakeEgo.MakeGraphSpec | graph_viz/make_ego.py:43-46 | The renamed graph is well formed; it is not modelled exactly when two nodes get one name. |
| MakeEgo.MakeGraphNodes | graph_viz/make_ego.py:43-46 | Every endpoint of a row is a node under its name. |
| MakeEgo.MakeGraphNodesFrom | graph_viz/make_ego.py:43-46 | Every node is the name of an endpoint. |
| MakeEgo.MakeGraphEdges | graph_viz/make_ego.py:43-46 | Renamed bands are adjacent exactly when some row joins them, with the last row's score. |
| MakeEgo.MakeEgoUnknown | graph_viz/make_ego.py:48-50 | An unknown band raises `NodeNotFound`. |
| MakeEgo.MakeEgoLoneBand | graph_viz/make_ego.py:48-55 | For a band without neighbours the ego graph is the band alone and makeEgoGraph fails with `IndexError` at the trim (make_ego.py:129). |
| MakeEgo.MakeEgoNodes | graph_viz/make_ego.py:48-55 | Every node of the result is within `radius` hops of the band, and has an edge. |
| MakeEgo.MakeEgoEdges | graph_viz/make_ego.py:48-55 | Every edge of the result is a graph edge with its weight and `invweight = 1/weight`; with a compressor its width lies in [1.5, 4]. |
| MakeEgo.MakeEgoRadii | graph_viz/make_ego.py:48-55 | The band has radius 12.5 and factor 0; every other node has a radius in [3, 10] and a factor in [0, 1]. |
| MakeEgo.MakeEgoJson | graph_viz/make_ego.py:198-225 | `writeJSON` on a result of `makeEgoGraph` never fails. |
| MakeEgo.SetLinearRadii | graph_viz/make_ego.py:64-76 | The loop's new state, or its error, is that of the `linear_indeg` specification. |
| MakeEgo.TrimBelow | graph_viz/make_ego.py:130-137 | The loop removes exactly the nodes scored below the limit. |
| MakeEgo.DropIsolatedNodes | graph_viz/make_ego.py:140-143 | The loop removes exactly the nodes of degree 0. |
| MakeEgo.SetPathRadii | graph_viz/make_ego.py:78-165 | The branch's loops give the new state, or the error, of the `shortest_path` specification, including `IndexError` for an empty score list and `ValueError` for an index past a non-empty one. |
| MakeEgo.EgoGraphs.constructor | graph_viz/make_ego.py:9-12 | It reads the data and builds the graph. |
| MakeEgo.EgoGraphs.ReadDatabase | graph_viz/make_ego.py:31-41 | It stores the rows, the id→name dict and the edge list. |
| MakeEgo.EgoGraphs.MakeGraph | graph_viz/make_ego.py:43-46 | It sets `G` to the renamed graph of the edge list. |
| MakeEgo.EgoGraphs.SetNodeRadii | graph_viz/make_ego.py:57-168 | The new state, or the error, is that of the chosen method; an unknown method raises `ValueError`, and the `shortest_path` method raises `IndexError` for a centre without neighbours. |
| MakeEgo.EgoGraphs.SetEdgeStrokeWidth | graph_viz/make_ego.py:170-196 | The new state, or the error, is that of the width specification. |
| MakeEgo.EgoGraphs.MakeEgoGraph | graph_viz/make_ego.py:48-55 | The method returns a fresh graph whose state, or its error, is that of the makeEgoGraph specification, whose trim gives `IndexError` for a band without neighbours. |
| MakeEgo2.ShortestPathToError | graph_viz/make_ego2.py:57-79 | It raises `ZeroDivisionError` on a zero weight and `NodeNotFound` for an unknown band; a negative weight is not modelled; otherwise it succeeds. |
| MakeEgo2.ShortestPathToKeeps | graph_viz/make_ego2.py:64-79 | Nodes are kept, edges get their invweights, and the node data differ only in `shortest_path`. |
| MakeEgo2.ShortestPathToValid | graph_viz/make_ego2.py:64-79 | The result is well formed. |
| MakeEgo2.ShortestPathToInvWeight | graph_viz/make_ego2.py:64-65 | Every edge keeps its weight and gets `invweight = 1/weight`. |
| MakeEgo2.PathToCentre | graph_viz/make_ego2.py:75-76 | The centre gets no `shortest_path`. |
| MakeEgo2.PathToReached | graph_viz/make_ego2.py:70-79 | Every other node reachable from the centre gets a path. |
| MakeEgo2.PathToOptimal | graph_viz/make_ego2.py:68-79 | A stored path runs from the centre to its node with at least one edge, and is cheapest under `1/weight`. |
| MakeEgo2.MakeEgoError | graph_viz/make_ego2.py:47-51 | Without a graph `self.G` raises `AttributeError`; an unknown band raises `NodeNotFound`. |
| MakeEgo2.MakeEgoPaths | graph_viz/make_ego2.py:47-79 | A node has no `shortest_path` exactly when it is the band. |
| MakeEgo2.MakeEgoOptimal | graph_viz/make_ego2.py:47-79 | Each stored path runs from the band to its node, is a path of edges, and no path between them is cheaper under `1/weight`. |
| MakeEgo2.ResponseError | graph_viz/make_ego2.py:94-95 | The response fails, with `ValueError`, exactly for a graph without edges. |
| MakeEgo2.ResponseParts | graph_viz/make_ego2.py:82-101 | The response holds the node and the link entries. |
| MakeEgo2.ResponseNodeEntry | graph_viz/make_ego2.py:82-86 | Each node has one entry, in node order, with its name, its path or `[]`, and its degree. |
| MakeEgo2.ResponseLinkOfEdge | graph_viz/make_ego2.py:88-92 | Every edge has a link in one direction, with its weight as `sim_score`. |
| MakeEgo2.ResponseLinkIsEdge | graph_viz/make_ego2.py:88-92 | Every link is an edge, with its weight as `sim_score`. |
| MakeEgo2.ResponseLinksDistinct | graph_viz/make_ego2.py:88-92 | No link comes twice. |
| MakeEgo2.ResponseBounds | graph_viz/make_ego2.py:94-95 | `min_sim_score` and `max_sim_score` bound every link and are attained. |
| MakeEgo2.EgoGraphs.constructor | graph_viz/make_ego2.py:12-13 | A new object has none of the fields set. |
| MakeEgo2.EgoGraphs.ReadDatabase | graph_viz/make_ego2.py:15-32 | It sets the row lists, the id→name dict and the edge list, and leaves `G` as it was. |
| MakeEgo2.EgoGraphs.MakeGraph | graph_viz/make_ego2.py:34-45 | Without an edge list it raises `AttributeError`. Otherwise it sets `G` to the renamed graph and deletes the four fields. |
| MakeEgo2.EgoGraphs.SetShortestPathTo | graph_viz/make_ego2.py:57-79 | The new state, or the error, is that of the `setShortestPathTo` specification. |
| MakeEgo2.EgoGraphs.StoreWalks | graph_viz/make_ego2.py:70-79 | The path loop stores each table path of two or more nodes on its end node, and nothing else. |
| MakeEgo2.EgoGraphs.MakeEgoGraph | graph_viz/make_ego2.py:47-55 | The method returns a fresh graph whose state, or its error, is that of the makeEgoGraph specification. |

## Left out

- **Database reads.** The SQLite queries of `readDatabase` become parameters (the band rows and the similarity rows).
  - In `make_ego.py` line 15 `readDatabase` reads a global `database`, not `self.database`. The model passes the rows in.
  - The `__main__` blocks are left out. This includes `make_ego2.py`'s `EgoGraphs(database)`, which does not match its constructor, and its call of a `writeJSON` the class does not have.
- **Numeric functions become parameters.** `np.exp(np.sum(np.log(ws))/len(ws))` is the parameter `agg`, and `width ** 0.33` is the parameter `compress`.
  - The range lemmas for widths require that `compress` map [0, 1] into itself and fix 0 and 1.
  - Floating point is modelled as exact `real` arithmetic.
- **Negative weights.** Dijkstra with a negative `invweight` raises in networkx. The model gives `NotModelled` there.
- **Merging on relabel.** `relabel_nodes` onto a name shared by two ids merges nodes. The model gives `NotModelled` for that case.
- **networkx order and ties.** Node and edge iteration order is networkx behaviour. The model keeps the insertion order of the rows, and no stated property depends on it. Dijkstra's choice between paths of equal cost is left open: the table holds some cheapest path.
- **`ego.node` access.** `ego.node[...]` in the `linear_indeg` branch (`make_ego.py` line 76) is taken as node attribute access, as in networkx before 2.4.
- **Order of the path loop.** `make_ego2.py`'s loop over `path_dict.items()` is modelled as visiting the table's entries in an arbitrary order. The result does not depend on the order, because each entry writes only its own end node.
- **State after an error.** The model does not state how far an erroring method got before it raised.
- **Output and side effects.** `print`, logging and timing are left out. So are the file write and `json.dump`/`json.dumps` of `writeJSON`/`makeResponse`; the model returns the data instead.
- **Other code in the repository.** `read_csv_to_list_of_dicts` and `tqdmForLogging` in `utils.py` are not part of this model.
- **Scraper I/O.** HTTP requests, bs4 parsing of review rows, CSV writing and the overwrite prompt (`input()`) are left out.
  - `iTotalRecords` of each first response is a parameter.
  - `datetime.date.today()` is a parameter of `Init`.
- **Tokenizer code outside the bag-of-words path.** `split2` and the commented-out `split` are left out; `tokenize` with `split2` gives `NotModelled`. The `Test` class only prints.
- **ASCII only.** `str.isdigit`, `\s`/`str.isspace` and `str.lower` are modelled on ASCII (with the ASCII separators `\x1c`–`\x1f` as whitespace). Unicode digits, spaces and case are not modelled.
- GenreTokenizer.DropParenGroupsLeavesNone: requires text without `'\n'`. The regex `.` does not match a line break, so a `(` before a line break can survive, and the model's `CloseAt` follows that. Inside `tokenize` this costs nothing: whitespace normalisation has already turned every line break into a space (GenreTokenize.CleanTextNoGroupLeft).
- GenreTokenizer.RemoveParensLeavesNone: requires text without `'\n'`, for the same reason.
- Text.ParseInt: accepts only ASCII digit strings. Python's `int()` also accepts surrounding whitespace, a sign and underscores; the model gives `ValueError` for those.
