/**
 * The metro graph: stations (nodes keyed by their normalised code) and at most
 * one attributed edge per unordered pair of codes, as in an undirected
 * `networkx.Graph`. The builders that add line segments, travel times,
 * walking transfers and the branch line are methods of `Metro`; each is
 * specified by a function of the graph before the call, and the properties
 * the program relies on are lemmas about those functions.
 */
module Network {
  import opened Wrappers
  import opened Text
  import Order

  type Code = string

  /** An edge key: the unordered pair `{a, b}`; a self-loop is `{a}`. */
  type Key = set<Code>

  /** Seconds of a walking transfer between two platforms. */
  const TransferSeconds := 240
  /** Colour of an edge that only carries a time, and of a line with no colour of its own. */
  const GrayColor := "gray"
  /** Colour of a node served by no line, or by several. */
  const DefaultNodeColor := "#444444"
  const BranchLine := "R"

  /** Colours of the lines, keyed by their tag. */
  const LineColors: map<string, string> := map[
    "L1" := "#00BFFF", "L2" := "#FF0000", "L3" := "#FFFF00", "L4" := "#A0522D",
    "L5" := "#90EE90", "L6" := "#808080", "L7" := "#FFA500", "L8" := "#FFC0CB",
    "L9" := "#800080", "L10" := "#00008B", "L11" := "#006400", "L12" := "#556B2F",
    "R" := "#7B68EE"]

  function ColorOf(tag: string, default: string): string
  {
    if tag in LineColors then LineColors[tag] else default
  }

  /**
   * The attributes of an edge: `transbordo`, `linea` (absent or `None`),
   * `tiempo` in seconds (absent when never written) and `color`.
   */
  datatype Edge = Edge(transfer: bool, line: Option<string>, time: Option<int>, color: Option<string>)

  /** A row of the stations table. */
  datatype Station = Station(code: string, name: string)
  /** A row of the segments table: a stop of an itinerary. */
  datatype Stop = Stop(code: string, order: int, line: string)
  /** A row of the times table. */
  datatype Observation = Observation(stopId: string, nextStopId: string, duration: string)

  function KeyOf(a: Code, b: Code): Key
  {
    {a, b}
  }

  function Lookup(edges: map<Key, Edge>, k: Key): Option<Edge>
  {
    if k in edges then Some(edges[k]) else None
  }

  /** The attributes an `add_edge` starts from when the pair has no edge yet. */
  function Prior(p: Option<Edge>): Edge
  {
    p.GetOr(Edge(false, None, None, None))
  }

  // ---------------------------------------------------------------------------
  // Attribute updates of one edge

  /** `add_edge(transbordo=False, linea="L"+line, color=...)`: other attributes kept. */
  function LinkEdge(p: Option<Edge>, line: string): Edge
  {
    var tag := "L" + line;
    Prior(p).(transfer := false, line := Some(tag), color := Some(ColorOf(tag, GrayColor)))
  }

  /** Writes `tiempo` on an existing edge, or creates a time-only edge. */
  function TimeEdge(p: Option<Edge>, seconds: int): Edge
  {
    match p
    case Some(e) => e.(time := Some(seconds))
    case None => Edge(false, None, Some(seconds), Some(GrayColor))
  }

  datatype Mark = Walk | Branch

  /**
   * `add_edge(transbordo=True, tiempo=240)` for a walk, and
   * `add_edge(transbordo=False, linea='R', color=...)` for the branch line.
   */
  function Stamp(p: Option<Edge>, m: Mark): Edge
  {
    match m
    case Walk => Prior(p).(transfer := true, time := Some(TransferSeconds))
    case Branch => Prior(p).(transfer := false, line := Some(BranchLine), color := Some(LineColors[BranchLine]))
  }

  lemma StampIdempotent(p: Option<Edge>, m: Mark)
    ensures Stamp(Some(Stamp(p, m)), m) == Stamp(p, m)
  {
  }

  // ---------------------------------------------------------------------------
  // Segment and time writes: an ordered sequence of updates, the last one wins

  datatype Write = Link(a: Code, b: Code, line: string) | Time(a: Code, b: Code, seconds: int)

  /** A write takes effect only when both of its codes are nodes. */
  predicate Applies(w: Write, nodes: set<Code>)
  {
    w.a in nodes && w.b in nodes
  }

  function Written(p: Option<Edge>, w: Write): Edge
  {
    match w
    case Link(_, _, line) => LinkEdge(p, line)
    case Time(_, _, t) => TimeEdge(p, t)
  }

  function Apply(edges: map<Key, Edge>, nodes: set<Code>, w: Write): map<Key, Edge>
  {
    if Applies(w, nodes) then
      var k := KeyOf(w.a, w.b);
      edges[k := Written(Lookup(edges, k), w)]
    else edges
  }

  /** The writes in order; no edge is removed and every new edge joins two nodes. */
  function ApplyWrites(edges: map<Key, Edge>, nodes: set<Code>, ws: seq<Write>): (r: map<Key, Edge>)
    ensures edges.Keys <= r.Keys
    ensures forall k :: k in r && k !in edges ==> k <= nodes
    decreases |ws|
  {
    if ws == [] then edges
    else Apply(ApplyWrites(edges, nodes, ws[..|ws| - 1]), nodes, ws[|ws| - 1])
  }

  lemma {:induction false} ApplyWritesAppend(edges: map<Key, Edge>, nodes: set<Code>, xs: seq<Write>, ys: seq<Write>)
    ensures ApplyWrites(edges, nodes, xs + ys) == ApplyWrites(ApplyWrites(edges, nodes, xs), nodes, ys)
    decreases |ys|
  {
    if ys == [] {
      assert xs + ys == xs;
    } else {
      var init := ys[..|ys| - 1];
      assert (xs + ys)[..|xs + ys| - 1] == xs + init;
      ApplyWritesAppend(edges, nodes, xs, init);
    }
  }

  /** A write that does not take effect on key `k`. */
  predicate Misses(w: Write, nodes: set<Code>, k: Key)
  {
    !Applies(w, nodes) || KeyOf(w.a, w.b) != k
  }

  /** An edge no write reaches keeps its attributes (or stays absent). */
  lemma {:induction false} ApplyWritesFrame(edges: map<Key, Edge>, nodes: set<Code>, ws: seq<Write>, k: Key)
    requires forall i :: 0 <= i < |ws| ==> Misses(ws[i], nodes, k)
    ensures Lookup(ApplyWrites(edges, nodes, ws), k) == Lookup(edges, k)
    decreases |ws|
  {
    if ws != [] {
      ApplyWritesFrame(edges, nodes, ws[..|ws| - 1], k);
    }
  }

  /**
   * Last write wins: the edge of `k` is what the last write that reaches `k`
   * made of it; the writes after it leave it alone.
   */
  lemma LastWriteWins(edges: map<Key, Edge>, nodes: set<Code>, ws: seq<Write>, i: nat)
    requires i < |ws| && Applies(ws[i], nodes)
    requires forall j :: i < j < |ws| ==> Misses(ws[j], nodes, KeyOf(ws[i].a, ws[i].b))
    ensures var k := KeyOf(ws[i].a, ws[i].b);
      Lookup(ApplyWrites(edges, nodes, ws), k) == Some(Written(Lookup(ApplyWrites(edges, nodes, ws[..i]), k), ws[i]))
  {
    var k := KeyOf(ws[i].a, ws[i].b);
    var rest := ws[i + 1..];
    assert ws == ws[..i + 1] + rest;
    assert ws[..i + 1][..i] == ws[..i];
    ApplyWritesAppend(edges, nodes, ws[..i + 1], rest);
    ApplyWritesFrame(ApplyWrites(edges, nodes, ws[..i + 1]), nodes, rest, k);
  }

  /** A segment write and a time write on the same pair commute. */
  lemma LinkTimeCommute(p: Option<Edge>, line: string, t: int)
    ensures TimeEdge(Some(LinkEdge(p, line)), t) == LinkEdge(Some(TimeEdge(p, t)), line)
  {
  }

  // ---------------------------------------------------------------------------
  // The writes each builder performs

  function StopOrder(s: Stop): int
  {
    s.order
  }

  /** Consecutive stops joined: stop `i` to stop `i + 1`, on the line of stop `i`. */
  function LinkWrites(stops: seq<Stop>): (ws: seq<Write>)
    ensures |ws| == if |stops| < 2 then 0 else |stops| - 1
  {
    if |stops| < 2 then
      []
    else
      seq(|stops| - 1, i requires 0 <= i < |stops| - 1 =>
        Link(Normalize(stops[i].code), Normalize(stops[i + 1].code), stops[i].line))
  }

  /** The segments of one itinerary: its stops sorted by sequence number, then linked. */
  function SegmentWrites(itinerary: seq<Stop>): seq<Write>
  {
    LinkWrites(Order.SortBy(itinerary, StopOrder))
  }

  function AllSegmentWrites(itineraries: seq<seq<Stop>>): seq<Write>
  {
    if itineraries == [] then []
    else AllSegmentWrites(itineraries[..|itineraries| - 1]) + SegmentWrites(itineraries[|itineraries| - 1])
  }

  lemma {:induction false} SegmentWritesLink(itinerary: seq<Stop>, i: nat)
    requires i + 1 < |itinerary|
    ensures var stops := Order.SortBy(itinerary, StopOrder);
      SegmentWrites(itinerary)[i] == Link(Normalize(stops[i].code), Normalize(stops[i + 1].code), stops[i].line)
      && stops[i].order <= stops[i + 1].order
  {
    var stops := Order.SortBy(itinerary, StopOrder);
    assert |stops| == |itinerary|;
    assert LinkWrites(stops)[i] == Link(Normalize(stops[i].code), Normalize(stops[i + 1].code), stops[i].line);
    assert Order.SortedBy(stops, StopOrder);
    assert StopOrder(stops[i]) <= StopOrder(stops[i + 1]);
  }

  /**
   * The time writes of the rows whose duration `parse` accepts, in row
   * order; the other rows write nothing.
   */
  function TimeWrites(rows: seq<Observation>, parse: string -> Option<int>): seq<Write>
  {
    if rows == [] then []
    else
      var row := rows[|rows| - 1];
      TimeWrites(rows[..|rows| - 1], parse) +
        match parse(row.duration)
        case Some(t) => [Time(Normalize(row.stopId), Normalize(row.nextStopId), t)]
        case None => []
  }

  lemma {:induction false} TimeWritesAppend(xs: seq<Observation>, ys: seq<Observation>, parse: string -> Option<int>)
    ensures TimeWrites(xs + ys, parse) == TimeWrites(xs, parse) + TimeWrites(ys, parse)
    decreases |ys|
  {
    if ys == [] {
      assert xs + ys == xs;
    } else {
      assert (xs + ys)[..|xs + ys| - 1] == xs + ys[..|ys| - 1];
      TimeWritesAppend(xs, ys[..|ys| - 1], parse);
    }
  }

  lemma TimeWritesSkip(xs: seq<Observation>, bad: Observation, ys: seq<Observation>, parse: string -> Option<int>)
    requires parse(bad.duration) == None
    ensures TimeWrites(xs + [bad] + ys, parse) == TimeWrites(xs + ys, parse)
  {
    TimeWritesAppend(xs + [bad], ys, parse);
    TimeWritesAppend(xs, [bad], parse);
    TimeWritesAppend(xs, ys, parse);
    assert [bad][..0] == [] && [bad][0] == bad;
    assert TimeWrites([bad], parse) == TimeWrites([], parse);
  }

  /** A row whose duration does not parse changes nothing, wherever it stands. */
  lemma MalformedRowIgnored(edges: map<Key, Edge>, nodes: set<Code>, xs: seq<Observation>, bad: Observation, ys: seq<Observation>)
    requires ParseDuration(bad.duration) == None
    ensures ApplyWrites(edges, nodes, TimeWrites(xs + [bad] + ys, ParseDuration)) == ApplyWrites(edges, nodes, TimeWrites(xs + ys, ParseDuration))
  {
    TimeWritesSkip(xs, bad, ys, ParseDuration);
  }

  /** A row whose duration reads as `t` seconds writes `t` on the pair of its two codes. */
  lemma ParsedRowWrites(row: Observation, parse: string -> Option<int>, t: int)
    requires parse(row.duration) == Some(t)
    ensures TimeWrites([row], parse) == [Time(Normalize(row.stopId), Normalize(row.nextStopId), t)]
  {
    assert [row][..0] == [] && [row][0] == row;
  }

  /**
   * A time row read after `xs` whose codes are both nodes leaves its pair
   * with its time: an existing edge keeps its other attributes, a missing
   * one becomes a gray edge with no line; no other pair changes.
   */
  lemma TimedRowSetsTime(edges: map<Key, Edge>, nodes: set<Code>, xs: seq<Observation>, row: Observation, t: int)
    requires ParseDuration(row.duration) == Some(t)
    requires Normalize(row.stopId) in nodes && Normalize(row.nextStopId) in nodes
    ensures var k := KeyOf(Normalize(row.stopId), Normalize(row.nextStopId));
      var before := ApplyWrites(edges, nodes, TimeWrites(xs, ParseDuration));
      var after := ApplyWrites(edges, nodes, TimeWrites(xs + [row], ParseDuration));
      && k in after && after[k].time == Some(t)
      && (k in before ==> after[k] == before[k].(time := Some(t)))
      && (k !in before ==> after[k] == Edge(false, None, Some(t), Some(GrayColor)))
      && (forall k' | k' != k :: Lookup(after, k') == Lookup(before, k'))
  {
    TimeWritesAppend(xs, [row], ParseDuration);
    ParsedRowWrites(row, ParseDuration, t);
    ApplyWritesAppend(edges, nodes, TimeWrites(xs, ParseDuration), TimeWrites([row], ParseDuration));
    var before := ApplyWrites(edges, nodes, TimeWrites(xs, ParseDuration));
    var w := Time(Normalize(row.stopId), Normalize(row.nextStopId), t);
    assert [w][..0] == [];
    assert ApplyWrites(before, nodes, [w]) == Apply(before, nodes, w);
  }

  // ---------------------------------------------------------------------------
  // Walks and the branch: a set of keys, each stamped once (order does not matter)

  /** Every key of `keys` stamped with `m`; every other edge kept. */
  function Stamped(edges: map<Key, Edge>, keys: set<Key>, m: Mark): map<Key, Edge>
  {
    map k | k in edges.Keys + keys :: if k in keys then Stamp(Lookup(edges, k), m) else edges[k]
  }

  lemma StampedNothing(edges: map<Key, Edge>, m: Mark)
    ensures Stamped(edges, {}, m) == edges
  {
  }

  /** Stamping one key is the single update the source performs. */
  lemma StampedOne(edges: map<Key, Edge>, k: Key, m: Mark)
    ensures Stamped(edges, {k}, m) == edges[k := Stamp(Lookup(edges, k), m)]
  {
  }

  /** Stamping twice is stamping the union: the order of the pairs does not matter. */
  lemma StampedUnion(edges: map<Key, Edge>, k1: set<Key>, k2: set<Key>, m: Mark)
    ensures Stamped(Stamped(edges, k1, m), k2, m) == Stamped(edges, k1 + k2, m)
  {
    var once := Stamped(edges, k1, m);
    forall k | k in k2 && k in k1
      ensures Stamp(Lookup(once, k), m) == Stamp(Lookup(edges, k), m)
    {
      StampIdempotent(Lookup(edges, k), m);
    }
  }

  /** The pairs `i < j` of one group whose codes are both nodes. */
  function PairsWithin(codes: seq<Code>, nodes: set<Code>): set<Key>
  {
    set i, j | 0 <= i < j < |codes| && codes[i] in nodes && codes[j] in nodes :: KeyOf(codes[i], codes[j])
  }

  /** Every pair of one code of `xs` with one code of `ys`, both nodes. */
  function CrossPairs(xs: seq<Code>, ys: seq<Code>, nodes: set<Code>): set<Key>
  {
    set i, j | 0 <= i < |xs| && 0 <= j < |ys| && xs[i] in nodes && ys[j] in nodes :: KeyOf(xs[i], ys[j])
  }

  lemma CrossPairsSnoc(xs: seq<Code>, x: Code, ys: seq<Code>, nodes: set<Code>)
    ensures CrossPairs(xs + [x], ys, nodes) == CrossPairs(xs, ys, nodes) + CrossPairs([x], ys, nodes)
  {
    var l, r := CrossPairs(xs + [x], ys, nodes), CrossPairs(xs, ys, nodes) + CrossPairs([x], ys, nodes);
    forall k | k in l ensures k in r {
      var i, j :| 0 <= i < |xs| + 1 && 0 <= j < |ys| && (xs + [x])[i] in nodes && ys[j] in nodes && k == KeyOf((xs + [x])[i], ys[j]);
      if i < |xs| {
        assert (xs + [x])[i] == xs[i];
      } else {
        assert [x][0] == x;
      }
    }
    forall k | k in r ensures k in l {
      if k in CrossPairs(xs, ys, nodes) {
        var i, j :| 0 <= i < |xs| && 0 <= j < |ys| && xs[i] in nodes && ys[j] in nodes && k == KeyOf(xs[i], ys[j]);
        assert (xs + [x])[i] == xs[i];
      } else {
        var i, j :| 0 <= i < 1 && 0 <= j < |ys| && [x][i] in nodes && ys[j] in nodes && k == KeyOf([x][i], ys[j]);
        assert (xs + [x])[|xs|] == x;
      }
    }
  }

  lemma CrossPairsRowSnoc(x: Code, ys: seq<Code>, y: Code, nodes: set<Code>)
    ensures CrossPairs([x], ys + [y], nodes) == CrossPairs([x], ys, nodes) + (if x in nodes && y in nodes then {KeyOf(x, y)} else {})
  {
    var l := CrossPairs([x], ys + [y], nodes);
    var r := CrossPairs([x], ys, nodes) + (if x in nodes && y in nodes then {KeyOf(x, y)} else {});
    forall k | k in l ensures k in r {
      var i, j :| 0 <= i < 1 && 0 <= j < |ys| + 1 && [x][i] in nodes && (ys + [y])[j] in nodes && k == KeyOf([x][i], (ys + [y])[j]);
      if j < |ys| {
        assert (ys + [y])[j] == ys[j];
      }
    }
    forall k | k in r ensures k in l {
      if k in CrossPairs([x], ys, nodes) {
        var i, j :| 0 <= i < 1 && 0 <= j < |ys| && [x][i] in nodes && ys[j] in nodes && k == KeyOf([x][i], ys[j]);
        assert (ys + [y])[j] == ys[j];
      } else {
        assert (ys + [y])[|ys|] == y;
        assert KeyOf([x][0], (ys + [y])[|ys|]) in l;
      }
    }
  }

  /** The pairs joined by `agregar_transbordos`: within each group of namesakes. */
  function NamesakePairs(groups: map<string, seq<Code>>, names: set<string>, nodes: set<Code>): set<Key>
  {
    set name, k | name in names && name in groups && k in PairsWithin(groups[name], nodes) :: k
  }

  function CodesNamed(stations: seq<Station>, name: string): seq<Code>
  {
    if stations == [] then []
    else
      var s := stations[|stations| - 1];
      CodesNamed(stations[..|stations| - 1], name) + (if s.name == name then [Normalize(s.code)] else [])
  }

  /** The name to codes map (`groupby('DENOMINACION')`), codes in row order. */
  function GroupByName(stations: seq<Station>): (groups: map<string, seq<Code>>)
    ensures forall name :: name in groups ==> groups[name] != []
  {
    if stations == [] then map[]
    else
      var g := GroupByName(stations[..|stations| - 1]);
      var s := stations[|stations| - 1];
      g[s.name := (if s.name in g then g[s.name] else []) + [Normalize(s.code)]]
  }

  /** A name has a group exactly when some row carries it, and the group lists its codes in row order. */
  lemma {:induction false} GroupByNameSpec(stations: seq<Station>, name: string)
    ensures name in GroupByName(stations) <==> exists i :: 0 <= i < |stations| && stations[i].name == name
    ensures name in GroupByName(stations) ==> GroupByName(stations)[name] == CodesNamed(stations, name)
    ensures name !in GroupByName(stations) ==> CodesNamed(stations, name) == []
  {
    if stations != [] {
      var init := stations[..|stations| - 1];
      GroupByNameSpec(init, name);
      if exists i :: 0 <= i < |init| && init[i].name == name {
        var i :| 0 <= i < |init| && init[i].name == name;
        assert stations[i].name == name;
      }
      if exists i :: 0 <= i < |stations| && stations[i].name == name {
        var i :| 0 <= i < |stations| && stations[i].name == name;
        if i < |init| {
          assert init[i].name == name;
        }
      }
    }
  }

  /** The node names (`crear_grafo`): a repeated code keeps the last row's name. */
  function NodeNames(stations: seq<Station>): (names: map<Code, string>)
    ensures forall i :: 0 <= i < |stations| ==> Normalize(stations[i].code) in names
  {
    if stations == [] then map[]
    else
      var s := stations[|stations| - 1];
      NodeNames(stations[..|stations| - 1])[Normalize(s.code) := s.name]
  }

  /** Every node comes from a row of the table. */
  lemma {:induction false} NodeNamesFromRows(stations: seq<Station>, c: Code)
    requires c in NodeNames(stations)
    ensures exists i :: 0 <= i < |stations| && Normalize(stations[i].code) == c
  {
    var n := |stations|;
    if Normalize(stations[n - 1].code) != c {
      var init := stations[..n - 1];
      NodeNamesFromRows(init, c);
      var i :| 0 <= i < |init| && Normalize(init[i].code) == c;
      assert stations[i] == init[i];
    }
  }

  /** A node carries the name of the last row with its code: a repeated code overwrites the name. */
  lemma {:induction false} NodeNamesLastRow(stations: seq<Station>, i: nat)
    requires i < |stations|
    requires forall j :: i < j < |stations| ==> Normalize(stations[j].code) != Normalize(stations[i].code)
    ensures NodeNames(stations)[Normalize(stations[i].code)] == stations[i].name
  {
    var n := |stations|;
    if i < n - 1 {
      var init := stations[..n - 1];
      assert init[i] == stations[i];
      assert Normalize(stations[n - 1].code) != Normalize(stations[i].code);
      forall j | i < j < |init| ensures Normalize(init[j].code) != Normalize(init[i].code) {
        assert init[j] == stations[j];
      }
      NodeNamesLastRow(init, i);
    }
  }

  // ---------------------------------------------------------------------------
  // Incident edges: the branch test and the node colour

  /** `solo_transbordos`: every edge at `n` is a transfer (vacuously so for an isolated node). */
  predicate OnlyTransfers(edges: map<Key, Edge>, n: Code)
  {
    forall k | k in edges.Keys && n in k :: edges[k].transfer
  }

  /** The codes of `codes` that pass `solo_transbordos`, in their order. */
  function Qualifying(edges: map<Key, Edge>, codes: seq<Code>): (r: seq<Code>)
    ensures forall c :: c in r <==> c in codes && OnlyTransfers(edges, c)
  {
    if codes == [] then []
    else
      var last := codes[|codes| - 1];
      Qualifying(edges, codes[..|codes| - 1]) + (if OnlyTransfers(edges, last) then [last] else [])
  }

  /** The pairs `agregar_ramal` joins, chosen on the graph before the call. */
  function BranchPairs(edges: map<Key, Edge>, origins: seq<Code>, destinations: seq<Code>, nodes: set<Code>): set<Key>
  {
    CrossPairs(Qualifying(edges, origins), Qualifying(edges, destinations), nodes)
  }

  /** The lines of the non-transfer edges at `n`, `None` discarded. */
  function LinesAt(edges: map<Key, Edge>, n: Code): set<string>
  {
    set k | k in edges.Keys && n in k && !edges[k].transfer && edges[k].line.Some? :: edges[k].line.value
  }

  /** The colour `asignar_color_nodos` gives `n`: its one line's colour, or the default. */
  ghost function NodeColor(edges: map<Key, Edge>, n: Code): string
  {
    var lines := LinesAt(edges, n);
    if |lines| == 1 then
      var l :| l in lines; ColorOf(l, DefaultNodeColor)
    else DefaultNodeColor
  }

  ghost function Colors(edges: map<Key, Edge>, nodes: set<Code>): map<Code, string>
  {
    map n | n in nodes :: NodeColor(edges, n)
  }

  lemma SingletonOf(lines: set<string>, l: string)
    requires |lines| == 1 && l in lines
    ensures lines == {l}
  {
    assert |lines - {l}| == 0;
  }

  /** A node on exactly one line takes that line's colour (the default for an unknown tag). */
  lemma NodeColorOneLine(edges: map<Key, Edge>, n: Code, l: string)
    requires LinesAt(edges, n) == {l}
    ensures NodeColor(edges, n) == ColorOf(l, DefaultNodeColor)
  {
  }

  /** A node on no line, or on several, takes the default colour. */
  lemma NodeColorNotOneLine(edges: map<Key, Edge>, n: Code)
    requires forall l :: LinesAt(edges, n) != {l}
    ensures NodeColor(edges, n) == DefaultNodeColor
  {
    var lines := LinesAt(edges, n);
    if |lines| == 1 {
      var l :| l in lines;
      SingletonOf(lines, l);
    }
  }

  /** A node's colour depends only on the edges at that node. */
  lemma NodeColorLocal(e1: map<Key, Edge>, e2: map<Key, Edge>, n: Code)
    requires forall k :: n in k ==> Lookup(e1, k) == Lookup(e2, k)
    ensures NodeColor(e1, n) == NodeColor(e2, n)
  {
    assert LinesAt(e1, n) == LinesAt(e2, n) by {
      forall l ensures l in LinesAt(e1, n) <==> l in LinesAt(e2, n) {
        if l in LinesAt(e1, n) {
          var k :| k in e1.Keys && n in k && !e1[k].transfer && e1[k].line == Some(l);
          assert Lookup(e1, k) == Lookup(e2, k);
        }
        if l in LinesAt(e2, n) {
          var k :| k in e2.Keys && n in k && !e2[k].transfer && e2[k].line == Some(l);
          assert Lookup(e1, k) == Lookup(e2, k);
        }
      }
    }
  }

  /** A walking link to a pair that had no edge leaves every colour as it was. */
  lemma NewWalkKeepsColors(edges: map<Key, Edge>, k: Key, n: Code)
    requires k !in edges
    ensures NodeColor(Stamped(edges, {k}, Walk), n) == NodeColor(edges, n)
  {
    var e2 := Stamped(edges, {k}, Walk);
    assert LinesAt(e2, n) == LinesAt(edges, n) by {
      forall l ensures l in LinesAt(e2, n) <==> l in LinesAt(edges, n) {
        if l in LinesAt(e2, n) {
          var k' :| k' in e2.Keys && n in k' && !e2[k'].transfer && e2[k'].line == Some(l);
          assert k' != k;
        }
        if l in LinesAt(edges, n) {
          var k' :| k' in edges.Keys && n in k' && !edges[k'].transfer && edges[k'].line == Some(l);
          assert k' in e2.Keys;
        }
      }
    }
  }

  // ---------------------------------------------------------------------------
  // What the transfer builders guarantee

  /** A lookup of `name.upper()` in the name to codes map, with `[]` for an unknown name. */
  function Aliases(groups: map<string, seq<Code>>, name: string): seq<Code>
  {
    var key := Upper(name);
    if key in groups then groups[key] else []
  }

  lemma NamesakePairsAdd(groups: map<string, seq<Code>>, done: set<string>, name: string, nodes: set<Code>)
    requires name in groups
    ensures NamesakePairs(groups, done + {name}, nodes) == NamesakePairs(groups, done, nodes) + PairsWithin(groups[name], nodes)
  {
  }

  lemma {:induction false} CodesNamedHas(stations: seq<Station>, name: string, p: nat)
    requires p < |stations| && stations[p].name == name
    ensures exists i :: 0 <= i < |CodesNamed(stations, name)| && CodesNamed(stations, name)[i] == Normalize(stations[p].code)
  {
    var n := |stations|;
    var init := stations[..n - 1];
    var c := CodesNamed(init, name);
    if p == n - 1 {
      assert CodesNamed(stations, name)[|c|] == Normalize(stations[p].code);
    } else {
      assert init[p] == stations[p];
      CodesNamedHas(init, name, p);
      var i :| 0 <= i < |c| && c[i] == Normalize(init[p].code);
      assert CodesNamed(stations, name)[i] == c[i];
    }
  }

  /** Two rows with the same name give two positions `i < j` of that name's group. */
  lemma {:induction false} CodesNamedPair(stations: seq<Station>, name: string, p: nat, q: nat)
    requires p < q < |stations| && stations[p].name == name && stations[q].name == name
    ensures exists i, j ::
              && 0 <= i < j < |CodesNamed(stations, name)|
              && CodesNamed(stations, name)[i] == Normalize(stations[p].code)
              && CodesNamed(stations, name)[j] == Normalize(stations[q].code)
  {
    var n := |stations|;
    var init := stations[..n - 1];
    var c := CodesNamed(init, name);
    var all := CodesNamed(stations, name);
    assert init[p] == stations[p];
    if q == n - 1 {
      CodesNamedHas(init, name, p);
      var i :| 0 <= i < |c| && c[i] == Normalize(init[p].code);
      assert all[i] == c[i] && all[|c|] == Normalize(stations[q].code);
    } else {
      assert init[q] == stations[q];
      CodesNamedPair(init, name, p, q);
      var i, j :| 0 <= i < j < |c| && c[i] == Normalize(init[p].code) && c[j] == Normalize(init[q].code);
      assert all[i] == c[i] && all[j] == c[j];
    }
  }

  /**
   * After `agregar_transbordos`, any two rows with the same name whose codes
   * are nodes are joined by a transfer of 240 seconds, whatever edge the pair
   * had before; the edge's other attributes are kept.
   */
  lemma NamesakesJoined(edges: map<Key, Edge>, stations: seq<Station>, nodes: set<Code>, p: nat, q: nat)
    requires p < q < |stations| && stations[p].name == stations[q].name
    requires Normalize(stations[p].code) in nodes && Normalize(stations[q].code) in nodes
    ensures var groups := GroupByName(stations);
      var k := KeyOf(Normalize(stations[p].code), Normalize(stations[q].code));
      var after := Stamped(edges, NamesakePairs(groups, groups.Keys, nodes), Walk);
      k in after && after[k] == Prior(Lookup(edges, k)).(transfer := true, time := Some(TransferSeconds))
  {
    var groups := GroupByName(stations);
    var name := stations[p].name;
    GroupByNameSpec(stations, name);
    assert name in groups;
    CodesNamedPair(stations, name, p, q);
    var codes := groups[name];
    var i, j :| 0 <= i < j < |codes| && codes[i] == Normalize(stations[p].code) && codes[j] == Normalize(stations[q].code);
    var k := KeyOf(codes[i], codes[j]);
    assert k in PairsWithin(codes, nodes);
    assert k in NamesakePairs(groups, groups.Keys, nodes);
  }

  /** `agregar_transbordo_manual` joins every alias of one name to every alias of the other. */
  lemma CrossJoined(edges: map<Key, Edge>, xs: seq<Code>, ys: seq<Code>, nodes: set<Code>, i: nat, j: nat)
    requires i < |xs| && j < |ys| && xs[i] in nodes && ys[j] in nodes
    ensures var k := KeyOf(xs[i], ys[j]);
      var after := Stamped(edges, CrossPairs(xs, ys, nodes), Walk);
      k in after && after[k].transfer && after[k].time == Some(TransferSeconds)
  {
    assert KeyOf(xs[i], ys[j]) in CrossPairs(xs, ys, nodes);
  }

  /** An unknown name makes `agregar_transbordo_manual` a no-op. */
  lemma ManualUnknownName(edges: map<Key, Edge>, groups: map<string, seq<Code>>, a: string, b: string, nodes: set<Code>)
    requires Upper(a) !in groups || Upper(b) !in groups
    ensures Stamped(edges, CrossPairs(Aliases(groups, a), Aliases(groups, b), nodes), Walk) == edges
  {
    assert CrossPairs(Aliases(groups, a), Aliases(groups, b), nodes) == {};
    StampedNothing(edges, Walk);
  }

  /** `agregar_ramal` on the graph `edges`. */
  function Branched(edges: map<Key, Edge>, origins: seq<Code>, destinations: seq<Code>, nodes: set<Code>): map<Key, Edge>
  {
    Stamped(edges, BranchPairs(edges, origins, destinations, nodes), Branch)
  }

  /**
   * Every edge the branch adds or rewrites joins an origin alias and a
   * destination alias that had only transfers; it becomes a non-transfer `R`
   * edge and keeps the time it had (none when it is new).
   */
  lemma BranchEdgeShape(edges: map<Key, Edge>, origins: seq<Code>, destinations: seq<Code>, nodes: set<Code>, k: Key)
    requires k in BranchPairs(edges, origins, destinations, nodes)
    ensures exists o, d :: o in origins && d in destinations && OnlyTransfers(edges, o) && OnlyTransfers(edges, d) && k == {o, d}
    ensures var after := Branched(edges, origins, destinations, nodes);
      k in after && !after[k].transfer && after[k].line == Some(BranchLine)
      && after[k].time == (if k in edges then edges[k].time else None)
  {
    var xs, ys := Qualifying(edges, origins), Qualifying(edges, destinations);
    var i, j :| 0 <= i < |xs| && 0 <= j < |ys| && xs[i] in nodes && ys[j] in nodes && k == KeyOf(xs[i], ys[j]);
    assert xs[i] in xs && ys[j] in ys;
  }

  /** A code that passes `solo_transbordos` after the branch passed it before, and touches no branch pair. */
  lemma BranchQualifiersShrink(edges: map<Key, Edge>, keys: set<Key>, c: Code)
    requires OnlyTransfers(Stamped(edges, keys, Branch), c)
    ensures OnlyTransfers(edges, c)
    ensures forall k :: k in keys ==> c !in k
  {
    var after := Stamped(edges, keys, Branch);
    forall k | k in keys ensures c !in k {
      assert k in after && !after[k].transfer;
    }
  }

  lemma CrossPairsNone(xs: seq<Code>, ys: seq<Code>, nodes: set<Code>)
    requires forall c :: c in xs ==> c !in nodes
    ensures CrossPairs(xs, ys, nodes) == {}
  {
    assert forall i :: 0 <= i < |xs| ==> xs[i] !in nodes;
  }

  /** Running `agregar_ramal` a second time changes nothing: its endpoints no longer qualify. */
  lemma BranchTwice(edges: map<Key, Edge>, origins: seq<Code>, destinations: seq<Code>, nodes: set<Code>)
    ensures var once := Branched(edges, origins, destinations, nodes);
      Branched(once, origins, destinations, nodes) == once
  {
    var xs, ys := Qualifying(edges, origins), Qualifying(edges, destinations);
    var keys := CrossPairs(xs, ys, nodes);
    var once := Stamped(edges, keys, Branch);
    if keys == {} {
      StampedNothing(edges, Branch);
    } else {
      var k0 :| k0 in keys;
      var i0, j0 :| 0 <= i0 < |xs| && 0 <= j0 < |ys| && xs[i0] in nodes && ys[j0] in nodes && k0 == KeyOf(xs[i0], ys[j0]);
      var xs1 := Qualifying(once, origins);
      forall c | c in xs1 ensures c !in nodes {
        BranchQualifiersShrink(edges, keys, c);
        assert c in xs;
        var p :| 0 <= p < |xs| && xs[p] == c;
        var kp := KeyOf(xs[p], ys[j0]);
        assert c in nodes ==> kp in keys;
      }
      CrossPairsNone(xs1, Qualifying(once, destinations), nodes);
      StampedNothing(once, Branch);
    }
  }

  // ---------------------------------------------------------------------------
  // The graph object the builders update in place

  class Metro {
    /** The nodes and their `nombre` attribute. */
    var names: map<Code, string>
    var edges: map<Key, Edge>
    /** The `color` attribute of the nodes, once `ColorNodes` has run. */
    var colors: map<Code, string>

    /** Edges only join nodes, and only nodes carry a colour. */
    ghost predicate Valid()
      reads this
    {
      && (forall k | k in edges :: k <= names.Keys)
      && colors.Keys <= names.Keys
    }

    /** `crear_grafo`: one node per normalised code, no edges. */
    constructor (stations: seq<Station>)
      ensures Valid()
      ensures names == NodeNames(stations) && edges == map[] && colors == map[]
    {
      var m: map<Code, string> := map[];
      var i := 0;
      while i < |stations|
        invariant 0 <= i <= |stations|
        invariant m == NodeNames(stations[..i])
      {
        assert stations[..i + 1][..i] == stations[..i];
        m := m[Normalize(stations[i].code) := stations[i].name];
        i := i + 1;
      }
      assert stations[..i] == stations;
      names := m;
      edges := map[];
      colors := map[];
    }

    /**
     * `agregar_tramos`, given the stops grouped by itinerary: each
     * itinerary's stops are sorted by sequence number and consecutive stops
     * whose codes are both nodes are linked.
     */
    method AddSegments(itineraries: seq<seq<Stop>>)
      requires Valid()
      modifies this`edges
      ensures Valid()
      ensures edges == ApplyWrites(old(edges), names.Keys, AllSegmentWrites(itineraries))
    {
      var n := 0;
      while n < |itineraries|
        invariant 0 <= n <= |itineraries|
        invariant Valid()
        invariant edges == ApplyWrites(old(edges), names.Keys, AllSegmentWrites(itineraries[..n]))
      {
        LinkStops(Order.SortBy(itineraries[n], StopOrder));
        ApplyWritesAppend(old(edges), names.Keys, AllSegmentWrites(itineraries[..n]), SegmentWrites(itineraries[n]));
        assert itineraries[..n + 1][..n] == itineraries[..n];
        n := n + 1;
      }
      assert itineraries[..n] == itineraries;
    }

    /** Links each two consecutive stops whose codes are both nodes. */
    method LinkStops(stops: seq<Stop>)
      requires Valid()
      modifies this`edges
      ensures Valid()
      ensures edges == ApplyWrites(old(edges), names.Keys, LinkWrites(stops))
    {
      ghost var ws := LinkWrites(stops);
      var i := 0;
      while i + 1 < |stops|
        invariant 0 <= i <= |ws|
        invariant Valid()
        invariant edges == ApplyWrites(old(edges), names.Keys, ws[..i])
      {
        var a, b := Normalize(stops[i].code), Normalize(stops[i + 1].code);
        if a in names && b in names {
          var k := KeyOf(a, b);
          edges := edges[k := LinkEdge(Lookup(edges, k), stops[i].line)];
        }
        assert ws[i] == Link(a, b, stops[i].line);
        assert ws[..i + 1][..i] == ws[..i];
        i := i + 1;
      }
      assert ws[..i] == ws;
    }

    /**
     * `agregar_tiempos`: each row whose duration parses writes its time on
     * the pair, creating a time-only edge when the pair has none.
     */
    method AddTimes(rows: seq<Observation>)
      requires Valid()
      modifies this`edges
      ensures Valid()
      ensures edges == ApplyWrites(old(edges), names.Keys, TimeWrites(rows, ParseDuration))
    {
      WriteTimes(rows, ParseDuration);
    }

    /** The loop of `agregar_tiempos`, with `parse` reading each row's duration. */
    method WriteTimes(rows: seq<Observation>, parse: string -> Option<int>)
      requires Valid()
      modifies this`edges
      ensures Valid()
      ensures edges == ApplyWrites(old(edges), names.Keys, TimeWrites(rows, parse))
    {
      var i := 0;
      while i < |rows|
        invariant 0 <= i <= |rows|
        invariant Valid()
        invariant edges == ApplyWrites(old(edges), names.Keys, TimeWrites(rows[..i], parse))
      {
        WriteTime(rows[i], parse);
        assert rows[..i + 1] == rows[..i] + [rows[i]];
        TimeWritesAppend(rows[..i], [rows[i]], parse);
        ApplyWritesAppend(old(edges), names.Keys, TimeWrites(rows[..i], parse), TimeWrites([rows[i]], parse));
        i := i + 1;
      }
      assert rows[..i] == rows;
    }

    /** One row of `agregar_tiempos`. */
    method WriteTime(row: Observation, parse: string -> Option<int>)
      requires Valid()
      modifies this`edges
      ensures Valid()
      ensures edges == ApplyWrites(old(edges), names.Keys, TimeWrites([row], parse))
    {
      assert [row][..0] == [] && [row][0] == row;
      match parse(row.duration) {
        case None =>
        case Some(t) =>
          var a, b := Normalize(row.stopId), Normalize(row.nextStopId);
          if a in names && b in names {
            var k := KeyOf(a, b);
            if k in edges {
              edges := edges[k := edges[k].(time := Some(t))];
            } else {
              edges := edges[k := Edge(false, None, Some(t), Some(GrayColor))];
            }
          }
          assert TimeWrites([row], parse) == [Time(a, b, t)];
          assert [Time(a, b, t)][..0] == [];
      }
    }

    /** Stamps every pair `i < j` of `codes` whose codes are both nodes. */
    method StampWithin(codes: seq<Code>, m: Mark)
      requires Valid()
      modifies this`edges
      ensures Valid()
      ensures edges == Stamped(old(edges), PairsWithin(codes, names.Keys), m)
    {
      ghost var done: set<Key> := {};
      var i := 0;
      while i < |codes|
        invariant 0 <= i <= |codes|
        invariant Valid()
        invariant done <= PairsWithin(codes, names.Keys)
        invariant forall p, q :: 0 <= p < i && p < q < |codes| && codes[p] in names && codes[q] in names ==> KeyOf(codes[p], codes[q]) in done
        invariant edges == Stamped(old(edges), done, m)
      {
        var j := i + 1;
        while j < |codes|
          invariant i < j <= |codes| || (j == i + 1 && j > |codes| - 1)
          invariant Valid()
          invariant done <= PairsWithin(codes, names.Keys)
          invariant forall p, q :: 0 <= p < i && p < q < |codes| && codes[p] in names && codes[q] in names ==> KeyOf(codes[p], codes[q]) in done
          invariant forall q :: i < q < j && q < |codes| && codes[i] in names && codes[q] in names ==> KeyOf(codes[i], codes[q]) in done
          invariant edges == Stamped(old(edges), done, m)
        {
          if codes[i] in names && codes[j] in names {
            var k := KeyOf(codes[i], codes[j]);
            StampedOne(edges, k, m);
            StampedUnion(old(edges), done, {k}, m);
            edges := edges[k := Stamp(Lookup(edges, k), m)];
            done := done + {k};
          }
          j := j + 1;
        }
        i := i + 1;
      }
      assert done == PairsWithin(codes, names.Keys) by {
        forall k | k in PairsWithin(codes, names.Keys) ensures k in done {
          var p, q :| 0 <= p < q < |codes| && codes[p] in names && codes[q] in names && k == KeyOf(codes[p], codes[q]);
        }
      }
    }

    /** Stamps every pair of a code of `xs` with a code of `ys`, both nodes. */
    method StampCross(xs: seq<Code>, ys: seq<Code>, m: Mark)
      requires Valid()
      modifies this`edges
      ensures Valid()
      ensures edges == Stamped(old(edges), CrossPairs(xs, ys, names.Keys), m)
    {
      ghost var done: set<Key> := {};
      var i := 0;
      while i < |xs|
        invariant 0 <= i <= |xs|
        invariant Valid()
        invariant done == CrossPairs(xs[..i], ys, names.Keys)
        invariant edges == Stamped(old(edges), done, m)
      {
        ghost var before := edges;
        StampRow(xs[i], ys, m);
        StampedUnion(old(edges), done, CrossPairs([xs[i]], ys, names.Keys), m);
        CrossPairsSnoc(xs[..i], xs[i], ys, names.Keys);
        assert xs[..i + 1] == xs[..i] + [xs[i]];
        done := done + CrossPairs([xs[i]], ys, names.Keys);
        i := i + 1;
      }
      assert xs[..i] == xs;
    }

    /** Stamps the pairs of `x` with each code of `ys`, when both are nodes. */
    method StampRow(x: Code, ys: seq<Code>, m: Mark)
      requires Valid()
      modifies this`edges
      ensures Valid()
      ensures edges == Stamped(old(edges), CrossPairs([x], ys, names.Keys), m)
    {
      ghost var done: set<Key> := {};
      var j := 0;
      while j < |ys|
        invariant 0 <= j <= |ys|
        invariant Valid()
        invariant done == CrossPairs([x], ys[..j], names.Keys)
        invariant edges == Stamped(old(edges), done, m)
      {
        ghost var added: set<Key> := {};
        if x in names && ys[j] in names {
          var k := KeyOf(x, ys[j]);
          StampedOne(edges, k, m);
          StampedUnion(old(edges), done, {k}, m);
          edges := edges[k := Stamp(Lookup(edges, k), m)];
          added := {k};
        }
        CrossPairsRowSnoc(x, ys[..j], ys[j], names.Keys);
        assert ys[..j + 1] == ys[..j] + [ys[j]];
        done := done + added;
        j := j + 1;
      }
      assert ys[..j] == ys;
    }

    /**
     * `agregar_transbordos`: groups the codes by station name and joins
     * every two namesakes that are nodes by a walking transfer; returns the
     * groups.
     */
    method AddTransfers(stations: seq<Station>) returns (groups: map<string, seq<Code>>)
      requires Valid()
      modifies this`edges
      ensures Valid()
      ensures groups == GroupByName(stations)
      ensures edges == Stamped(old(edges), NamesakePairs(groups, groups.Keys, names.Keys), Walk)
    {
      groups := GroupByName(stations);
      var pending := groups.Keys;
      while pending != {}
        invariant pending <= groups.Keys
        invariant Valid()
        invariant edges == Stamped(old(edges), NamesakePairs(groups, groups.Keys - pending, names.Keys), Walk)
        decreases pending
      {
        var name :| name in pending;
        ghost var done := groups.Keys - pending;
        StampWithin(groups[name], Walk);
        StampedUnion(old(edges), NamesakePairs(groups, done, names.Keys), PairsWithin(groups[name], names.Keys), Walk);
        NamesakePairsAdd(groups, done, name, names.Keys);
        assert groups.Keys - (pending - {name}) == done + {name};
        pending := pending - {name};
      }
      assert groups.Keys - pending == groups.Keys;
    }

    /** `agregar_transbordo_manual`: walks between every alias of `a` and every alias of `b`. */
    method AddManualTransfer(groups: map<string, seq<Code>>, a: string, b: string)
      requires Valid()
      modifies this`edges
      ensures Valid()
      ensures edges == Stamped(old(edges), CrossPairs(Aliases(groups, a), Aliases(groups, b), names.Keys), Walk)
    {
      StampCross(Aliases(groups, a), Aliases(groups, b), Walk);
    }

    /**
     * `agregar_ramal`: the aliases of each name that have only transfers are
     * chosen first, then every chosen origin is joined to every chosen
     * destination by the `R` line. `solo_transbordos` asks the graph for the
     * neighbours of each alias, which fails unless the alias is a node.
     */
    method AddBranch(groups: map<string, seq<Code>>, a: string, b: string)
      requires Valid()
      requires forall c :: c in Aliases(groups, a) ==> c in names
      requires forall c :: c in Aliases(groups, b) ==> c in names
      modifies this`edges
      ensures Valid()
      ensures edges == Branched(old(edges), Aliases(groups, a), Aliases(groups, b), names.Keys)
    {
      var origins := Qualifying(edges, Aliases(groups, a));
      var destinations := Qualifying(edges, Aliases(groups, b));
      StampCross(origins, destinations, Branch);
    }

    /** `asignar_color_nodos`: every node takes the colour of its one line, or the default. */
    method ColorNodes()
      requires Valid()
      modifies this`colors
      ensures Valid()
      ensures colors == Colors(edges, names.Keys)
    {
      var pending := names.Keys;
      while pending != {}
        invariant pending <= names.Keys
        invariant Valid()
        invariant forall n :: n in names && n !in pending ==> n in colors && colors[n] == NodeColor(edges, n)
        decreases pending
      {
        var n :| n in pending;
        var lines := LinesAt(edges, n);
        var c := DefaultNodeColor;
        if |lines| == 1 {
          var l :| l in lines;
          SingletonOf(lines, l);
          NodeColorOneLine(edges, n, l);
          c := ColorOf(l, DefaultNodeColor);
        }
        colors := colors[n := c];
        pending := pending - {n};
      }
      assert colors.Keys == names.Keys;
    }
  }
}
