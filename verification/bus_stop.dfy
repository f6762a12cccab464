/** The "Find Nearest HK Bus Stop" page: parse "lat, lon" from a text box, scan the stop
    file once for the nearest stop (first wins; every route tied at the minimum is kept),
    group the file's rows by route on the way, and list each tied route with its first and
    last stop. The great-circle distance stays abstract: the scan only compares distances. */
module BusStop {
  import opened Wrappers
  import opened Sequences
  import opened Text

  /** One row of the stop file: columns `stop`, `name_en`, `dir`, `route`, `lat`, `long`. */
  datatype StopRow = StopRow(stop: string, nameEn: string, dir: string, route: string, lat: real, lon: real)

  /** The `(stop, name_en, dir)` tuple that `route_stops` keeps for a row. */
  datatype StopEntry = StopEntry(stop: string, nameEn: string, dir: string)

  function Entry(r: StopRow): StopEntry {
    StopEntry(r.stop, r.nameEn, r.dir)
  }

  /** A distance in kilometres, or the `float('inf')` the scan starts from. */
  datatype Distance = Km(km: real) | Infinity {
    /** Python's `<` between two such floats. */
    predicate Below(e: Distance) {
      match (this, e)
      case (Km(a), Km(b)) => a < b
      case (Km(_), Infinity) => true
      case (Infinity, _) => false
    }
  }

  /** `haversine_distance(lat1, lon1, lat2, lon2)`, left abstract. */
  type Haversine = (real, real, real, real) -> real

  /** The user's position together with the distance function used to measure from it. */
  datatype Probe = Probe(haversine: Haversine, lat: real, lon: real) {
    /** `haversine_distance(lat, lon, stop_lat, stop_lon)` for a row. */
    function To(r: StopRow): real {
      haversine(lat, lon, r.lat, r.lon)
    }
  }

  /* ---------------- the scan, stated declaratively ---------------- */

  /** The first row, in file order, whose distance is the minimum: no row is nearer, and
      every earlier row is strictly farther. */
  function FirstNearest(p: Probe, rows: seq<StopRow>): (k: nat)
    requires rows != []
    ensures k < |rows|
  {
    if |rows| == 1 then 0
    else
      var k := FirstNearest(p, rows[..|rows| - 1]);
      if p.To(rows[|rows| - 1]) < p.To(rows[k]) then |rows| - 1 else k
  }

  /** What `FirstNearest` picks: no row is nearer, and every earlier row is strictly
      farther, so a later row at the same distance never replaces it. */
  lemma {:induction false} FirstNearestIsNearest(p: Probe, rows: seq<StopRow>)
    requires rows != []
    ensures var k := FirstNearest(p, rows);
      && (forall j :: 0 <= j < |rows| ==> p.To(rows[k]) <= p.To(rows[j]))
      && (forall j :: 0 <= j < k ==> p.To(rows[k]) < p.To(rows[j]))
    decreases |rows|
  {
    if |rows| > 1 {
      var init := rows[..|rows| - 1];
      FirstNearestIsNearest(p, init);
      assert forall j :: 0 <= j < |init| ==> init[j] == rows[j];
    }
  }

  /** The routes of the rows at distance `m`, in file order, repeats included. */
  function TiedRoutes(p: Probe, rows: seq<StopRow>, m: real): (r: seq<string>)
    ensures |r| <= |rows|
  {
    if rows == [] then []
    else
      var last := rows[|rows| - 1];
      TiedRoutes(p, rows[..|rows| - 1], m) + (if p.To(last) == m then [last.route] else [])
  }

  /** A route is listed by `TiedRoutes` exactly when some row on it lies at distance `m`. */
  lemma {:induction false} TiedRoutesMembers(p: Probe, rows: seq<StopRow>, m: real, rt: string)
    ensures rt in TiedRoutes(p, rows, m) <==>
      exists j :: 0 <= j < |rows| && rows[j].route == rt && p.To(rows[j]) == m
    decreases |rows|
  {
    if rows != [] {
      var init := rows[..|rows| - 1];
      var last := rows[|rows| - 1];
      assert rows == init + [last];
      TiedRoutesMembers(p, init, m, rt);
      if exists j :: 0 <= j < |rows| && rows[j].route == rt && p.To(rows[j]) == m {
        var j :| 0 <= j < |rows| && rows[j].route == rt && p.To(rows[j]) == m;
        if j < |init| {
          assert init[j] == rows[j];
        }
      }
      if exists j :: 0 <= j < |init| && init[j].route == rt && p.To(init[j]) == m {
        var j :| 0 <= j < |init| && init[j].route == rt && p.To(init[j]) == m;
        assert rows[j] == init[j];
      }
    }
  }

  /** The `route` column. */
  function RouteColumn(rows: seq<StopRow>): (r: seq<string>)
    ensures |r| == |rows|
    ensures forall j :: 0 <= j < |rows| ==> r[j] == rows[j].route
  {
    if rows == [] then [] else RouteColumn(rows[..|rows| - 1]) + [rows[|rows| - 1].route]
  }

  /** The entries of the rows on route `rt`, in file order. */
  function EntriesOf(rows: seq<StopRow>, rt: string): (r: seq<StopEntry>)
    ensures |r| <= |rows|
  {
    if rows == [] then []
    else
      var last := rows[|rows| - 1];
      EntriesOf(rows[..|rows| - 1], rt) + (if last.route == rt then [Entry(last)] else [])
  }

  /** `route_stops` after reading `rows`: one key per route that occurs, holding that
      route's entries. */
  function Grouping(rows: seq<StopRow>): map<string, seq<StopEntry>> {
    map rt | rt in RouteColumn(rows) :: EntriesOf(rows, rt)
  }

  /* ---------------- the scan as written ---------------- */

  /** What the scan reports once it has read `read`, `k` being the row the report comes
      from: the start values while nothing is read, otherwise the first nearest row and
      the distinct routes tied with it. */
  ghost predicate Reported(p: Probe, read: seq<StopRow>, k: nat,
                           stop: Option<string>, nameEn: Option<string>, dir: Option<string>,
                           distance: Distance, routes: seq<string>, lat: Option<real>, lon: Option<real>)
  {
    if read == [] then
      && stop == None && nameEn == None && dir == None
      && distance == Infinity && routes == []
      && lat == None && lon == None
    else
      && k == FirstNearest(p, read)
      && stop == Some(read[k].stop) && nameEn == Some(read[k].nameEn) && dir == Some(read[k].dir)
      && lat == Some(read[k].lat) && lon == Some(read[k].lon)
      && distance == Km(p.To(read[k]))
      && routes == Distinct(TiedRoutes(p, read, p.To(read[k])))
  }

  /** `find_nearest_bus_stop`: one pass over the rows of the stop file. The reported stop,
      name, direction and position all come from the first nearest row; the routes are the
      distinct routes of every row at that same distance, in order of first appearance;
      and `routeStops` groups all rows by route. An empty file leaves the start values:
      `None`, infinity, no routes and an empty dictionary. */
  method FindNearestBusStop(rows: seq<StopRow>, p: Probe)
    returns (nearestStop: Option<string>, nearestNameEn: Option<string>, nearestDir: Option<string>,
             nearestDistance: Distance, nearestRoutes: seq<string>,
             routeStops: map<string, seq<StopEntry>>,
             nearestLat: Option<real>, nearestLon: Option<real>)
    ensures rows == [] ==>
      && nearestStop == None && nearestNameEn == None && nearestDir == None
      && nearestDistance == Infinity && nearestRoutes == []
      && nearestLat == None && nearestLon == None
    ensures rows != [] ==>
      var k := FirstNearest(p, rows);
      && nearestStop == Some(rows[k].stop) && nearestNameEn == Some(rows[k].nameEn)
      && nearestDir == Some(rows[k].dir)
      && nearestLat == Some(rows[k].lat) && nearestLon == Some(rows[k].lon)
      && nearestDistance == Km(p.To(rows[k]))
      && nearestRoutes == Distinct(TiedRoutes(p, rows, p.To(rows[k])))
    ensures routeStops == Grouping(rows)
  {
    nearestStop, nearestNameEn, nearestDir := None, None, None;
    nearestDistance := Infinity;
    nearestRoutes := [];
    routeStops := map[];
    nearestLat, nearestLon := None, None;
    ghost var k: nat := 0;
    ghost var read: seq<StopRow> := [];
    GroupingEmpty();
    var i := 0;
    while i < |rows|
      invariant i <= |rows| && read == rows[..i]
      invariant routeStops == Grouping(read)
      invariant Reported(p, read, k, nearestStop, nearestNameEn, nearestDir, nearestDistance, nearestRoutes,
                         nearestLat, nearestLon)
    {
      var row := rows[i];
      assert rows[..i + 1] == read + [row];
      var stopLat, stopLon, route := row.lat, row.lon, row.route;
      var stop := Entry(row);
      ghost var before := routeStops;
      routeStops := AppendStop(routeStops, route, stop);
      GroupingAppend(read, row, before, routeStops);
      var distance := p.To(row);
      if Km(distance).Below(nearestDistance) {
        CloserReported(p, read, k, nearestStop, nearestNameEn, nearestDir, nearestDistance, nearestRoutes,
                       nearestLat, nearestLon, row);
        nearestStop, nearestNameEn, nearestDir := Some(row.stop), Some(row.nameEn), Some(row.dir);
        nearestDistance := Km(distance);
        nearestRoutes := [route];
        nearestLat, nearestLon := Some(stopLat), Some(stopLon);
        k := i;
      } else {
        NotCloserReported(p, read, k, nearestStop, nearestNameEn, nearestDir, nearestDistance, nearestRoutes,
                          nearestLat, nearestLon, row);
        if Km(distance) == nearestDistance && route !in nearestRoutes {
          nearestRoutes := nearestRoutes + [route];
        }
      }
      read := read + [row];
      i := i + 1;
    }
    assert read == rows;
  }

  /** A row strictly nearer than the report so far becomes the report. */
  lemma CloserReported(p: Probe, read: seq<StopRow>, k: nat,
                       stop: Option<string>, nameEn: Option<string>, dir: Option<string>,
                       distance: Distance, routes: seq<string>, lat: Option<real>, lon: Option<real>, row: StopRow)
    requires Reported(p, read, k, stop, nameEn, dir, distance, routes, lat, lon)
    requires Km(p.To(row)).Below(distance)
    ensures Reported(p, read + [row], |read|, Some(row.stop), Some(row.nameEn), Some(row.dir), Km(p.To(row)),
                     [row.route], Some(row.lat), Some(row.lon))
  {
    ScanCloser(p, read, row);
    assert (read + [row])[|read|] == row;
  }

  /** A row that is not strictly nearer leaves the report, except that its route joins the
      tied routes when it lies at the same distance and is new. */
  lemma NotCloserReported(p: Probe, read: seq<StopRow>, k: nat,
                          stop: Option<string>, nameEn: Option<string>, dir: Option<string>,
                          distance: Distance, routes: seq<string>, lat: Option<real>, lon: Option<real>, row: StopRow)
    requires Reported(p, read, k, stop, nameEn, dir, distance, routes, lat, lon)
    requires !Km(p.To(row)).Below(distance)
    ensures Reported(p, read + [row], k, stop, nameEn, dir, distance,
                     if Km(p.To(row)) == distance && row.route !in routes then routes + [row.route] else routes,
                     lat, lon)
  {
    ScanNotCloser(p, read, row);
    assert (read + [row])[k] == read[k];
  }

  /** Lines 31-33: `route_stops.setdefault(route, []).append(stop)`, written out. */
  method AppendStop(routeStops: map<string, seq<StopEntry>>, route: string, stop: StopEntry)
    returns (g: map<string, seq<StopEntry>>)
    ensures g == routeStops[route := (if route in routeStops then routeStops[route] else []) + [stop]]
  {
    g := routeStops;
    if route !in g {
      g := g[route := []];
    }
    g := g[route := g[route] + [stop]];
  }

  /* ---------------- lemmas the scan needs ---------------- */

  /** One step of `Distinct`: a new element is appended, a known one is not. */
  lemma DistinctSnoc(xs: seq<string>, x: string)
    ensures Distinct(xs + [x]) == if x in Distinct(xs) then Distinct(xs) else Distinct(xs) + [x]
  {
    assert (xs + [x])[..|xs|] == xs;
  }

  /** When every row is farther than `m`, no route is tied at `m`. */
  lemma TiedRoutesNone(p: Probe, rows: seq<StopRow>, m: real)
    requires forall j :: 0 <= j < |rows| ==> m < p.To(rows[j])
    ensures TiedRoutes(p, rows, m) == []
  {
    if TiedRoutes(p, rows, m) != [] {
      TiedRoutesMembers(p, rows, m, TiedRoutes(p, rows, m)[0]);
    }
  }

  /** How one more row changes the first nearest row: only a strictly nearer row wins. */
  lemma NearestStep(p: Probe, pre: seq<StopRow>, r: StopRow)
    requires pre != []
    ensures FirstNearest(p, pre + [r]) ==
      if p.To(r) < p.To(pre[FirstNearest(p, pre)]) then |pre| else FirstNearest(p, pre)
  {
    assert (pre + [r])[..|pre|] == pre;
  }

  lemma TiedStep(p: Probe, pre: seq<StopRow>, r: StopRow, m: real)
    ensures TiedRoutes(p, pre + [r], m) == TiedRoutes(p, pre, m) + (if p.To(r) == m then [r.route] else [])
  {
    assert (pre + [r])[..|pre|] == pre;
  }

  /** A row strictly nearer than all before it becomes the nearest, and its route is
      the only one tied with it. */
  lemma ScanCloser(p: Probe, pre: seq<StopRow>, r: StopRow)
    requires pre != [] ==> p.To(r) < p.To(pre[FirstNearest(p, pre)])
    ensures FirstNearest(p, pre + [r]) == |pre|
    ensures Distinct(TiedRoutes(p, pre + [r], p.To(r))) == [r.route]
  {
    if pre != [] {
      NearestStep(p, pre, r);
      FirstNearestIsNearest(p, pre);
      TiedRoutesNone(p, pre, p.To(r));
    } else {
      assert pre + [r] == [r];
    }
    TiedStep(p, pre, r, p.To(r));
    DistinctSnoc([], r.route);
    assert [] + [r.route] == [r.route];
  }

  /** A row that is not strictly nearer keeps the nearest row; its route joins the tied
      routes when it is at the same distance and not yet among them. */
  lemma ScanNotCloser(p: Probe, pre: seq<StopRow>, r: StopRow)
    requires pre != []
    requires !(p.To(r) < p.To(pre[FirstNearest(p, pre)]))
    ensures FirstNearest(p, pre + [r]) == FirstNearest(p, pre)
    ensures var m := p.To(pre[FirstNearest(p, pre)]);
      var d := Distinct(TiedRoutes(p, pre, m));
      Distinct(TiedRoutes(p, pre + [r], m)) ==
        if p.To(r) == m && r.route !in d then d + [r.route] else d
  {
    NearestStep(p, pre, r);
    var m := p.To(pre[FirstNearest(p, pre)]);
    var t := TiedRoutes(p, pre, m);
    TiedStep(p, pre, r, m);
    if p.To(r) == m {
      DistinctSnoc(t, r.route);
    } else {
      assert t + [] == t;
    }
  }

  lemma {:induction false} EntriesOfAbsent(rows: seq<StopRow>, rt: string)
    ensures EntriesOf(rows, rt) == [] <==> rt !in RouteColumn(rows)
    decreases |rows|
  {
    if rows != [] {
      var init := rows[..|rows| - 1];
      EntriesOfAbsent(init, rt);
      assert RouteColumn(rows) == RouteColumn(init) + [rows[|rows| - 1].route];
    }
  }

  /** Reading one more row appends its entry to its route's list, creating the list first
      when the route is new; every other route is untouched. */
  lemma GroupingStep(rows: seq<StopRow>, r: StopRow)
    ensures Grouping(rows + [r]) ==
      Grouping(rows)[r.route := (if r.route in Grouping(rows) then Grouping(rows)[r.route] else []) + [Entry(r)]]
  {
    var rows' := rows + [r];
    var g := Grouping(rows);
    var g' := g[r.route := (if r.route in g then g[r.route] else []) + [Entry(r)]];
    assert rows'[..|rows|] == rows;
    assert RouteColumn(rows') == RouteColumn(rows) + [r.route];
    EntriesOfAbsent(rows, r.route);
    assert Grouping(rows').Keys == g'.Keys;
    forall rt | rt in g'
      ensures Grouping(rows')[rt] == g'[rt]
    {
      assert EntriesOf(rows', rt) == EntriesOf(rows, rt) + (if r.route == rt then [Entry(r)] else []);
    }
  }

  lemma GroupingAppend(rows: seq<StopRow>, r: StopRow, g: map<string, seq<StopEntry>>, g': map<string, seq<StopEntry>>)
    requires g == Grouping(rows)
    requires g' == g[r.route := (if r.route in g then g[r.route] else []) + [Entry(r)]]
    ensures g' == Grouping(rows + [r])
  {
    GroupingStep(rows, r);
  }

  lemma GroupingEmpty()
    ensures Grouping([]) == map[]
  {
  }

  /* ---------------- what the page relies on ---------------- */

  /** Python's `route_stops[route][0]` and `route_stops[route][-1]`: a missing key raises
      `KeyError`, an empty list `IndexError`. */
  function RouteEndpoints(routeStops: map<string, seq<StopEntry>>, route: string): Result<(StopEntry, StopEntry), PyError> {
    if route !in routeStops then Err(KeyError)
    else if routeStops[route] == [] then Err(IndexError)
    else Ok((routeStops[route][0], routeStops[route][|routeStops[route]| - 1]))
  }

  lemma {:induction false} EntriesOfFirst(rows: seq<StopRow>, rt: string)
    requires rt in RouteColumn(rows)
    ensures EntriesOf(rows, rt) != []
    ensures EntriesOf(rows, rt)[0] == Entry(rows[FirstIndex(RouteColumn(rows), rt)])
    decreases |rows|
  {
    var init := rows[..|rows| - 1];
    assert RouteColumn(rows) == RouteColumn(init) + [rows[|rows| - 1].route];
    EntriesOfAbsent(init, rt);
    if rt in RouteColumn(init) {
      EntriesOfFirst(init, rt);
      assert RouteColumn(rows)[..|rows| - 1] == RouteColumn(init);
      FirstIndexOfPrefix(RouteColumn(rows), |rows| - 1, rt);
    }
  }

  lemma {:induction false} EntriesOfLast(rows: seq<StopRow>, rt: string)
    requires rt in RouteColumn(rows)
    ensures EntriesOf(rows, rt) != []
    ensures EntriesOf(rows, rt)[|EntriesOf(rows, rt)| - 1] == Entry(rows[LastIndex(RouteColumn(rows), rt)])
    decreases |rows|
  {
    var init := rows[..|rows| - 1];
    assert RouteColumn(rows) == RouteColumn(init) + [rows[|rows| - 1].route];
    if rows[|rows| - 1].route != rt {
      EntriesOfLast(init, rt);
    }
  }

  /** Every route in the file is a key of `route_stops` with a non-empty list, so the
      `[0]` and `[-1]` reads succeed; they give the entries of that route's first and last
      row in file order. */
  lemma GroupingEndpoints(rows: seq<StopRow>, route: string)
    requires route in RouteColumn(rows)
    ensures RouteEndpoints(Grouping(rows), route) ==
      Ok((Entry(rows[FirstIndex(RouteColumn(rows), route)]), Entry(rows[LastIndex(RouteColumn(rows), route)])))
  {
    var g := Grouping(rows);
    assert route in g && g[route] == EntriesOf(rows, route);
    EntriesOfFirst(rows, route);
    EntriesOfLast(rows, route);
  }

  /** Every route the scan reports occurs in the file, so the page can read its endpoints. */
  lemma TiedRoutesOccur(p: Probe, rows: seq<StopRow>, m: real, route: string)
    requires route in Distinct(TiedRoutes(p, rows, m))
    ensures route in RouteColumn(rows)
  {
    TiedRoutesMembers(p, rows, m, route);
    var j :| 0 <= j < |rows| && rows[j].route == route && p.To(rows[j]) == m;
    assert RouteColumn(rows)[j] == route;
  }

  /** `nearest_routes` holds each route tied at the minimum exactly once, and a route is in
      it exactly when some row on that route lies at the minimum distance. */
  lemma NearestRoutesExact(rows: seq<StopRow>, p: Probe, route: string)
    requires rows != []
    ensures var m := p.To(rows[FirstNearest(p, rows)]);
      route in Distinct(TiedRoutes(p, rows, m)) <==>
        exists j :: 0 <= j < |rows| && rows[j].route == route && p.To(rows[j]) == m
  {
    TiedRoutesMembers(p, rows, p.To(rows[FirstNearest(p, rows)]), route);
  }

  /** Tied routes appear in the order in which their first tied row appears. */
  lemma NearestRoutesOrder(rows: seq<StopRow>, p: Probe)
    requires rows != []
    ensures var t := TiedRoutes(p, rows, p.To(rows[FirstNearest(p, rows)]));
      forall i, j :: 0 <= i < j < |Distinct(t)| ==> FirstIndex(t, Distinct(t)[i]) < FirstIndex(t, Distinct(t)[j])
  {
    DistinctFollowsFirstOccurrence(TiedRoutes(p, rows, p.To(rows[FirstNearest(p, rows)])));
  }

  /** The nearest row is unique in the sense of the scan: any row that is nearest and
      strictly nearer than all rows before it is the one `FirstNearest` picks. */
  lemma FirstNearestUnique(p: Probe, rows: seq<StopRow>, k: nat)
    requires k < |rows|
    requires forall j :: 0 <= j < |rows| ==> p.To(rows[k]) <= p.To(rows[j])
    requires forall j :: 0 <= j < k ==> p.To(rows[k]) < p.To(rows[j])
    ensures k == FirstNearest(p, rows)
  {
    FirstNearestIsNearest(p, rows);
  }

  /** Reading rows is compositional per route: the entries of `a + b` on a route are those
      of `a` followed by those of `b`. */
  lemma {:induction false} EntriesOfAppend(a: seq<StopRow>, b: seq<StopRow>, rt: string)
    ensures EntriesOf(a + b, rt) == EntriesOf(a, rt) + EntriesOf(b, rt)
    decreases |b|
  {
    if b == [] {
      assert a + b == a;
    } else {
      var b' := b[..|b| - 1];
      assert (a + b)[..|a + b| - 1] == a + b';
      EntriesOfAppend(a, b', rt);
    }
  }

  /** The total length of the lists stored under `keys`. */
  function SumLengths(g: map<string, seq<StopEntry>>, keys: seq<string>): nat {
    if keys == [] then 0
    else
      var k := keys[|keys| - 1];
      SumLengths(g, keys[..|keys| - 1]) + (if k in g then |g[k]| else 0)
  }

  lemma {:induction false} SumLengthsOther(g: map<string, seq<StopEntry>>, keys: seq<string>, k: string, v: seq<StopEntry>)
    requires k !in keys
    ensures SumLengths(g[k := v], keys) == SumLengths(g, keys)
    decreases |keys|
  {
    if keys != [] {
      SumLengthsOther(g, keys[..|keys| - 1], k, v);
    }
  }

  lemma {:induction false} SumLengthsUpdate(g: map<string, seq<StopEntry>>, keys: seq<string>, k: string, v: seq<StopEntry>)
    requires NoDuplicates(keys) && k in keys && k in g
    ensures SumLengths(g[k := v], keys) + |g[k]| == SumLengths(g, keys) + |v|
    decreases |keys|
  {
    var init := keys[..|keys| - 1];
    assert keys == init + [keys[|keys| - 1]];
    if keys[|keys| - 1] == k {
      assert k !in init;
      SumLengthsOther(g, init, k, v);
    } else {
      SumLengthsUpdate(g, init, k, v);
    }
  }

  /** Every row lands in exactly one list: the lists of `route_stops`, taken once per route,
      hold as many entries as there are rows. */
  lemma {:induction false} GroupingSize(rows: seq<StopRow>)
    ensures SumLengths(Grouping(rows), Distinct(RouteColumn(rows))) == |rows|
    decreases |rows|
  {
    if rows != [] {
      var init := rows[..|rows| - 1];
      var r := rows[|rows| - 1];
      assert rows == init + [r];
      GroupingSize(init);
      GroupingStep(init, r);
      var g := Grouping(init);
      var d := Distinct(RouteColumn(init));
      assert RouteColumn(rows) == RouteColumn(init) + [r.route];
      DistinctSnoc(RouteColumn(init), r.route);
      var v := (if r.route in g then g[r.route] else []) + [Entry(r)];
      if r.route in d {
        SumLengthsUpdate(g, d, r.route, v);
      } else {
        SumLengthsOther(g, d, r.route, v);
        assert Distinct(RouteColumn(rows))[..|d|] == d;
      }
    }
  }

  /** `route_stops` has a key for exactly the routes that occur, each with a non-empty list
      that ends with the entry of the route's last row. */
  lemma GroupingKeys(rows: seq<StopRow>, rt: string)
    ensures rt in Grouping(rows) <==> exists j :: 0 <= j < |rows| && rows[j].route == rt
    ensures rt in Grouping(rows) ==> Grouping(rows)[rt] != []
  {
    if rt in RouteColumn(rows) {
      EntriesOfAbsent(rows, rt);
      var j :| 0 <= j < |rows| && RouteColumn(rows)[j] == rt;
    }
  }

  /* ---------------- the GPS box ---------------- */

  /** `lat, lon = map(float, gps_input.split(','))`: accepted only when there are exactly two
      comma-separated parts and both convert; every other input raises `ValueError`, which
      the page catches. `toFloat` is Python's `float()` on a string. */
  function ParseGps(input: string, toFloat: string -> Option<real>): Result<(real, real), PyError> {
    var parts := Split(input, [',']);
    if |parts| != 2 then Err(ValueError)
    else match (toFloat(parts[0]), toFloat(parts[1]))
      case (Some(lat), Some(lon)) => Ok((lat, lon))
      case _ => Err(ValueError)
  }

  /** An accepted input holds exactly one comma. */
  lemma ParseGpsOneComma(input: string, toFloat: string -> Option<real>)
    requires ParseGps(input, toFloat).Ok?
    ensures CountChar(input, ',') == 1
  {
    SplitCharCount(input, ',');
  }

  /** The converse: `a + "," + b` with no comma in either half is accepted exactly when both
      halves convert, with no range check on the values. */
  lemma ParseGpsPair(a: string, b: string, toFloat: string -> Option<real>)
    requires ',' !in a && ',' !in b
    ensures ParseGps(a + "," + b, toFloat) ==
      if toFloat(a).Some? && toFloat(b).Some? then Ok((toFloat(a).value, toFloat(b).value)) else Err(ValueError)
  {
    forall j | 0 <= j < |a| ensures !OccursAt(a + "," + b, [','], j) {
      OccursAtChar(a + "," + b, ',', j);
      assert (a + "," + b)[j] == a[j];
    }
    SplitAtFirst(a, b, [',']);
    assert !Contains(b, [',']) by {
      forall j | OccursAt(b, [','], j) ensures false {
        OccursAtChar(b, ',', j);
      }
    }
    SplitWithoutSeparator(b, [',']);
  }

  /* ---------------- the page ---------------- */

  /** One "Route: ..., Start Stop: ..., End Stop: ..." line. */
  datatype RouteLine = RouteLine(route: string, start: StopEntry, end: StopEntry)

  /** What the page shows. */
  datatype Screen =
    | GpsError      // the coordinates did not parse; the script stops
    | Waiting       // the button has not been pressed
    | Report(stop: Option<string>, nameEn: Option<string>, dir: Option<string>, distance: Distance,
             lat: Option<real>, lon: Option<real>, lines: seq<RouteLine>)

  /** One run of the page script. Bad coordinates end the run before any scan; without a
      button press nothing is computed; otherwise the nearest stop is reported with its name,
      direction, position and distance, and one line per tied route, showing the route's first and last stop in file order. */
  method ShowPage(input: string, toFloat: string -> Option<real>, pressed: bool,
                  rows: seq<StopRow>, haversine: Haversine)
    returns (screen: Screen)
    ensures ParseGps(input, toFloat).Err? <==> screen == GpsError
    ensures ParseGps(input, toFloat).Ok? && !pressed <==> screen == Waiting
    ensures screen.Report? ==> rows == [] ==>
      && screen.stop == None && screen.nameEn == None && screen.dir == None
      && screen.lat == None && screen.lon == None
      && screen.distance == Infinity && screen.lines == []
    ensures screen.Report? ==> rows != [] ==>
      var p := Probe(haversine, ParseGps(input, toFloat).value.0, ParseGps(input, toFloat).value.1);
      var k := FirstNearest(p, rows);
      var routes := Distinct(TiedRoutes(p, rows, p.To(rows[k])));
      && screen.stop == Some(rows[k].stop) && screen.nameEn == Some(rows[k].nameEn) && screen.dir == Some(rows[k].dir)
      && screen.lat == Some(rows[k].lat) && screen.lon == Some(rows[k].lon)
      && screen.distance == Km(p.To(rows[k]))
      && |screen.lines| == |routes|
      && forall j :: 0 <= j < |routes| ==>
           && routes[j] in RouteColumn(rows)
           && screen.lines[j] == RouteLine(routes[j],
                Entry(rows[FirstIndex(RouteColumn(rows), routes[j])]),
                Entry(rows[LastIndex(RouteColumn(rows), routes[j])]))
  {
    match ParseGps(input, toFloat)
    case Err(_) =>
      return GpsError;
    case Ok((lat, lon)) =>
      if !pressed {
        return Waiting;
      }
      var p := Probe(haversine, lat, lon);
      var stop, nameEn, dir, distance, routes, routeStops, nLat, nLon := FindNearestBusStop(rows, p);
      var lines: seq<RouteLine> := [];
      for j := 0 to |routes|
        invariant |lines| == j
        invariant forall i :: 0 <= i < j ==>
          && routes[i] in RouteColumn(rows)
          && lines[i] == RouteLine(routes[i],
               Entry(rows[FirstIndex(RouteColumn(rows), routes[i])]),
               Entry(rows[LastIndex(RouteColumn(rows), routes[i])]))
      {
        TiedRoutesOccur(p, rows, p.To(rows[FirstNearest(p, rows)]), routes[j]);
        GroupingEndpoints(rows, routes[j]);
        var ends := RouteEndpoints(routeStops, routes[j]);
        lines := lines + [RouteLine(routes[j], ends.value.0, ends.value.1)];
      }
      screen := Report(stop, nameEn, dir, distance, nLat, nLon, lines);
  }
}
