/**
 Distance matrices fetched in chunks. Whatever the chunking, the entries are those of the
 matrix asked for in one piece.
 */
module DistanceMatrix {
  import opened Basics

  datatype Point = Point(latitude: real, longitude: real)

  datatype Entry<V> = Entry(origin: nat, destination: nat, value: V)

  const MAX_ELEMENTS: nat := 2500

  // ----- Validation -----------------------------------------------------------

  datatype MatrixError = NoPoints | TooManyPoints | BadPoint | TooManyElements

  predicate IsPoint(p: Point) { -90.0 <= p.latitude <= 90.0 && -180.0 <= p.longitude <= 180.0 }

  predicate AllPoints(points: seq<Point>) { forall i :: 0 <= i < |points| ==> IsPoint(points[i]) }

  function PointsError(points: seq<Point>): Option<MatrixError> {
    if points == [] then Some(NoPoints)
    else if |points| > MAX_ELEMENTS then Some(TooManyPoints)
    else if !AllPoints(points) then Some(BadPoint)
    else None
  }

  function InputError(origins: seq<Point>, destinations: seq<Point>): Option<MatrixError> {
    var first, second := PointsError(origins), PointsError(destinations);
    if first.Some? then first
    else if second.Some? then second
    else if |origins| * |destinations| > MAX_ELEMENTS then Some(TooManyElements)
    else None
  }

  /** Between one and 2500 points, all on the globe. */
  ghost predicate PointsOk(points: seq<Point>) {
    && 0 < |points| <= 2500
    && forall i :: 0 <= i < |points| ==>
         -90.0 <= points[i].latitude <= 90.0 && -180.0 <= points[i].longitude <= 180.0
  }

  /** What is wrong with these points. */
  ghost predicate IsPointsError(points: seq<Point>, error: MatrixError) {
    match error
    case NoPoints => |points| == 0
    case TooManyPoints => |points| > 2500
    case BadPoint => 0 < |points| <= 2500 && !PointsOk(points)
    case TooManyElements => false
  }

  ghost predicate InputOk(origins: seq<Point>, destinations: seq<Point>) {
    PointsOk(origins) && PointsOk(destinations) && |origins| * |destinations| <= 2500
  }

  /** The origins are checked first, then the destinations, then the size. */
  ghost predicate IsInputError(origins: seq<Point>, destinations: seq<Point>, error: MatrixError) {
    if !PointsOk(origins) then IsPointsError(origins, error)
    else if !PointsOk(destinations) then IsPointsError(destinations, error)
    else error == TooManyElements
  }

  lemma InputErrorIff(origins: seq<Point>, destinations: seq<Point>)
    ensures InputError(origins, destinations).None? <==> InputOk(origins, destinations)
    ensures InputError(origins, destinations).Some? ==>
              IsInputError(origins, destinations, InputError(origins, destinations).value)
  {
    PointsErrorIff(origins);
    PointsErrorIff(destinations);
  }

  lemma PointsErrorIff(points: seq<Point>)
    ensures PointsError(points).None? <==> PointsOk(points)
    ensures PointsError(points).Some? ==> IsPointsError(points, PointsError(points).value)
  {
  }

  // ----- Listing cells --------------------------------------------------------

  function Pos<V>(e: Entry<V>): (nat, nat) { (e.origin, e.destination) }

  /** The entry carries the value of its own pair of points. */
  ghost predicate IsCell<V>(e: Entry<V>, os: seq<Point>, ds: seq<Point>, f: (Point, Point) -> V) {
    e.origin < |os| && e.destination < |ds| && e.value == f(os[e.origin], ds[e.destination])
  }

  ghost predicate Lists<V>(entries: seq<Entry<V>>, p: (nat, nat)) {
    exists k :: 0 <= k < |entries| && Pos(entries[k]) == p
  }

  type Region = iset<(nat, nat)>

  ghost function Block(o0: nat, o1: nat, d0: nat, d1: nat): Region {
    iset p: (nat, nat) | o0 <= p.0 < o1 && d0 <= p.1 < d1
  }

  /** Every pair of the region once, with its own value, and nothing else. */
  ghost predicate Exactly<V>(entries: seq<Entry<V>>, os: seq<Point>, ds: seq<Point>, f: (Point, Point) -> V,
                             region: Region) {
    && (forall k :: 0 <= k < |entries| ==> IsCell(entries[k], os, ds, f) && Pos(entries[k]) in region)
    && (forall p :: p in region ==> Lists(entries, p))
    && (forall i, j :: 0 <= i < j < |entries| ==> Pos(entries[i]) != Pos(entries[j]))
  }

  lemma ListsMore<V>(a: seq<Entry<V>>, b: seq<Entry<V>>, p: (nat, nat))
    requires Lists(a, p) || Lists(b, p)
    ensures Lists(a + b, p)
  {
    if k :| 0 <= k < |a| && Pos(a[k]) == p {
      assert Pos((a + b)[k]) == p;
    } else {
      var k :| 0 <= k < |b| && Pos(b[k]) == p;
      assert Pos((a + b)[|a| + k]) == p;
    }
  }

  lemma ExactlyJoins<V>(a: seq<Entry<V>>, b: seq<Entry<V>>, os: seq<Point>, ds: seq<Point>, f: (Point, Point) -> V,
                        r: Region, s: Region)
    requires Exactly(a, os, ds, f, r) && Exactly(b, os, ds, f, s) && r !! s
    ensures Exactly(a + b, os, ds, f, r + s)
  {
    forall p | p in r + s ensures Lists(a + b, p) { ListsMore(a, b, p); }
    forall i, j | 0 <= i < j < |a + b| ensures Pos((a + b)[i]) != Pos((a + b)[j]) {
      if i < |a| <= j { assert Pos(a[i]) in r && Pos(b[j - |a|]) in s; }
    }
  }

  lemma ExactlyOne<V>(e: Entry<V>, os: seq<Point>, ds: seq<Point>, f: (Point, Point) -> V)
    requires IsCell(e, os, ds, f)
    ensures Exactly([e], os, ds, f, Block(e.origin, e.origin + 1, e.destination, e.destination + 1))
  {
    assert Pos([e][0]) == (e.origin, e.destination);
  }

  // ----- Order ----------------------------------------------------------------

  predicate Before<V>(a: Entry<V>, b: Entry<V>) {
    a.origin < b.origin || (a.origin == b.origin && a.destination < b.destination)
  }

  function Insert<V>(x: Entry<V>, s: seq<Entry<V>>): seq<Entry<V>> {
    if s == [] || !Before(s[0], x) then [x] + s else [s[0]] + Insert(x, s[1..])
  }

  function Sort<V>(s: seq<Entry<V>>): seq<Entry<V>> {
    if s == [] then [] else Insert(s[0], Sort(s[1..]))
  }

  ghost predicate RowMajor<V>(s: seq<Entry<V>>) {
    forall i, j :: 0 <= i < j < |s| ==>
      s[i].origin < s[j].origin || (s[i].origin == s[j].origin && s[i].destination < s[j].destination)
  }

  lemma {:induction false} InsertKeeps<V>(x: Entry<V>, s: seq<Entry<V>>, y: Entry<V>)
    ensures y in Insert(x, s) <==> y == x || y in s
  {
    if s != [] && Before(s[0], x) {
      InsertKeeps(x, s[1..], y);
      assert s == [s[0]] + s[1..];
    }
  }

  lemma {:induction false} InsertOrders<V>(x: Entry<V>, s: seq<Entry<V>>)
    requires RowMajor(s) && forall i :: 0 <= i < |s| ==> Pos(s[i]) != Pos(x)
    ensures RowMajor(Insert(x, s))
  {
    if s != [] && Before(s[0], x) {
      var rest := Insert(x, s[1..]);
      InsertOrders(x, s[1..]);
      forall j | 0 <= j < |rest| ensures Before(s[0], rest[j]) {
        InsertKeeps(x, s[1..], rest[j]);
        assert rest[j] in rest;
      }
    } else if s != [] {
      forall j | 0 <= j < |s| ensures Before(x, s[j]) { assert j > 0 ==> Before(s[0], s[j]); }
    }
  }

  lemma {:induction false} SortKeeps<V>(s: seq<Entry<V>>, y: Entry<V>)
    ensures y in Sort(s) <==> y in s
  {
    if s == [] {
    } else {
      SortKeeps(s[1..], y);
      InsertKeeps(s[0], Sort(s[1..]), y);
      assert s == [s[0]] + s[1..];
    }
  }

  lemma {:induction false} SortOrders<V>(s: seq<Entry<V>>)
    requires forall i, j :: 0 <= i < j < |s| ==> Pos(s[i]) != Pos(s[j])
    ensures RowMajor(Sort(s))
  {
    if s == [] {
    } else {
      var rest := Sort(s[1..]);
      SortOrders(s[1..]);
      forall i | 0 <= i < |rest| ensures Pos(rest[i]) != Pos(s[0]) {
        SortKeeps(s[1..], rest[i]);
        assert rest[i] in rest;
      }
      InsertOrders(s[0], rest);
    }
  }

  lemma SortExactly<V>(s: seq<Entry<V>>, os: seq<Point>, ds: seq<Point>, f: (Point, Point) -> V, region: Region)
    requires Exactly(s, os, ds, f, region)
    ensures Exactly(Sort(s), os, ds, f, region) && RowMajor(Sort(s))
  {
    SortOrders(s);
    var sorted := Sort(s);
    forall k | 0 <= k < |sorted| ensures IsCell(sorted[k], os, ds, f) && Pos(sorted[k]) in region {
      assert sorted[k] in sorted;
      SortKeeps(s, sorted[k]);
    }
    forall p | p in region ensures Lists(sorted, p) {
      var k :| 0 <= k < |s| && Pos(s[k]) == p;
      SortKeeps(s, s[k]);
      var j :| 0 <= j < |sorted| && sorted[j] == s[k];
    }
    assert forall i, j :: 0 <= i < j < |sorted| ==> Before(sorted[i], sorted[j]) ==> Pos(sorted[i]) != Pos(sorted[j]);
  }

  // ----- There is only one row-major matrix -----------------------------------

  lemma {:induction false} SameMembersSameList<V>(a: seq<Entry<V>>, b: seq<Entry<V>>)
    requires RowMajor(a) && RowMajor(b) && forall e :: e in a <==> e in b
    ensures a == b
  {
    assert (a != [] ==> a[0] in a) && (b != [] ==> b[0] in b);
    if a == [] {
    } else {
      var i :| 0 <= i < |b| && b[i] == a[0];
      var j :| 0 <= j < |a| && a[j] == b[0];
      assert a == [a[0]] + a[1..] && b == [b[0]] + b[1..];
      forall e ensures e in a[1..] <==> e in b[1..] { RestMembers(a, e); RestMembers(b, e); }
      SameMembersSameList(a[1..], b[1..]);
    }
  }

  lemma RestMembers<V>(a: seq<Entry<V>>, e: Entry<V>)
    requires RowMajor(a) && a != []
    ensures e in a[1..] <==> e in a && e != a[0]
  {
    if e in a[1..] {
      var k :| 0 <= k < |a[1..]| && a[1..][k] == e;
      assert Before(a[0], a[k + 1]);
    }
  }

  /** Two row-major listings of the same region are the same list. */
  lemma MatrixIsUnique<V>(a: seq<Entry<V>>, b: seq<Entry<V>>, os: seq<Point>, ds: seq<Point>, f: (Point, Point) -> V,
                          region: Region)
    requires Exactly(a, os, ds, f, region) && Exactly(b, os, ds, f, region) && RowMajor(a) && RowMajor(b)
    ensures a == b
  {
    forall e ensures e in a <==> e in b {
      if e in a { CellIsListed(a, b, os, ds, f, region, e); }
      if e in b { CellIsListed(b, a, os, ds, f, region, e); }
    }
    SameMembersSameList(a, b);
  }

  lemma CellIsListed<V>(a: seq<Entry<V>>, b: seq<Entry<V>>, os: seq<Point>, ds: seq<Point>, f: (Point, Point) -> V,
                        region: Region, e: Entry<V>)
    requires Exactly(a, os, ds, f, region) && Exactly(b, os, ds, f, region) && e in a
    ensures e in b
  {
    var k :| 0 <= k < |a| && a[k] == e;
    assert Pos(e) in region;
    var j :| 0 <= j < |b| && Pos(b[j]) == Pos(e);
    assert IsCell(b[j], os, ds, f);
  }

  // ----- Chunks ---------------------------------------------------------------

  function Least(a: nat, b: nat): nat { if a < b then a else b }

  /** Everything above row `o0`, and of the rows up to `o1` the columns before `d`. */
  ghost function Done(o0: nat, o1: nat, n: nat, d: nat): Region { Block(0, o0, 0, n) + Block(o0, o1, 0, d) }

  lemma DoneGrows(o0: nat, o1: nat, n: nat, d0: nat, d1: nat)
    requires o0 <= o1 && d0 <= d1 <= n
    ensures Done(o0, o1, n, d0) + Block(o0, o1, d0, d1) == Done(o0, o1, n, d1)
    ensures Done(o0, o1, n, d0) !! Block(o0, o1, d0, d1)
    ensures Done(o0, o1, n, 0) == Block(0, o0, 0, n) && Done(o0, o1, n, n) == Block(0, o1, 0, n)
  {
  }

  /** A chunk's cells, moved to where the chunk starts, are cells of the whole. */
  lemma ChunkExactly<V>(local: seq<Entry<V>>, moved: seq<Entry<V>>, os: seq<Point>, ds: seq<Point>,
                        f: (Point, Point) -> V, o0: nat, o1: nat, d0: nat, d1: nat)
    requires o0 <= o1 <= |os| && d0 <= d1 <= |ds| && |moved| == |local|
    requires forall k :: 0 <= k < |local| ==>
               moved[k] == Entry(o0 + local[k].origin, d0 + local[k].destination, local[k].value)
    requires Exactly(local, os[o0..o1], ds[d0..d1], f, Block(0, o1 - o0, 0, d1 - d0))
    ensures Exactly(moved, os, ds, f, Block(o0, o1, d0, d1))
  {
    forall p | p in Block(o0, o1, d0, d1) ensures Lists(moved, p) {
      assert (p.0 - o0, p.1 - d0) in Block(0, o1 - o0, 0, d1 - d0);
      var k :| 0 <= k < |local| && Pos(local[k]) == (p.0 - o0, p.1 - d0);
      assert Pos(moved[k]) == p;
    }
    forall k | 0 <= k < |moved| ensures IsCell(moved[k], os, ds, f) && Pos(moved[k]) in Block(o0, o1, d0, d1) {
      assert IsCell(local[k], os[o0..o1], ds[d0..d1], f) && Pos(local[k]) in Block(0, o1 - o0, 0, d1 - d0);
    }
    forall i, j | 0 <= i < j < |moved| ensures Pos(moved[i]) != Pos(moved[j]) { assert Pos(local[i]) != Pos(local[j]); }
  }

  // ----- Google ---------------------------------------------------------------

  const GOOGLE_CHUNK: nat := 25

  /** An answer leaves out an index that is zero. */
  datatype Item<V> = Item(originIndex: Option<nat>, destinationIndex: Option<nat>, value: V)

  function Located<V>(items: seq<Item<V>>, o: nat, d: nat): (entries: seq<Entry<V>>)
    ensures |entries| == |items|
    ensures forall k :: 0 <= k < |items| ==>
              entries[k] == Entry(o + items[k].originIndex.GetOr(0), d + items[k].destinationIndex.GetOr(0),
                                  items[k].value)
  {
    seq(|items|, k requires 0 <= k < |items| =>
      Entry(o + items[k].originIndex.GetOr(0), d + items[k].destinationIndex.GetOr(0), items[k].value))
  }

  /** The provider answers every request within its limits with each of its cells once, in any order. */
  ghost predicate GoogleAnswers<V(!new)>(ask: (seq<Point>, seq<Point>) -> seq<Item<V>>, f: (Point, Point) -> V) {
    forall os, ds {:trigger ask(os, ds)} :: |os| <= 25 && |ds| <= 25 ==>
      Exactly(Located(ask(os, ds), 0, 0), os, ds, f, Block(0, |os|, 0, |ds|))
  }

  method GoogleRow<V(!new)>(os: seq<Point>, ds: seq<Point>, ask: (seq<Point>, seq<Point>) -> seq<Item<V>>, o0: nat,
                            entries0: seq<Entry<V>>, ghost f: (Point, Point) -> V)
    returns (entries: seq<Entry<V>>)
    requires o0 < |os|
    requires GoogleAnswers(ask, f) ==> Exactly(entries0, os, ds, f, Block(0, o0, 0, |ds|))
    ensures GoogleAnswers(ask, f) ==> Exactly(entries, os, ds, f, Block(0, Least(o0 + GOOGLE_CHUNK, |os|), 0, |ds|))
  {
    entries := entries0;
    var o1 := Least(o0 + GOOGLE_CHUNK, |os|);
    var d0 := 0;
    DoneGrows(o0, o1, |ds|, 0, |ds|);
    while d0 < |ds|
      invariant GoogleAnswers(ask, f) ==> Exactly(entries, os, ds, f, Done(o0, o1, |ds|, Least(d0, |ds|)))
    {
      var d1 := Least(d0 + GOOGLE_CHUNK, |ds|);
      var items := ask(os[o0..o1], ds[d0..d1]);
      var more := Located(items, o0, d0);
      if GoogleAnswers(ask, f) {
        ChunkExactly(Located(items, 0, 0), more, os, ds, f, o0, o1, d0, d1);
        DoneGrows(o0, o1, |ds|, d0, d1);
        ExactlyJoins(entries, more, os, ds, f, Done(o0, o1, |ds|, d0), Block(o0, o1, d0, d1));
      }
      entries := entries + more;
      d0 := d0 + GOOGLE_CHUNK;
    }
  }

  method GoogleMatrix<V(!new)>(os: seq<Point>, ds: seq<Point>, ask: (seq<Point>, seq<Point>) -> seq<Item<V>>,
                               ghost f: (Point, Point) -> V)
    returns (r: Result<seq<Entry<V>>, MatrixError>)
    ensures r.Ok? <==> InputOk(os, ds)
    ensures r.Err? ==> IsInputError(os, ds, r.error)
    ensures r.Ok? && GoogleAnswers(ask, f) ==> Exactly(r.value, os, ds, f, Block(0, |os|, 0, |ds|)) && RowMajor(r.value)
  {
    var error := InputError(os, ds);
    InputErrorIff(os, ds);
    if error.Some? { return Err(error.value); }
    var entries: seq<Entry<V>> := [];
    var o0 := 0;
    while o0 < |os|
      invariant GoogleAnswers(ask, f) ==> Exactly(entries, os, ds, f, Block(0, Least(o0, |os|), 0, |ds|))
    {
      entries := GoogleRow(os, ds, ask, o0, entries, f);
      o0 := o0 + GOOGLE_CHUNK;
    }
    if GoogleAnswers(ask, f) { SortExactly(entries, os, ds, f, Block(0, |os|, 0, |ds|)); }
    r := Ok(Sort(entries));
  }

  // ----- Mapbox ---------------------------------------------------------------

  datatype Profile = Driving | Walking | Cycling | DrivingTraffic

  function MaxCoordinates(profile: Profile): nat { if profile.DrivingTraffic? then 10 else 25 }

  datatype Answer<V> = Answer(distances: seq<seq<V>>, durations: seq<seq<V>>)

  function MatrixValue<V>(matrix: seq<seq<V>>, row: nat, column: nat): Option<V> {
    if row < |matrix| && column < |matrix[row]| then Some(matrix[row][column]) else None
  }

  function ValueAt<V>(answer: Answer<V>, row: nat, column: nat): (Option<V>, Option<V>) {
    (MatrixValue(answer.distances, row, column), MatrixValue(answer.durations, row, column))
  }

  /** The cell has this value, or is missing and the value is none. */
  ghost predicate Holds<V>(matrix: seq<seq<V>>, row: nat, column: nat, value: Option<V>) {
    if row < |matrix| && column < |matrix[row]| then value == Some(matrix[row][column]) else value == None
  }

  /** The answer holds the values of all pairs of these points. */
  ghost predicate AnswerHolds<V>(answer: Answer<V>, os: seq<Point>, ds: seq<Point>,
                                 f: (Point, Point) -> (Option<V>, Option<V>)) {
    forall i, j :: 0 <= i < |os| && 0 <= j < |ds| ==>
      && Holds(answer.distances, i, j, f(os[i], ds[j]).0)
      && Holds(answer.durations, i, j, f(os[i], ds[j]).1)
  }

  ghost predicate Allowed(os: seq<Point>, ds: seq<Point>, most: nat) {
    0 < |os| && 0 < |ds| && |os| + |ds| <= most
  }

  /** The provider takes every request of at most `most` coordinates. */
  ghost predicate Takes<V>(ask: (seq<Point>, seq<Point>) --> Answer<V>, most: nat) {
    forall os, ds :: Allowed(os, ds, most) ==> ask.requires(os, ds)
  }

  ghost predicate MapboxAnswers<V>(ask: (seq<Point>, seq<Point>) --> Answer<V>, most: nat,
                                   f: (Point, Point) -> (Option<V>, Option<V>))
    requires Takes(ask, most)
  {
    forall os, ds :: Allowed(os, ds, most) ==> AnswerHolds(ask(os, ds), os, ds, f)
  }

  /** The cells of one answer, row by row. */
  method ListAnswer<V>(answer: Answer<V>, n: nat, m: nat, o0: nat, d0: nat, ghost os: seq<Point>, ghost ds: seq<Point>,
                       ghost f: (Point, Point) -> (Option<V>, Option<V>))
    returns (more: seq<Entry<(Option<V>, Option<V>)>>)
    requires o0 + n <= |os| && d0 + m <= |ds|
    ensures AnswerHolds(answer, os[o0..o0 + n], ds[d0..d0 + m], f) ==>
              Exactly(more, os, ds, f, Block(o0, o0 + n, d0, d0 + m))
  {
    more := [];
    for i := 0 to n
      invariant AnswerHolds(answer, os[o0..o0 + n], ds[d0..d0 + m], f) ==>
                  Exactly(more, os, ds, f, Block(o0, o0 + i, d0, d0 + m))
    {
      ghost var above := Block(o0, o0 + i, d0, d0 + m);
      for j := 0 to m
        invariant AnswerHolds(answer, os[o0..o0 + n], ds[d0..d0 + m], f) ==>
                    Exactly(more, os, ds, f, above + Block(o0 + i, o0 + i + 1, d0, d0 + j))
      {
        var e := Entry(o0 + i, d0 + j, ValueAt(answer, i, j));
        if AnswerHolds(answer, os[o0..o0 + n], ds[d0..d0 + m], f) {
          assert Holds(answer.distances, i, j, f(os[o0..o0 + n][i], ds[d0..d0 + m][j]).0);
          assert ValueAt(answer, i, j) == f(os[o0..o0 + n][i], ds[d0..d0 + m][j]);
          ExactlyOne(e, os, ds, f);
          var listed := above + Block(o0 + i, o0 + i + 1, d0, d0 + j);
          ExactlyJoins(more, [e], os, ds, f, listed, Block(o0 + i, o0 + i + 1, d0 + j, d0 + j + 1));
          assert listed + Block(o0 + i, o0 + i + 1, d0 + j, d0 + j + 1) ==
                 above + Block(o0 + i, o0 + i + 1, d0, d0 + j + 1);
        }
        more := more + [e];
      }
      assert above + Block(o0 + i, o0 + i + 1, d0, d0 + m) == Block(o0, o0 + i + 1, d0, d0 + m);
    }
  }

  method MapboxRow<V>(os: seq<Point>, ds: seq<Point>, most: nat, ask: (seq<Point>, seq<Point>) --> Answer<V>, o0: nat,
                      o1: nat, entries0: seq<Entry<(Option<V>, Option<V>)>>,
                      ghost f: (Point, Point) -> (Option<V>, Option<V>))
    returns (entries: seq<Entry<(Option<V>, Option<V>)>>)
    requires o0 < o1 <= |os| && o1 - o0 < most && Takes(ask, most)
    requires MapboxAnswers(ask, most, f) ==> Exactly(entries0, os, ds, f, Block(0, o0, 0, |ds|))
    ensures MapboxAnswers(ask, most, f) ==> Exactly(entries, os, ds, f, Block(0, o1, 0, |ds|))
  {
    entries := entries0;
    var size := most - (o1 - o0);
    var d0 := 0;
    DoneGrows(o0, o1, |ds|, 0, |ds|);
    while d0 < |ds|
      invariant MapboxAnswers(ask, most, f) ==> Exactly(entries, os, ds, f, Done(o0, o1, |ds|, Least(d0, |ds|)))
    {
      var d1 := Least(d0 + size, |ds|);
      assert Allowed(os[o0..o1], ds[d0..d1], most);
      var answer := ask(os[o0..o1], ds[d0..d1]);
      var more := ListAnswer(answer, o1 - o0, d1 - d0, o0, d0, os, ds, f);
      if MapboxAnswers(ask, most, f) {
        assert o0 + (o1 - o0) == o1 && d0 + (d1 - d0) == d1;
        DoneGrows(o0, o1, |ds|, d0, d1);
        ExactlyJoins(entries, more, os, ds, f, Done(o0, o1, |ds|, d0), Block(o0, o1, d0, d1));
      }
      entries := entries + more;
      d0 := d0 + size;
    }
  }

  /** Every request holds at most as many coordinates as the profile allows. */
  method MapboxMatrix<V>(os: seq<Point>, ds: seq<Point>, profile: Profile, ask: (seq<Point>, seq<Point>) --> Answer<V>,
                         ghost f: (Point, Point) -> (Option<V>, Option<V>))
    returns (r: Result<seq<Entry<(Option<V>, Option<V>)>>, MatrixError>)
    requires Takes(ask, if profile.DrivingTraffic? then 10 else 25)
    ensures r.Ok? <==> InputOk(os, ds)
    ensures r.Err? ==> IsInputError(os, ds, r.error)
    ensures r.Ok? && MapboxAnswers(ask, if profile.DrivingTraffic? then 10 else 25, f) ==>
              Exactly(r.value, os, ds, f, Block(0, |os|, 0, |ds|))
  {
    var error := InputError(os, ds);
    InputErrorIff(os, ds);
    if error.Some? { return Err(error.value); }
    var most := MaxCoordinates(profile);
    var size := most / 2;
    var entries: seq<Entry<(Option<V>, Option<V>)>> := [];
    var o0 := 0;
    while o0 < |os|
      invariant MapboxAnswers(ask, most, f) ==> Exactly(entries, os, ds, f, Block(0, Least(o0, |os|), 0, |ds|))
    {
      entries := MapboxRow(os, ds, most, ask, o0, Least(o0 + size, |os|), entries, f);
      o0 := o0 + size;
    }
    r := Ok(entries);
  }
}
