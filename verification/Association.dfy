/** The association of the sources extracted from an image with the running catalogue: an ordered list of
    statements over three tables. */
module Associations {
  import opened Averages

  /** A row of the temporary catalogue: catalogue row r matches source src; row is r with src averaged in. */
  datatype Match = Match(r: Id, src: Source, row: Row) {
    function Pair(): (Id, Id) { (r, src.id) }
  }

  /** A row of assocxtrsources. */
  datatype Assoc = Assoc(id: Id, other: Id, how: int)

  datatype Tables = Tables(runcat: seq<Row>, assoc: seq<Assoc>, temp: seq<Match>)

  /** How far a catalogue row is from a source, and which pairs are close enough. */
  datatype Sky = Sky(close: (Row, Source) -> bool, distance: (Row, Id) -> real)

  // ---------------------------------------------------------------- the statements

  predicate Weighted(rows: seq<Row>) {
    forall i :: 0 <= i < |rows| ==> rows[i].avgs.weightRa > 0.0 && rows[i].avgs.weightDecl > 0.0
  }

  /** The matches of one source. */
  function MatchesFor(sky: Sky, rows: seq<Row>, s: Source): seq<Match>
    requires Weighted(rows) && Measured(s)
  {
    if rows == [] then []
    else
      var last := rows[|rows| - 1];
      MatchesFor(sky, rows[..|rows| - 1], s) +
      if sky.close(last, s) then [Match(last.id, s, Extended(last, last.id, s))] else []
  }

  /** _insert_temprunningcatalog_by_bmaj */
  function FindMatches(sky: Sky, rows: seq<Row>, sources: seq<Source>): seq<Match>
    requires Weighted(rows) && AllMeasured(sources)
  {
    if sources == [] then []
    else FindMatches(sky, rows, sources[..|sources| - 1]) + MatchesFor(sky, rows, sources[|sources| - 1])
  }

  /** The table row of match i joins catalogue row b in the search for the smallest distance of source x. */
  predicate Joined(rows: seq<Row>, all: seq<Match>, x: Id, i: nat, b: nat) {
    i < |all| && b < |rows| && all[i].src.id == x && rows[b].id == all[i].r
  }

  /** Some match of the source has a smaller distance. */
  predicate Closer(sky: Sky, rows: seq<Row>, all: seq<Match>, x: Id, d: real) {
    exists i, b :: 0 <= i < |all| && 0 <= b < |rows| && Joined(rows, all, x, i, b) && sky.distance(rows[b], x) < d
  }

  /** The pair of a catalogue id and a source is farther than another match of the source. */
  predicate Farther(sky: Sky, rows: seq<Row>, all: seq<Match>, r: Id, x: Id) {
    FartherUpTo(sky, rows, all, r, x, |rows|)
  }

  predicate FartherUpTo(sky: Sky, rows: seq<Row>, all: seq<Match>, r: Id, x: Id, n: nat)
    requires n <= |rows|
  {
    exists b :: 0 <= b < n && rows[b].id == r && Closer(sky, rows, all, x, sky.distance(rows[b], x))
  }

  /** _flag_multiple_counterparts_in_runningcatalog_by_dist, all being the table before. */
  function Nearest(sky: Sky, rows: seq<Row>, all: seq<Match>, temp: seq<Match>): seq<Match> {
    if temp == [] then []
    else
      var last := temp[|temp| - 1];
      Nearest(sky, rows, all, temp[..|temp| - 1]) + if Farther(sky, rows, all, last.r, last.src.id) then [] else [last]
  }

  function MatchesOf(temp: seq<Match>, r: Id): nat {
    if temp == [] then 0 else MatchesOf(temp[..|temp| - 1], r) + if temp[|temp| - 1].r == r then 1 else 0
  }

  function MatchesTo(temp: seq<Match>, x: Id): nat {
    if temp == [] then 0 else MatchesTo(temp[..|temp| - 1], x) + if temp[|temp| - 1].src.id == x then 1 else 0
  }

  /** The catalogue rows with more than one match: they are split. */
  function Multiple(temp: seq<Match>): set<Id> { set m | m in temp && MatchesOf(temp, m.r) > 1 :: m.r }

  function Selected(temp: seq<Match>, ids: set<Id>): seq<Match> {
    if temp == [] then []
    else Selected(temp[..|temp| - 1], ids) + if temp[|temp| - 1].r in ids then [temp[|temp| - 1]] else []
  }

  function Unselected(temp: seq<Match>, ids: set<Id>): seq<Match> {
    if temp == [] then []
    else Unselected(temp[..|temp| - 1], ids) + if temp[|temp| - 1].r in ids then [] else [temp[|temp| - 1]]
  }

  function RowsWith(rows: seq<Row>, v: Id): nat {
    if rows == [] then 0 else RowsWith(rows[..|rows| - 1], v) + if rows[|rows| - 1].id == v then 1 else 0
  }

  function Repeat(a: Assoc, n: nat): seq<Assoc> { if n == 0 then [] else Repeat(a, n - 1) + [a] }

  /** The query joins the catalogue: an association for every row with the id. */
  function Swapped(rows: seq<Row>, ms: seq<Match>): seq<Assoc> {
    if ms == [] then []
    else
      var m := ms[|ms| - 1];
      Swapped(rows, ms[..|ms| - 1]) + Repeat(Assoc(m.src.id, m.r, 1), RowsWith(rows, m.r))
  }

  function Firsts(ms: seq<Match>): seq<Assoc> {
    if ms == [] then []
    else Firsts(ms[..|ms| - 1]) + [Assoc(ms[|ms| - 1].src.id, ms[|ms| - 1].src.id, 2)]
  }

  function Singles(rows: seq<Row>, ms: seq<Match>): seq<Assoc> {
    if ms == [] then []
    else
      var m := ms[|ms| - 1];
      Singles(rows, ms[..|ms| - 1]) + Repeat(Assoc(m.r, m.src.id, 3), RowsWith(rows, m.r))
  }

  function SplitRows(ms: seq<Match>): seq<Row> {
    if ms == [] then []
    else SplitRows(ms[..|ms| - 1]) + [ms[|ms| - 1].row.(id := ms[|ms| - 1].src.id)]
  }

  function DropAssocs(assoc: seq<Assoc>, ids: set<Id>): seq<Assoc> {
    if assoc == [] then []
    else DropAssocs(assoc[..|assoc| - 1], ids) + if assoc[|assoc| - 1].id in ids then [] else [assoc[|assoc| - 1]]
  }

  function DropRows(rows: seq<Row>, ids: set<Id>): seq<Row> {
    if rows == [] then []
    else DropRows(rows[..|rows| - 1], ids) + if rows[|rows| - 1].id in ids then [] else [rows[|rows| - 1]]
  }

  /** UPDATE ... WHERE xtrsrc_id = m.r */
  function UpdateOne(rows: seq<Row>, m: Match): (r: seq<Row>)
    ensures |r| == |rows|
  {
    seq(|rows|, i requires 0 <= i < |rows| => if rows[i].id == m.r then m.row.(id := m.r) else rows[i])
  }

  /** _update_runningcatalog */
  function UpdateAll(rows: seq<Row>, ms: seq<Match>): (r: seq<Row>)
    ensures |r| == |rows|
  {
    if ms == [] then rows else UpdateOne(UpdateAll(rows, ms[..|ms| - 1]), ms[|ms| - 1])
  }

  /** The catalogue rows that several sources match are replaced by one row for each of them. */
  function Split(t: Tables): Tables {
    var ids := Multiple(t.temp);
    var ms := Selected(t.temp, ids);
    Tables(DropRows(t.runcat + SplitRows(ms), ids),
           DropAssocs(t.assoc + Swapped(t.runcat, ms) + Firsts(ms), ids), Unselected(t.temp, ids))
  }

  /** The other matches are recorded, and their catalogue rows updated. */
  function Update(t: Tables): Tables {
    Tables(UpdateAll(t.runcat, t.temp), t.assoc + Singles(t.runcat, t.temp), t.temp)
  }

  /** associate_extracted_sources up to and including _update_runningcatalog. */
  function Associate(sky: Sky, t: Tables, sources: seq<Source>): Tables
    requires Weighted(t.runcat) && AllMeasured(sources)
  {
    var found := FindMatches(sky, t.runcat, sources);
    Update(Split(t.(temp := Nearest(sky, t.runcat, found, found))))
  }

  /** The sources that no catalogue row is close to, by the expression of either query. */
  function Unknown(close: (Row, Source) -> bool, rows: seq<Row>, sources: seq<Source>): seq<Source>
    requires AllMeasured(sources)
    ensures AllMeasured(Unknown(close, rows, sources))
  {
    if sources == [] then []
    else
      var last := sources[|sources| - 1];
      Unknown(close, rows, sources[..|sources| - 1]) +
      if exists i :: 0 <= i < |rows| && close(rows[i], last) then [] else [last]
  }

  function NewFirsts(ss: seq<Source>): seq<Assoc> {
    if ss == [] then [] else NewFirsts(ss[..|ss| - 1]) + [Assoc(ss[|ss| - 1].id, ss[|ss| - 1].id, 4)]
  }

  function NewRows(dataset: int, ss: seq<Source>): seq<Row>
    requires AllMeasured(ss)
  {
    if ss == [] then [] else NewRows(dataset, ss[..|ss| - 1]) + [NewRow(dataset, ss[|ss| - 1])]
  }

  /** _insert_new_assocs_by_bmaj and _insert_new_source_runcat_by_bmaj: the first does not use the expression
      for closeness that all other queries use. */
  function InsertNew(close: (Row, Source) -> bool, closeAssoc: (Row, Source) -> bool, dataset: int, t: Tables,
                     sources: seq<Source>): Tables
    requires AllMeasured(sources)
  {
    t.(assoc := t.assoc + NewFirsts(Unknown(closeAssoc, t.runcat, sources)),
       runcat := t.runcat + NewRows(dataset, Unknown(close, t.runcat, sources)))
  }

  /** What is needed to associate an image: its measurements, and what is close to what, closeAssoc being the
      expression of _insert_new_assocs_by_bmaj. */
  datatype Image = Image(dataset: int, sources: seq<Source>, sky: Sky, closeAssoc: (Row, Source) -> bool)

  /** associate_extracted_sources as a whole; the temporary catalogue is empty before and after. */
  function Process(t: Tables, image: Image): Tables
    requires Weighted(t.runcat) && AllMeasured(image.sources)
  {
    var matched := Associate(image.sky, t, image.sources);
    InsertNew(image.sky.close, image.closeAssoc, image.dataset, matched, image.sources).(temp := [])
  }

  // ---------------------------------------------------------------- counting and selecting

  lemma CountAppend(ms: seq<Match>, m: Match, v: Id)
    ensures MatchesTo(ms + [m], v) == MatchesTo(ms, v) + if m.src.id == v then 1 else 0
    ensures MatchesOf(ms + [m], v) == MatchesOf(ms, v) + if m.r == v then 1 else 0
  {
    assert (ms + [m])[..|ms|] == ms;
  }

  lemma {:induction false} MatchesOfSome(ms: seq<Match>, r: Id)
    ensures MatchesOf(ms, r) > 0 <==> exists m :: m in ms && m.r == r
  {
    if ms != [] {
      MatchesOfSome(ms[..|ms| - 1], r);
      assert ms == ms[..|ms| - 1] + [ms[|ms| - 1]];
    }
  }

  lemma MultipleIs(temp: seq<Match>, r: Id)
    ensures r in Multiple(temp) <==> MatchesOf(temp, r) > 1
  {
    MatchesOfSome(temp, r);
  }

  /** The smallest distance and the number of joined rows, over the matches before i and the rows before b of
      match i. */
  ghost predicate MinOver(sky: Sky, rows: seq<Row>, all: seq<Match>, x: Id, i: nat, b: nat, count: nat, min: real) {
    && (forall k: nat, c: nat :: Joined(rows, all, x, k, c) && (k < i || (k == i && c < b)) ==>
         count > 0 && min <= sky.distance(rows[c], x) && (count == 1 ==> min == sky.distance(rows[c], x)))
    && (count > 0 ==> exists k: nat, c: nat :: Joined(rows, all, x, k, c) && sky.distance(rows[c], x) == min)
  }

  /** Something is closer exactly if there are several distances, and the smallest of them is. */
  lemma CloserIff(sky: Sky, rows: seq<Row>, all: seq<Match>, i: nat, b: nat, count: nat, min: real)
    requires i < |all| && Joined(rows, all, all[i].src.id, i, b)
    requires MinOver(sky, rows, all, all[i].src.id, |all|, 0, count, min)
    ensures var d := sky.distance(rows[b], all[i].src.id);
      Closer(sky, rows, all, all[i].src.id, d) <==> count > 1 && d > min
  {
  }

  lemma {:induction false} RepeatMore(a: Assoc, rows: seq<Row>, v: Id, k: nat)
    requires k < |rows|
    ensures Repeat(a, RowsWith(rows[..k + 1], v))
         == Repeat(a, RowsWith(rows[..k], v)) + if rows[k].id == v then [a] else []
  {
    assert rows[..k + 1][..k] == rows[..k];
  }

  lemma SelectedMore(temp: seq<Match>, ids: set<Id>, k: nat)
    requires k < |temp|
    ensures var before, now := Selected(temp[..k], ids), Selected(temp[..k + 1], ids);
      if temp[k].r in ids then now == before + [temp[k]] else now == before
  {
    assert temp[..k + 1][..k] == temp[..k];
  }

  lemma SelectedNone(rows: seq<Row>, ids: set<Id>)
    ensures Selected([], ids) == [] && Swapped(rows, []) == [] && Firsts([]) == [] && SplitRows([]) == []
  {
  }

  lemma SplitMore(rows: seq<Row>, ms: seq<Match>, m: Match)
    ensures Swapped(rows, ms + [m]) == Swapped(rows, ms) + Repeat(Assoc(m.src.id, m.r, 1), RowsWith(rows, m.r))
    ensures Firsts(ms + [m]) == Firsts(ms) + [Assoc(m.src.id, m.src.id, 2)]
    ensures SplitRows(ms + [m]) == SplitRows(ms) + [m.row.(id := m.src.id)]
  {
    assert (ms + [m])[..|ms|] == ms;
  }

  lemma NewMore(dataset: int, ss: seq<Source>, s: Source)
    requires AllMeasured(ss) && Measured(s)
    ensures NewFirsts(ss + [s]) == NewFirsts(ss) + [Assoc(s.id, s.id, 4)]
    ensures NewRows(dataset, ss + [s]) == NewRows(dataset, ss) + [NewRow(dataset, s)]
  {
    assert (ss + [s])[..|ss|] == ss;
  }

  lemma UnknownNone(close: (Row, Source) -> bool, rows: seq<Row>, dataset: int)
    ensures Unknown(close, rows, []) == [] && NewFirsts([]) == [] && NewRows(dataset, []) == []
  {
  }

  lemma UnknownMore(close: (Row, Source) -> bool, rows: seq<Row>, sources: seq<Source>, k: nat)
    requires AllMeasured(sources) && k < |sources|
    ensures var before, now := Unknown(close, rows, sources[..k]), Unknown(close, rows, sources[..k + 1]);
      if exists i :: 0 <= i < |rows| && close(rows[i], sources[k]) then now == before
      else now == before + [sources[k]]
  {
    assert sources[..k + 1][..k] == sources[..k];
  }

  function Pairs(ps: seq<(Id, Id)>): set<(Id, Id)> { set p | p in ps }

  function DropPairs(temp: seq<Match>, ps: set<(Id, Id)>): seq<Match> {
    if temp == [] then []
    else
      var last := temp[|temp| - 1];
      DropPairs(temp[..|temp| - 1], ps) + if last.Pair() in ps then [] else [last]
  }

  lemma {:induction false} DropPairsTwice(temp: seq<Match>, ps: set<(Id, Id)>, qs: set<(Id, Id)>)
    ensures DropPairs(DropPairs(temp, ps), qs) == DropPairs(temp, ps + qs)
  {
    if temp != [] {
      var front, last := temp[..|temp| - 1], temp[|temp| - 1];
      DropPairsTwice(front, ps, qs);
      var before := DropPairs(front, ps);
      assert (before + [last])[..|before|] == before && before + [] == before;
    }
  }

  lemma {:induction false} DropNone(temp: seq<Match>)
    ensures DropPairs(temp, {}) == temp
  {
    if temp != [] { DropNone(temp[..|temp| - 1]); }
  }

  lemma {:induction false} NearestDrops(sky: Sky, rows: seq<Row>, all: seq<Match>, temp: seq<Match>,
                                        ps: set<(Id, Id)>)
    requires forall m :: m in temp ==> (m.Pair() in ps <==> Farther(sky, rows, all, m.r, m.src.id))
    ensures DropPairs(temp, ps) == Nearest(sky, rows, all, temp)
  {
    hide Farther;
    if temp != [] { NearestDrops(sky, rows, all, temp[..|temp| - 1], ps); }
  }

  // ---------------------------------------------------------------- the tables as they are changed

  class Database {
    var runningcatalog: seq<Row>
    var assocxtrsources: seq<Assoc>
    var temprunningcatalog: seq<Match>

    function View(): Tables
      reads this
    {
      Tables(runningcatalog, assocxtrsources, temprunningcatalog)
    }

    method EmptyTemprunningcatalog()
      modifies this`temprunningcatalog
      ensures temprunningcatalog == []
    {
      temprunningcatalog := [];
    }

    method InsertTemprunningcatalog(sky: Sky, sources: seq<Source>)
      requires Weighted(runningcatalog) && AllMeasured(sources) && temprunningcatalog == []
      modifies this`temprunningcatalog
      ensures temprunningcatalog == FindMatches(sky, runningcatalog, sources)
    {
      for i := 0 to |sources|
        invariant temprunningcatalog == FindMatches(sky, runningcatalog, sources[..i])
      {
        assert sources[..i + 1][..i] == sources[..i];
        var found := [];
        for k := 0 to |runningcatalog|
          invariant found == MatchesFor(sky, runningcatalog[..k], sources[i])
          invariant temprunningcatalog == FindMatches(sky, runningcatalog, sources[..i])
        {
          assert runningcatalog[..k + 1][..k] == runningcatalog[..k];
          var r := runningcatalog[k];
          if sky.close(r, sources[i]) {
            found := found + [Match(r.id, sources[i], Extended(r, r.id, sources[i]))];
          }
        }
        assert runningcatalog[..|runningcatalog|] == runningcatalog;
        temprunningcatalog := temprunningcatalog + found;
      }
      assert sources[..|sources|] == sources;
    }

    /** The MIN and the COUNT of the first SELECT, for one source: over its matches, each joined with every
        catalogue row of its id. */
    method MinDistance(sky: Sky, x: Id) returns (count: nat, min: real)
      ensures MinOver(sky, runningcatalog, temprunningcatalog, x, |temprunningcatalog|, 0, count, min)
    {
      count, min := 0, 0.0;
      for i := 0 to |temprunningcatalog|
        invariant MinOver(sky, runningcatalog, temprunningcatalog, x, i, 0, count, min)
      {
        for b := 0 to |runningcatalog|
          invariant MinOver(sky, runningcatalog, temprunningcatalog, x, i, b, count, min)
        {
          if temprunningcatalog[i].src.id == x && runningcatalog[b].id == temprunningcatalog[i].r {
            assert Joined(runningcatalog, temprunningcatalog, x, i, b);
            if count == 0 || sky.distance(runningcatalog[b], x) < min {
              min := sky.distance(runningcatalog[b], x);
            }
            count := count + 1;
          }
        }
      }
    }

    /** The query selects the pairs that are farther than the smallest distance of their source. */
    method SelectFarther(sky: Sky) returns (results: seq<(Id, Id)>)
      ensures forall p :: p in results <==>
        Farther(sky, runningcatalog, temprunningcatalog, p.0, p.1) &&
        exists k :: 0 <= k < |temprunningcatalog| && p == temprunningcatalog[k].Pair()
    {
      results := [];
      for i := 0 to |temprunningcatalog|
        invariant forall p :: p in results <==>
          Farther(sky, runningcatalog, temprunningcatalog, p.0, p.1) &&
          exists k :: 0 <= k < i && p == temprunningcatalog[k].Pair()
      {
        ghost var before := results;
        for b := 0 to |runningcatalog|
          invariant forall p :: p in results <==>
            p in before || (p == temprunningcatalog[i].Pair() &&
              FartherUpTo(sky, runningcatalog, temprunningcatalog, p.0, p.1, b))
        {
          if runningcatalog[b].id == temprunningcatalog[i].r {
            var x := temprunningcatalog[i].src.id;
            var count, min := MinDistance(sky, x);
            CloserIff(sky, runningcatalog, temprunningcatalog, i, b, count, min);
            if count > 1 && sky.distance(runningcatalog[b], x) > min {
              results := results + [temprunningcatalog[i].Pair()];
            }
          }
        }
      }
    }

    method DeletePair(p: (Id, Id))
      modifies this`temprunningcatalog
      ensures temprunningcatalog == DropPairs(old(temprunningcatalog), {p})
    {
      var t, rest := temprunningcatalog, [];
      for k := 0 to |t|
        invariant rest == DropPairs(t[..k], {p})
      {
        assert t[..k + 1][..k] == t[..k];
        if t[k].Pair() != p { rest := rest + [t[k]]; }
      }
      assert t[..|t|] == t;
      temprunningcatalog := rest;
    }

    /** The pairs selected are deleted, one after the other. */
    method FlagMultipleCounterparts(sky: Sky)
      modifies this`temprunningcatalog
      ensures temprunningcatalog == Nearest(sky, runningcatalog, old(temprunningcatalog), old(temprunningcatalog))
    {
      ghost var all := temprunningcatalog;
      var results := SelectFarther(sky);
      DropNone(all);
      assert Pairs(results[..0]) == {};
      for j := 0 to |results|
        invariant temprunningcatalog == DropPairs(all, Pairs(results[..j]))
      {
        DropPairsTwice(all, Pairs(results[..j]), {results[j]});
        assert Pairs(results[..j + 1]) == Pairs(results[..j]) + {results[j]};
        DeletePair(results[j]);
      }
      assert results[..|results|] == results;
      NearestDrops(sky, runningcatalog, all, all, Pairs(results));
    }

    /** The COUNT of the subqueries. */
    method CountMatches(r: Id) returns (n: nat)
      ensures n == MatchesOf(temprunningcatalog, r)
      ensures n > 1 <==> r in Multiple(temprunningcatalog)
    {
      n := 0;
      for k := 0 to |temprunningcatalog|
        invariant n == MatchesOf(temprunningcatalog[..k], r)
      {
        assert temprunningcatalog[..k + 1][..k] == temprunningcatalog[..k];
        if temprunningcatalog[k].r == r { n := n + 1; }
      }
      assert temprunningcatalog[..|temprunningcatalog|] == temprunningcatalog;
      MultipleIs(temprunningcatalog, r);
    }

    /** An association for every catalogue row that the query joins. */
    method JoinRows(r: Id, a: Assoc)
      modifies this`assocxtrsources
      ensures assocxtrsources == old(assocxtrsources) + Repeat(a, RowsWith(runningcatalog, r))
    {
      for b := 0 to |runningcatalog|
        invariant assocxtrsources == old(assocxtrsources) + Repeat(a, RowsWith(runningcatalog[..b], r))
      {
        RepeatMore(a, runningcatalog, r, b);
        if runningcatalog[b].id == r { assocxtrsources := assocxtrsources + [a]; }
      }
      assert runningcatalog[..|runningcatalog|] == runningcatalog;
    }

    method InsertMultipleAssocs()
      modifies this`assocxtrsources
      ensures assocxtrsources == old(assocxtrsources) +
        Swapped(runningcatalog, Selected(temprunningcatalog, Multiple(temprunningcatalog)))
    {
      hide Selected, Multiple, Swapped, Firsts, SplitRows;
      SelectedNone(runningcatalog, Multiple(temprunningcatalog));
      ghost var ids := Multiple(temprunningcatalog);
      var t := temprunningcatalog;
      for k := 0 to |t|
        invariant assocxtrsources == old(assocxtrsources) + Swapped(runningcatalog, Selected(t[..k], ids))
      {
        SelectedMore(t, ids, k);
        SplitMore(runningcatalog, Selected(t[..k], ids), t[k]);
        var count := CountMatches(t[k].r);
        if count > 1 { JoinRows(t[k].r, Assoc(t[k].src.id, t[k].r, 1)); }
      }
      assert t[..|t|] == t;
    }

    method InsertFirstOfAssocs()
      modifies this`assocxtrsources
      ensures assocxtrsources == old(assocxtrsources) +
        Firsts(Selected(temprunningcatalog, Multiple(temprunningcatalog)))
    {
      hide Selected, Multiple, Swapped, Firsts, SplitRows;
      SelectedNone(runningcatalog, Multiple(temprunningcatalog));
      ghost var ids := Multiple(temprunningcatalog);
      var t := temprunningcatalog;
      for k := 0 to |t|
        invariant assocxtrsources == old(assocxtrsources) + Firsts(Selected(t[..k], ids))
      {
        SelectedMore(t, ids, k);
        SplitMore(runningcatalog, Selected(t[..k], ids), t[k]);
        var count := CountMatches(t[k].r);
        if count > 1 { assocxtrsources := assocxtrsources + [Assoc(t[k].src.id, t[k].src.id, 2)]; }
      }
      assert t[..|t|] == t;
    }

    method FlagSwappedAssocs()
      modifies this`assocxtrsources
      ensures assocxtrsources == DropAssocs(old(assocxtrsources), Multiple(temprunningcatalog))
    {
      var a, rest := assocxtrsources, [];
      for k := 0 to |a|
        invariant rest == DropAssocs(a[..k], Multiple(temprunningcatalog))
      {
        assert a[..k + 1][..k] == a[..k];
        var count := CountMatches(a[k].id);
        if count <= 1 { rest := rest + [a[k]]; }
      }
      assert a[..|a|] == a;
      assocxtrsources := rest;
    }

    method InsertMultipleAssocsRuncat()
      modifies this`runningcatalog
      ensures runningcatalog == old(runningcatalog) +
        SplitRows(Selected(temprunningcatalog, Multiple(temprunningcatalog)))
    {
      hide Selected, Multiple, Swapped, Firsts, SplitRows;
      SelectedNone(runningcatalog, Multiple(temprunningcatalog));
      ghost var ids := Multiple(temprunningcatalog);
      var t := temprunningcatalog;
      for k := 0 to |t|
        invariant runningcatalog == old(runningcatalog) + SplitRows(Selected(t[..k], ids))
      {
        SelectedMore(t, ids, k);
        SplitMore(runningcatalog, Selected(t[..k], ids), t[k]);
        var count := CountMatches(t[k].r);
        if count > 1 { runningcatalog := runningcatalog + [t[k].row.(id := t[k].src.id)]; }
      }
      assert t[..|t|] == t;
    }

    method FlagOldAssocsRuncat()
      modifies this`runningcatalog
      ensures runningcatalog == DropRows(old(runningcatalog), Multiple(temprunningcatalog))
    {
      var rc, rest := runningcatalog, [];
      for k := 0 to |rc|
        invariant rest == DropRows(rc[..k], Multiple(temprunningcatalog))
      {
        assert rc[..k + 1][..k] == rc[..k];
        var count := CountMatches(rc[k].id);
        if count <= 1 { rest := rest + [rc[k]]; }
      }
      assert rc[..|rc|] == rc;
      runningcatalog := rest;
    }

    /** The subquery is over the table as it was before the statement. */
    method FlagMultipleAssocs()
      modifies this`temprunningcatalog
      ensures temprunningcatalog == Unselected(old(temprunningcatalog), Multiple(old(temprunningcatalog)))
    {
      var t, rest := temprunningcatalog, [];
      for k := 0 to |t|
        invariant temprunningcatalog == t && rest == Unselected(t[..k], Multiple(t))
      {
        assert t[..k + 1][..k] == t[..k];
        var count := CountMatches(t[k].r);
        if count <= 1 { rest := rest + [t[k]]; }
      }
      assert t[..|t|] == t;
      temprunningcatalog := rest;
    }

    method InsertSingleAssocs()
      modifies this`assocxtrsources
      ensures assocxtrsources == old(assocxtrsources) + Singles(runningcatalog, temprunningcatalog)
    {
      var t := temprunningcatalog;
      for k := 0 to |t|
        invariant assocxtrsources == old(assocxtrsources) + Singles(runningcatalog, t[..k])
      {
        assert t[..k + 1][..k] == t[..k];
        JoinRows(t[k].r, Assoc(t[k].r, t[k].src.id, 3));
      }
      assert t[..|t|] == t;
    }

    method UpdateRunningcatalog()
      modifies this`runningcatalog
      ensures runningcatalog == UpdateAll(old(runningcatalog), temprunningcatalog)
    {
      for k := 0 to |temprunningcatalog|
        invariant runningcatalog == UpdateAll(old(runningcatalog), temprunningcatalog[..k])
      {
        assert temprunningcatalog[..k + 1][..k] == temprunningcatalog[..k];
        runningcatalog := UpdateOne(runningcatalog, temprunningcatalog[k]);
      }
      assert temprunningcatalog[..|temprunningcatalog|] == temprunningcatalog;
    }

    /** Whether some catalogue row is close to the source. */
    method IsKnown(close: (Row, Source) -> bool, s: Source) returns (known: bool)
      ensures known <==> exists i :: 0 <= i < |runningcatalog| && close(runningcatalog[i], s)
    {
      known := false;
      for i := 0 to |runningcatalog|
        invariant known <==> exists k :: 0 <= k < i && close(runningcatalog[k], s)
      {
        if close(runningcatalog[i], s) { known := true; }
      }
    }

    method InsertNewAssocs(close: (Row, Source) -> bool, sources: seq<Source>)
      requires AllMeasured(sources)
      modifies this`assocxtrsources
      ensures assocxtrsources == old(assocxtrsources) + NewFirsts(Unknown(close, runningcatalog, sources))
    {
      hide Unknown, NewFirsts, NewRows;
      UnknownNone(close, runningcatalog, 0);
      for k := 0 to |sources|
        invariant assocxtrsources == old(assocxtrsources) + NewFirsts(Unknown(close, runningcatalog, sources[..k]))
      {
        UnknownMore(close, runningcatalog, sources, k);
        NewMore(0, Unknown(close, runningcatalog, sources[..k]), sources[k]);
        var known := IsKnown(close, sources[k]);
        if !known { assocxtrsources := assocxtrsources + [Assoc(sources[k].id, sources[k].id, 4)]; }
      }
      assert sources[..|sources|] == sources;
    }

    /** The subquery is over the table as it was before the statement. */
    method InsertNewSourceRuncat(close: (Row, Source) -> bool, dataset: int, sources: seq<Source>)
      requires AllMeasured(sources)
      modifies this`runningcatalog
      ensures runningcatalog == old(runningcatalog) +
        NewRows(dataset, Unknown(close, old(runningcatalog), sources))
    {
      hide Unknown, NewFirsts, NewRows;
      UnknownNone(close, runningcatalog, dataset);
      var rows := [];
      for k := 0 to |sources|
        invariant runningcatalog == old(runningcatalog)
        invariant rows == NewRows(dataset, Unknown(close, runningcatalog, sources[..k]))
      {
        UnknownMore(close, runningcatalog, sources, k);
        NewMore(dataset, Unknown(close, runningcatalog, sources[..k]), sources[k]);
        var known := IsKnown(close, sources[k]);
        if !known { rows := rows + [NewRow(dataset, sources[k])]; }
      }
      assert sources[..|sources|] == sources;
      runningcatalog := runningcatalog + rows;
    }

    /** associate_extracted_sources: all statements, in the order of the source. */
    method AssociateExtractedSources(image: Image)
      requires Weighted(runningcatalog) && AllMeasured(image.sources)
      modifies this
      ensures View() == Process(old(View()), image)
    {
      EmptyTemprunningcatalog();
      InsertTemprunningcatalog(image.sky, image.sources);
      FlagMultipleCounterparts(image.sky);
      InsertMultipleAssocs();
      InsertFirstOfAssocs();
      FlagSwappedAssocs();
      InsertMultipleAssocsRuncat();
      FlagOldAssocsRuncat();
      FlagMultipleAssocs();
      InsertSingleAssocs();
      UpdateRunningcatalog();
      EmptyTemprunningcatalog();
      InsertNewAssocs(image.closeAssoc, image.sources);
      InsertNewSourceRuncat(image.sky.close, image.dataset, image.sources);
    }
  }
}
