/** What the statements for one image keep of the tables: which matches, which catalogue rows and ids, and
    which associations there are afterwards. */
module AssociationSafety {
  import opened Averages
  import opened Associations

  // ---------------------------------------------------------------- counting

  ghost predicate UniqueIds(rows: seq<Row>) { forall v :: RowsWith(rows, v) <= 1 }

  lemma {:induction false} RowsConcat(a: seq<Row>, b: seq<Row>, v: Id)
    ensures RowsWith(a + b, v) == RowsWith(a, v) + RowsWith(b, v)
  {
    if b == [] {
      assert a + b == a;
    } else {
      assert (a + b)[..|a + b| - 1] == a + b[..|b| - 1];
      RowsConcat(a, b[..|b| - 1], v);
    }
  }

  lemma {:induction false} RowsDropped(rows: seq<Row>, ids: set<Id>, v: Id)
    ensures RowsWith(DropRows(rows, ids), v) == if v in ids then 0 else RowsWith(rows, v)
  {
    if rows != [] {
      var front, last := rows[..|rows| - 1], rows[|rows| - 1];
      RowsDropped(front, ids, v);
      RowsConcat(DropRows(front, ids), [last], v);
      RowsOne(last, v);
      assert DropRows(front, ids) + [] == DropRows(front, ids);
    }
  }

  lemma {:induction false} RowsKept(rows: seq<Row>, ids: set<Id>)
    ensures forall r :: r in DropRows(rows, ids) <==> r in rows && r.id !in ids
  {
    if rows != [] {
      RowsKept(rows[..|rows| - 1], ids);
      assert rows == rows[..|rows| - 1] + [rows[|rows| - 1]];
    }
  }

  lemma RowsOne(r: Row, v: Id)
    ensures RowsWith([r], v) == if r.id == v then 1 else 0
  {
    assert [r][..0] == [];
  }

  lemma {:induction false} RowsSplit(ms: seq<Match>, v: Id)
    ensures RowsWith(SplitRows(ms), v) == MatchesTo(ms, v)
    ensures forall r :: r in SplitRows(ms) ==> exists i :: 0 <= i < |ms| && r == ms[i].row.(id := ms[i].src.id)
  {
    if ms != [] {
      var front, last := ms[..|ms| - 1], ms[|ms| - 1];
      RowsSplit(front, v);
      RowsConcat(SplitRows(front), [last.row.(id := last.src.id)], v);
      RowsOne(last.row.(id := last.src.id), v);
      forall r | r in SplitRows(ms) ensures exists i :: 0 <= i < |ms| && r == ms[i].row.(id := ms[i].src.id) {
        if r in SplitRows(front) {
          var i :| 0 <= i < |front| && r == front[i].row.(id := front[i].src.id);
          assert r == ms[i].row.(id := ms[i].src.id);
        } else {
          assert r == ms[|ms| - 1].row.(id := ms[|ms| - 1].src.id);
        }
      }
    }
  }

  lemma {:induction false} RowsSame(a: seq<Row>, b: seq<Row>, v: Id)
    requires |a| == |b| && forall i :: 0 <= i < |a| ==> a[i].id == b[i].id
    ensures RowsWith(a, v) == RowsWith(b, v)
  {
    if a != [] { RowsSame(a[..|a| - 1], b[..|b| - 1], v); }
  }

  lemma {:induction false} UpdateKeepsIds(rows: seq<Row>, ms: seq<Match>)
    ensures forall i :: 0 <= i < |rows| ==> UpdateAll(rows, ms)[i].id == rows[i].id
  {
    if ms != [] { UpdateKeepsIds(rows, ms[..|ms| - 1]); }
  }

  /** An updated row is that of a match, the others are as they were. */
  lemma {:induction false} UpdateRows(rows: seq<Row>, ms: seq<Match>, i: nat)
    requires i < |rows|
    ensures var r := UpdateAll(rows, ms)[i];
      if MatchesOf(ms, rows[i].id) == 0 then r == rows[i]
      else exists k :: 0 <= k < |ms| && ms[k].r == rows[i].id && r == ms[k].row.(id := ms[k].r)
  {
    if ms != [] {
      var front, last := ms[..|ms| - 1], ms[|ms| - 1];
      UpdateRows(rows, front, i);
      UpdateKeepsIds(rows, front);
      if last.r == rows[i].id {
        assert ms[|ms| - 1].r == rows[i].id;
      } else if MatchesOf(front, rows[i].id) > 0 {
        var k :| 0 <= k < |front| && front[k].r == rows[i].id &&
          UpdateAll(rows, front)[i] == front[k].row.(id := front[k].r);
        assert ms[k] == front[k];
      }
    }
  }

  lemma SelectedCounts(temp: seq<Match>, ids: set<Id>, v: Id)
    ensures MatchesTo(Selected(temp, ids), v) + MatchesTo(Unselected(temp, ids), v) == MatchesTo(temp, v)
    ensures MatchesOf(Unselected(temp, ids), v) == if v in ids then 0 else MatchesOf(temp, v)
  {
    hide Selected, Unselected, MatchesTo, MatchesOf;
    SelectedTo(temp, ids, v);
    UnselectedOf(temp, ids, v);
  }

  lemma {:induction false} SelectedTo(temp: seq<Match>, ids: set<Id>, x: Id)
    ensures MatchesTo(Selected(temp, ids), x) + MatchesTo(Unselected(temp, ids), x) == MatchesTo(temp, x)
  {
    if temp != [] {
      var front, last := temp[..|temp| - 1], temp[|temp| - 1];
      SelectedTo(front, ids, x);
      SelectedLast(temp, ids);
      CountAppend(Selected(front, ids), last, x);
      CountAppend(Unselected(front, ids), last, x);
      hide Selected, Unselected;
    }
  }

  lemma {:induction false} UnselectedOf(temp: seq<Match>, ids: set<Id>, r: Id)
    ensures MatchesOf(Unselected(temp, ids), r) == if r in ids then 0 else MatchesOf(temp, r)
  {
    if temp != [] {
      var front, last := temp[..|temp| - 1], temp[|temp| - 1];
      UnselectedOf(front, ids, r);
      SelectedLast(temp, ids);
      CountAppend(Unselected(front, ids), last, r);
      hide Selected, Unselected;
    }
  }

  lemma SelectedLast(temp: seq<Match>, ids: set<Id>)
    requires temp != []
    ensures var front, last := temp[..|temp| - 1], temp[|temp| - 1];
      && Selected(temp, ids) == (if last.r in ids then Selected(front, ids) + [last] else Selected(front, ids))
      && Unselected(temp, ids) == (if last.r in ids then Unselected(front, ids) else Unselected(front, ids) + [last])
  {
    var front := temp[..|temp| - 1];
    assert Selected(front, ids) + [] == Selected(front, ids) && Unselected(front, ids) + [] == Unselected(front, ids);
  }

  lemma {:induction false} SelectedMembers(temp: seq<Match>, ids: set<Id>)
    ensures forall m :: m in Selected(temp, ids) <==> m in temp && m.r in ids
    ensures forall m :: m in Unselected(temp, ids) <==> m in temp && m.r !in ids
  {
    if temp != [] {
      SelectedMembers(temp[..|temp| - 1], ids);
      assert temp == temp[..|temp| - 1] + [temp[|temp| - 1]];
    }
  }

  // ---------------------------------------------------------------- one match for each source

  /** Two matches of one source at the same, smallest distance. */
  predicate Tied(sky: Sky, rows: seq<Row>, all: seq<Match>, i: nat, j: nat)
    requires i < |all| && j < |all|
  {
    && all[i].src.id == all[j].src.id
    && !Farther(sky, rows, all, all[i].r, all[i].src.id) && !Farther(sky, rows, all, all[j].r, all[j].src.id)
  }

  predicate NoTies(sky: Sky, rows: seq<Row>, all: seq<Match>) {
    forall i, j :: 0 <= i < j < |all| ==> !Tied(sky, rows, all, i, j)
  }

  predicate KeptAt(sky: Sky, rows: seq<Row>, all: seq<Match>, temp: seq<Match>, x: Id, i: nat)
    requires i < |temp|
  {
    temp[i].src.id == x && !Farther(sky, rows, all, temp[i].r, x)
  }

  lemma {:induction false} NearestMembers(sky: Sky, rows: seq<Row>, all: seq<Match>, temp: seq<Match>)
    ensures forall m :: m in Nearest(sky, rows, all, temp) <==> m in temp && !Farther(sky, rows, all, m.r, m.src.id)
  {
    hide Farther;
    if temp != [] {
      NearestMembers(sky, rows, all, temp[..|temp| - 1]);
      assert temp == temp[..|temp| - 1] + [temp[|temp| - 1]];
    }
  }

  lemma {:induction false} NearestCounts(sky: Sky, rows: seq<Row>, all: seq<Match>, temp: seq<Match>, x: Id)
    ensures MatchesTo(Nearest(sky, rows, all, temp), x) > 0 <==>
      exists i :: 0 <= i < |temp| && KeptAt(sky, rows, all, temp, x, i)
    ensures MatchesTo(Nearest(sky, rows, all, temp), x) > 1 <==>
      exists i, j :: 0 <= i < j < |temp| && KeptAt(sky, rows, all, temp, x, i) && KeptAt(sky, rows, all, temp, x, j)
  {
    if temp != [] {
      var n := |temp| - 1;
      var front := temp[..n];
      NearestCounts(sky, rows, all, front, x);
      NearestLast(sky, rows, all, temp, x);
      assert forall i :: 0 <= i < n ==> KeptAt(sky, rows, all, temp, x, i) == KeptAt(sky, rows, all, front, x, i);
      hide KeptAt, Nearest;
      if MatchesTo(Nearest(sky, rows, all, front), x) > 1 {
        var i, j :| 0 <= i < j < n && KeptAt(sky, rows, all, front, x, i) && KeptAt(sky, rows, all, front, x, j);
        assert KeptAt(sky, rows, all, temp, x, i) && KeptAt(sky, rows, all, temp, x, j);
      } else if MatchesTo(Nearest(sky, rows, all, front), x) > 0 {
        var i :| 0 <= i < n && KeptAt(sky, rows, all, front, x, i);
        assert KeptAt(sky, rows, all, temp, x, i);
      }
    }
  }

  lemma NearestLast(sky: Sky, rows: seq<Row>, all: seq<Match>, temp: seq<Match>, x: Id)
    requires temp != []
    ensures var n := |temp| - 1;
      MatchesTo(Nearest(sky, rows, all, temp), x)
      == MatchesTo(Nearest(sky, rows, all, temp[..n]), x) + if KeptAt(sky, rows, all, temp, x, n) then 1 else 0
  {
    var before := Nearest(sky, rows, all, temp[..|temp| - 1]);
    CountAppend(before, temp[|temp| - 1], x);
    assert before + [] == before;
  }

  /** After the closest matches have been kept every source has one match, exactly if no distances tie. */
  lemma NearestUniqueIff(sky: Sky, rows: seq<Row>, all: seq<Match>)
    ensures (forall x :: MatchesTo(Nearest(sky, rows, all, all), x) <= 1) <==> NoTies(sky, rows, all)
  {
    assert forall x, i, j :: 0 <= i < j < |all| ==>
      KeptAt(sky, rows, all, all, x, i) && KeptAt(sky, rows, all, all, x, j) ==> Tied(sky, rows, all, i, j);
    if NoTies(sky, rows, all) {
      forall x ensures MatchesTo(Nearest(sky, rows, all, all), x) <= 1 {
        NearestCounts(sky, rows, all, all, x);
      }
    } else {
      var i, j :| 0 <= i < j < |all| && Tied(sky, rows, all, i, j);
      var x := all[i].src.id;
      NearestCounts(sky, rows, all, all, x);
      assert KeptAt(sky, rows, all, all, x, i) && KeptAt(sky, rows, all, all, x, j);
    }
  }

  /** A match that is kept is closest: none of its source joins a row at a smaller distance. */
  lemma NearestKeepsClosest(sky: Sky, rows: seq<Row>, all: seq<Match>, m: Match)
    requires m in Nearest(sky, rows, all, all)
    ensures m in all
    ensures forall a: nat, i: nat, b: nat :: a < |rows| && rows[a].id == m.r && Joined(rows, all, m.src.id, i, b) ==>
      sky.distance(rows[a], m.src.id) <= sky.distance(rows[b], m.src.id)
  {
    NearestMembers(sky, rows, all, all);
  }

  // ---------------------------------------------------------------- the catalogue

  function SourcesWith(sources: seq<Source>, v: Id): nat {
    if sources == [] then 0
    else SourcesWith(sources[..|sources| - 1], v) + if sources[|sources| - 1].id == v then 1 else 0
  }

  /** The sources of an image are new: none of their ids is in the catalogue, and none occurs twice. */
  ghost predicate Fresh(rows: seq<Row>, sources: seq<Source>) {
    && (forall i :: 0 <= i < |sources| ==> RowsWith(rows, sources[i].id) == 0)
    && forall v :: SourcesWith(sources, v) <= 1
  }

  /** Every match is of a catalogue row and a source of the image. */
  ghost predicate MatchOk(rows: seq<Row>, sources: seq<Source>, m: Match) {
    m.src in sources && exists i :: 0 <= i < |rows| && IsMatch(rows[i], m)
  }

  predicate IsMatch(r: Row, m: Match) {
    && Measured(m.src) && r.avgs.weightRa > 0.0 && r.avgs.weightDecl > 0.0
    && m.r == r.id && m.row == Extended(r, r.id, m.src)
  }

  /** The match of row i and source k, which are close. */
  ghost predicate MatchAt(sky: Sky, rows: seq<Row>, sources: seq<Source>, m: Match, i: nat, k: nat) {
    i < |rows| && k < |sources| && sky.close(rows[i], sources[k]) && m.src == sources[k] && IsMatch(rows[i], m)
  }

  lemma {:induction false} MatchesForOk(sky: Sky, rows: seq<Row>, s: Source, m: Match)
    requires Weighted(rows) && Measured(s)
    ensures m in MatchesFor(sky, rows, s) <==>
      m.src == s && exists i :: 0 <= i < |rows| && sky.close(rows[i], s) && IsMatch(rows[i], m)
  {
    if rows != [] {
      var n := |rows| - 1;
      MatchesForOk(sky, rows[..n], s, m);
      if i :| 0 <= i < |rows| && sky.close(rows[i], s) && IsMatch(rows[i], m) {
        if i < n { assert IsMatch(rows[..n][i], m); }
      }
    }
  }

  /** The temporary catalogue holds exactly the matches of close pairs. */
  lemma {:induction false} FindMatchesOk(sky: Sky, rows: seq<Row>, sources: seq<Source>, m: Match)
    requires Weighted(rows) && AllMeasured(sources)
    ensures m in FindMatches(sky, rows, sources) <==> exists i: nat, k: nat :: MatchAt(sky, rows, sources, m, i, k)
  {
    if sources != [] {
      var n := |sources| - 1;
      FindMatchesOk(sky, rows, sources[..n], m);
      MatchesForOk(sky, rows, sources[n], m);
      hide IsMatch;
      if i: nat, k: nat :| MatchAt(sky, rows, sources[..n], m, i, k) { assert MatchAt(sky, rows, sources, m, i, k); }
      if i :| 0 <= i < |rows| && m.src == sources[n] && sky.close(rows[i], sources[n]) && IsMatch(rows[i], m) {
        assert MatchAt(sky, rows, sources, m, i, n);
      }
      if i: nat, k: nat :| MatchAt(sky, rows, sources, m, i, k) && k < n {
        assert MatchAt(sky, rows, sources[..n], m, i, k);
      }
    }
  }

  // ---------------------------------------------------------------- what an image changes

  function Found(sky: Sky, rows: seq<Row>, sources: seq<Source>): seq<Match>
    requires Weighted(rows) && AllMeasured(sources)
  {
    FindMatches(sky, rows, sources)
  }

  function Kept(sky: Sky, rows: seq<Row>, sources: seq<Source>): seq<Match>
    requires Weighted(rows) && AllMeasured(sources)
  {
    Nearest(sky, rows, Found(sky, rows, sources), Found(sky, rows, sources))
  }

  lemma KeptOk(sky: Sky, rows: seq<Row>, sources: seq<Source>)
    requires Weighted(rows) && AllMeasured(sources)
    ensures forall m :: m in Kept(sky, rows, sources) ==> MatchOk(rows, sources, m)
  {
    NearestMembers(sky, rows, Found(sky, rows, sources), Found(sky, rows, sources));
    forall m | m in Kept(sky, rows, sources) ensures MatchOk(rows, sources, m) {
      FindMatchesOk(sky, rows, sources, m);
      var i: nat, k: nat :| MatchAt(sky, rows, sources, m, i, k);
      assert IsMatch(rows[i], m);
    }
  }

  /** After the split every catalogue row has at most one match; with no ties every source too. */
  lemma OneToOne(sky: Sky, t: Tables, sources: seq<Source>)
    requires Weighted(t.runcat) && AllMeasured(sources)
    ensures var temp := Associate(sky, t, sources).temp;
      && (forall r :: MatchesOf(temp, r) <= 1)
      && (NoTies(sky, t.runcat, Found(sky, t.runcat, sources)) ==> forall x :: MatchesTo(temp, x) <= 1)
  {
    var found, kept := Found(sky, t.runcat, sources), Kept(sky, t.runcat, sources);
    var ids := Multiple(kept);
    NearestUniqueIff(sky, t.runcat, found);
    assert Associate(sky, t, sources).temp == Unselected(kept, ids) && kept == Nearest(sky, t.runcat, found, found);
    hide Associate, Selected, Unselected, MatchesTo, MatchesOf, NoTies, Multiple, Nearest, FindMatches;
    forall r ensures MatchesOf(Unselected(kept, ids), r) <= 1 {
      SelectedCounts(kept, ids, r);
      MultipleIs(kept, r);
    }
    if NoTies(sky, t.runcat, found) {
      forall x ensures MatchesTo(Unselected(kept, ids), x) <= 1 {
        SelectedCounts(kept, ids, x);
        assert MatchesTo(kept, x) <= 1;
      }
    }
  }

  // ---------------------------------------------------------------- nearest rows

  ghost predicate DistinctSources(sources: seq<Source>) { forall v :: SourcesWith(sources, v) <= 1 }

  /** Row i is close to the source, and no close row is closer. */
  predicate NearestRow(sky: Sky, rows: seq<Row>, s: Source, i: nat) {
    && i < |rows| && sky.close(rows[i], s)
    && forall b :: 0 <= b < |rows| && sky.close(rows[b], s) ==>
         sky.distance(rows[i], s.id) <= sky.distance(rows[b], s.id)
  }

  predicate LessFar(sky: Sky, rows: seq<Row>, a: nat, b: nat, x: Id) {
    a < |rows| && b < |rows| && sky.distance(rows[a], x) < sky.distance(rows[b], x)
  }

  /** The match of a row and a source is kept exactly if no close row of the source is closer. */
  lemma KeptIff(sky: Sky, rows: seq<Row>, sources: seq<Source>, m: Match, i: nat, k: nat)
    requires Weighted(rows) && AllMeasured(sources) && UniqueIds(rows) && DistinctSources(sources)
    requires MatchAt(sky, rows, sources, m, i, k)
    ensures m in Kept(sky, rows, sources) <==> NearestRow(sky, rows, sources[k], i)
    ensures m in Kept(sky, rows, sources) <==>
      forall b :: 0 <= b < |rows| && sky.close(rows[b], sources[k]) ==>
        sky.distance(rows[i], sources[k].id) <= sky.distance(rows[b], sources[k].id)
  {
    var found, x := Found(sky, rows, sources), sources[k].id;
    FindMatchesOk(sky, rows, sources, m);
    NearestMembers(sky, rows, found, found);
    forall b | 0 <= b < |rows| && rows[b].id == m.r ensures b == i { SameRow(rows, i, b); }
    if b :| 0 <= b < |rows| && sky.close(rows[b], sources[k]) && LessFar(sky, rows, b, i, x) {
      var l := Match(rows[b].id, sources[k], Extended(rows[b], rows[b].id, sources[k]));
      assert MatchAt(sky, rows, sources, l, b, k);
      FindMatchesOk(sky, rows, sources, l);
      var j :| 0 <= j < |found| && found[j] == l;
      assert Joined(rows, found, x, j, b);
    }
    if j, b :| 0 <= j < |found| && Joined(rows, found, x, j, b) && LessFar(sky, rows, b, i, x) {
      FindMatchesOk(sky, rows, sources, found[j]);
      var a: nat, l: nat :| MatchAt(sky, rows, sources, found[j], a, l);
      SameRow(rows, a, b);
      SameSource(sources, k, l);
    }
  }

  lemma SameRow(rows: seq<Row>, i: nat, j: nat)
    requires UniqueIds(rows) && i < |rows| && j < |rows| && rows[i].id == rows[j].id
    ensures i == j
  {
    assert RowsWith(rows, rows[i].id) <= 1;
    if i < j { TwoRows(rows, i, j); }
    if j < i { TwoRows(rows, j, i); }
  }

  lemma {:induction false} TwoRows(rows: seq<Row>, i: nat, j: nat)
    requires i < j < |rows| && rows[i].id == rows[j].id
    ensures RowsWith(rows, rows[i].id) > 1
  {
    if j == |rows| - 1 { RowPresent(rows[..j], i); } else { TwoRows(rows[..|rows| - 1], i, j); }
  }

  lemma SameSource(sources: seq<Source>, i: nat, j: nat)
    requires DistinctSources(sources) && i < |sources| && j < |sources| && sources[i].id == sources[j].id
    ensures i == j
  {
    assert SourcesWith(sources, sources[i].id) <= 1;
    if i < j { TwoSources(sources, i, j); }
    if j < i { TwoSources(sources, j, i); }
  }

  lemma {:induction false} TwoSources(sources: seq<Source>, i: nat, j: nat)
    requires i < j < |sources| && sources[i].id == sources[j].id
    ensures SourcesWith(sources, sources[i].id) > 1
  {
    if j == |sources| - 1 { SourcePresent(sources[..j], i); } else { TwoSources(sources[..|sources| - 1], i, j); }
  }

  lemma {:induction false} SourcePresent(ss: seq<Source>, i: nat)
    requires i < |ss|
    ensures SourcesWith(ss, ss[i].id) > 0
  {
    if i < |ss| - 1 { SourcePresent(ss[..|ss| - 1], i); }
  }

  lemma {:induction false} RowPresent(rows: seq<Row>, i: nat)
    requires i < |rows|
    ensures RowsWith(rows, rows[i].id) > 0
  {
    if i < |rows| - 1 { RowPresent(rows[..|rows| - 1], i); }
  }

  /** Some close row is nearest. */
  lemma {:induction false} SomeNearest(sky: Sky, rows: seq<Row>, s: Source, i: nat) returns (nearest: nat)
    requires i < |rows| && sky.close(rows[i], s)
    ensures NearestRow(sky, rows, s, nearest)
  {
    nearest := i;
    for b := 0 to |rows|
      invariant nearest < |rows| && sky.close(rows[nearest], s)
      invariant forall a :: 0 <= a < b && sky.close(rows[a], s) ==>
        sky.distance(rows[nearest], s.id) <= sky.distance(rows[a], s.id)
    {
      if sky.close(rows[b], s) && sky.distance(rows[b], s.id) < sky.distance(rows[nearest], s.id) { nearest := b; }
    }
  }

  /** A source with matches keeps one. */
  lemma NearestLosesNone(sky: Sky, rows: seq<Row>, sources: seq<Source>, m: Match) returns (closest: Match)
    requires Weighted(rows) && AllMeasured(sources) && UniqueIds(rows) && DistinctSources(sources)
    requires m in Found(sky, rows, sources)
    ensures closest in Kept(sky, rows, sources) && closest.src == m.src
  {
    FindMatchesOk(sky, rows, sources, m);
    var i: nat, k: nat :| MatchAt(sky, rows, sources, m, i, k);
    var nearest := SomeNearest(sky, rows, sources[k], i);
    closest := KeptMatch(sky, rows, sources, nearest, k);
  }

  lemma KeptMatch(sky: Sky, rows: seq<Row>, sources: seq<Source>, i: nat, k: nat) returns (m: Match)
    requires Weighted(rows) && AllMeasured(sources) && UniqueIds(rows) && DistinctSources(sources)
    requires k < |sources| && NearestRow(sky, rows, sources[k], i)
    ensures m in Kept(sky, rows, sources) && MatchAt(sky, rows, sources, m, i, k)
  {
    m := Match(rows[i].id, sources[k], Extended(rows[i], rows[i].id, sources[k]));
    KeptIff(sky, rows, sources, m, i, k);
  }

  lemma KeptRow(sky: Sky, rows: seq<Row>, sources: seq<Source>, m: Match) returns (i: nat, k: nat)
    requires Weighted(rows) && AllMeasured(sources) && UniqueIds(rows) && DistinctSources(sources)
    requires m in Kept(sky, rows, sources)
    ensures MatchAt(sky, rows, sources, m, i, k) && NearestRow(sky, rows, sources[k], i)
  {
    NearestMembers(sky, rows, Found(sky, rows, sources), Found(sky, rows, sources));
    FindMatchesOk(sky, rows, sources, m);
    i, k :| MatchAt(sky, rows, sources, m, i, k);
    KeptIff(sky, rows, sources, m, i, k);
  }

  // ---------------------------------------------------------------- no pair twice

  /** No pair of a row and a source is in the table twice. */
  ghost predicate PairsDistinct(ms: seq<Match>) {
    forall i, j :: 0 <= i < j < |ms| ==> ms[i].Pair() != ms[j].Pair()
  }

  lemma PairsAppend(ms: seq<Match>, m: Match)
    requires PairsDistinct(ms) && forall l :: l in ms ==> l.Pair() != m.Pair()
    ensures PairsDistinct(ms + [m])
  {
  }

  lemma {:induction false} MatchesForDistinct(sky: Sky, rows: seq<Row>, s: Source)
    requires Weighted(rows) && Measured(s) && UniqueIds(rows)
    ensures PairsDistinct(MatchesFor(sky, rows, s))
    ensures forall m :: m in MatchesFor(sky, rows, s) ==> m.src == s && RowsWith(rows, m.r) > 0
  {
    if rows != [] {
      var n := |rows| - 1;
      forall v ensures RowsWith(rows[..n], v) <= 1 { assert RowsWith(rows, v) <= 1; }
      MatchesForDistinct(sky, rows[..n], s);
      assert RowsWith(rows, rows[n].id) <= 1;
      RowPresent(rows, n);
      hide UniqueIds;
      if sky.close(rows[n], s) {
        PairsAppend(MatchesFor(sky, rows[..n], s), Match(rows[n].id, s, Extended(rows[n], rows[n].id, s)));
      } else {
        assert MatchesFor(sky, rows, s) == MatchesFor(sky, rows[..n], s);
      }
    }
  }

  lemma {:induction false} FoundDistinct(sky: Sky, rows: seq<Row>, sources: seq<Source>)
    requires Weighted(rows) && AllMeasured(sources) && UniqueIds(rows) && DistinctSources(sources)
    ensures PairsDistinct(Found(sky, rows, sources))
    ensures forall m :: m in Found(sky, rows, sources) ==> SourcesWith(sources, m.src.id) > 0
  {
    if sources != [] {
      var n := |sources| - 1;
      forall v ensures SourcesWith(sources[..n], v) <= 1 { assert SourcesWith(sources, v) <= 1; }
      FoundDistinct(sky, rows, sources[..n]);
      MatchesForDistinct(sky, rows, sources[n]);
      assert SourcesWith(sources, sources[n].id) <= 1;
      SourcePresent(sources, n);
      var a, b := Found(sky, rows, sources[..n]), MatchesFor(sky, rows, sources[n]);
      assert Found(sky, rows, sources) == a + b;
      forall i, j | 0 <= i < |a| && 0 <= j < |b| ensures a[i].Pair() != b[j].Pair() {
        assert a[i] in a && b[j] in b;
      }
    }
  }

  lemma {:induction false} NearestDistinct(sky: Sky, rows: seq<Row>, all: seq<Match>, temp: seq<Match>)
    requires PairsDistinct(temp)
    ensures PairsDistinct(Nearest(sky, rows, all, temp))
  {
    hide Farther;
    if temp != [] {
      var n := |temp| - 1;
      NearestDistinct(sky, rows, all, temp[..n]);
      NearestMembers(sky, rows, all, temp[..n]);
      PairsAppend(Nearest(sky, rows, all, temp[..n]), temp[n]);
      assert Nearest(sky, rows, all, temp[..n]) + [] == Nearest(sky, rows, all, temp[..n]);
    }
  }

  lemma {:induction false} SelectedDistinct(temp: seq<Match>, ids: set<Id>)
    requires PairsDistinct(temp)
    ensures PairsDistinct(Selected(temp, ids))
  {
    if temp != [] {
      var n := |temp| - 1;
      SelectedDistinct(temp[..n], ids);
      SelectedMembers(temp[..n], ids);
      PairsAppend(Selected(temp[..n], ids), temp[n]);
      assert Selected(temp[..n], ids) + [] == Selected(temp[..n], ids);
    }
  }

  lemma KeptDistinct(sky: Sky, rows: seq<Row>, sources: seq<Source>)
    requires Weighted(rows) && AllMeasured(sources) && UniqueIds(rows) && DistinctSources(sources)
    ensures PairsDistinct(Kept(sky, rows, sources))
  {
    FoundDistinct(sky, rows, sources);
    NearestDistinct(sky, rows, Found(sky, rows, sources), Found(sky, rows, sources));
  }

  lemma {:induction false} TwoMatches(ms: seq<Match>, i: nat, j: nat)
    requires i < j < |ms|
    ensures ms[i].r == ms[j].r ==> MatchesOf(ms, ms[i].r) > 1
    ensures ms[i].src.id == ms[j].src.id ==> MatchesTo(ms, ms[i].src.id) > 1
  {
    var n := |ms| - 1;
    if j < n {
      TwoMatches(ms[..n], i, j);
    } else {
      OneMatch(ms[..n], i);
    }
  }

  lemma {:induction false} OneMatch(ms: seq<Match>, i: nat)
    requires i < |ms|
    ensures MatchesOf(ms, ms[i].r) > 0 && MatchesTo(ms, ms[i].src.id) > 0
  {
    if i < |ms| - 1 { OneMatch(ms[..|ms| - 1], i); }
  }

  lemma TwoIn(ms: seq<Match>, a: Match, b: Match)
    requires a in ms && b in ms && a != b
    ensures a.r == b.r ==> MatchesOf(ms, a.r) > 1
    ensures a.src.id == b.src.id ==> MatchesTo(ms, a.src.id) > 1
  {
    var i :| 0 <= i < |ms| && ms[i] == a;
    var j :| 0 <= j < |ms| && ms[j] == b;
    if i < j { TwoMatches(ms, i, j); } else { TwoMatches(ms, j, i); }
  }

  lemma {:induction false} TwoTo(ms: seq<Match>, x: Id) returns (i: nat, j: nat)
    requires MatchesTo(ms, x) > 1
    ensures i < j < |ms| && ms[i].src.id == x && ms[j].src.id == x
  {
    var n := |ms| - 1;
    if ms[n].src.id == x {
      j := n;
      var m := MatchesToSome(ms[..n], x);
      i :| 0 <= i < n && ms[..n][i] == m;
    } else {
      i, j := TwoTo(ms[..n], x);
    }
  }

  lemma {:induction false} TwoOf(ms: seq<Match>, r: Id) returns (i: nat, j: nat)
    requires MatchesOf(ms, r) > 1
    ensures i < j < |ms| && ms[i].r == r && ms[j].r == r
  {
    var n := |ms| - 1;
    if ms[n].r == r {
      j := n;
      MatchesOfSome(ms[..n], r);
      var m :| m in ms[..n] && m.r == r;
      i :| 0 <= i < n && ms[..n][i] == m;
    } else {
      i, j := TwoOf(ms[..n], r);
    }
  }

  /** Two rows are nearest to the same source. */
  predicate TiedRows(sky: Sky, rows: seq<Row>, s: Source, i: nat, j: nat) {
    i != j && NearestRow(sky, rows, s, i) && NearestRow(sky, rows, s, j)
  }

  /** Every source keeps one match at most exactly if no two different close rows are at the same smallest
      distance of one. */
  lemma OneMatchIff(sky: Sky, rows: seq<Row>, sources: seq<Source>)
    requires Weighted(rows) && AllMeasured(sources) && UniqueIds(rows) && DistinctSources(sources)
    ensures (forall x :: MatchesTo(Kept(sky, rows, sources), x) <= 1) <==>
      forall k: nat, i: nat, j: nat :: k < |sources| ==> !TiedRows(sky, rows, sources[k], i, j)
  {
    var kept := Kept(sky, rows, sources);
    KeptDistinct(sky, rows, sources);
    hide UniqueIds, DistinctSources, Kept, NearestRow;
    if x :| MatchesTo(kept, x) > 1 {
      var p, q := TwoTo(kept, x);
      var i, k := KeptRow(sky, rows, sources, kept[p]);
      var j, l := KeptRow(sky, rows, sources, kept[q]);
      SameSource(sources, k, l);
      assert kept[p].Pair() != kept[q].Pair();
      assert TiedRows(sky, rows, sources[k], i, j);
    }
    if k: nat, i: nat, j: nat :| k < |sources| && TiedRows(sky, rows, sources[k], i, j) {
      var a := KeptMatch(sky, rows, sources, i, k);
      var b := KeptMatch(sky, rows, sources, j, k);
      if a == b {
        assert i < |rows| && j < |rows| by { NearestIn(sky, rows, sources[k], i); NearestIn(sky, rows, sources[k], j); }
        SameRow(rows, i, j);
      }
      TwoIn(kept, a, b);
    }
  }

  lemma NearestIn(sky: Sky, rows: seq<Row>, s: Source, i: nat)
    requires NearestRow(sky, rows, s, i)
    ensures i < |rows|
  {
  }

  // ---------------------------------------------------------------- unique ids

  /** Another source than k has row i as a nearest row as well. */
  predicate SharedRow(sky: Sky, rows: seq<Row>, sources: seq<Source>, i: nat, k: nat) {
    exists l :: 0 <= l < |sources| && l != k && NearestRow(sky, rows, sources[l], i)
  }

  /** Two different rows are at the smallest distance of source k, and each is also nearest to another
      source. */
  predicate SplitTwice(sky: Sky, rows: seq<Row>, sources: seq<Source>, k: nat, i: nat, j: nat) {
    && k < |sources| && TiedRows(sky, rows, sources[k], i, j)
    && SharedRow(sky, rows, sources, i, k) && SharedRow(sky, rows, sources, j, k)
  }

  /** A row has several matches exactly if several sources have it as a nearest row. */
  lemma MultipleIff(sky: Sky, rows: seq<Row>, sources: seq<Source>, i: nat, k: nat)
    requires Weighted(rows) && AllMeasured(sources) && UniqueIds(rows) && DistinctSources(sources)
    requires k < |sources| && NearestRow(sky, rows, sources[k], i)
    ensures rows[i].id in Multiple(Kept(sky, rows, sources)) <==> SharedRow(sky, rows, sources, i, k)
  {
    var kept, r := Kept(sky, rows, sources), rows[i].id;
    KeptDistinct(sky, rows, sources);
    MultipleIs(kept, r);
    NearestIn(sky, rows, sources[k], i);
    hide UniqueIds, DistinctSources, Kept, NearestRow, Multiple;
    if MatchesOf(kept, r) > 1 {
      var p, q := TwoOf(kept, r);
      var a, l := KeptRow(sky, rows, sources, kept[p]);
      var b, o := KeptRow(sky, rows, sources, kept[q]);
      NearestIn(sky, rows, sources[l], a);
      NearestIn(sky, rows, sources[o], b);
      SameRow(rows, i, a);
      SameRow(rows, i, b);
      assert kept[p].Pair() != kept[q].Pair();
      assert l != k || o != k;
    }
    if l :| 0 <= l < |sources| && l != k && NearestRow(sky, rows, sources[l], i) {
      var a := KeptMatch(sky, rows, sources, i, k);
      var b := KeptMatch(sky, rows, sources, i, l);
      if a == b { SameSource(sources, k, l); }
      TwoIn(kept, a, b);
    }
  }

  /** The ids that a split brings into the catalogue: those of the sources matched to a row with several
      matches. */
  function SplitIds(sky: Sky, rows: seq<Row>, sources: seq<Source>, v: Id): nat
    requires Weighted(rows) && AllMeasured(sources)
  {
    MatchesTo(Selected(Kept(sky, rows, sources), Multiple(Kept(sky, rows, sources))), v)
  }

  /** How often an id is in the catalogue afterwards. */
  lemma RowsAfter(sky: Sky, t: Tables, sources: seq<Source>, v: Id)
    requires Weighted(t.runcat) && AllMeasured(sources) && Fresh(t.runcat, sources)
    ensures var ids := Multiple(Kept(sky, t.runcat, sources));
      RowsWith(Associate(sky, t, sources).runcat, v)
      == (if v in ids then 0 else RowsWith(t.runcat, v)) + SplitIds(sky, t.runcat, sources, v)
    ensures SplitIds(sky, t.runcat, sources, v) > 0 ==>
      RowsWith(t.runcat, v) == 0 && v !in Multiple(Kept(sky, t.runcat, sources))
  {
    var kept := Kept(sky, t.runcat, sources);
    var ids := Multiple(kept);
    var ms := Selected(kept, ids);
    var split := DropRows(t.runcat + SplitRows(ms), ids);
    UpdateKeepsIds(split, Unselected(kept, ids));
    RowsSame(UpdateAll(split, Unselected(kept, ids)), split, v);
    RowsDropped(t.runcat + SplitRows(ms), ids, v);
    RowsConcat(t.runcat, SplitRows(ms), v);
    RowsSplit(ms, v);
    KeptOk(sky, t.runcat, sources);
    SelectedMembers(kept, ids);
    if MatchesTo(ms, v) > 0 {
      var m := MatchesToSome(ms, v);
      assert MatchOk(t.runcat, sources, m);
      if v in ids {
        MultipleInCatalogue(t.runcat, sources, kept, v);
      }
    }
  }

  lemma {:induction false} MatchesToSome(ms: seq<Match>, x: Id) returns (m: Match)
    requires MatchesTo(ms, x) > 0
    ensures m in ms && m.src.id == x
  {
    if ms[|ms| - 1].src.id == x {
      m := ms[|ms| - 1];
    } else {
      m := MatchesToSome(ms[..|ms| - 1], x);
    }
  }

  lemma MultipleInCatalogue(rows: seq<Row>, sources: seq<Source>, kept: seq<Match>, v: Id)
    requires v in Multiple(kept) && forall m :: m in kept ==> MatchOk(rows, sources, m)
    ensures RowsWith(rows, v) > 0
  {
    var m :| m in kept && m.r == v;
    assert MatchOk(rows, sources, m);
    var i :| 0 <= i < |rows| && IsMatch(rows[i], m);
    RowPresent(rows, i);
  }

  /** A source split off more than once has two nearest rows that it shares. */
  lemma TwiceSplit(sky: Sky, rows: seq<Row>, sources: seq<Source>, v: Id) returns (k: nat, i: nat, j: nat)
    requires Weighted(rows) && AllMeasured(sources) && UniqueIds(rows) && DistinctSources(sources)
    requires SplitIds(sky, rows, sources, v) > 1
    ensures SplitTwice(sky, rows, sources, k, i, j)
  {
    var kept := Kept(sky, rows, sources);
    var ids := Multiple(kept);
    var ms := Selected(kept, ids);
    KeptDistinct(sky, rows, sources);
    SelectedDistinct(kept, ids);
    SelectedMembers(kept, ids);
    hide UniqueIds, DistinctSources, Kept, NearestRow, Multiple, SharedRow, Selected;
    var p, q := TwoTo(ms, v);
    assert ms[p] in ms && ms[q] in ms && ms[p].Pair() != ms[q].Pair();
    hide PairsDistinct, Weighted, AllMeasured;
    var l;
    i, k := KeptRow(sky, rows, sources, ms[p]);
    j, l := KeptRow(sky, rows, sources, ms[q]);
    SameSource(sources, k, l);
    MultipleIff(sky, rows, sources, i, k);
    MultipleIff(sky, rows, sources, j, k);
  }

  lemma SourceOf(sky: Sky, rows: seq<Row>, sources: seq<Source>, k: nat, i: nat, j: nat)
    requires SplitTwice(sky, rows, sources, k, i, j)
    ensures k < |sources|
  {
  }

  lemma SplitFromTwo(sky: Sky, rows: seq<Row>, sources: seq<Source>, k: nat, i: nat, j: nat)
    requires Weighted(rows) && AllMeasured(sources) && UniqueIds(rows) && DistinctSources(sources)
    requires SplitTwice(sky, rows, sources, k, i, j)
    ensures SplitIds(sky, rows, sources, sources[k].id) > 1
  {
    var kept := Kept(sky, rows, sources);
    var ids := Multiple(kept);
    hide UniqueIds, DistinctSources, Kept, NearestRow, Multiple, SharedRow, Selected, Weighted, AllMeasured;
    var a := KeptMatch(sky, rows, sources, i, k);
    var b := KeptMatch(sky, rows, sources, j, k);
    NearestIn(sky, rows, sources[k], i);
    NearestIn(sky, rows, sources[k], j);
    MultipleIff(sky, rows, sources, i, k);
    MultipleIff(sky, rows, sources, j, k);
    if a == b { SameRow(rows, i, j); }
    SelectedMembers(kept, ids);
    TwoIn(Selected(kept, ids), a, b);
  }

  /** The catalogue ids stay unique exactly if no source has two different close rows at the same smallest
      distance that are both nearest to another source as well. */
  lemma IdsUniqueIff(sky: Sky, t: Tables, sources: seq<Source>)
    requires Weighted(t.runcat) && AllMeasured(sources) && UniqueIds(t.runcat) && Fresh(t.runcat, sources)
    ensures UniqueIds(Associate(sky, t, sources).runcat)
       <==> forall k: nat, i: nat, j: nat :: !SplitTwice(sky, t.runcat, sources, k, i, j)
  {
    hide SplitTwice, SplitIds, Associate, Kept;
    forall v
      ensures RowsWith(Associate(sky, t, sources).runcat, v) <= 1 <==> SplitIds(sky, t.runcat, sources, v) <= 1
    {
      RowsAfter(sky, t, sources, v);
      assert RowsWith(t.runcat, v) <= 1;
    }
    if v :| SplitIds(sky, t.runcat, sources, v) > 1 {
      var k, i, j := TwiceSplit(sky, t.runcat, sources, v);
    }
    if k: nat, i: nat, j: nat :| SplitTwice(sky, t.runcat, sources, k, i, j) {
      assert k < |sources| by { SourceOf(sky, t.runcat, sources, k, i, j); }
      SplitFromTwo(sky, t.runcat, sources, k, i, j);
    }
  }

  lemma NoTiesUnique(sky: Sky, t: Tables, sources: seq<Source>)
    requires Weighted(t.runcat) && AllMeasured(sources) && UniqueIds(t.runcat) && Fresh(t.runcat, sources)
    requires forall k: nat, i: nat, j: nat :: k < |sources| ==> !TiedRows(sky, t.runcat, sources[k], i, j)
    ensures UniqueIds(Associate(sky, t, sources).runcat)
  {
    forall k: nat, i: nat, j: nat ensures !SplitTwice(sky, t.runcat, sources, k, i, j) {
      if k < |sources| { assert !TiedRows(sky, t.runcat, sources[k], i, j); }
    }
    IdsUniqueIff(sky, t, sources);
  }

  // ---------------------------------------------------------------- associations and identity rows

  predicate HasFirst(assoc: seq<Assoc>, v: Id) {
    exists i :: 0 <= i < |assoc| && assoc[i].id == v && assoc[i].other == v
  }

  ghost predicate AllFirsts(rows: seq<Row>, assoc: seq<Assoc>) {
    forall i :: 0 <= i < |rows| ==> HasFirst(assoc, rows[i].id)
  }

  lemma {:induction false} AssocsDropped(assoc: seq<Assoc>, ids: set<Id>)
    ensures forall x :: x in DropAssocs(assoc, ids) <==> x in assoc && x.id !in ids
  {
    if assoc != [] {
      AssocsDropped(assoc[..|assoc| - 1], ids);
      assert assoc == assoc[..|assoc| - 1] + [assoc[|assoc| - 1]];
    }
  }

  lemma {:induction false} Repeated(a: Assoc, n: nat, x: Assoc)
    ensures x in Repeat(a, n) <==> x == a && n > 0
  {
    if n > 0 { Repeated(a, n - 1, x); }
  }

  /** What the statements insert for the matches of a table. */
  lemma {:induction false} Inserted(rows: seq<Row>, ms: seq<Match>, x: Assoc)
    ensures x in Swapped(rows, ms) <==>
      exists m :: m in ms && RowsWith(rows, m.r) > 0 && x == Assoc(m.src.id, m.r, 1)
    ensures x in Firsts(ms) <==> exists m :: m in ms && x == Assoc(m.src.id, m.src.id, 2)
    ensures x in Singles(rows, ms) <==>
      exists m :: m in ms && RowsWith(rows, m.r) > 0 && x == Assoc(m.r, m.src.id, 3)
  {
    if ms != [] {
      var front, last := ms[..|ms| - 1], ms[|ms| - 1];
      Inserted(rows, front, x);
      Repeated(Assoc(last.src.id, last.r, 1), RowsWith(rows, last.r), x);
      Repeated(Assoc(last.r, last.src.id, 3), RowsWith(rows, last.r), x);
      assert ms == front + [last];
    }
  }

  /** What an image records in assocxtrsources about a match that was kept: a source of a row that is split
      comes before the row's id and before its own, any other source after the row's id. */
  predicate Records(ids: set<Id>, m: Match, x: Assoc) {
    if m.r in ids then x == Assoc(m.src.id, m.r, 1) || x == Assoc(m.src.id, m.src.id, 2)
    else x == Assoc(m.r, m.src.id, 3)
  }

  lemma AssocAfter(sky: Sky, t: Tables, sources: seq<Source>)
    requires Weighted(t.runcat) && AllMeasured(sources)
    ensures var kept := Kept(sky, t.runcat, sources);
      var ids := Multiple(kept);
      var ms := Selected(kept, ids);
      Associate(sky, t, sources).assoc
      == DropAssocs(t.assoc + Swapped(t.runcat, ms) + Firsts(ms), ids)
         + Singles(DropRows(t.runcat + SplitRows(ms), ids), Unselected(kept, ids))
  {
  }

  /** The associations afterwards are exactly the old ones of the rows that were not split, and what the
      matches record. */
  lemma AssocsExactly(sky: Sky, t: Tables, sources: seq<Source>, x: Assoc)
    requires Weighted(t.runcat) && AllMeasured(sources) && Fresh(t.runcat, sources)
    ensures var kept := Kept(sky, t.runcat, sources);
      var ids := Multiple(kept);
      x in Associate(sky, t, sources).assoc <==>
        (x in t.assoc && x.id !in ids) || exists m :: m in kept && Records(ids, m, x)
    ensures forall m :: m in Kept(sky, t.runcat, sources) ==>
      (Records(Multiple(Kept(sky, t.runcat, sources)), m, x) <==>
       if MatchesOf(Kept(sky, t.runcat, sources), m.r) > 1
       then x == Assoc(m.src.id, m.r, 1) || x == Assoc(m.src.id, m.src.id, 2) else x == Assoc(m.r, m.src.id, 3))
  {
    var kept := Kept(sky, t.runcat, sources);
    var ids := Multiple(kept);
    AssocAfter(sky, t, sources);
    forall m | m in kept ensures m.r in ids <==> MatchesOf(kept, m.r) > 1 { MultipleIs(kept, m.r); }
    KeptOk(sky, t.runcat, sources);
    hide Associate, Kept, Multiple, Fresh, MatchOk, UniqueIds, AllFirsts;
    RecordsExactly(t.assoc, sources, t.runcat, kept, ids, x);
  }

  lemma RecordsExactly(assoc: seq<Assoc>, sources: seq<Source>, rows: seq<Row>, kept: seq<Match>, ids: set<Id>,
                       x: Assoc)
    requires Fresh(rows, sources) && ids == Multiple(kept) && forall m :: m in kept ==> MatchOk(rows, sources, m)
    ensures var ms := Selected(kept, ids);
      x in DropAssocs(assoc + Swapped(rows, ms) + Firsts(ms), ids)
           + Singles(DropRows(rows + SplitRows(ms), ids), Unselected(kept, ids)) <==>
        (x in assoc && x.id !in ids) || exists m :: m in kept && Records(ids, m, x)
  {
    hide Fresh, MatchOk, Multiple, DropAssocs, Selected, Unselected, Swapped, Firsts, Singles, DropRows, RowsWith;
    var ms, rest := Selected(kept, ids), Unselected(kept, ids);
    var split := DropRows(rows + SplitRows(ms), ids);
    AssocsDropped(assoc + Swapped(rows, ms) + Firsts(ms), ids);
    SelectedMembers(kept, ids);
    Inserted(rows, ms, x);
    Inserted(split, rest, x);
    forall m | m in kept
      ensures RowsWith(rows, m.r) > 0 && (m.r !in ids ==> RowsWith(split, m.r) > 0) && m.src.id !in ids
    {
      MatchedRow(rows, sources, m);
      RowsDropped(rows + SplitRows(ms), ids, m.r);
      RowsConcat(rows, SplitRows(ms), m.r);
      SplitSourceIsNew(rows, sources, kept, m);
    }
    assert forall m :: m in kept && m.r in ids && Records(ids, m, x) ==>
      m in ms && RowsWith(rows, m.r) > 0 && x.id !in ids;
    assert forall m :: m in kept && m.r !in ids && Records(ids, m, x) ==> m in rest && RowsWith(split, m.r) > 0;
  }

  lemma MatchedRow(rows: seq<Row>, sources: seq<Source>, m: Match)
    requires MatchOk(rows, sources, m)
    ensures RowsWith(rows, m.r) > 0
  {
    var i :| 0 <= i < |rows| && IsMatch(rows[i], m);
    RowPresent(rows, i);
  }

  lemma SplitSourceIsNew(rows: seq<Row>, sources: seq<Source>, kept: seq<Match>, m: Match)
    requires Fresh(rows, sources) && m in kept && forall l :: l in kept ==> MatchOk(rows, sources, l)
    ensures m.src.id !in Multiple(kept)
  {
    assert MatchOk(rows, sources, m);
    var k :| 0 <= k < |sources| && sources[k] == m.src;
    if m.src.id in Multiple(kept) { MultipleInCatalogue(rows, sources, kept, m.src.id); }
  }

  /** Where a row of the catalogue comes from: it is as it was, it was updated, or it was split off. */
  lemma RowComesFrom(sky: Sky, t: Tables, sources: seq<Source>, i: nat)
    requires Weighted(t.runcat) && AllMeasured(sources) && i < |Associate(sky, t, sources).runcat|
    ensures var kept := Kept(sky, t.runcat, sources);
      var row := Associate(sky, t, sources).runcat[i];
      || (row in t.runcat && MatchesOf(kept, row.id) == 0)
      || (exists m :: m in kept && m.r !in Multiple(kept) && row == m.row.(id := m.r) && m.r == row.id)
      || (exists m :: m in kept && m.r in Multiple(kept) && row == m.row.(id := m.src.id) && m.src.id == row.id)
  {
    var kept := Kept(sky, t.runcat, sources);
    var ids := Multiple(kept);
    var ms, rest := Selected(kept, ids), Unselected(kept, ids);
    var split := DropRows(t.runcat + SplitRows(ms), ids);
    var row := Associate(sky, t, sources).runcat[i];
    SelectedMembers(kept, ids);
    SelectedCounts(kept, ids, split[i].id);
    UpdateRows(split, rest, i);
    RowsKept(t.runcat + SplitRows(ms), ids);
    assert split[i] in split;
    if MatchesOf(rest, split[i].id) > 0 {
      var k :| 0 <= k < |rest| && rest[k].r == split[i].id && row == rest[k].row.(id := rest[k].r);
      assert rest[k] in rest;
    } else if split[i] in SplitRows(ms) {
      RowsSplit(ms, split[i].id);
      var k :| 0 <= k < |ms| && split[i] == ms[k].row.(id := ms[k].src.id);
      assert ms[k] in ms;
    }
  }

  /** The id under which a match is in the catalogue afterwards. */
  function Key(ids: set<Id>, m: Match): Id { if m.r in ids then m.src.id else m.r }

  lemma {:induction false} SplitRowIn(ms: seq<Match>, m: Match)
    requires m in ms
    ensures m.row.(id := m.src.id) in SplitRows(ms)
  {
    if m != ms[|ms| - 1] {
      assert m in ms[..|ms| - 1];
      SplitRowIn(ms[..|ms| - 1], m);
    }
  }

  /** A source's id is no row's id, so that no match is of it. */
  lemma NoMatchOfSource(rows: seq<Row>, sources: seq<Source>, kept: seq<Match>, m: Match)
    requires Fresh(rows, sources) && m in kept && forall l :: l in kept ==> MatchOk(rows, sources, l)
    ensures MatchesOf(kept, m.src.id) == 0
  {
    assert MatchOk(rows, sources, m);
    var k :| 0 <= k < |sources| && sources[k] == m.src;
    MatchesOfSome(kept, m.src.id);
    if l :| l in kept && l.r == m.src.id { MatchedRow(rows, sources, l); }
  }

  lemma UpdatedIn(rows: seq<Row>, rest: seq<Match>, row: Row)
    requires row in rows && MatchesOf(rest, row.id) == 0
    ensures row in UpdateAll(rows, rest)
  {
    var i :| 0 <= i < |rows| && rows[i] == row;
    UpdateRows(rows, rest, i);
    assert UpdateAll(rows, rest)[i] == row;
  }

  lemma UpdatedBy(rows: seq<Row>, rest: seq<Match>, m: Match)
    requires m in rest && MatchesOf(rest, m.r) == 1 && RowsWith(rows, m.r) > 0
    ensures m.row.(id := m.r) in UpdateAll(rows, rest)
  {
    var i := RowIn(rows, m.r);
    UpdateRows(rows, rest, i);
    var k :| 0 <= k < |rest| && rest[k].r == m.r && UpdateAll(rows, rest)[i] == rest[k].row.(id := rest[k].r);
    if rest[k] != m { TwoIn(rest, rest[k], m); }
  }

  lemma {:induction false} RowIn(rows: seq<Row>, v: Id) returns (i: nat)
    requires RowsWith(rows, v) > 0
    ensures i < |rows| && rows[i].id == v
  {
    if rows[|rows| - 1].id == v { i := |rows| - 1; } else { i := RowIn(rows[..|rows| - 1], v); }
  }

  /** The row of every match that was kept is there afterwards, under the row's id or the source's. */
  lemma MatchedStays(sky: Sky, t: Tables, sources: seq<Source>, m: Match)
    requires Weighted(t.runcat) && AllMeasured(sources) && Fresh(t.runcat, sources)
    requires m in Kept(sky, t.runcat, sources)
    ensures m.row.(id := Key(Multiple(Kept(sky, t.runcat, sources)), m)) in Associate(sky, t, sources).runcat
  {
    var kept := Kept(sky, t.runcat, sources);
    var ids := Multiple(kept);
    var ms, rest := Selected(kept, ids), Unselected(kept, ids);
    var before := t.runcat + SplitRows(ms);
    var split := DropRows(before, ids);
    assert Associate(sky, t, sources).runcat == UpdateAll(split, rest);
    KeptOk(sky, t.runcat, sources);
    hide Associate, Kept, Multiple, Selected, Unselected, SplitRows, DropRows, UpdateAll, Fresh;
    SelectedMembers(kept, ids);
    RowsKept(before, ids);
    if m.r in ids {
      var row := m.row.(id := m.src.id);
      SplitRowIn(ms, m);
      assert row in before;
      SplitSourceIsNew(t.runcat, sources, kept, m);
      NoMatchOfSource(t.runcat, sources, kept, m);
      SelectedCounts(kept, ids, m.src.id);
      UpdatedIn(split, rest, row);
    } else {
      MatchedRow(t.runcat, sources, m);
      RowsConcat(t.runcat, SplitRows(ms), m.r);
      RowsDropped(before, ids, m.r);
      SelectedCounts(kept, ids, m.r);
      MultipleIs(kept, m.r);
      MatchesOfSome(kept, m.r);
      UpdatedBy(split, rest, m);
    }
  }

  lemma UnmatchedStays(sky: Sky, t: Tables, sources: seq<Source>, row: Row)
    requires Weighted(t.runcat) && AllMeasured(sources)
    requires row in t.runcat && MatchesOf(Kept(sky, t.runcat, sources), row.id) == 0
    ensures row in Associate(sky, t, sources).runcat
  {
    var kept := Kept(sky, t.runcat, sources);
    var ids := Multiple(kept);
    var ms, rest := Selected(kept, ids), Unselected(kept, ids);
    var before := t.runcat + SplitRows(ms);
    var split := DropRows(before, ids);
    assert Associate(sky, t, sources).runcat == UpdateAll(split, rest);
    hide Associate, Kept, Multiple, Selected, Unselected, SplitRows, DropRows, UpdateAll;
    MultipleIs(kept, row.id);
    RowsKept(before, ids);
    assert row in before;
    SelectedCounts(kept, ids, row.id);
    UpdatedIn(split, rest, row);
  }

  /** The catalogue afterwards is exactly the old rows that were not matched and the rows of the matches that
      were kept. */
  lemma RowsExactly(sky: Sky, t: Tables, sources: seq<Source>, row: Row)
    requires Weighted(t.runcat) && AllMeasured(sources) && Fresh(t.runcat, sources)
    ensures var kept := Kept(sky, t.runcat, sources);
      row in Associate(sky, t, sources).runcat <==>
        (row in t.runcat && MatchesOf(kept, row.id) == 0) ||
        exists m :: m in kept && row == m.row.(id := Key(Multiple(kept), m))
    ensures forall m :: m in Kept(sky, t.runcat, sources) ==>
      Key(Multiple(Kept(sky, t.runcat, sources)), m)
      == if MatchesOf(Kept(sky, t.runcat, sources), m.r) > 1 then m.src.id else m.r
  {
    var kept := Kept(sky, t.runcat, sources);
    var after := Associate(sky, t, sources).runcat;
    forall m | m in kept ensures m.r in Multiple(kept) <==> MatchesOf(kept, m.r) > 1 { MultipleIs(kept, m.r); }
    hide Associate, Kept, Multiple;
    if row in after {
      var i :| 0 <= i < |after| && after[i] == row;
      RowComesFrom(sky, t, sources, i);
    }
    if row in t.runcat && MatchesOf(kept, row.id) == 0 { UnmatchedStays(sky, t, sources, row); }
    if m :| m in kept && row == m.row.(id := Key(Multiple(kept), m)) { MatchedStays(sky, t, sources, m); }
  }

  /** Every catalogue id keeps or gets its identity row, ties or not, repeated ids or not. */
  lemma IdentityRowsKept(sky: Sky, t: Tables, sources: seq<Source>)
    requires Weighted(t.runcat) && AllMeasured(sources) && Fresh(t.runcat, sources) && AllFirsts(t.runcat, t.assoc)
    ensures AllFirsts(Associate(sky, t, sources).runcat, Associate(sky, t, sources).assoc)
  {
    var kept := Kept(sky, t.runcat, sources);
    var ids := Multiple(kept);
    var after := Associate(sky, t, sources);
    KeptOk(sky, t.runcat, sources);
    hide Associate, Kept, Fresh, MatchOk, HasFirst;
    forall i | 0 <= i < |after.runcat| ensures HasFirst(after.assoc, after.runcat[i].id) {
      var v := after.runcat[i].id;
      RowComesFrom(sky, t, sources, i);
      if m :| m in kept && m.r in ids && m.src.id == v {
        AssocsExactly(sky, t, sources, Assoc(v, v, 2));
        assert Records(ids, m, Assoc(v, v, 2));
        FirstIn(after.assoc, Assoc(v, v, 2));
      } else {
        OldId(t.runcat, sources, kept, after.runcat[i], v);
        MultipleIs(kept, v);
        var k :| 0 <= k < |t.runcat| && t.runcat[k].id == v;
        var x := FirstOf(t.assoc, v);
        AssocsExactly(sky, t, sources, x);
        FirstIn(after.assoc, x);
      }
    }
  }

  lemma FirstIn(assoc: seq<Assoc>, x: Assoc)
    requires x in assoc && x.id == x.other
    ensures HasFirst(assoc, x.id)
  {
  }

  lemma FirstOf(assoc: seq<Assoc>, v: Id) returns (x: Assoc)
    requires HasFirst(assoc, v)
    ensures x in assoc && x.id == x.other == v
  {
    var i :| 0 <= i < |assoc| && assoc[i].id == v && assoc[i].other == v;
    x := assoc[i];
  }

  lemma OldId(rows: seq<Row>, sources: seq<Source>, kept: seq<Match>, row: Row, v: Id)
    requires forall m :: m in kept ==> MatchOk(rows, sources, m)
    requires row.id == v
    requires row in rows || exists m :: m in kept && m.r == v
    ensures exists k :: 0 <= k < |rows| && rows[k].id == v
  {
    if m :| m in kept && m.r == v {
      assert MatchOk(rows, sources, m);
      var k :| 0 <= k < |rows| && IsMatch(rows[k], m);
      assert rows[k].id == v;
    }
  }

  // ---------------------------------------------------------------- sources that are new

  lemma {:induction false} NewRowsWith(dataset: int, ss: seq<Source>, v: Id)
    requires AllMeasured(ss)
    ensures RowsWith(NewRows(dataset, ss), v) == SourcesWith(ss, v) && |NewRows(dataset, ss)| == |ss|
    ensures forall i :: 0 <= i < |ss| ==> NewRows(dataset, ss)[i] == NewRow(dataset, ss[i])
  {
    if ss != [] {
      var n := |ss| - 1;
      NewRowsWith(dataset, ss[..n], v);
      RowsConcat(NewRows(dataset, ss[..n]), [NewRow(dataset, ss[n])], v);
      RowsOne(NewRow(dataset, ss[n]), v);
    }
  }

  lemma {:induction false} UnknownAtMost(close: (Row, Source) -> bool, rows: seq<Row>, sources: seq<Source>, v: Id)
    requires AllMeasured(sources)
    ensures SourcesWith(Unknown(close, rows, sources), v) <= SourcesWith(sources, v)
  {
    if sources != [] {
      var n := |sources| - 1;
      UnknownAtMost(close, rows, sources[..n], v);
      var before := Unknown(close, rows, sources[..n]);
      assert (before + [sources[n]])[..|before|] == before && before + [] == before;
    }
  }

  lemma {:induction false} SourceIn(ss: seq<Source>, v: Id)
    requires SourcesWith(ss, v) > 0
    ensures exists i :: 0 <= i < |ss| && ss[i].id == v
  {
    if ss[|ss| - 1].id != v {
      SourceIn(ss[..|ss| - 1], v);
      var i :| 0 <= i < |ss| - 1 && ss[..|ss| - 1][i].id == v;
      assert ss[i].id == v;
    }
  }

  /** How often an id is in the catalogue once the new sources have been inserted. */
  lemma RowsInserted(close: (Row, Source) -> bool, dataset: int, rows: seq<Row>, sources: seq<Source>, v: Id)
    requires AllMeasured(sources)
    ensures var ss := Unknown(close, rows, sources);
      && RowsWith(rows + NewRows(dataset, ss), v) == RowsWith(rows, v) + SourcesWith(ss, v)
      && SourcesWith(ss, v) <= SourcesWith(sources, v)
  {
    var ss := Unknown(close, rows, sources);
    RowsConcat(rows, NewRows(dataset, ss), v);
    NewRowsWith(dataset, ss, v);
    UnknownAtMost(close, rows, sources, v);
  }

  ghost predicate NoneIn(rows: seq<Row>, ss: seq<Source>) {
    forall i :: 0 <= i < |ss| ==> RowsWith(rows, ss[i].id) == 0
  }

  /** The ids stay unique exactly if no source that counts as new is in the catalogue already. */
  lemma {:induction false} NewIdsUniqueIff(close: (Row, Source) -> bool, closeAssoc: (Row, Source) -> bool,
                                           dataset: int, t: Tables, sources: seq<Source>)
    requires AllMeasured(sources) && UniqueIds(t.runcat) && forall v :: SourcesWith(sources, v) <= 1
    ensures UniqueIds(InsertNew(close, closeAssoc, dataset, t, sources).runcat)
       <==> NoneIn(t.runcat, Unknown(close, t.runcat, sources))
  {
    var ss := Unknown(close, t.runcat, sources);
    var after := InsertNew(close, closeAssoc, dataset, t, sources).runcat;
    hide Unknown, NewRows, RowsWith, SourcesWith;
    if UniqueIds(after) {
      forall i | 0 <= i < |ss| ensures RowsWith(t.runcat, ss[i].id) == 0 {
        SourcePresent(ss, i);
        RowsInserted(close, dataset, t.runcat, sources, ss[i].id);
        assert RowsWith(after, ss[i].id) <= 1;
      }
    }
    if NoneIn(t.runcat, ss) {
      forall v ensures RowsWith(after, v) <= 1 {
        RowsInserted(close, dataset, t.runcat, sources, v);
        assert RowsWith(t.runcat, v) <= 1 && SourcesWith(sources, v) <= 1;
        if SourcesWith(ss, v) > 0 { SourceIn(ss, v); }
      }
    }
  }

  /** The new sources have an identity row from before or get one. */
  ghost predicate FirstsFor(assoc: seq<Assoc>, news: seq<Source>, ss: seq<Source>) {
    forall i :: 0 <= i < |ss| ==> HasFirst(assoc, ss[i].id) || SourcesWith(news, ss[i].id) > 0
  }

  /** Every catalogue id has its identity row exactly if every source that is new to the catalogue is also
      new to the associations, or has an identity row from before. */
  lemma {:induction false} NewIdentityRowsIff(close: (Row, Source) -> bool, closeAssoc: (Row, Source) -> bool,
                                              dataset: int, t: Tables, sources: seq<Source>)
    requires AllMeasured(sources) && AllFirsts(t.runcat, t.assoc)
    ensures var after := InsertNew(close, closeAssoc, dataset, t, sources);
      AllFirsts(after.runcat, after.assoc)
      <==> FirstsFor(t.assoc, Unknown(closeAssoc, t.runcat, sources), Unknown(close, t.runcat, sources))
  {
    var after := InsertNew(close, closeAssoc, dataset, t, sources);
    var news, ss := Unknown(closeAssoc, t.runcat, sources), Unknown(close, t.runcat, sources);
    hide Unknown, HasFirst, SourcesWith;
    NewRowsWith(dataset, ss, 0);
    forall v ensures HasFirst(after.assoc, v) <==> HasFirst(t.assoc, v) || SourcesWith(news, v) > 0 {
      FirstOrNew(t.assoc, news, v);
    }
    FirstsParts(t.runcat, NewRows(dataset, ss), after.assoc);
    assert AllFirsts(t.runcat, after.assoc);
    hide NewRows;
    if FirstsFor(t.assoc, news, ss) {
      assert AllFirsts(NewRows(dataset, ss), after.assoc);
    } else {
      var i :| 0 <= i < |ss| && !(HasFirst(t.assoc, ss[i].id) || SourcesWith(news, ss[i].id) > 0);
      assert NewRows(dataset, ss)[i].id == ss[i].id;
    }
  }

  /** The sources of which no catalogue row is close. */
  lemma {:induction false} UnknownIff(close: (Row, Source) -> bool, rows: seq<Row>, sources: seq<Source>, s: Source)
    requires AllMeasured(sources)
    ensures s in Unknown(close, rows, sources) <==> s in sources && forall i :: 0 <= i < |rows| ==> !close(rows[i], s)
  {
    if sources != [] {
      var n := |sources| - 1;
      UnknownIff(close, rows, sources[..n], s);
      assert sources == sources[..n] + [sources[n]];
    }
  }

  /** Inserting new sources adds to the catalogue a row of its own for every source that no row is close to, and to
      the associations its identity for every source that no row is close to by the other expression. */
  lemma InsertedExactly(close: (Row, Source) -> bool, closeAssoc: (Row, Source) -> bool, dataset: int, t: Tables,
                        sources: seq<Source>, row: Row, x: Assoc)
    requires AllMeasured(sources)
    ensures row in InsertNew(close, closeAssoc, dataset, t, sources).runcat <==>
      row in t.runcat ||
      exists k :: 0 <= k < |sources| && row == NewRow(dataset, sources[k]) &&
                  forall i :: 0 <= i < |t.runcat| ==> !close(t.runcat[i], sources[k])
    ensures x in InsertNew(close, closeAssoc, dataset, t, sources).assoc <==>
      x in t.assoc ||
      exists k :: 0 <= k < |sources| && x == Assoc(sources[k].id, sources[k].id, 4) &&
                  forall i :: 0 <= i < |t.runcat| ==> !closeAssoc(t.runcat[i], sources[k])
  {
    NewRowIn(close, dataset, t.runcat, sources, row);
    NewAssocIn(closeAssoc, t.runcat, sources, x);
    hide Unknown, NewRows, NewFirsts;
  }

  lemma NewRowIn(close: (Row, Source) -> bool, dataset: int, rows: seq<Row>, sources: seq<Source>, row: Row)
    requires AllMeasured(sources)
    ensures row in NewRows(dataset, Unknown(close, rows, sources)) <==>
      exists k :: 0 <= k < |sources| && row == NewRow(dataset, sources[k]) &&
                  forall i :: 0 <= i < |rows| ==> !close(rows[i], sources[k])
  {
    var ss := Unknown(close, rows, sources);
    NewRowsWith(dataset, ss, 0);
    hide Unknown, NewRows, NewRow;
    if row in NewRows(dataset, ss) {
      var j :| 0 <= j < |ss| && NewRows(dataset, ss)[j] == row;
      var k := UnknownAt(close, rows, sources, j);
      assert row == NewRow(dataset, sources[k]);
    }
    if k :| 0 <= k < |sources| && row == NewRow(dataset, sources[k]) &&
            forall i :: 0 <= i < |rows| ==> !close(rows[i], sources[k]) {
      var j := AtUnknown(close, rows, sources, k);
      assert NewRows(dataset, ss)[j] == row;
    }
  }

  lemma UnknownAt(close: (Row, Source) -> bool, rows: seq<Row>, sources: seq<Source>, j: nat) returns (k: nat)
    requires AllMeasured(sources) && j < |Unknown(close, rows, sources)|
    ensures k < |sources| && sources[k] == Unknown(close, rows, sources)[j]
    ensures forall i :: 0 <= i < |rows| ==> !close(rows[i], sources[k])
  {
    var s := Unknown(close, rows, sources)[j];
    UnknownIff(close, rows, sources, s);
    hide Unknown;
    k :| k < |sources| && sources[k] == s;
  }

  lemma AtUnknown(close: (Row, Source) -> bool, rows: seq<Row>, sources: seq<Source>, k: nat) returns (j: nat)
    requires AllMeasured(sources) && k < |sources| && forall i :: 0 <= i < |rows| ==> !close(rows[i], sources[k])
    ensures j < |Unknown(close, rows, sources)| && Unknown(close, rows, sources)[j] == sources[k]
  {
    UnknownIff(close, rows, sources, sources[k]);
    hide Unknown;
    j :| j < |Unknown(close, rows, sources)| && Unknown(close, rows, sources)[j] == sources[k];
  }

  lemma NewAssocIn(close: (Row, Source) -> bool, rows: seq<Row>, sources: seq<Source>, x: Assoc)
    requires AllMeasured(sources)
    ensures x in NewFirsts(Unknown(close, rows, sources)) <==>
      exists k :: 0 <= k < |sources| && x == Assoc(sources[k].id, sources[k].id, 4) &&
                  forall i :: 0 <= i < |rows| ==> !close(rows[i], sources[k])
  {
    var ss := Unknown(close, rows, sources);
    hide Unknown, NewFirsts;
    NewFirstsAre(ss, x);
    if j :| 0 <= j < |ss| && x == Assoc(ss[j].id, ss[j].id, 4) {
      var k := UnknownAt(close, rows, sources, j);
    }
    if k :| 0 <= k < |sources| && x == Assoc(sources[k].id, sources[k].id, 4) &&
            forall i :: 0 <= i < |rows| ==> !close(rows[i], sources[k]) {
      var j := AtUnknown(close, rows, sources, k);
    }
  }

  lemma FirstsParts(a: seq<Row>, b: seq<Row>, assoc: seq<Assoc>)
    ensures AllFirsts(a + b, assoc) <==> AllFirsts(a, assoc) && AllFirsts(b, assoc)
  {
    hide HasFirst;
    if AllFirsts(a + b, assoc) {
      forall i | 0 <= i < |b| ensures HasFirst(assoc, b[i].id) { assert (a + b)[|a| + i] == b[i]; }
      forall i | 0 <= i < |a| ensures HasFirst(assoc, a[i].id) { assert (a + b)[i] == a[i]; }
    }
  }

  lemma {:induction false} NewFirstsAre(ss: seq<Source>, x: Assoc)
    ensures x in NewFirsts(ss) <==> exists i :: 0 <= i < |ss| && x == Assoc(ss[i].id, ss[i].id, 4)
  {
    if ss != [] {
      var n := |ss| - 1;
      NewFirstsAre(ss[..n], x);
      if i :| 0 <= i < n && x == Assoc(ss[i].id, ss[i].id, 4) { assert ss[..n][i] == ss[i]; }
    }
  }

  lemma FirstOrNew(assoc: seq<Assoc>, ss: seq<Source>, v: Id)
    ensures HasFirst(assoc + NewFirsts(ss), v) <==> HasFirst(assoc, v) || SourcesWith(ss, v) > 0
  {
    var both := assoc + NewFirsts(ss);
    hide HasFirst, NewFirsts, SourcesWith;
    if HasFirst(assoc, v) {
      var x := FirstOf(assoc, v);
      FirstIn(both, x);
    }
    if SourcesWith(ss, v) > 0 {
      SourceIn(ss, v);
      NewFirstsAre(ss, Assoc(v, v, 4));
      FirstIn(both, Assoc(v, v, 4));
    }
    if HasFirst(both, v) {
      var x := FirstOf(both, v);
      if x in assoc {
        FirstIn(assoc, x);
      } else {
        NewFirstsAre(ss, x);
        var i :| 0 <= i < |ss| && x == Assoc(ss[i].id, ss[i].id, 4);
        SourcePresent(ss, i);
      }
    }
  }
}
