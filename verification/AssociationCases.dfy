/** Images, seen with the queries' own expressions, with which the association does not keep what it is meant
    to keep. Beams are 1.1 degrees wide. */
module AssociationCases {
  import opened Options
  import opened Averages
  import opened Associations
  import opened AssociationSafety
  import opened AssociationRuns
  import opened AssociationOrders
  import opened Positions

  function At(x: Id, ra: real, decl: real): (s: Source)
    ensures Measured(s)
  {
    Source(x, decl.Floor, ra, decl, 1.0, 1.0, 1.0, 1.0)
  }

  const BMAJ := 1.1

  function Seen(g: Trig, sources: seq<Source>): Image { ImageOf(g, 0, BMAJ, sources) }

  /** A catalogue row at a position. */
  predicate RowAt(r: Row, ra: real, decl: real) {
    r.dataset == 0 && r.wmRa == ra && r.wmDecl == decl && r.zone == decl.Floor
  }

  // ---------------------------------------------------------------- rows

  lemma NewAt(x: Id, ra: real, decl: real)
    ensures RowAt(NewRow(0, At(x, ra, decl)), ra, decl) && NewRow(0, At(x, ra, decl)).id == x
  {
  }

  /** A row of one source with another one averaged in is half way between them. */
  lemma HalfWay(x: Id, ra: real, decl: real, y: Id, ra2: real, decl2: real, id: Id)
    ensures Weighted([NewRow(0, At(x, ra, decl))])
    ensures RowAt(Extended(NewRow(0, At(x, ra, decl)), id, At(y, ra2, decl2)), (ra + ra2) / 2.0, (decl + decl2) / 2.0)
  {
  }

  lemma {:induction false} EmptyCatalogue(sky: Sky, close: (Row, Source) -> bool, sources: seq<Source>)
    requires AllMeasured(sources)
    ensures FindMatches(sky, [], sources) == [] && Unknown(close, [], sources) == sources
  {
    if sources != [] { EmptyCatalogue(sky, close, sources[..|sources| - 1]); }
  }

  /** The first image is the catalogue. */
  lemma FirstRows(image: Image)
    requires AllMeasured(image.sources)
    ensures Run([image]).runcat == NewRows(image.dataset, image.sources)
    ensures Run([image]).assoc == NewFirsts(image.sources)
  {
    EmptyCatalogue(image.sky, image.sky.close, image.sources);
    assert [image][..0] == [];
    var t := Run([]);
    assert t == Tables([], [], []);
    assert Nearest(image.sky, [], [], []) == [] && Multiple([]) == {} && Selected([], {}) == [];
    assert Associate(image.sky, t, image.sources).runcat == [];
    EmptyCatalogue(image.sky, image.closeAssoc, image.sources);
  }

  lemma FirstOne(image: Image, a: Source)
    requires Measured(a) && image.sources == [a] && image.dataset == 0
    ensures Run([image]).runcat == [NewRow(0, a)] && Run([image]).assoc == NewFirsts([a])
  {
    FirstRows(image);
    NewRowsWith(0, [a], 0);
    hide Run, NewRows, NewRow, NewFirsts;
    assert [a][0] == a;
  }

  lemma FirstTwo(image: Image, a: Source, b: Source)
    requires Measured(a) && Measured(b) && image.sources == [a, b] && image.dataset == 0
    ensures Run([image]).runcat == [NewRow(0, a), NewRow(0, b)] && Run([image]).assoc == NewFirsts([a, b])
  {
    hide Run, NewRows, NewRow, NewFirsts;
    FirstRows(image);
    NewRowsWith(0, image.sources, 0);
    assert |Run([image]).runcat| == 2;
  }

  lemma OneRow(r: Row)
    ensures UniqueIds([r]) && forall v :: RowsWith([r], v) == if r.id == v then 1 else 0
  {
    forall v ensures RowsWith([r], v) == if r.id == v then 1 else 0 { RowsOne(r, v); }
  }

  lemma TwoRowsOf(a: Row, b: Row)
    requires a.id != b.id
    ensures UniqueIds([a, b])
    ensures forall v :: RowsWith([a, b], v) == if a.id == v || b.id == v then 1 else 0
  {
    forall v ensures RowsWith([a, b], v) == if a.id == v || b.id == v then 1 else 0 {
      RowsConcat([a], [b], v);
      RowsOne(a, v);
      RowsOne(b, v);
      assert [a, b] == [a] + [b];
    }
  }

  lemma OneSource(s: Source, v: Id)
    ensures SourcesWith([s], v) == if s.id == v then 1 else 0
  {
    assert [s][..0] == [];
  }

  /** Sources with ids that are not in the catalogue, and differ, are new. */
  lemma {:induction false} AreFresh(rows: seq<Row>, sources: seq<Source>)
    requires forall i :: 0 <= i < |sources| ==> RowsWith(rows, sources[i].id) == 0
    requires forall i, j :: 0 <= i < j < |sources| ==> sources[i].id != sources[j].id
    ensures Fresh(rows, sources)
  {
    hide RowsWith;
    forall v ensures SourcesWith(sources, v) <= 1 { Differ(sources, v); }
  }

  lemma {:induction false} Differ(sources: seq<Source>, v: Id)
    requires forall i, j :: 0 <= i < j < |sources| ==> sources[i].id != sources[j].id
    ensures SourcesWith(sources, v) <= 1
  {
    if sources != [] {
      var n := |sources| - 1;
      Differ(sources[..n], v);
      if SourcesWith(sources[..n], v) > 0 { SourceIn(sources[..n], v); }
    }
  }

  lemma TwoImages(first: Image, second: Image)
    requires AllMeasured(first.sources) && AllMeasured(second.sources)
    ensures AllImages([first, second]) && AllImages([first])
    ensures Run([first, second]) == Process(Run([first]), second)
  {
    hide Process;
    assert [first, second][..1] == [first];
  }

  /** How often the id of a source is in the catalogue after an image. */
  lemma SourceAfter(t: Tables, image: Image, k: nat)
    requires Weighted(t.runcat) && AllMeasured(image.sources)
    requires UniqueIds(t.runcat) && Fresh(t.runcat, image.sources) && k < |image.sources|
    ensures RowsWith(Process(t, image).runcat, image.sources[k].id)
         >= SplitIds(image.sky, t.runcat, image.sources, image.sources[k].id) +
            if KnownAfter(image.sky.close, image.sky, t.runcat, image.sources, k) then 0 else 1
  {
    var matched, v := Associate(image.sky, t, image.sources).runcat, image.sources[k].id;
    assert DistinctSources(image.sources);
    RowsInserted(image.sky.close, image.dataset, matched, image.sources, v);
    UnknownWith(image.sky.close, matched, image.sources, k);
    KnownAfterIff(image.sky.close, image.sky, t, image.sources, k);
    RowsAfter(image.sky, t, image.sources, v);
  }

  // ---------------------------------------------------------------- what is close to what

  lemma SourceIs(sources: seq<Source>, k: nat)
    requires k < |sources| && forall i, j :: 0 <= i < j < |sources| ==> sources[i].id != sources[j].id
    ensures SourceWithId(sources, sources[k].id) == Some(sources[k])
  {
    if k < |sources| - 1 { SourceIs(sources[..|sources| - 1], k); }
  }

  /** On the meridian of ra 0. */
  lemma OnMeridian(g: Trig, r: Row, s: Source, d: real, e: real)
    requires Values(g) && RowAt(r, 0.0, d) && s.ra == 0.0 && s.decl == e
    ensures Across(g, r, s) == g.cos(d) * g.cos(e)
    ensures Chord(g, r, s) == Square(g.cos(d) - g.cos(e)) + Square(g.sin(d) - g.sin(e))
  {
  }

  lemma Around(g: Trig, r: Row, s: Source, d: real, e: real)
    requires Values(g) && RowAt(r, 0.0, d) && s.ra == 0.0 && s.decl == e && g.spread(BMAJ, e) >= 0.0
    requires -2.0 <= d <= 2.0 && -2.0 <= e <= 2.0
    ensures InWindows(g, 0, BMAJ, r, s) <==> -BMAJ <= d - e <= BMAJ
  {
    if -BMAJ <= d - e <= BMAJ {
      FloorMonotonic(e - BMAJ, d);
      FloorMonotonic(d, e + BMAJ);
    }
  }

  // ---------------------------------------------------------------- two rows and a source half way

  function FirstImage(g: Trig): Image { Seen(g, [At(1, 0.0, 1.0), At(2, 0.0, -1.0)]) }

  function TiedImage(g: Trig): Image { Seen(g, [At(10, 0.0, 0.0), At(11, 0.0, 1.0), At(12, 0.0, -1.0)]) }

  /** The catalogue of the first image. */
  predicate TwoRowsAt(rows: seq<Row>) {
    && rows == [NewRow(0, At(1, 0.0, 1.0)), NewRow(0, At(2, 0.0, -1.0))]
    && rows[0].id == 1 && rows[1].id == 2 && RowAt(rows[0], 0.0, 1.0) && RowAt(rows[1], 0.0, -1.0)
  }

  lemma FirstCatalogue(g: Trig)
    ensures AllImages([FirstImage(g)]) && UniqueIds(Run([FirstImage(g)]).runcat)
    ensures TwoRowsAt(Run([FirstImage(g)]).runcat)
    ensures Run([FirstImage(g)]).assoc == NewFirsts([At(1, 0.0, 1.0), At(2, 0.0, -1.0)])
  {
    NewAt(1, 0.0, 1.0);
    NewAt(2, 0.0, -1.0);
    hide NewRow, Run, NewFirsts, At;
    FirstTwo(FirstImage(g), At(1, 0.0, 1.0), At(2, 0.0, -1.0));
    TwoRowsOf(NewRow(0, At(1, 0.0, 1.0)), NewRow(0, At(2, 0.0, -1.0)));
  }

  /** Which of the two rows are close to a source on the meridian. */
  lemma CloseRows(g: Trig, r: Row, d: real, s: Source, e: real)
    requires Values(g) && RowAt(r, 0.0, d) && (d == 1.0 || d == -1.0)
    requires s.ra == 0.0 && s.decl == e && (e == 0.0 || e == 1.0 || e == -1.0)
    ensures Close(g, 0, BMAJ, r, s) <==> e == 0.0 || e == d
    ensures e == 0.0 ==> Chord(g, r, s) == Square(g.cos(1.0) - 1.0) + Square(g.sin(1.0))
  {
    OnMeridian(g, r, s, d, e);
    Around(g, r, s, d, e);
  }

  lemma TiedSource(g: Trig, rows: seq<Row>, sources: seq<Source>, k: nat)
    requires Values(g) && TwoRowsAt(rows) && k < |sources| && sources[k] == At(10, 0.0, 0.0)
    requires forall i, j :: 0 <= i < j < |sources| ==> sources[i].id != sources[j].id
    ensures TiedRows(Seen(g, sources).sky, rows, sources[k], 0, 1)
  {
    SourceIs(sources, k);
    CloseRows(g, rows[0], 1.0, sources[k], 0.0);
    CloseRows(g, rows[1], -1.0, sources[k], 0.0);
    hide Close, Chord, Values, NewRow;
  }

  /** Sources 11 and 12 lie on the two rows. */
  lemma OwnRow(g: Trig, rows: seq<Row>, sources: seq<Source>, k: nat, i: nat)
    requires Values(g) && TwoRowsAt(rows) && k < |sources| && i < 2
    requires sources[k].ra == 0.0 && sources[k].decl == rows[i].wmDecl
    ensures NearestRow(Seen(g, sources).sky, rows, sources[k], i)
    ensures !NearestRow(Seen(g, sources).sky, rows, sources[k], 1 - i)
  {
    CloseRows(g, rows[0], 1.0, sources[k], sources[k].decl);
    CloseRows(g, rows[1], -1.0, sources[k], sources[k].decl);
    hide Close, Chord, Values, NewRow;
  }

  lemma TiedSources(g: Trig, rows: seq<Row>)
    requires Values(g) && TwoRowsAt(rows)
    ensures var image := TiedImage(g);
      Fresh(rows, image.sources) && SplitTwice(image.sky, rows, image.sources, 0, 0, 1)
  {
    var image := TiedImage(g);
    var sources := image.sources;
    TwoRowsOf(rows[0], rows[1]);
    AreFresh(rows, sources);
    TiedSource(g, rows, sources, 0);
    OwnRow(g, rows, sources, 1, 0);
    OwnRow(g, rows, sources, 2, 1);
    hide NearestRow, Values, NewRow, Fresh;
    assert SharedRow(image.sky, rows, sources, 0, 0) && SharedRow(image.sky, rows, sources, 1, 0);
  }

  /** Source 10 is as far from row 1 as from row 2, and each of these is nearest to a source of its own: both
      are split, and id 10 is in the catalogue twice. */
  lemma RepeatedId(g: Trig)
    requires Values(g)
    ensures AllImages([FirstImage(g), TiedImage(g)]) && AllImages([FirstImage(g)])
    ensures InOrder(Run([FirstImage(g)])) && Fresh(Run([FirstImage(g)]).runcat, TiedImage(g).sources)
    ensures RowsWith(Run([FirstImage(g), TiedImage(g)]).runcat, 10) > 1
  {
    TwoImages(FirstImage(g), TiedImage(g));
    FirstCatalogue(g);
    var t, image := Run([FirstImage(g)]), TiedImage(g);
    FirstsOf(FirstImage(g));
    TiedSources(g, t.runcat);
    assert DistinctSources(image.sources) && image.sources[0].id == 10;
    hide Run, Process, SplitTwice, RowsWith, UniqueIds, DistinctSources, SplitIds, Fresh, Values, NewRow;
    SplitFromTwo(image.sky, t.runcat, image.sources, 0, 0, 1);
    SourceAfter(t, image, 0);
  }

  /** Every row of the first image has its identity row. */
  lemma FirstsOf(image: Image)
    requires AllMeasured(image.sources)
    ensures AllImages([image]) && AllFirsts(Run([image]).runcat, Run([image]).assoc)
  {
    FirstRows(image);
    var rows, assoc := Run([image]).runcat, Run([image]).assoc;
    NewRowsWith(image.dataset, image.sources, 0);
    hide Run, NewRows, NewFirsts, HasFirst;
    forall i | 0 <= i < |rows| ensures HasFirst(assoc, rows[i].id) {
      var v := rows[i].id;
      assert v == image.sources[i].id;
      NewFirstsAre(image.sources, Assoc(v, v, 4));
      FirstIn(assoc, Assoc(v, v, 4));
    }
  }

  lemma TwoNearest(sky: Sky, rows: seq<Row>, s: Source)
    requires Weighted(rows) && Measured(s) && UniqueIds(rows) && TiedRows(sky, rows, s, 0, 1)
    ensures MatchesTo(Kept(sky, rows, [s]), s.id) > 1
  {
    forall v ensures SourcesWith([s], v) <= 1 { OneSource(s, v); }
    assert DistinctSources([s]) && [s][0] == s;
    NearestIn(sky, rows, s, 0);
    NearestIn(sky, rows, s, 1);
    hide SourcesWith, RowsWith, Kept, UniqueIds, NearestRow, Weighted;
    var a := KeptMatch(sky, rows, [s], 0, 0);
    var b := KeptMatch(sky, rows, [s], 1, 0);
    if a == b { SameRow(rows, 0, 1); }
    TwoIn(Kept(sky, rows, [s]), a, b);
  }

  /** Source 10 alone is matched with both rows, and both take it into their averages. */
  lemma TwoMatchesLeft(g: Trig)
    requires Values(g)
    ensures AllImages([FirstImage(g)])
    ensures var image := Seen(g, [At(10, 0.0, 0.0)]);
      MatchesTo(Kept(image.sky, Run([FirstImage(g)]).runcat, image.sources), 10) > 1
  {
    FirstCatalogue(g);
    var image := Seen(g, [At(10, 0.0, 0.0)]);
    TiedSource(g, Run([FirstImage(g)]).runcat, image.sources, 0);
    hide NewRow, Run, Kept, UniqueIds, Weighted, TiedRows, Values;
    TwoNearest(image.sky, Run([FirstImage(g)]).runcat, At(10, 0.0, 0.0));
  }

  // ---------------------------------------------------------------- a repeated id, and a third image

  /** The rows the two images leave. */
  predicate FourRowsAt(r: Row) {
    || (r.id == 10 && (RowAt(r, 0.0, 0.5) || RowAt(r, 0.0, -0.5)))
    || (r.id == 11 && RowAt(r, 0.0, 1.0)) || (r.id == 12 && RowAt(r, 0.0, -1.0))
  }

  /** Where the nearest rows are when a source has been averaged in. */
  lemma UpdatedAt(g: Trig, rows: seq<Row>, i: nat, l: nat)
    requires Values(g) && TwoRowsAt(rows) && Weighted(rows) && l < 3
    requires NearestRow(TiedImage(g).sky, rows, TiedImage(g).sources[l], i)
    ensures i < 2
    ensures var r := Updated(TiedImage(g).sky, rows, TiedImage(g).sources, i, l);
      && r.id == TiedImage(g).sources[l].id
      && RowAt(r, 0.0, (rows[i].wmDecl + TiedImage(g).sources[l].decl) / 2.0) && FourRowsAt(r)
  {
    var image := TiedImage(g);
    TiedNearest(g, rows);
    HalfWay(1, 0.0, 1.0, image.sources[l].id, 0.0, image.sources[l].decl, image.sources[l].id);
    HalfWay(2, 0.0, -1.0, image.sources[l].id, 0.0, image.sources[l].decl, image.sources[l].id);
    hide NearestRow, Values, NewRow, Extended;
    assert l == 0 || (l == 1 && i == 0) || (l == 2 && i == 1);
  }

  lemma TiedNearest(g: Trig, rows: seq<Row>)
    requires Values(g) && TwoRowsAt(rows)
    ensures var image := TiedImage(g);
      && (forall i: nat, l: nat :: l < 3 && NearestRow(image.sky, rows, image.sources[l], i) ==>
            i < 2 && (l == 0 || l == i + 1) && SharedRow(image.sky, rows, image.sources, i, l))
      && NearestRow(image.sky, rows, image.sources[0], 0) && NearestRow(image.sky, rows, image.sources[0], 1)
      && NearestRow(image.sky, rows, image.sources[1], 0) && NearestRow(image.sky, rows, image.sources[2], 1)
  {
    var image := TiedImage(g);
    TiedSource(g, rows, image.sources, 0);
    OwnRow(g, rows, image.sources, 1, 0);
    OwnRow(g, rows, image.sources, 2, 1);
    assert forall i: nat, l: nat :: l < 3 && NearestRow(image.sky, rows, image.sources[l], i) ==> i < |rows|;
    hide NearestRow, Values, NewRow;
  }

  /** A source stays close to the row half a degree away, or in the same place. */
  lemma StaysClose(g: Trig, r: Row, d: real, s: Source, e: real)
    requires Values(g) && RowAt(r, 0.0, d) && s.ra == 0.0 && s.decl == e
    requires (d == 0.5 && e == 0.0) || (d == e && (d == 1.0 || d == -1.0))
    ensures Close(g, 0, BMAJ, r, s)
  {
    OnMeridian(g, r, s, d, e);
    Around(g, r, s, d, e);
    hide InWindows, Across, Chord;
  }

  /** Every source of the second image is close to a row it was averaged into: none is inserted as new. */
  lemma AllKnown(g: Trig, rows: seq<Row>)
    requires Values(g) && TwoRowsAt(rows) && Weighted(rows)
    ensures var image := TiedImage(g);
      forall k :: 0 <= k < 3 ==> KnownAfter(image.sky.close, image.sky, rows, image.sources, k)
  {
    var image := TiedImage(g);
    var sky, sources := image.sky, image.sources;
    TiedNearest(g, rows);
    UpdatedAt(g, rows, 0, 0);
    UpdatedAt(g, rows, 0, 1);
    UpdatedAt(g, rows, 1, 2);
    StaysClose(g, Updated(sky, rows, sources, 0, 0), 0.5, sources[0], 0.0);
    StaysClose(g, Updated(sky, rows, sources, 0, 1), 1.0, sources[1], 1.0);
    StaysClose(g, Updated(sky, rows, sources, 1, 2), -1.0, sources[2], -1.0);
    hide Updated, NearestRow, Values, Close;
    assert CloseAsUpdated(sky.close, sky, rows, sources, 0, 0, 0);
    assert CloseAsUpdated(sky.close, sky, rows, sources, 1, 0, 1);
    assert CloseAsUpdated(sky.close, sky, rows, sources, 2, 1, 2);
  }

  lemma NoNews(t: Tables, image: Image)
    requires Weighted(t.runcat) && AllMeasured(image.sources)
    requires UniqueIds(t.runcat) && Fresh(t.runcat, image.sources)
    requires forall k :: 0 <= k < |image.sources| ==>
      KnownAfter(image.sky.close, image.sky, t.runcat, image.sources, k)
    ensures Process(t, image).runcat == Associate(image.sky, t, image.sources).runcat
  {
    var matched := Associate(image.sky, t, image.sources).runcat;
    var news := Unknown(image.sky.close, matched, image.sources);
    hide Associate, Unknown, KnownAfter;
    if news != [] {
      UnknownAre(image.sky.close, matched, image.sources, news[0]);
      var k :| 0 <= k < |image.sources| && image.sources[k] == news[0];
      KnownAfterIff(image.sky.close, image.sky, t, image.sources, k);
    }
  }

  lemma TiedIs(g: Trig)
    ensures AllMeasured(TiedImage(g).sources) && |TiedImage(g).sources| == 3
  {
  }

  /** No row of the first image stays as it is. */
  lemma NoneUntouched(g: Trig, rows: seq<Row>, i: nat)
    requires Values(g) && TwoRowsAt(rows)
    ensures !Untouched(TiedImage(g).sky, rows, TiedImage(g).sources, i)
  {
    TiedIs(g);
    TiedNearest(g, rows);
    hide TiedImage, NearestRow, Values, NewRow;
  }

  /** A row of the catalogue after the second image. */
  lemma RowAfterTied(g: Trig, t: Tables, row: Row)
    requires Values(g) && TwoRowsAt(t.runcat) && Weighted(t.runcat) && UniqueIds(t.runcat)
    requires AllMeasured(TiedImage(g).sources) && Fresh(t.runcat, TiedImage(g).sources)
    requires row in Associate(TiedImage(g).sky, t, TiedImage(g).sources).runcat
    ensures FourRowsAt(row)
  {
    TiedIs(g);
    assert DistinctSources(TiedImage(g).sources);
    hide TiedImage, Associate, Kept, Multiple, NearestRow, Values, NewRow, Updated, UniqueIds, Fresh, Weighted;
    hide DistinctSources, FourRowsAt, AllMeasured, TwoRowsAt, Untouched;
    var sky, sources, rows := TiedImage(g).sky, TiedImage(g).sources, t.runcat;
    var kept := Kept(sky, rows, sources);
    RowsExactly(sky, t, sources, row);
    if m :| m in kept && row == m.row.(id := Key(Multiple(kept), m)) {
      var i, l := KeptRow(sky, rows, sources, m);
      KeptRowIs(sky, rows, sources, m, i, l);
      UpdatedAt(g, rows, i, l);
    } else {
      var i :| 0 <= i < |rows| && rows[i] == row;
      UntouchedIff(sky, rows, sources, i);
      NoneUntouched(g, rows, i);
    }
  }

  /** Source 10 averaged into either row. */
  lemma TwiceTen(g: Trig, t: Tables, i: nat)
    requires Values(g) && TwoRowsAt(t.runcat) && Weighted(t.runcat) && UniqueIds(t.runcat) && i < 2
    requires Fresh(t.runcat, TiedImage(g).sources)
    ensures var rows := Associate(TiedImage(g).sky, t, TiedImage(g).sources).runcat;
      exists k :: 0 <= k < |rows| && rows[k].id == 10 && RowAt(rows[k], 0.0, t.runcat[i].wmDecl / 2.0)
  {
    var image := TiedImage(g);
    assert image.sources[0] == At(10, 0.0, 0.0);
    TiedNearest(g, t.runcat);
    hide Associate, Values, NewRow, Updated, UniqueIds, Fresh, FourRowsAt, NearestRow;
    UpdatedAt(g, t.runcat, i, 0);
    UpdatedRow(image.sky, t, image.sources, i, 0);
  }

  lemma TiedCatalogue(g: Trig, t: Tables)
    requires Values(g) && TwoRowsAt(t.runcat) && Weighted(t.runcat) && UniqueIds(t.runcat)
    requires AllMeasured(TiedImage(g).sources)
    ensures var rows := Process(t, TiedImage(g)).runcat;
      && (forall i :: 0 <= i < |rows| ==> FourRowsAt(rows[i]))
      && (exists i :: 0 <= i < |rows| && rows[i].id == 10 && RowAt(rows[i], 0.0, 0.5))
      && (exists i :: 0 <= i < |rows| && rows[i].id == 10 && RowAt(rows[i], 0.0, -0.5))
  {
    TiedIs(g);
    TiedSources(g, t.runcat);
    AllKnown(g, t.runcat);
    hide TiedImage, Associate, Process, Values, TwoRowsAt, UniqueIds, Fresh, FourRowsAt, KnownAfter, RowAt, Weighted;
    hide AllMeasured;
    NoNews(t, TiedImage(g));
    TwiceTen(g, t, 0);
    TwiceTen(g, t, 1);
    TwoDecls(t.runcat);
    var rows := Process(t, TiedImage(g)).runcat;
    forall i | 0 <= i < |rows| ensures FourRowsAt(rows[i]) { RowAfterTied(g, t, rows[i]); }
  }

  lemma TwoDecls(rows: seq<Row>)
    requires TwoRowsAt(rows)
    ensures |rows| == 2 && rows[0].wmDecl / 2.0 == 0.5 && rows[1].wmDecl / 2.0 == -0.5
  {
  }

  function ThirdImage(g: Trig): Image { Seen(g, [At(20, 0.0, 0.5)]) }

  /** Source 20 lies on one of the two rows with id 10. */
  lemma ThirdSource(g: Trig, r: Row, s: Source)
    requires Values(g) && s.ra == 0.0 && s.decl == 0.5
    ensures RowAt(r, 0.0, 0.5) ==> Close(g, 0, BMAJ, r, s) && CloseAssoc(g, 0, BMAJ, r, s) && Chord(g, r, s) == 0.0
    ensures RowAt(r, 0.0, -0.5) || RowAt(r, 0.0, 1.0) ==> Chord(g, r, s) > 0.0
    ensures RowAt(r, 0.0, -1.0) ==> !Close(g, 0, BMAJ, r, s)
  {
    assert g.sin(-0.5) != g.sin(0.5) && g.sin(1.0) != g.sin(0.5);
    hide Close, CloseAssoc, Chord, Values;
    if RowAt(r, 0.0, 0.5) { ThirdOnRow(g, r, s); }
    if RowAt(r, 0.0, -0.5) { ThirdFrom(g, r, s, -0.5); }
    if RowAt(r, 0.0, 1.0) { ThirdFrom(g, r, s, 1.0); }
    if RowAt(r, 0.0, -1.0) { ThirdAway(g, r, s); }
  }

  lemma ThirdOnRow(g: Trig, r: Row, s: Source)
    requires Values(g) && s.ra == 0.0 && s.decl == 0.5 && RowAt(r, 0.0, 0.5)
    ensures Close(g, 0, BMAJ, r, s) && CloseAssoc(g, 0, BMAJ, r, s) && Chord(g, r, s) == 0.0
  {
    OnMeridian(g, r, s, 0.5, 0.5);
    Around(g, r, s, 0.5, 0.5);
    MeridianOnCircle(g);
    SameDecl(g, r, s);
    assert g.cos(BMAJ) < 1.0 && Square(0.0) == 0.0;
    hide Values;
    CloseIsNear(g, 0, BMAJ, r, s);
    hide Across, Chord, InWindows, Close, CloseAssoc, Square;
  }

  lemma MeridianOnCircle(g: Trig)
    requires Values(g)
    ensures OnCircle(g, 0.0) && OnCircle(g, 0.5)
  {
  }

  lemma SameDecl(g: Trig, r: Row, s: Source)
    requires r.wmDecl == s.decl
    ensures Close(g, 0, BMAJ, r, s) <==> CloseAssoc(g, 0, BMAJ, r, s)
  {
  }

  lemma ThirdAway(g: Trig, r: Row, s: Source)
    requires Values(g) && s.ra == 0.0 && s.decl == 0.5 && RowAt(r, 0.0, -1.0)
    ensures !Close(g, 0, BMAJ, r, s)
  {
    Around(g, r, s, -1.0, 0.5);
    hide Across, InWindows;
  }

  lemma ThirdFrom(g: Trig, r: Row, s: Source, d: real)
    requires Values(g) && s.ra == 0.0 && s.decl == 0.5 && RowAt(r, 0.0, d) && g.sin(d) != g.sin(0.5)
    ensures Chord(g, r, s) > 0.0
  {
    OnMeridian(g, r, s, d, 0.5);
    hide Across, Chord;
    SquarePositive(g.sin(d) - g.sin(0.5));
    SquarePositive(g.cos(d) - g.cos(0.5));
  }

  lemma SquarePositive(x: real)
    ensures Square(x) >= 0.0 && (x != 0.0 ==> Square(x) > 0.0)
  {
    assert Square(0.0) == 0.0;
    SquareIs(x);
    hide Square, Product;
    if x > 0.0 { ProductPositive(x, x); }
    if x < 0.0 { ProductPositive(-x, -x); }
  }

  function Product(x: real, y: real): real { x * y }

  lemma ProductPositive(x: real, y: real)
    requires x > 0.0 && y > 0.0
    ensures Product(x, y) > 0.0
  {
  }

  lemma SquareIs(x: real)
    ensures Square(x) == Product(x, x) == Product(-x, -x)
  {
  }

  /** A source is left without a match if it lies on a row and every id close to it has another row that is
      farther. */
  lemma LosesAll(sky: Sky, rows: seq<Row>, s: Source, a: nat)
    requires Weighted(rows) && Measured(s) && a < |rows| && sky.close(rows[a], s)
    requires forall i :: 0 <= i < |rows| && sky.close(rows[i], s) ==>
      exists b :: 0 <= b < |rows| && rows[b].id == rows[i].id &&
        sky.distance(rows[a], s.id) < sky.distance(rows[b], s.id)
    ensures MatchesTo(Found(sky, rows, [s]), s.id) > 0 && Kept(sky, rows, [s]) == []
  {
    var found, kept := Found(sky, rows, [s]), Kept(sky, rows, [s]);
    var m := Match(rows[a].id, s, Extended(rows[a], rows[a].id, s));
    hide Found, Kept, MatchesTo, Extended;
    assert MatchAt(sky, rows, [s], m, a, 0);
    TableIs(sky, rows, [s], m);
    var j :| 0 <= j < |found| && found[j] == m;
    OneMatch(found, j);
    assert Joined(rows, found, s.id, j, a);
    forall l ensures l !in kept {
      TableIs(sky, rows, [s], l);
      if i: nat, k: nat :| MatchAt(sky, rows, [s], l, i, k) {
        var b :| 0 <= b < |rows| && rows[b].id == rows[i].id &&
          sky.distance(rows[a], s.id) < sky.distance(rows[b], s.id);
        assert Farther(sky, rows, found, l.r, s.id);
      }
    }
    SomeMember(kept);
  }

  lemma SomeMember(ms: seq<Match>)
    ensures ms == [] || exists m :: m in ms
  {
    if ms != [] { assert ms[0] in ms; }
  }

  lemma TableIs(sky: Sky, rows: seq<Row>, sources: seq<Source>, m: Match)
    requires Weighted(rows) && AllMeasured(sources)
    ensures m in Found(sky, rows, sources) <==> exists i: nat, k: nat :: MatchAt(sky, rows, sources, m, i, k)
    ensures m in Kept(sky, rows, sources) <==>
      m in Found(sky, rows, sources) && !Farther(sky, rows, Found(sky, rows, sources), m.r, m.src.id)
  {
    FindMatchesOk(sky, rows, sources, m);
    NearestMembers(sky, rows, Found(sky, rows, sources), Found(sky, rows, sources));
  }

  lemma {:induction false} DropNothing(rows: seq<Row>, assoc: seq<Assoc>)
    ensures DropRows(rows, {}) == rows && DropAssocs(assoc, {}) == assoc
  {
    if rows != [] { DropNothing(rows[..|rows| - 1], assoc); }
    if rows == [] && assoc != [] { DropNothing(rows, assoc[..|assoc| - 1]); }
  }

  /** An image whose one source has no match left, though it is close to a row, leaves no trace. */
  lemma NoTrace(t: Tables, image: Image, s: Source, a: nat)
    requires Weighted(t.runcat) && Measured(s) && image.sources == [s] && a < |t.runcat| && t.temp == []
    requires Kept(image.sky, t.runcat, [s]) == []
    requires image.sky.close(t.runcat[a], s) && image.closeAssoc(t.runcat[a], s)
    ensures Process(t, image) == t
  {
    DropNothing(t.runcat, t.assoc);
    assert Multiple([]) == {} && t.runcat + [] == t.runcat && t.assoc + [] == t.assoc;
    assert Associate(image.sky, t, [s]) == t;
    hide Associate;
    KnownOne(image.sky.close, t.runcat, s, a);
    KnownOne(image.closeAssoc, t.runcat, s, a);
  }

  lemma KnownOne(close: (Row, Source) -> bool, rows: seq<Row>, s: Source, a: nat)
    requires Measured(s) && a < |rows| && close(rows[a], s)
    ensures Unknown(close, rows, [s]) == []
  {
    assert [s][..0] == [] && [s][0] == s;
  }

  lemma ThirdLost(g: Trig, rows: seq<Row>, a: nat)
    requires Values(g) && Weighted(rows) && a < |rows| && rows[a].id == 10 && RowAt(rows[a], 0.0, 0.5)
    requires forall i :: 0 <= i < |rows| ==> FourRowsAt(rows[i])
    requires exists i :: 0 <= i < |rows| && rows[i].id == 10 && RowAt(rows[i], 0.0, -0.5)
    ensures var image, s := ThirdImage(g), At(20, 0.0, 0.5);
      && MatchesTo(Found(image.sky, rows, [s]), 20) > 0 && Kept(image.sky, rows, [s]) == []
      && image.sky.close(rows[a], s) && image.closeAssoc(rows[a], s)
  {
    var image, s := ThirdImage(g), At(20, 0.0, 0.5);
    SourceIs([s], 0);
    assert [s][0] == s;
    forall i | 0 <= i < |rows|
      ensures image.sky.distance(rows[i], 20) == Chord(g, rows[i], s)
      ensures RowAt(rows[i], 0.0, 0.5) ==>
        image.sky.close(rows[i], s) && image.closeAssoc(rows[i], s) && Chord(g, rows[i], s) == 0.0
      ensures RowAt(rows[i], 0.0, -0.5) || RowAt(rows[i], 0.0, 1.0) ==> Chord(g, rows[i], s) > 0.0
      ensures RowAt(rows[i], 0.0, -1.0) ==> !image.sky.close(rows[i], s)
    {
      ThirdSource(g, rows[i], s);
    }
    hide Close, CloseAssoc, Chord, Values, Distance;
    var b :| 0 <= b < |rows| && rows[b].id == 10 && RowAt(rows[b], 0.0, -0.5);
    LosesAll(image.sky, rows, s, a);
  }

  lemma EmptyTemp(t: Tables, image: Image)
    requires Weighted(t.runcat) && AllMeasured(image.sources)
    ensures Process(t, image).temp == []
  {
  }

  /** With id 10 twice in the catalogue, source 20 loses all its matches: one of the two rows is closer than
      the other, so that the pair of id 10 and the source is farther than the smallest distance, and is deleted
      for both rows. The image leaves no trace. */
  lemma AllMatchesLost(g: Trig)
    requires Values(g)
    ensures AllImages([FirstImage(g), TiedImage(g), ThirdImage(g)]) && AllImages([FirstImage(g), TiedImage(g)])
    ensures var t, image := Run([FirstImage(g), TiedImage(g)]), ThirdImage(g);
      MatchesTo(Found(image.sky, t.runcat, image.sources), 20) > 0 && Kept(image.sky, t.runcat, image.sources) == []
    ensures Run([FirstImage(g), TiedImage(g), ThirdImage(g)]) == Run([FirstImage(g), TiedImage(g)])
  {
    hide Run, Process, Values, FourRowsAt;
    TwoImages(FirstImage(g), TiedImage(g));
    ThreeImages(FirstImage(g), TiedImage(g), ThirdImage(g));
    FirstCatalogue(g);
    LostAfter(g, Run([FirstImage(g)]));
  }

  lemma LostAfter(g: Trig, first: Tables)
    requires Values(g) && TwoRowsAt(first.runcat) && Weighted(first.runcat) && UniqueIds(first.runcat)
    ensures Weighted(Process(first, TiedImage(g)).runcat)
    ensures var t, image := Process(first, TiedImage(g)), ThirdImage(g);
      && MatchesTo(Found(image.sky, t.runcat, image.sources), 20) > 0
      && Kept(image.sky, t.runcat, image.sources) == [] && Process(t, image) == t
  {
    WeightedKept(first, TiedImage(g));
    TiedCatalogue(g, first);
    EmptyTemp(first, TiedImage(g));
    hide Process, Values, FourRowsAt, Weighted, Kept, Found;
    var t := Process(first, TiedImage(g));
    var a :| 0 <= a < |t.runcat| && t.runcat[a].id == 10 && RowAt(t.runcat[a], 0.0, 0.5);
    ThirdLost(g, t.runcat, a);
    NoTrace(t, ThirdImage(g), At(20, 0.0, 0.5), a);
  }

  lemma ThreeImages(first: Image, second: Image, third: Image)
    requires AllMeasured(first.sources) && AllMeasured(second.sources) && AllMeasured(third.sources)
    ensures AllImages([first, second, third]) && AllImages([first, second])
    ensures Run([first, second, third]) == Process(Run([first, second]), third)
  {
    hide Process;
    assert [first, second, third][..2] == [first, second];
  }

  // ---------------------------------------------------------------- inserted once more, near the pole

  /** A source at the pole, and two that are 1 degree away from it on either side. */
  function PoleImage(g: Trig): Image { Seen(g, [At(1, 0.0, 90.0)]) }

  function SplitImage(g: Trig): Image { Seen(g, [At(11, 180.0, 89.0), At(13, 0.0, 89.0)]) }

  lemma PoleWindows(g: Trig, r: Row, s: Source)
    requires s.decl == 89.0 && 0.0 <= s.ra <= 180.0 && (RowAt(r, 0.0, 90.0) || RowAt(r, 0.0, 89.5))
    ensures InWindows(g, 0, BMAJ, r, s)
  {
    assert Alpha(g, BMAJ, 89.0) == 180.0;
    FloorMonotonic(89.0 - BMAJ, r.wmDecl);
    FloorMonotonic(r.wmDecl, 89.0 + BMAJ);
  }

  lemma AtPole(g: Trig, r: Row, s: Source)
    requires Values(g) && s.decl == 89.0 && (s.ra == 180.0 || s.ra == 0.0) && RowAt(r, 0.0, 90.0)
    ensures Close(g, 0, BMAJ, r, s)
  {
    PoleWindows(g, r, s);
    hide InWindows;
    assert X(g, r.wmRa, r.wmDecl) == 0.0 && Y(g, r.wmRa, r.wmDecl) == 0.0;
  }

  /** The row of the pole averaged with either source is farther than the beam from source 11: ra and decl are
      averaged each for itself. */
  lemma OffPole(g: Trig, r: Row, s: Source)
    requires Values(g) && s.decl == 89.0 && s.ra == 180.0 && (RowAt(r, 90.0, 89.5) || RowAt(r, 0.0, 89.5))
    ensures !Close(g, 0, BMAJ, r, s)
  {
    var c := g.cos(89.5) * g.cos(89.0);
    assert c > 0.0;
    hide InWindows;
    if r.wmRa == 90.0 {
      assert Across(g, r, s) == 0.0;
    } else {
      assert Y(g, r.wmRa, r.wmDecl) == 0.0 && X(g, r.wmRa, r.wmDecl) == g.cos(89.5);
      assert X(g, s.ra, s.decl) == -g.cos(89.0);
      Minus(g.cos(89.5), g.cos(89.0));
      assert Across(g, r, s) == -c;
    }
  }

  lemma Minus(a: real, b: real)
    ensures a * -b == -(a * b)
  {
  }

  lemma PoleCatalogue(g: Trig)
    ensures AllImages([PoleImage(g)])
    ensures Run([PoleImage(g)]).runcat == [NewRow(0, At(1, 0.0, 90.0))]
    ensures RowAt(NewRow(0, At(1, 0.0, 90.0)), 0.0, 90.0) && NewRow(0, At(1, 0.0, 90.0)).id == 1
    ensures UniqueIds([NewRow(0, At(1, 0.0, 90.0))])
  {
    NewAt(1, 0.0, 90.0);
    hide NewRow, Run, NewFirsts, At;
    FirstOne(PoleImage(g), At(1, 0.0, 90.0));
    OneRow(NewRow(0, At(1, 0.0, 90.0)));
  }

  lemma PoleSources(g: Trig, rows: seq<Row>)
    requires Values(g) && rows == [NewRow(0, At(1, 0.0, 90.0))] && Weighted(rows)
    ensures var image := SplitImage(g);
      && Fresh(rows, image.sources)
      && SplitFrom(image.sky, rows, image.sources, 0, 0)
      && !KnownAfter(image.sky.close, image.sky, rows, image.sources, 0)
  {
    var image := SplitImage(g);
    var sky, sources := image.sky, image.sources;
    NewAt(1, 0.0, 90.0);
    HalfWay(1, 0.0, 90.0, 11, 180.0, 89.0, 11);
    HalfWay(1, 0.0, 90.0, 13, 0.0, 89.0, 13);
    OneRow(rows[0]);
    AreFresh(rows, sources);
    AtPole(g, rows[0], sources[0]);
    AtPole(g, rows[0], sources[1]);
    OffPole(g, Extended(rows[0], 11, sources[0]), sources[0]);
    OffPole(g, Extended(rows[0], 13, sources[1]), sources[0]);
    hide Close, NewRow, Extended, Distance, Values, Fresh, UniqueIds, RowsWith, RowAt;
    assert NearestRow(sky, rows, sources[0], 0) && NearestRow(sky, rows, sources[1], 0);
    assert SharedRow(sky, rows, sources, 0, 0) && SharedRow(sky, rows, sources, 0, 1);
    hide NearestRow;
    forall i: nat, l: nat ensures !CloseAsUpdated(sky.close, sky, rows, sources, 0, i, l) {
      if i < |rows| && l < |sources| {
        assert i == 0 && (l == 0 || l == 1);
        assert Updated(sky, rows, sources, 0, 0) == Extended(rows[0], 11, sources[0]);
        assert Updated(sky, rows, sources, 0, 1) == Extended(rows[0], 13, sources[1]);
      }
    }
  }

  /** Sources 11 and 13 are split off the row at the pole. Source 11 is close to no row any more, and is inserted
      once more. */
  lemma InsertedAgain(g: Trig)
    requires Values(g)
    ensures AllImages([PoleImage(g), SplitImage(g)]) && AllImages([PoleImage(g)])
    ensures InOrder(Run([PoleImage(g)])) && Fresh(Run([PoleImage(g)]).runcat, SplitImage(g).sources)
    ensures RowsWith(Run([PoleImage(g), SplitImage(g)]).runcat, 11) > 1
  {
    TwoImages(PoleImage(g), SplitImage(g));
    PoleCatalogue(g);
    FirstsOf(PoleImage(g));
    var t, image := Run([PoleImage(g)]), SplitImage(g);
    PoleSources(g, t.runcat);
    assert DistinctSources(image.sources) && image.sources[0].id == 11;
    hide Run, Process, SplitFrom, RowsWith, UniqueIds, DistinctSources, SplitIds, Fresh, Values, NewRow, KnownAfter;
    SplitOffIff(image.sky, t.runcat, image.sources, 0);
    SourceAfter(t, image, 0);
  }

  // ---------------------------------------------------------------- no identity row, near the pole

  /** A source half a degree from the pole, and one that is 1 degree from the pole, at a right angle. */
  function NorthImage(g: Trig): Image { Seen(g, [At(1, 0.0, 89.5)]) }

  function CornerImage(g: Trig): Image { Seen(g, [At(11, 90.0, 89.0)]) }

  lemma InCorner(g: Trig, r: Row, s: Source)
    requires Values(g) && s.decl == 89.0 && s.ra == 90.0 && RowAt(r, 0.0, 89.5)
    ensures !Close(g, 0, BMAJ, r, s) && CloseAssoc(g, 0, BMAJ, r, s)
  {
    PoleWindows(g, r, s);
    hide InWindows;
    assert Across(g, r, s) == 0.0;
  }

  lemma CornerSource(g: Trig, rows: seq<Row>)
    requires Values(g) && rows == [NewRow(0, At(1, 0.0, 89.5))] && Weighted(rows)
    ensures var image := CornerImage(g);
      && Fresh(rows, image.sources)
      && !KnownAfter(image.sky.close, image.sky, rows, image.sources, 0)
      && KnownAfter(image.closeAssoc, image.sky, rows, image.sources, 0)
      && forall i: nat :: !SplitFrom(image.sky, rows, image.sources, 0, i)
  {
    var image := CornerImage(g);
    var sky, sources := image.sky, image.sources;
    NewAt(1, 0.0, 89.5);
    OneRow(rows[0]);
    AreFresh(rows, sources);
    InCorner(g, rows[0], sources[0]);
    hide Close, CloseAssoc, NewRow, Extended, Distance, Values, Fresh, UniqueIds, RowsWith, RowAt;
    assert forall i: nat :: !NearestRow(sky, rows, sources[0], i);
    assert CloseAsBefore(image.closeAssoc, sky, rows, sources, 0, 0);
  }

  lemma NorthCatalogue(g: Trig)
    ensures AllImages([NorthImage(g)]) && InOrder(Run([NorthImage(g)]))
    ensures Run([NorthImage(g)]).runcat == [NewRow(0, At(1, 0.0, 89.5))]
    ensures !HasFirst(Run([NorthImage(g)]).assoc, 11)
  {
    NewAt(1, 0.0, 89.5);
    assert At(1, 0.0, 89.5).id == 1;
    hide NewRow, Run, NewFirsts, At, HasFirst;
    FirstsOf(NorthImage(g));
    FirstOne(NorthImage(g), At(1, 0.0, 89.5));
    OneRow(NewRow(0, At(1, 0.0, 89.5)));
    NotYetFirst([At(1, 0.0, 89.5)], 11);
  }

  /** Source 11 is a little farther than the beam from the row, and inserted in the catalogue. The row being
      farther north, the query for the associations counts it as known: it has no identity row. */
  lemma NoIdentityRow(g: Trig)
    requires Values(g)
    ensures AllImages([NorthImage(g), CornerImage(g)]) && AllImages([NorthImage(g)]) && InOrder(Run([NorthImage(g)]))
    ensures var t := Run([NorthImage(g), CornerImage(g)]); RowsWith(t.runcat, 11) > 0 && !HasFirst(t.assoc, 11)
  {
    TwoImages(NorthImage(g), CornerImage(g));
    NorthCatalogue(g);
    var t, image := Run([NorthImage(g)]), CornerImage(g);
    CornerSource(g, t.runcat);
    assert image.sources[0].id == 11;
    hide Run, Process, SplitFrom, RowsWith, UniqueIds, SplitIds, Fresh, Values, NewRow, KnownAfter, HasFirst, NewFirsts;
    SourceAfter(t, image, 0);
    NoFirstAfter(t, image, 0);
  }

  lemma NotYetFirst(ss: seq<Source>, v: Id)
    requires forall i :: 0 <= i < |ss| ==> ss[i].id != v
    ensures !HasFirst(NewFirsts(ss), v)
  {
    hide NewFirsts, HasFirst;
    if HasFirst(NewFirsts(ss), v) {
      var x := FirstOf(NewFirsts(ss), v);
      NewFirstsAre(ss, x);
    }
  }

  lemma NoFirstAfter(t: Tables, image: Image, k: nat)
    requires Weighted(t.runcat) && AllMeasured(image.sources)
    requires UniqueIds(t.runcat) && Fresh(t.runcat, image.sources) && k < |image.sources|
    requires !HasFirst(t.assoc, image.sources[k].id)
    requires forall i: nat :: !SplitFrom(image.sky, t.runcat, image.sources, k, i)
    requires KnownAfter(image.closeAssoc, image.sky, t.runcat, image.sources, k)
    ensures !HasFirst(Process(t, image).assoc, image.sources[k].id)
  {
    var matched := Associate(image.sky, t, image.sources);
    assert DistinctSources(image.sources);
    hide Associate, HasFirst, Unknown, SourcesWith, KnownAfter, SplitFrom, Fresh, UniqueIds, DistinctSources, NewFirsts;
    KnownAfterIff(image.closeAssoc, image.sky, t, image.sources, k);
    UnknownWith(image.closeAssoc, matched.runcat, image.sources, k);
    FirstAfterIff(image.sky, t, image.sources, k);
    FirstOrNew(matched.assoc, Unknown(image.closeAssoc, matched.runcat, image.sources), image.sources[k].id);
  }
}
