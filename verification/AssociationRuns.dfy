/** What every sequence of images leaves in the catalogue: averages over the sources matched, whatever is
    close to what. */
module AssociationRuns {
  import opened Averages
  import opened Associations
  import opened AssociationSafety

  // ---------------------------------------------------------------- any sequence of images

  lemma NewRowWeighted(dataset: int, s: Source)
    requires Measured(s)
    ensures NewRow(dataset, s).avgs.weightRa > 0.0 && NewRow(dataset, s).avgs.weightDecl > 0.0
  {
    Quotient(1.0, s.raErr2);
    Quotient(1.0, s.declErr2);
  }

  lemma MatchWeighted(rows: seq<Row>, m: Match)
    requires exists i :: 0 <= i < |rows| && IsMatch(rows[i], m)
    ensures m.row.avgs.weightRa > 0.0 && m.row.avgs.weightDecl > 0.0
  {
    var i :| 0 <= i < |rows| && IsMatch(rows[i], m);
    WeightsPositive(rows[i].datapoints, rows[i].avgs, m.src);
  }

  lemma MatchedWeighted(sky: Sky, t: Tables, sources: seq<Source>, i: nat)
    requires Weighted(t.runcat) && AllMeasured(sources) && i < |Associate(sky, t, sources).runcat|
    ensures var r := Associate(sky, t, sources).runcat[i]; r.avgs.weightRa > 0.0 && r.avgs.weightDecl > 0.0
  {
    var row := Associate(sky, t, sources).runcat[i];
    RowComesFrom(sky, t, sources, i);
    KeptOk(sky, t.runcat, sources);
    hide Associate, Kept, Multiple, IsMatch;
    if m :| m in Kept(sky, t.runcat, sources) && row.avgs == m.row.avgs {
      assert MatchOk(t.runcat, sources, m);
      MatchWeighted(t.runcat, m);
    }
  }

  lemma {:induction false} NewRowsWeighted(dataset: int, ss: seq<Source>)
    requires AllMeasured(ss)
    ensures Weighted(NewRows(dataset, ss))
  {
    NewRowsWith(dataset, ss, 0);
    hide NewRow, NewRows;
    forall i | 0 <= i < |ss|
      ensures NewRow(dataset, ss[i]).avgs.weightRa > 0.0 && NewRow(dataset, ss[i]).avgs.weightDecl > 0.0
    {
      NewRowWeighted(dataset, ss[i]);
    }
  }

  /** The weights stay positive, so that any image can follow. */
  lemma WeightedKept(t: Tables, image: Image)
    requires Weighted(t.runcat) && AllMeasured(image.sources)
    ensures Weighted(Process(t, image).runcat)
  {
    var matched := Associate(image.sky, t, image.sources).runcat;
    NewRowsWeighted(image.dataset, Unknown(image.sky.close, matched, image.sources));
    hide Associate, Unknown, NewRows;
    forall i | 0 <= i < |matched| ensures matched[i].avgs.weightRa > 0.0 && matched[i].avgs.weightDecl > 0.0 {
      MatchedWeighted(image.sky, t, image.sources, i);
    }
  }

  ghost predicate AllImages(images: seq<Image>) { forall n :: 0 <= n < |images| ==> AllMeasured(images[n].sources) }

  /** The tables after a sequence of images, from the empty catalogue. */
  ghost function Run(images: seq<Image>): (t: Tables)
    requires AllImages(images)
    ensures Weighted(t.runcat)
  {
    if images == [] then Tables([], [], [])
    else
      var before, last := Run(images[..|images| - 1]), images[|images| - 1];
      WeightedKept(before, last);
      Process(before, last)
  }

  // ---------------------------------------------------------------- averages

  /** Each row, at its place, holds the averages over its own history. */
  ghost predicate Averaged(rows: seq<Row>, hists: seq<seq<Source>>) {
    |hists| == |rows| && forall i :: 0 <= i < |rows| ==> RowOk(rows[i], hists[i])
  }

  /** The row was not matched and is as before. */
  ghost predicate Unmatched(rows: seq<Row>, hists: seq<seq<Source>>, kept: seq<Match>, row: Row, hist: seq<Source>,
                            k: nat) {
    k < |rows| && k < |hists| && row == rows[k] && hist == hists[k] && MatchesOf(kept, row.id) == 0
  }

  /** The row is row k with the source of a match kept averaged in. */
  ghost predicate Matched(rows: seq<Row>, hists: seq<seq<Source>>, kept: seq<Match>, row: Row, hist: seq<Source>,
                          k: nat, m: Match) {
    && k < |rows| && k < |hists| && m in kept && IsMatch(rows[k], m)
    && row == Extended(rows[k], Key(Multiple(kept), m), m.src) && hist == hists[k] + [m.src]
  }

  /** The row is that of a source that is new. */
  ghost predicate Inserted(dataset: int, news: seq<Source>, row: Row, hist: seq<Source>, s: Source)
    requires AllMeasured(news)
  {
    s in news && row == NewRow(dataset, s) && hist == [s]
  }

  /** Where a row and its history come from when an image is processed. */
  ghost predicate Follows(t: Tables, image: Image, hists: seq<seq<Source>>, row: Row, hist: seq<Source>)
    requires Weighted(t.runcat) && AllMeasured(image.sources)
  {
    var kept := Kept(image.sky, t.runcat, image.sources);
    var news := Unknown(image.sky.close, Associate(image.sky, t, image.sources).runcat, image.sources);
    || (exists k: nat :: Unmatched(t.runcat, hists, kept, row, hist, k))
    || (exists k: nat, m :: Matched(t.runcat, hists, kept, row, hist, k, m))
    || (exists s :: Inserted(image.dataset, news, row, hist, s))
  }

  /** The history of a row once the matches are worked in. */
  lemma MatchedHistory(sky: Sky, t: Tables, sources: seq<Source>, hists: seq<seq<Source>>, i: nat)
    returns (hist: seq<Source>)
    requires Weighted(t.runcat) && AllMeasured(sources) && |hists| == |t.runcat|
    requires i < |Associate(sky, t, sources).runcat|
    ensures var kept, row := Kept(sky, t.runcat, sources), Associate(sky, t, sources).runcat[i];
      || (exists k: nat :: Unmatched(t.runcat, hists, kept, row, hist, k))
      || (exists k: nat, m :: Matched(t.runcat, hists, kept, row, hist, k, m))
  {
    var kept := Kept(sky, t.runcat, sources);
    var row := Associate(sky, t, sources).runcat[i];
    RowComesFrom(sky, t, sources, i);
    KeptOk(sky, t.runcat, sources);
    hide Associate, Kept, Multiple;
    if m :| m in kept && row == m.row.(id := Key(Multiple(kept), m)) {
      assert MatchOk(t.runcat, sources, m);
      var k :| 0 <= k < |t.runcat| && IsMatch(t.runcat[k], m);
      hist := hists[k] + [m.src];
      assert Matched(t.runcat, hists, kept, row, hist, k, m);
    } else {
      var k :| 0 <= k < |t.runcat| && t.runcat[k] == row;
      hist := hists[k];
      assert Unmatched(t.runcat, hists, kept, row, hist, k);
    }
  }

  lemma ProcessRows(t: Tables, image: Image)
    requires Weighted(t.runcat) && AllMeasured(image.sources)
    ensures var matched := Associate(image.sky, t, image.sources).runcat;
      Process(t, image).runcat == matched + NewRows(image.dataset, Unknown(image.sky.close, matched, image.sources))
  {
  }

  lemma NewRowIn(dataset: int, news: seq<Source>, i: nat) returns (s: Source)
    requires AllMeasured(news) && i < |NewRows(dataset, news)|
    ensures Inserted(dataset, news, NewRows(dataset, news)[i], [s], s)
  {
    NewRowsWith(dataset, news, 0);
    s := news[i];
  }

  /** The history of a row after an image. */
  lemma HistoryOf(t: Tables, image: Image, hists: seq<seq<Source>>, i: nat) returns (hist: seq<Source>)
    requires Weighted(t.runcat) && AllMeasured(image.sources) && |hists| == |t.runcat|
    requires i < |Process(t, image).runcat|
    ensures Follows(t, image, hists, Process(t, image).runcat[i], hist)
  {
    ProcessRows(t, image);
    var matched := Associate(image.sky, t, image.sources).runcat;
    hide Process, Associate, Unknown, Kept, Unmatched, Matched, Weighted, Inserted, NewRows;
    if i < |matched| {
      hist := MatchedHistory(image.sky, t, image.sources, hists, i);
    } else {
      var news := Unknown(image.sky.close, matched, image.sources);
      var s := NewRowIn(image.dataset, news, i - |matched|);
      hist := [s];
    }
  }

  /** A row that follows from rows with the averages over their histories has those over its own. */
  lemma FollowsOk(t: Tables, image: Image, hists: seq<seq<Source>>, row: Row, hist: seq<Source>)
    requires Weighted(t.runcat) && AllMeasured(image.sources) && Averaged(t.runcat, hists)
    requires Follows(t, image, hists, row, hist)
    ensures RowOk(row, hist)
  {
    var kept := Kept(image.sky, t.runcat, image.sources);
    var news := Unknown(image.sky.close, Associate(image.sky, t, image.sources).runcat, image.sources);
    hide RowOk, Associate, Unknown, Kept, Multiple;
    if k: nat, m :| Matched(t.runcat, hists, kept, row, hist, k, m) {
      ExtendedOk(t.runcat[k], hists[k], row.id, m.src);
    } else if s :| Inserted(image.dataset, news, row, hist, s) {
      NewRowOk(image.dataset, s);
    }
  }

  /** Every image leaves each row with the averages over its history: that of the row it comes from, and the
      source matched. Ties, repeated ids and what is close to what do not matter. */
  lemma AveragesKept(t: Tables, image: Image, hists: seq<seq<Source>>) returns (longer: seq<seq<Source>>)
    requires Weighted(t.runcat) && AllMeasured(image.sources) && Averaged(t.runcat, hists)
    ensures Averaged(Process(t, image).runcat, longer)
    ensures forall i :: 0 <= i < |longer| ==> Follows(t, image, hists, Process(t, image).runcat[i], longer[i])
  {
    hide RowOk, Follows, Process;
    var after := Process(t, image).runcat;
    longer := [];
    for i := 0 to |after|
      invariant |longer| == i
      invariant forall k :: 0 <= k < i ==> Follows(t, image, hists, after[k], longer[k]) && RowOk(after[k], longer[k])
    {
      var hist := HistoryOf(t, image, hists, i);
      FollowsOk(t, image, hists, after[i], hist);
      longer := longer + [hist];
    }
  }

  function Before(images: seq<Image>): seq<Image>
    requires images != []
  {
    images[..|images| - 1]
  }

  ghost predicate Continues(images: seq<Image>, before: seq<seq<Source>>, hists: seq<seq<Source>>)
    requires AllImages(images) && images != [] && |hists| == |Run(images).runcat|
  {
    forall i :: 0 <= i < |hists| ==>
      Follows(Run(Before(images)), images[|images| - 1], before, Run(images).runcat[i], hists[i])
  }

  /** The histories follow from those before the last image, and so on back to the empty catalogue. */
  ghost predicate Traced(images: seq<Image>, hists: seq<seq<Source>>)
    requires AllImages(images)
  {
    && |hists| == |Run(images).runcat|
    && (images == [] || exists before :: Traced(Before(images), before) && Continues(images, before, hists))
  }

  /** After any sequence of measured images every catalogue row holds the averages over its history. */
  lemma {:induction false} ReachableAverages(images: seq<Image>) returns (hists: seq<seq<Source>>)
    requires AllImages(images)
    ensures Traced(images, hists) && Averaged(Run(images).runcat, hists)
  {
    hide RowOk, Follows, Process;
    if images == [] {
      hists := [];
    } else {
      var n := |images| - 1;
      var before := ReachableAverages(images[..n]);
      hists := AveragesKept(Run(images[..n]), images[n], before);
      assert Traced(Before(images), before) && Continues(images, before, hists);
    }
  }

  /** The zone filter drops no row of a reachable catalogue that passes the declination window. */
  lemma ReachableZones(images: seq<Image>, i: nat, s: Source, bmaj: real)
    requires AllImages(images) && i < |Run(images).runcat|
    ensures InWindow(Run(images).runcat[i], s, bmaj) ==> InZones(Run(images).runcat[i], s, bmaj)
  {
    var hists := ReachableAverages(images);
    if InWindow(Run(images).runcat[i], s, bmaj) {
      ZonesDropNothing(Run(images).runcat[i], hists[i], s, bmaj);
    }
  }
}
