/** When the catalogue ids stay unique and keep their identity rows, in terms of what is close to what before
    an image is processed. */
module AssociationOrders {
  import opened Averages
  import opened Associations
  import opened AssociationSafety
  import opened AssociationRuns

  // ---------------------------------------------------------------- which sources are known afterwards

  /** No source has row i as a nearest row, so that it stays as it is. */
  predicate Untouched(sky: Sky, rows: seq<Row>, sources: seq<Source>, i: nat) {
    i < |rows| && forall l :: 0 <= l < |sources| ==> !NearestRow(sky, rows, sources[l], i)
  }

  /** Source l has row i as a nearest row, so that there is a row with the source averaged in: under the
      source's id if the row is shared, else under its own. */
  function Updated(sky: Sky, rows: seq<Row>, sources: seq<Source>, i: nat, l: nat): Row
    requires Weighted(rows) && AllMeasured(sources) && i < |rows| && l < |sources|
  {
    Extended(rows[i], if SharedRow(sky, rows, sources, i, l) then sources[l].id else rows[i].id, sources[l])
  }

  /** A row that stays as it is is close to source k. */
  predicate CloseAsBefore(close: (Row, Source) -> bool, sky: Sky, rows: seq<Row>, sources: seq<Source>, k: nat,
                          i: nat) {
    Untouched(sky, rows, sources, i) && k < |sources| && close(rows[i], sources[k])
  }

  /** A row with a source averaged in is close to source k. */
  predicate CloseAsUpdated(close: (Row, Source) -> bool, sky: Sky, rows: seq<Row>, sources: seq<Source>, k: nat,
                           i: nat, l: nat)
    requires Weighted(rows) && AllMeasured(sources)
  {
    && i < |rows| && l < |sources| && k < |sources| && NearestRow(sky, rows, sources[l], i)
    && close(Updated(sky, rows, sources, i, l), sources[k])
  }

  /** Source k will be close to some row. */
  ghost predicate KnownAfter(close: (Row, Source) -> bool, sky: Sky, rows: seq<Row>, sources: seq<Source>, k: nat)
    requires Weighted(rows) && AllMeasured(sources)
  {
    || (exists i: nat :: CloseAsBefore(close, sky, rows, sources, k, i))
    || (exists i: nat, l: nat :: CloseAsUpdated(close, sky, rows, sources, k, i, l))
  }

  lemma UntouchedIff(sky: Sky, rows: seq<Row>, sources: seq<Source>, i: nat)
    requires Weighted(rows) && AllMeasured(sources) && UniqueIds(rows) && DistinctSources(sources) && i < |rows|
    ensures MatchesOf(Kept(sky, rows, sources), rows[i].id) == 0 <==> Untouched(sky, rows, sources, i)
  {
    var kept := Kept(sky, rows, sources);
    MatchesOfSome(kept, rows[i].id);
    hide Kept, NearestRow, UniqueIds, DistinctSources;
    if m :| m in kept && m.r == rows[i].id {
      var j, l := KeptRow(sky, rows, sources, m);
      SameRow(rows, i, j);
    }
    if l :| 0 <= l < |sources| && NearestRow(sky, rows, sources[l], i) {
      var m := KeptMatch(sky, rows, sources, i, l);
    }
  }

  lemma KeptRowIs(sky: Sky, rows: seq<Row>, sources: seq<Source>, m: Match, i: nat, l: nat)
    requires Weighted(rows) && AllMeasured(sources) && UniqueIds(rows) && DistinctSources(sources)
    requires m in Kept(sky, rows, sources) && MatchAt(sky, rows, sources, m, i, l)
    requires NearestRow(sky, rows, sources[l], i)
    ensures m.row.(id := Key(Multiple(Kept(sky, rows, sources)), m)) == Updated(sky, rows, sources, i, l)
  {
    MultipleIff(sky, rows, sources, i, l);
  }

  /** After the matches have been worked in a source is close to some row exactly if this can be told from the
      catalogue before. */
  lemma KnownAfterIff(close: (Row, Source) -> bool, sky: Sky, t: Tables, sources: seq<Source>, k: nat)
    requires Weighted(t.runcat) && AllMeasured(sources) && UniqueIds(t.runcat) && Fresh(t.runcat, sources)
    requires k < |sources|
    ensures var after := Associate(sky, t, sources).runcat;
      (exists i :: 0 <= i < |after| && close(after[i], sources[k]))
      <==> KnownAfter(close, sky, t.runcat, sources, k)
  {
    var rows, after, kept := t.runcat, Associate(sky, t, sources).runcat, Kept(sky, t.runcat, sources);
    assert DistinctSources(sources);
    hide Associate, Kept, Multiple, NearestRow, Untouched, Updated, UniqueIds, DistinctSources, Fresh;
    if i :| 0 <= i < |after| && close(after[i], sources[k]) {
      RowsExactly(sky, t, sources, after[i]);
      if m :| m in kept && after[i] == m.row.(id := Key(Multiple(kept), m)) {
        var j, l := KeptRow(sky, rows, sources, m);
        KeptRowIs(sky, rows, sources, m, j, l);
        assert CloseAsUpdated(close, sky, rows, sources, k, j, l);
      } else {
        var j :| 0 <= j < |rows| && rows[j] == after[i];
        UntouchedIff(sky, rows, sources, j);
        assert CloseAsBefore(close, sky, rows, sources, k, j);
      }
    }
    if i: nat :| CloseAsBefore(close, sky, rows, sources, k, i) {
      UntouchedRow(sky, t, sources, i);
    }
    if i: nat, l: nat :| CloseAsUpdated(close, sky, rows, sources, k, i, l) {
      UpdatedRow(sky, t, sources, i, l);
    }
  }

  lemma UntouchedRow(sky: Sky, t: Tables, sources: seq<Source>, i: nat)
    requires Weighted(t.runcat) && AllMeasured(sources) && UniqueIds(t.runcat) && Fresh(t.runcat, sources)
    requires Untouched(sky, t.runcat, sources, i)
    ensures i < |t.runcat| && t.runcat[i] in Associate(sky, t, sources).runcat
  {
    UntouchedIff(sky, t.runcat, sources, i);
    RowsExactly(sky, t, sources, t.runcat[i]);
  }

  lemma UpdatedRow(sky: Sky, t: Tables, sources: seq<Source>, i: nat, l: nat)
    requires Weighted(t.runcat) && AllMeasured(sources) && UniqueIds(t.runcat) && Fresh(t.runcat, sources)
    requires i < |t.runcat| && l < |sources| && NearestRow(sky, t.runcat, sources[l], i)
    ensures Updated(sky, t.runcat, sources, i, l) in Associate(sky, t, sources).runcat
  {
    assert DistinctSources(sources);
    var m := KeptMatch(sky, t.runcat, sources, i, l);
    KeptRowIs(sky, t.runcat, sources, m, i, l);
    MatchedStays(sky, t, sources, m);
  }

  // ---------------------------------------------------------------- which sources are in the catalogue

  /** Source k is split off some row. */
  predicate SplitFrom(sky: Sky, rows: seq<Row>, sources: seq<Source>, k: nat, i: nat) {
    k < |sources| && NearestRow(sky, rows, sources[k], i) && SharedRow(sky, rows, sources, i, k)
  }

  lemma SplitOffIff(sky: Sky, rows: seq<Row>, sources: seq<Source>, k: nat)
    requires Weighted(rows) && AllMeasured(sources) && UniqueIds(rows) && DistinctSources(sources) && k < |sources|
    ensures SplitIds(sky, rows, sources, sources[k].id) > 0 <==>
      exists i: nat :: SplitFrom(sky, rows, sources, k, i)
  {
    var kept := Kept(sky, rows, sources);
    var ms := Selected(kept, Multiple(kept));
    SelectedMembers(kept, Multiple(kept));
    hide Kept, NearestRow, UniqueIds, DistinctSources, Multiple, Selected, SharedRow;
    if MatchesTo(ms, sources[k].id) > 0 {
      var m := MatchesToSome(ms, sources[k].id);
      var i, l := KeptRow(sky, rows, sources, m);
      SameSource(sources, k, l);
      MultipleIff(sky, rows, sources, i, k);
      assert SplitFrom(sky, rows, sources, k, i);
    }
    if i: nat :| SplitFrom(sky, rows, sources, k, i) {
      var m := KeptMatch(sky, rows, sources, i, k);
      MultipleIff(sky, rows, sources, i, k);
      var p :| 0 <= p < |ms| && ms[p] == m;
      OneMatch(ms, p);
    }
  }

  /** A source is in the catalogue after the matches have been worked in exactly if it was split off. */
  lemma InCatalogueIff(sky: Sky, t: Tables, sources: seq<Source>, k: nat)
    requires Weighted(t.runcat) && AllMeasured(sources) && UniqueIds(t.runcat) && Fresh(t.runcat, sources)
    requires k < |sources|
    ensures RowsWith(Associate(sky, t, sources).runcat, sources[k].id) > 0
       <==> exists i: nat :: SplitFrom(sky, t.runcat, sources, k, i)
  {
    RowsAfter(sky, t, sources, sources[k].id);
    SplitOffIff(sky, t.runcat, sources, k);
  }

  /** A source has an identity row then exactly if it had one before, or was split off. */
  lemma FirstAfterIff(sky: Sky, t: Tables, sources: seq<Source>, k: nat)
    requires Weighted(t.runcat) && AllMeasured(sources) && UniqueIds(t.runcat) && Fresh(t.runcat, sources)
    requires k < |sources|
    ensures HasFirst(Associate(sky, t, sources).assoc, sources[k].id)
       <==> HasFirst(t.assoc, sources[k].id) || exists i: nat :: SplitFrom(sky, t.runcat, sources, k, i)
  {
    var v, kept, after := sources[k].id, Kept(sky, t.runcat, sources), Associate(sky, t, sources).assoc;
    KeptOk(sky, t.runcat, sources);
    assert DistinctSources(sources);
    SplitOffIff(sky, t.runcat, sources, k);
    hide Associate, Kept, HasFirst, Multiple, NearestRow, SharedRow, UniqueIds, SplitFrom, SplitIds;
    assert v !in Multiple(kept) by {
      if v in Multiple(kept) { MultipleInCatalogue(t.runcat, sources, kept, v); }
    }
    if HasFirst(after, v) {
      var x := FirstOf(after, v);
      AssocsExactly(sky, t, sources, x);
      if x in t.assoc {
        FirstIn(t.assoc, x);
      } else {
        var m :| m in kept && Records(Multiple(kept), m, x);
        RecordsFirst(sky, t.runcat, sources, m, x);
      }
    }
    if HasFirst(t.assoc, v) {
      var x := FirstOf(t.assoc, v);
      AssocsExactly(sky, t, sources, x);
      FirstIn(after, x);
    }
    if SplitIds(sky, t.runcat, sources, v) > 0 {
      var m := SplitMatch(sky, t.runcat, sources, v);
      AssocsExactly(sky, t, sources, Assoc(v, v, 2));
      assert Records(Multiple(kept), m, Assoc(v, v, 2));
      FirstIn(after, Assoc(v, v, 2));
    }
  }

  lemma SplitMatch(sky: Sky, rows: seq<Row>, sources: seq<Source>, v: Id) returns (m: Match)
    requires Weighted(rows) && AllMeasured(sources) && SplitIds(sky, rows, sources, v) > 0
    ensures m in Kept(sky, rows, sources) && m.r in Multiple(Kept(sky, rows, sources)) && m.src.id == v
  {
    var kept := Kept(sky, rows, sources);
    SelectedMembers(kept, Multiple(kept));
    m := MatchesToSome(Selected(kept, Multiple(kept)), v);
  }

  /** The identity rows that matches record are those of sources split off. */
  lemma RecordsFirst(sky: Sky, rows: seq<Row>, sources: seq<Source>, m: Match, x: Assoc)
    requires Weighted(rows) && AllMeasured(sources) && Fresh(rows, sources) && m in Kept(sky, rows, sources)
    requires Records(Multiple(Kept(sky, rows, sources)), m, x) && x.id == x.other
    ensures SplitIds(sky, rows, sources, x.id) > 0
  {
    var kept := Kept(sky, rows, sources);
    var ms := Selected(kept, Multiple(kept));
    KeptOk(sky, rows, sources);
    NoMatchOfSource(rows, sources, kept, m);
    MatchesOfSome(kept, m.src.id);
    SelectedMembers(kept, Multiple(kept));
    assert m in ms;
    var p :| 0 <= p < |ms| && ms[p] == m;
    OneMatch(ms, p);
  }

  // ---------------------------------------------------------------- unique ids and identity rows

  /** Unique ids, each with its identity row. */
  ghost predicate InOrder(t: Tables) { UniqueIds(t.runcat) && AllFirsts(t.runcat, t.assoc) }

  /** Every source that is split off will be close to some row. */
  ghost predicate SplitKnown(sky: Sky, rows: seq<Row>, sources: seq<Source>)
    requires Weighted(rows) && AllMeasured(sources)
  {
    forall k: nat, i: nat :: SplitFrom(sky, rows, sources, k, i) ==> KnownAfter(sky.close, sky, rows, sources, k)
  }

  /** Source k will be close to some row, or to none by the expression for new associations either, unless it
      has an identity row already. */
  ghost predicate QueriesAgree(t: Tables, image: Image, k: nat)
    requires Weighted(t.runcat) && AllMeasured(image.sources) && k < |image.sources|
  {
    || KnownAfter(image.sky.close, image.sky, t.runcat, image.sources, k)
    || HasFirst(t.assoc, image.sources[k].id)
    || !KnownAfter(image.closeAssoc, image.sky, t.runcat, image.sources, k)
  }

  /** No source is split off twice or known no more once it has been split off, and the queries agree. */
  ghost predicate Orderly(t: Tables, image: Image)
    requires Weighted(t.runcat) && AllMeasured(image.sources)
  {
    && (forall k: nat, i: nat, j: nat :: !SplitTwice(image.sky, t.runcat, image.sources, k, i, j))
    && SplitKnown(image.sky, t.runcat, image.sources)
    && forall k :: 0 <= k < |image.sources| ==> QueriesAgree(t, image, k)
  }

  lemma {:induction false} UnknownAre(close: (Row, Source) -> bool, rows: seq<Row>, sources: seq<Source>, s: Source)
    requires AllMeasured(sources)
    ensures s in Unknown(close, rows, sources)
       <==> s in sources && !exists i :: 0 <= i < |rows| && close(rows[i], s)
  {
    if sources != [] {
      UnknownAre(close, rows, sources[..|sources| - 1], s);
      assert sources == sources[..|sources| - 1] + [sources[|sources| - 1]];
    }
  }

  lemma NoneInAre(rows: seq<Row>, ss: seq<Source>)
    ensures NoneIn(rows, ss) <==> forall s :: s in ss ==> RowsWith(rows, s.id) == 0
  {
  }

  /** No source that counts as new is in the catalogue exactly if all that were split off are known. */
  lemma NoneInIff(sky: Sky, t: Tables, sources: seq<Source>)
    requires Weighted(t.runcat) && AllMeasured(sources) && UniqueIds(t.runcat) && Fresh(t.runcat, sources)
    ensures var after := Associate(sky, t, sources).runcat;
      NoneIn(after, Unknown(sky.close, after, sources)) <==> SplitKnown(sky, t.runcat, sources)
  {
    var after := Associate(sky, t, sources).runcat;
    var news := Unknown(sky.close, after, sources);
    hide Associate, Unknown, RowsWith, SplitFrom, KnownAfter, Fresh, UniqueIds;
    forall s ensures s in news <==> s in sources && !exists i :: 0 <= i < |after| && sky.close(after[i], s) {
      UnknownAre(sky.close, after, sources, s);
    }
    forall k | 0 <= k < |sources|
      ensures sources[k] in news <==> !KnownAfter(sky.close, sky, t.runcat, sources, k)
      ensures RowsWith(after, sources[k].id) > 0 <==> exists i: nat :: SplitFrom(sky, t.runcat, sources, k, i)
    {
      KnownAfterIff(sky.close, sky, t, sources, k);
      InCatalogueIff(sky, t, sources, k);
    }
    forall k: nat, i: nat | SplitFrom(sky, t.runcat, sources, k, i) ensures k < |sources| {
      SplitFromIn(sky, t.runcat, sources, k, i);
    }
    NoneInAre(after, news);
    hide NoneIn;
    assert NoneIn(after, news) <==> forall k :: 0 <= k < |sources| && sources[k] in news ==>
      RowsWith(after, sources[k].id) == 0;
  }

  lemma SplitFromIn(sky: Sky, rows: seq<Row>, sources: seq<Source>, k: nat, i: nat)
    requires SplitFrom(sky, rows, sources, k, i)
    ensures k < |sources| && i < |rows| && sky.close(rows[i], sources[k])
  {
  }

  lemma UnknownWith(close: (Row, Source) -> bool, rows: seq<Row>, sources: seq<Source>, k: nat)
    requires AllMeasured(sources) && DistinctSources(sources) && k < |sources|
    ensures SourcesWith(Unknown(close, rows, sources), sources[k].id) > 0
       <==> !exists i :: 0 <= i < |rows| && close(rows[i], sources[k])
  {
    var news := Unknown(close, rows, sources);
    UnknownAre(close, rows, sources, sources[k]);
    hide Unknown, SourcesWith;
    if SourcesWith(news, sources[k].id) > 0 {
      SourceIn(news, sources[k].id);
      var p :| 0 <= p < |news| && news[p].id == sources[k].id;
      UnknownAre(close, rows, sources, news[p]);
      var l :| 0 <= l < |sources| && sources[l] == news[p];
      SameSource(sources, k, l);
    }
    if sources[k] in news {
      var p :| 0 <= p < |news| && news[p] == sources[k];
      SourcePresent(news, p);
    }
  }

  /** What the identity rows need, source by source. */
  ghost predicate FirstOrKnown(t: Tables, image: Image, k: nat)
    requires Weighted(t.runcat) && AllMeasured(image.sources) && k < |image.sources|
  {
    || KnownAfter(image.sky.close, image.sky, t.runcat, image.sources, k)
    || HasFirst(t.assoc, image.sources[k].id)
    || (exists i: nat :: SplitFrom(image.sky, t.runcat, image.sources, k, i))
    || !KnownAfter(image.closeAssoc, image.sky, t.runcat, image.sources, k)
  }

  lemma FirstsForAre(assoc: seq<Assoc>, firsts: seq<Source>, ss: seq<Source>)
    ensures FirstsFor(assoc, firsts, ss)
       <==> forall s :: s in ss ==> HasFirst(assoc, s.id) || SourcesWith(firsts, s.id) > 0
  {
    hide HasFirst, SourcesWith;
  }

  lemma FirstOrKnownIff(t: Tables, image: Image, k: nat)
    requires Weighted(t.runcat) && AllMeasured(image.sources) && k < |image.sources|
    requires UniqueIds(t.runcat) && Fresh(t.runcat, image.sources)
    ensures var matched := Associate(image.sky, t, image.sources);
      FirstOrKnown(t, image, k) <==>
        (image.sources[k] in Unknown(image.sky.close, matched.runcat, image.sources) ==>
          || HasFirst(matched.assoc, image.sources[k].id)
          || SourcesWith(Unknown(image.closeAssoc, matched.runcat, image.sources), image.sources[k].id) > 0)
  {
    var sky, sources := image.sky, image.sources;
    var matched := Associate(sky, t, sources);
    assert DistinctSources(sources);
    hide Associate, Unknown, SplitFrom, KnownAfter, Fresh, UniqueIds, HasFirst, SourcesWith, DistinctSources;
    UnknownAre(sky.close, matched.runcat, sources, sources[k]);
    KnownAfterIff(sky.close, sky, t, sources, k);
    KnownAfterIff(image.closeAssoc, sky, t, sources, k);
    UnknownWith(image.closeAssoc, matched.runcat, sources, k);
    FirstAfterIff(sky, t, sources, k);
  }

  lemma FirstsForIff(t: Tables, image: Image)
    requires Weighted(t.runcat) && AllMeasured(image.sources)
    requires UniqueIds(t.runcat) && Fresh(t.runcat, image.sources)
    ensures var matched := Associate(image.sky, t, image.sources);
      FirstsFor(matched.assoc, Unknown(image.closeAssoc, matched.runcat, image.sources),
                Unknown(image.sky.close, matched.runcat, image.sources))
      <==> forall k :: 0 <= k < |image.sources| ==> FirstOrKnown(t, image, k)
  {
    var sources, matched := image.sources, Associate(image.sky, t, image.sources);
    var firsts := Unknown(image.closeAssoc, matched.runcat, sources);
    var news := Unknown(image.sky.close, matched.runcat, sources);
    hide Associate, Unknown, Fresh, UniqueIds, HasFirst, SourcesWith, FirstOrKnown;
    FirstsForAre(matched.assoc, firsts, news);
    hide FirstsFor;
    forall k | 0 <= k < |sources|
      ensures FirstOrKnown(t, image, k) <==>
        (sources[k] in news ==> HasFirst(matched.assoc, sources[k].id) || SourcesWith(firsts, sources[k].id) > 0)
    {
      FirstOrKnownIff(t, image, k);
    }
    forall s | s in news ensures s in sources { UnknownAre(image.sky.close, matched.runcat, sources, s); }
    assert (forall s :: s in news ==> HasFirst(matched.assoc, s.id) || SourcesWith(firsts, s.id) > 0) <==>
      forall k :: 0 <= k < |sources| && sources[k] in news ==>
        HasFirst(matched.assoc, sources[k].id) || SourcesWith(firsts, sources[k].id) > 0;
  }

  /** The ids are unique afterwards exactly if none is split off twice or, having been split off, known no more. */
  lemma UniqueAfterIff(t: Tables, image: Image)
    requires Weighted(t.runcat) && AllMeasured(image.sources)
    requires UniqueIds(t.runcat) && Fresh(t.runcat, image.sources)
    ensures UniqueIds(Process(t, image).runcat) <==>
      (forall k: nat, i: nat, j: nat :: !SplitTwice(image.sky, t.runcat, image.sources, k, i, j)) &&
      SplitKnown(image.sky, t.runcat, image.sources)
  {
    var matched := Associate(image.sky, t, image.sources);
    IdsUniqueIff(image.sky, t, image.sources);
    NoneInIff(image.sky, t, image.sources);
    assert DistinctSources(image.sources);
    hide Associate, Unknown, SplitTwice, SplitKnown, NoneIn, Fresh;
    if UniqueIds(matched.runcat) {
      NewIdsUniqueIff(image.sky.close, image.closeAssoc, image.dataset, matched, image.sources);
    } else {
      var v :| RowsWith(matched.runcat, v) > 1;
      RowsInserted(image.sky.close, image.dataset, matched.runcat, image.sources, v);
      assert RowsWith(Process(t, image).runcat, v) > 1;
    }
  }

  lemma FirstsAfterIff(t: Tables, image: Image)
    requires Weighted(t.runcat) && AllMeasured(image.sources) && InOrder(t) && Fresh(t.runcat, image.sources)
    ensures AllFirsts(Process(t, image).runcat, Process(t, image).assoc)
       <==> forall k :: 0 <= k < |image.sources| ==> FirstOrKnown(t, image, k)
  {
    var matched := Associate(image.sky, t, image.sources);
    IdentityRowsKept(image.sky, t, image.sources);
    FirstsForIff(t, image);
    hide Associate, Unknown, FirstOrKnown, FirstsFor, AllFirsts, Fresh;
    NewIdentityRowsIff(image.sky.close, image.closeAssoc, image.dataset, matched, image.sources);
  }

  lemma AgreeIff(t: Tables, image: Image, k: nat)
    requires Weighted(t.runcat) && AllMeasured(image.sources) && SplitKnown(image.sky, t.runcat, image.sources)
    requires k < |image.sources|
    ensures QueriesAgree(t, image, k) <==> FirstOrKnown(t, image, k)
  {
    hide KnownAfter, SplitFrom, HasFirst;
  }

  /** An image leaves a catalogue in order exactly if it is orderly. */
  lemma OrderKeptIff(t: Tables, image: Image)
    requires Weighted(t.runcat) && AllMeasured(image.sources) && InOrder(t) && Fresh(t.runcat, image.sources)
    ensures InOrder(Process(t, image)) <==> Orderly(t, image)
  {
    UniqueAfterIff(t, image);
    FirstsAfterIff(t, image);
    if SplitKnown(image.sky, t.runcat, image.sources) {
      forall k | 0 <= k < |image.sources| ensures QueriesAgree(t, image, k) <==> FirstOrKnown(t, image, k) {
        AgreeIff(t, image, k);
      }
    }
  }

  /** Averaging a source into a row that is close to it leaves the row close to it. */
  ghost predicate AveragingStaysClose(sky: Sky, rows: seq<Row>, sources: seq<Source>)
    requires Weighted(rows) && AllMeasured(sources)
  {
    forall i, k :: 0 <= i < |rows| && 0 <= k < |sources| && sky.close(rows[i], sources[k]) ==>
      sky.close(Extended(rows[i], sources[k].id, sources[k]), sources[k])
  }

  /** If averaging keeps rows close, and all queries used the same expression, ties alone could put the
      catalogue out of order. */
  lemma TiesAloneMatter(t: Tables, image: Image)
    requires Weighted(t.runcat) && AllMeasured(image.sources) && InOrder(t) && Fresh(t.runcat, image.sources)
    requires AveragingStaysClose(image.sky, t.runcat, image.sources)
    ensures SplitKnown(image.sky, t.runcat, image.sources)
    ensures image.closeAssoc == image.sky.close ==>
      (InOrder(Process(t, image)) <==>
        forall k: nat, i: nat, j: nat :: !SplitTwice(image.sky, t.runcat, image.sources, k, i, j))
  {
    forall k: nat, i: nat | SplitFrom(image.sky, t.runcat, image.sources, k, i)
      ensures KnownAfter(image.sky.close, image.sky, t.runcat, image.sources, k)
    {
      assert CloseAsUpdated(image.sky.close, image.sky, t.runcat, image.sources, k, i, k);
    }
    OrderKeptIff(t, image);
  }

  // ---------------------------------------------------------------- every sequence of images

  function AllSources(images: seq<Image>): seq<Source> {
    if images == [] then [] else AllSources(images[..|images| - 1]) + images[|images| - 1].sources
  }

  lemma {:induction false} SourcesConcat(a: seq<Source>, b: seq<Source>, v: Id)
    ensures SourcesWith(a + b, v) == SourcesWith(a, v) + SourcesWith(b, v)
  {
    if b == [] {
      assert a + b == a;
    } else {
      assert (a + b)[..|a + b| - 1] == a + b[..|b| - 1];
      SourcesConcat(a, b[..|b| - 1], v);
    }
  }

  /** The id of a row is that of a source of the image, or was in the catalogue. */
  lemma IdComesFrom(sky: Sky, t: Tables, sources: seq<Source>, i: nat)
    requires Weighted(t.runcat) && AllMeasured(sources) && i < |Associate(sky, t, sources).runcat|
    ensures var v := Associate(sky, t, sources).runcat[i].id;
      SourcesWith(sources, v) > 0 || exists k :: 0 <= k < |t.runcat| && t.runcat[k].id == v
  {
    var row := Associate(sky, t, sources).runcat[i];
    var kept := Kept(sky, t.runcat, sources);
    RowComesFrom(sky, t, sources, i);
    KeptOk(sky, t.runcat, sources);
    hide Associate, Kept, Multiple, IsMatch, SourcesWith;
    if m :| m in kept && m.src.id == row.id {
      assert MatchOk(t.runcat, sources, m);
      var k :| 0 <= k < |sources| && sources[k] == m.src;
      SourcePresent(sources, k);
    } else {
      OldId(t.runcat, sources, kept, row, row.id);
    }
  }

  lemma NewId(dataset: int, ss: seq<Source>, i: nat)
    requires AllMeasured(ss) && i < |NewRows(dataset, ss)|
    ensures SourcesWith(ss, NewRows(dataset, ss)[i].id) > 0
  {
    NewRowsWith(dataset, ss, 0);
    SourcePresent(ss, i);
  }

  lemma IdProcessed(t: Tables, image: Image, i: nat)
    requires Weighted(t.runcat) && AllMeasured(image.sources) && i < |Process(t, image).runcat|
    ensures var v := Process(t, image).runcat[i].id;
      SourcesWith(image.sources, v) > 0 || exists k :: 0 <= k < |t.runcat| && t.runcat[k].id == v
  {
    var matched := Associate(image.sky, t, image.sources).runcat;
    var news := Unknown(image.sky.close, matched, image.sources);
    hide Associate, Unknown, NewRows, SourcesWith;
    if i < |matched| {
      IdComesFrom(image.sky, t, image.sources, i);
    } else {
      NewId(image.dataset, news, i - |matched|);
      UnknownAtMost(image.sky.close, matched, image.sources, Process(t, image).runcat[i].id);
    }
  }

  /** Every catalogue id is that of a source of some image. */
  lemma {:induction false} IdsFromSources(images: seq<Image>, i: nat)
    requires AllImages(images) && i < |Run(images).runcat|
    ensures SourcesWith(AllSources(images), Run(images).runcat[i].id) > 0
  {
    var n := |images| - 1;
    var t, v := Run(images[..n]), Run(images).runcat[i].id;
    assert Run(images) == Process(t, images[n]);
    assert AllSources(images) == AllSources(images[..n]) + images[n].sources;
    hide Run, Process, SourcesWith, AllSources;
    IdProcessed(t, images[n], i);
    SourcesConcat(AllSources(images[..n]), images[n].sources, v);
    if k :| 0 <= k < |t.runcat| && t.runcat[k].id == v { IdsFromSources(images[..n], k); }
  }

  /** Sources with ids of their own are new to the catalogue of the images before. */
  lemma FreshNext(images: seq<Image>)
    requires AllImages(images) && images != [] && DistinctSources(AllSources(images))
    ensures Fresh(Run(images[..|images| - 1]).runcat, images[|images| - 1].sources)
    ensures DistinctSources(AllSources(images[..|images| - 1]))
  {
    var n := |images| - 1;
    var rows, before, sources := Run(images[..n]).runcat, AllSources(images[..n]), images[n].sources;
    assert AllSources(images) == before + sources;
    hide Run, AllSources, SourcesWith, RowsWith;
    forall v ensures SourcesWith(before, v) + SourcesWith(sources, v) <= 1 {
      SourcesConcat(before, sources, v);
      assert SourcesWith(AllSources(images), v) <= 1;
    }
    forall i | 0 <= i < |sources| ensures RowsWith(rows, sources[i].id) == 0 {
      SourcePresent(sources, i);
      if RowsWith(rows, sources[i].id) > 0 {
        var k := RowIn(rows, sources[i].id);
        IdsFromSources(images[..n], k);
      }
    }
  }

  /** The catalogue is in order after every image exactly if every image is orderly when its turn comes. */
  lemma {:induction false} AlwaysInOrderIff(images: seq<Image>)
    requires AllImages(images) && DistinctSources(AllSources(images))
    ensures (forall n :: 0 <= n <= |images| ==> InOrder(Run(images[..n])))
       <==> forall n :: 0 <= n < |images| ==> Orderly(Run(images[..n]), images[n])
  {
    hide InOrder, Orderly, Run;
    if images == [] {
      assert InOrder(Run(images[..0])) by { EmptyInOrder(); }
    } else {
      var last := |images| - 1;
      FreshNext(images);
      AlwaysInOrderIff(images[..last]);
      assert forall n :: 0 <= n <= last ==> images[..last][..n] == images[..n];
      assert forall n :: 0 <= n < last ==> images[..last][n] == images[n];
      assert images[..|images|] == images;
      RunLast(images);
      if InOrder(Run(images[..last])) { OrderKeptIff(Run(images[..last]), images[last]); }
    }
  }

  lemma EmptyInOrder()
    ensures InOrder(Run([]))
  {
  }

  lemma RunLast(images: seq<Image>)
    requires AllImages(images) && images != []
    ensures Run(images) == Process(Run(images[..|images| - 1]), images[|images| - 1])
  {
  }
}
