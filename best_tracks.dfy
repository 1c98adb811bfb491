/** The "most popular track" chart of the artist section: each artist's
    first row of maximal popularity (`idxmax`), then the ten most popular of
    those rows, shown as artist, track and popularity. */
module BestTracks {
  import opened Collections
  import opened Tracks
  import opened Text
  import Genres

  /** How many artists the chart shows. */
  const TOP_TRACKS: nat := 10

  /** One bar of the chart: the columns `artist_name`, `track_name` and
      `popularity`. */
  datatype TopTrack = TopTrack(artist: string, track: string, popularity: int)

  function RowArtist(r: Row): string {
    r.artist
  }

  /** `data.loc[data.groupby('artist_name')['popularity'].idxmax()]`: the
      best row of every artist, in `groupby` order. */
  function BestRows(rows: seq<Row>): (bs: seq<Row>)
    ensures |bs| == |ArtistNames(rows)|
    ensures forall i :: 0 <= i < |bs| ==> bs[i] == BestRow(rows, ArtistNames(rows)[i])
  {
    var names := ArtistNames(rows);
    seq(|names|, i requires 0 <= i < |names| => BestRow(rows, names[i]))
  }

  function Project(r: Row): TopTrack {
    TopTrack(r.artist, r.track, r.popularity)
  }

  /** `.nlargest(10, 'popularity')[['artist_name', 'track_name',
      'popularity']]` of the best rows. */
  function TopTracks(rows: seq<Row>): seq<TopTrack> {
    Map(TopK(BestRows(rows), TOP_TRACKS, Popularity), Project)
  }

  /** The chart for the selected sidebar entry: over the whole table for
      "Todos", over the rows of the selected genre otherwise. An empty table
      gives an empty chart. */
  function TopTracksFor(data: seq<Row>, selected: string): seq<TopTrack> {
    if selected == Genres.ALL then TopTracks(data) else TopTracks(Genres.FilteredData(data, selected))
  }

  /** The best rows carry pairwise different artists, each the artist's
      maximum popularity. */
  lemma BestRowsFacts(rows: seq<Row>)
    ensures var bs := BestRows(rows);
      && (forall i, j :: 0 <= i < j < |bs| ==> RowArtist(bs[i]) != RowArtist(bs[j]))
      && (forall r :: r in bs ==> r in rows && r.artist in Artists(rows) && r.popularity == ArtistMax(rows, r.artist))
      && Tags(bs, RowArtist) == Artists(rows)
  {
    var bs := BestRows(rows);
    var names := ArtistNames(rows);
    forall i, j | 0 <= i < j < |bs| ensures RowArtist(bs[i]) != RowArtist(bs[j]) {
      assert bs[i].artist == names[i] && bs[j].artist == names[j];
    }
    forall a | a in Artists(rows) ensures a in Tags(bs, RowArtist) {
      var i :| 0 <= i < |names| && names[i] == a;
      assert bs[i] in bs;
    }
  }

  /** The bars of the chart are the selected best rows, projected. */
  lemma TopTracksProject(rows: seq<Row>)
    ensures var t := TopK(BestRows(rows), TOP_TRACKS, Popularity);
      && |TopTracks(rows)| == |t|
      && (forall i :: 0 <= i < |t| ==> TopTracks(rows)[i] == Project(t[i]))
  {
  }

  /** The bars belong to pairwise different artists, by non-increasing
      popularity. */
  lemma TopTracksOrder(rows: seq<Row>)
    ensures var res := TopTracks(rows);
      && (forall i, j :: 0 <= i < j < |res| ==> res[i].artist != res[j].artist)
      && (forall i, j :: 0 <= i < j < |res| ==> res[i].popularity >= res[j].popularity)
  {
    var bs := BestRows(rows);
    var t := TopK(bs, TOP_TRACKS, Popularity);
    var res := TopTracks(rows);
    TopTracksProject(rows);
    BestRowsFacts(rows);
    TopKDistinctTags(bs, TOP_TRACKS, Popularity, RowArtist);
    forall i, j | 0 <= i < j < |res| ensures res[i].artist != res[j].artist {
      assert RowArtist(t[i]) != RowArtist(t[j]);
    }
    forall i, j | 0 <= i < j < |res| ensures res[i].popularity >= res[j].popularity {
      assert Popularity(t[i]) >= Popularity(t[j]);
    }
  }

  /** Every bar is a track of the table at its artist's maximum
      popularity. */
  lemma TopTracksRows(rows: seq<Row>)
    ensures forall e :: e in TopTracks(rows) ==>
      && e.artist in Artists(rows)
      && e.popularity == ArtistMax(rows, e.artist)
      && exists r :: r in rows && Project(r) == e
  {
    var bs := BestRows(rows);
    var t := TopK(bs, TOP_TRACKS, Popularity);
    var res := TopTracks(rows);
    TopTracksProject(rows);
    BestRowsFacts(rows);
    TopKMembers(bs, TOP_TRACKS, Popularity);
    forall e | e in res
      ensures && e.artist in Artists(rows)
              && e.popularity == ArtistMax(rows, e.artist)
              && exists r :: r in rows && Project(r) == e
    {
      var i :| 0 <= i < |res| && res[i] == e;
      assert t[i] in t;
      assert t[i] in rows && Project(t[i]) == e;
    }
  }

  /** The chart has min(10, number of artists) bars for distinct artists,
      each a real track of its artist at the artist's maximum popularity,
      by non-increasing popularity. */
  lemma TopTracksShape(rows: seq<Row>)
    ensures var res := TopTracks(rows);
      && |res| == Min(TOP_TRACKS, |Artists(rows)|)
      && (forall i, j :: 0 <= i < j < |res| ==> res[i].artist != res[j].artist)
      && (forall i, j :: 0 <= i < j < |res| ==> res[i].popularity >= res[j].popularity)
      && (forall e :: e in res ==>
            && e.artist in Artists(rows)
            && e.popularity == ArtistMax(rows, e.artist)
            && exists r :: r in rows && Project(r) == e)
  {
    TopTracksProject(rows);
    TopTracksOrder(rows);
    TopTracksRows(rows);
  }

  /** No artist whose best row is not selected has a more popular track
      than a selected row. */
  lemma BestRowsOmitted(rows: seq<Row>)
    ensures var t := TopK(BestRows(rows), TOP_TRACKS, Popularity);
      forall a, x :: a in Artists(rows) && a !in Tags(t, RowArtist) && x in t ==> ArtistMax(rows, a) <= x.popularity
  {
    var bs := BestRows(rows);
    var t := TopK(bs, TOP_TRACKS, Popularity);
    BestRowsFacts(rows);
    TopKOmittedTag(bs, TOP_TRACKS, Popularity, RowArtist);
    forall a, x | a in Artists(rows) && a !in Tags(t, RowArtist) && x in t
      ensures ArtistMax(rows, a) <= x.popularity
    {
      var y :| y in bs && RowArtist(y) == a;
      assert Popularity(y) <= Popularity(x);
    }
  }

  /** An artist with no bar has no selected best row. */
  lemma AbsentFromChart(rows: seq<Row>, a: string)
    requires forall d :: d in TopTracks(rows) ==> d.artist != a
    ensures a !in Tags(TopK(BestRows(rows), TOP_TRACKS, Popularity), RowArtist)
  {
    var t := TopK(BestRows(rows), TOP_TRACKS, Popularity);
    var res := Map(t, Project);
    assert res == TopTracks(rows);
    forall x | x in t ensures RowArtist(x) != a {
      var k :| 0 <= k < |t| && t[k] == x;
      assert res[k] == Project(x);
      assert res[k] in res;
    }
    TagsAbsent(t, RowArtist, a);
  }

  /** No artist left off the chart has a more popular track than a bar on
      it. */
  lemma TopTracksOmitted(rows: seq<Row>, a: string, i: int)
    requires a in Artists(rows)
    requires 0 <= i < |TopTracks(rows)|
    requires forall d :: d in TopTracks(rows) ==> d.artist != a
    ensures ArtistMax(rows, a) <= TopTracks(rows)[i].popularity
  {
    var t := TopK(BestRows(rows), TOP_TRACKS, Popularity);
    TopTracksProject(rows);
    BestRowsOmitted(rows);
    assert t[i] in t;
    AbsentFromChart(rows, a);
  }

  /** For the selected entry, every bar is a track of a row of the
      selection (all rows for "Todos", the genre's rows otherwise), there
      are min(10, number of selected artists) bars, and the chart is empty
      exactly when the selection is. */
  lemma TopTracksForFacts(data: seq<Row>, selected: string)
    ensures var sel := Genres.FilteredData(data, selected);
      var res := TopTracksFor(data, selected);
      && |res| == Min(TOP_TRACKS, |Artists(sel)|)
      && (res == [] <==> sel == [])
      && (forall e :: e in res ==>
            exists r :: r in data && (selected == Genres.ALL || Key(r.genre) == Key(selected)) && Project(r) == e)
  {
    var sel := Genres.FilteredData(data, selected);
    assert TopTracksFor(data, selected) == TopTracks(sel);
    TopTracksShape(sel);
    if sel != [] {
      assert sel[0].artist in Artists(sel);
    }
  }
}
