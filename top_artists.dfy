/** `calculate_top_artists`: the ten artists whose three most popular
    tracks have the highest mean popularity, among the rows of one genre or,
    for "Todos", among the rows of the 500 artists with the highest
    single-track popularity. */
module TopArtists {
  import opened Collections
  import opened Text
  import opened Tracks
  import Genres

  /** How many artists "Todos" restricts the ranking to. */
  const ARTIST_CAP: nat := 500
  /** How many artists the ranking returns. */
  const TOP_ARTISTS: nat := 10
  /** How many tracks per artist the mean is taken over. */
  const TOP_SONGS: nat := 3

  /** One entry of `artist_max_popularity`. */
  datatype ArtistPeak = ArtistPeak(artist: string, peak: int)

  function Peak(p: ArtistPeak): int {
    p.peak
  }

  function PeakArtist(p: ArtistPeak): string {
    p.artist
  }

  /** `data.groupby('artist_name')['popularity'].max()`. */
  function ArtistPeaks(rows: seq<Row>): (ps: seq<ArtistPeak>)
    ensures |ps| == |ArtistNames(rows)|
    ensures forall i :: 0 <= i < |ps| ==> ps[i].artist == ArtistNames(rows)[i]
    ensures forall p :: p in ps ==> p.artist in Artists(rows) && p.peak == ArtistMax(rows, p.artist)
  {
    var names := ArtistNames(rows);
    seq(|names|, i requires 0 <= i < |names| => ArtistPeak(names[i], ArtistMax(rows, names[i])))
  }

  /** `artist_max_popularity.nlargest(500).index`. */
  function CappedArtists(rows: seq<Row>): set<string> {
    Tags(TopK(ArtistPeaks(rows), ARTIST_CAP, Peak), PeakArtist)
  }

  /** The candidate set of lines 36-45: the rows whose genre has the key of
      the filter, or for "Todos" every row of a capped artist. */
  function Candidates(rows: seq<Row>, genreFilter: string): seq<Row> {
    if genreFilter != Genres.ALL then RowsOfGenreKey(rows, Key(genreFilter))
    else RowsOfArtists(rows, CappedArtists(rows))
  }

  /** One row of the result frame. `avgTop3Tenths` is the rounded mean in
      tenths: 80.3 is 803. */
  datatype ArtistStats = ArtistStats(
    artist: string,
    avgTop3Tenths: int,
    bestSongPopularity: int,
    bestSong: string,
    totalSongs: nat)

  function AvgTenths(s: ArtistStats): int {
    s.avgTop3Tenths
  }

  function StatsArtist(s: ArtistStats): string {
    s.artist
  }

  /** `sorted_data.groupby('artist_name').head(3)` at one artist: its rows
      by descending popularity, ties in table order, at most three. */
  function TopSongs(cands: seq<Row>, a: string): seq<Row> {
    TopK(RowsOfArtist(cands, a), TOP_SONGS, Popularity)
  }

  function SumPopularity(rows: seq<Row>): int {
    if rows == [] then 0 else rows[0].popularity + SumPopularity(rows[1..])
  }

  /** `mean().round(1)` of `sum / n`, as a whole number of tenths. */
  function RoundedMeanTenths(sum: int, n: int): int
    requires n > 0
  {
    (20 * sum + n) / (2 * n)
  }

  /** With at most three values the mean is never half-way between two
      tenths, so the rounding is to the unique nearest tenth (and the
      half-to-even rule of `round` never comes into play); the result also
      stays within the mean's own bounds. */
  lemma RoundedMeanNearest(sum: int, n: int, lo: int, hi: int)
    requires 1 <= n <= 3
    requires n * lo <= sum <= n * hi
    ensures var r := RoundedMeanTenths(sum, n);
      && -n < 2 * (10 * sum - n * r) < n
      && 10 * lo <= r <= 10 * hi
  {
    var r := RoundedMeanTenths(sum, n);
    var rem := (20 * sum + n) % (2 * n);
    assert 20 * sum + n == 2 * n * r + rem;
    assert 2 * (10 * sum - n * r) == rem - n;
  }

  /** The aggregate of lines 52-69 for one artist of the candidate set. */
  function StatsOf(cands: seq<Row>, a: string): ArtistStats
    requires a in Artists(cands)
  {
    var top := TopSongs(cands, a);
    ArtistHasRows(cands, a);
    ArtistStats(
      a,
      RoundedMeanTenths(SumPopularity(top), |top|),
      MaxPopularity(top),
      top[0].track,
      |RowsOfArtist(cands, a)|)
  }

  /** `artist_stats`: one aggregate per artist, in `groupby` order. */
  function AllStats(cands: seq<Row>): (ss: seq<ArtistStats>)
    ensures |ss| == |ArtistNames(cands)|
    ensures forall i :: 0 <= i < |ss| ==> ss[i].artist == ArtistNames(cands)[i]
    ensures forall s :: s in ss ==> s.artist in Artists(cands) && s == StatsOf(cands, s.artist)
  {
    var names := ArtistNames(cands);
    seq(|names|, i requires 0 <= i < |names| => StatsOf(cands, names[i]))
  }

  /** `artist_stats.nlargest(10, 'avg_top3_popularity')`. */
  function Ranking(cands: seq<Row>): seq<ArtistStats> {
    TopK(AllStats(cands), TOP_ARTISTS, AvgTenths)
  }

  /** `calculate_top_artists(genre_filter)`, with the loaded table as a
      parameter: `None` is what `load_data` returns when the file is
      missing. */
  function CalculateTopArtists(data: Option<seq<Row>>, genreFilter: string): seq<ArtistStats> {
    match data
    case None => []
    case Some(rows) =>
      var cands := Candidates(rows, genreFilter);
      if |cands| == 0 then [] else Ranking(cands)
  }

  // ---------------------------------------------------------------------
  // The candidate set

  /** With a genre filter, the candidates are exactly the rows whose genre
      key is the filter's key, in table order: a single row is kept alone or
      dropped, and the candidates of two tables laid end to end are those of
      the first followed by those of the second. */
  lemma CandidatesGenreMode(rows: seq<Row>, more: seq<Row>, genreFilter: string)
    requires genreFilter != Genres.ALL
    ensures forall r :: r in Candidates(rows, genreFilter) <==> r in rows && Key(r.genre) == Key(genreFilter)
    ensures forall r :: Candidates([r], genreFilter) == if Key(r.genre) == Key(genreFilter) then [r] else []
    ensures Candidates(rows + more, genreFilter) == Candidates(rows, genreFilter) + Candidates(more, genreFilter)
  {
    FilterAppend(rows, more, (r: Row) => Key(r.genre) == Key(genreFilter));
    forall r ensures Candidates([r], genreFilter) == if Key(r.genre) == Key(genreFilter) then [r] else [] {
      assert [r][1..] == [];
    }
  }

  /** The peaks carry pairwise different artists, so the capped selection
      holds each artist once. */
  lemma PeaksDistinct(rows: seq<Row>)
    ensures var ps := ArtistPeaks(rows);
      forall i, j :: 0 <= i < j < |ps| ==> PeakArtist(ps[i]) != PeakArtist(ps[j])
  {
    var ps := ArtistPeaks(rows);
    var names := ArtistNames(rows);
    forall i, j | 0 <= i < j < |ps| ensures PeakArtist(ps[i]) != PeakArtist(ps[j]) {
      assert ps[i].artist == names[i] && ps[j].artist == names[j];
    }
  }

  /** The artists of the peaks are the artists of the table. */
  lemma PeakArtists(rows: seq<Row>)
    ensures Tags(ArtistPeaks(rows), PeakArtist) == Artists(rows)
  {
    var ps := ArtistPeaks(rows);
    var names := ArtistNames(rows);
    forall a | a in Artists(rows) ensures a in Tags(ps, PeakArtist) {
      var i :| 0 <= i < |names| && names[i] == a;
      assert ps[i] in ps;
    }
  }

  /** At most 500 artists are chosen for "Todos", all of them when there
      are no more, and only artists of the table. */
  lemma CappedArtistsSize(rows: seq<Row>)
    ensures CappedArtists(rows) <= Artists(rows)
    ensures |CappedArtists(rows)| == Min(ARTIST_CAP, |Artists(rows)|)
  {
    PeaksDistinct(rows);
    PeakArtists(rows);
    TopKTagCount(ArtistPeaks(rows), ARTIST_CAP, Peak, PeakArtist);
  }

  /** No artist left out of the "Todos" selection has a higher maximum
      popularity than an artist chosen. */
  lemma CappedArtistsBest(rows: seq<Row>)
    ensures forall a, b :: a in Artists(rows) && a !in CappedArtists(rows) && b in CappedArtists(rows) ==>
      b in Artists(rows) && ArtistMax(rows, a) <= ArtistMax(rows, b)
  {
    var ps := ArtistPeaks(rows);
    var t := TopK(ps, ARTIST_CAP, Peak);
    CappedArtistsSize(rows);
    PeakArtists(rows);
    TopKMembers(ps, ARTIST_CAP, Peak);
    TopKOmittedTag(ps, ARTIST_CAP, Peak, PeakArtist);
    forall a, b | a in Artists(rows) && a !in CappedArtists(rows) && b in CappedArtists(rows)
      ensures b in Artists(rows) && ArtistMax(rows, a) <= ArtistMax(rows, b)
    {
      var y :| y in ps && PeakArtist(y) == a;
      var x :| x in t && PeakArtist(x) == b;
      assert Peak(y) <= Peak(x);
    }
  }

  /** For "Todos", every row of a chosen artist is a candidate and no other
      row is; the choice is capped at 500 artists and favours the highest
      maximum popularities. */
  lemma CandidatesAllMode(rows: seq<Row>)
    ensures var chosen := CappedArtists(rows);
      && chosen <= Artists(rows)
      && |chosen| == Min(ARTIST_CAP, |Artists(rows)|)
      && (forall r :: r in Candidates(rows, Genres.ALL) <==> r in rows && r.artist in chosen)
      && (forall a, b :: a in Artists(rows) && a !in chosen && b in chosen ==>
            ArtistMax(rows, a) <= ArtistMax(rows, b))
  {
    CappedArtistsSize(rows);
    CappedArtistsBest(rows);
  }

  /** With no more than 500 artists in the table, "Todos" chooses them all
      and the candidates are the whole table. */
  lemma CandidatesAllFew(rows: seq<Row>)
    requires |Artists(rows)| <= ARTIST_CAP
    ensures CappedArtists(rows) == Artists(rows)
    ensures Candidates(rows, Genres.ALL) == rows
  {
    CappedArtistsSize(rows);
    SubsetSameSize(CappedArtists(rows), Artists(rows));
    FilterAll(rows, (r: Row) => r.artist in CappedArtists(rows));
  }

  // ---------------------------------------------------------------------
  // One artist's aggregate

  /** A row of the group that no other row exceeds carries the maximum. */
  lemma MaxAt(rows: seq<Row>, r: Row)
    requires r in rows
    requires forall y :: y in rows ==> y.popularity <= r.popularity
    ensures MaxPopularity(rows) == r.popularity
  {
  }

  lemma {:induction false} SumBounds(rows: seq<Row>, lo: int, hi: int)
    requires forall r :: r in rows ==> lo <= r.popularity <= hi
    ensures |rows| * lo <= SumPopularity(rows) <= |rows| * hi
  {
    if rows != [] {
      var n := |rows| - 1;
      assert rows[0] in rows;
      assert forall r :: r in rows[1..] ==> r in rows;
      SumBounds(rows[1..], lo, hi);
      MulSucc(n, lo);
      MulSucc(n, hi);
    }
  }

  lemma MulSucc(n: int, x: int)
    ensures (n + 1) * x == n * x + x
  {
  }

  /** An artist's top tracks are min(3, n) of its candidate rows, from the
      most popular to the least. */
  lemma TopSongsShape(cands: seq<Row>, a: string)
    requires a in Artists(cands)
    ensures var top := TopSongs(cands, a);
      && top != []
      && |top| == Min(TOP_SONGS, |RowsOfArtist(cands, a)|)
      && (forall r :: r in top ==> r in cands && r.artist == a)
      && (forall r :: r in top ==> top[|top| - 1].popularity <= r.popularity <= top[0].popularity)
      && NonIncreasing(top, Popularity)
  {
    var g := RowsOfArtist(cands, a);
    ArtistHasRows(cands, a);
    TopKMembers(g, TOP_SONGS, Popularity);
    TopKEnds(g, TOP_SONGS, Popularity);
  }

  /** An artist's top tracks are min(3, n) of its candidate rows, none of
      the rows left out is more popular than one kept, and the first is the
      most popular. */
  lemma TopSongsHead(cands: seq<Row>, a: string)
    requires a in Artists(cands)
    ensures var top := TopSongs(cands, a);
      && top != []
      && |top| == Min(TOP_SONGS, |RowsOfArtist(cands, a)|)
      && (forall r :: r in top ==> r in cands && r.artist == a)
      && (forall r :: r in top ==> top[|top| - 1].popularity <= r.popularity <= top[0].popularity)
      && (forall y, x :: y in multiset(RowsOfArtist(cands, a)) - multiset(top) && x in top ==>
            y.popularity <= x.popularity)
      && top[0].popularity == ArtistMax(cands, a)
      && MaxPopularity(top) == ArtistMax(cands, a)
  {
    TopSongsShape(cands, a);
    TopSongsOmitted(cands, a);
    TopSongsMax(cands, a);
  }

  /** No row of the artist left out is more popular than a selected one. */
  lemma TopSongsOmitted(cands: seq<Row>, a: string)
    ensures var top := TopSongs(cands, a);
      forall y, x :: y in multiset(RowsOfArtist(cands, a)) - multiset(top) && x in top ==>
        y.popularity <= x.popularity
  {
    var g := RowsOfArtist(cands, a);
    var top := TopK(g, TOP_SONGS, Popularity);
    forall y: Row, x: Row | y in multiset(g) - multiset(top) && x in top ensures y.popularity <= x.popularity {
      assert Popularity(y) <= Popularity(x);
    }
  }

  /** The first selected song carries the artist's maximum popularity, which
      is also the maximum of the selection. */
  lemma TopSongsMax(cands: seq<Row>, a: string)
    requires a in Artists(cands)
    ensures var top := TopSongs(cands, a);
      && top != []
      && top[0].popularity == ArtistMax(cands, a)
      && MaxPopularity(top) == ArtistMax(cands, a)
  {
    var g := RowsOfArtist(cands, a);
    ArtistHasRows(cands, a);
    var top := TopK(g, TOP_SONGS, Popularity);
    TopKHead(g, TOP_SONGS, Popularity);
    MaxAt(g, top[0]);
    TopKEnds(g, TOP_SONGS, Popularity);
    assert top[0] in top;
    MaxAt(top, top[0]);
  }

  /** The best song is a track of the artist at the artist's maximum
      popularity, and the total is the artist's number of candidate rows,
      at least one. */
  lemma StatsBest(cands: seq<Row>, a: string)
    requires a in Artists(cands)
    ensures var s := StatsOf(cands, a);
      && s.artist == a
      && s.bestSongPopularity == ArtistMax(cands, a)
      && (exists r :: r in cands && r.artist == a && r.track == s.bestSong && r.popularity == s.bestSongPopularity)
      && s.totalSongs == multiset(ArtistColumn(cands))[a]
      && s.totalSongs >= 1
  {
    TopSongsHead(cands, a);
    ArtistCount(cands, a);
    ArtistHasRows(cands, a);
    var top := TopSongs(cands, a);
    assert top[0] in top;
  }

  /** The average is the mean of the artist's min(3, n) most popular
      candidate tracks rounded to the nearest tenth (never a tie), and lies
      between ten times the least of them and ten times the best
      popularity. */
  lemma StatsMean(cands: seq<Row>, a: string)
    requires a in Artists(cands)
    ensures var s := StatsOf(cands, a);
      var top := TopSongs(cands, a);
      var n := |top|;
      && n == Min(TOP_SONGS, s.totalSongs) && n >= 1
      && (forall r :: r in top ==> r in cands && r.artist == a)
      && s.avgTop3Tenths == RoundedMeanTenths(SumPopularity(top), n)
      && -n < 2 * (10 * SumPopularity(top) - n * s.avgTop3Tenths) < n
      && 10 * top[n - 1].popularity <= s.avgTop3Tenths <= 10 * s.bestSongPopularity
  {
    TopSongsShape(cands, a);
    var top := TopSongs(cands, a);
    assert top[0] in top;
    MaxAt(top, top[0]);
    TopMeanBounds(top);
  }

  /** The rounded mean of one to three rows in non-increasing order lies
      within half a tenth of the exact mean, and between ten times the last
      and ten times the first popularity. */
  lemma TopMeanBounds(top: seq<Row>)
    requires 1 <= |top| <= 3
    requires forall r :: r in top ==> top[|top| - 1].popularity <= r.popularity <= top[0].popularity
    ensures var n, r := |top|, RoundedMeanTenths(SumPopularity(top), |top|);
      && -n < 2 * (10 * SumPopularity(top) - n * r) < n
      && 10 * top[n - 1].popularity <= r <= 10 * top[0].popularity
  {
    var n := |top|;
    SumBounds(top, top[n - 1].popularity, top[0].popularity);
    RoundedMeanNearest(SumPopularity(top), n, top[n - 1].popularity, top[0].popularity);
  }

  // ---------------------------------------------------------------------
  // The ranking

  /** The aggregates carry pairwise different artists. */
  lemma StatsDistinct(cands: seq<Row>)
    ensures var ss := AllStats(cands);
      forall i, j :: 0 <= i < j < |ss| ==> StatsArtist(ss[i]) != StatsArtist(ss[j])
  {
    var ss := AllStats(cands);
    var names := ArtistNames(cands);
    forall i, j | 0 <= i < j < |ss| ensures StatsArtist(ss[i]) != StatsArtist(ss[j]) {
      assert ss[i].artist == names[i] && ss[j].artist == names[j];
    }
  }

  /** The ranking has min(10, number of artists) entries for distinct
      artists, each the aggregate of its artist, by non-increasing average. */
  lemma RankingShape(cands: seq<Row>)
    ensures var res := Ranking(cands);
      && |res| == Min(TOP_ARTISTS, |Artists(cands)|)
      && (forall i, j :: 0 <= i < j < |res| ==> res[i].artist != res[j].artist)
      && (forall e :: e in res ==> e.artist in Artists(cands) && e == StatsOf(cands, e.artist))
      && NonIncreasing(res, AvgTenths)
  {
    var ss := AllStats(cands);
    StatsDistinct(cands);
    TopKDistinctTags(ss, TOP_ARTISTS, AvgTenths, StatsArtist);
    TopKMembers(ss, TOP_ARTISTS, AvgTenths);
  }

  /** No artist left out of the ranking has a higher average than an
      artist in it. */
  lemma RankingOmitted(cands: seq<Row>)
    ensures forall a, e ::
      a in Artists(cands) && e in Ranking(cands) && (forall d :: d in Ranking(cands) ==> d.artist != a) ==>
      StatsOf(cands, a).avgTop3Tenths <= e.avgTop3Tenths
  {
    forall a, e | a in Artists(cands) && e in Ranking(cands) && (forall d :: d in Ranking(cands) ==> d.artist != a)
      ensures StatsOf(cands, a).avgTop3Tenths <= e.avgTop3Tenths
    {
      RankingOmittedAt(cands, a, e);
    }
  }

  /** One artist `a` with no entry against one entry `e`. */
  lemma RankingOmittedAt(cands: seq<Row>, a: string, e: ArtistStats)
    requires a in Artists(cands) && e in Ranking(cands)
    requires forall d :: d in Ranking(cands) ==> d.artist != a
    ensures StatsOf(cands, a).avgTop3Tenths <= e.avgTop3Tenths
  {
    var ss := AllStats(cands);
    var names := ArtistNames(cands);
    var res := TopK(ss, TOP_ARTISTS, AvgTenths);
    assert res == Ranking(cands);
    var i :| 0 <= i < |names| && names[i] == a;
    var y := ss[i];
    assert y in ss && StatsArtist(y) == a;
    TagsAbsent(res, StatsArtist, a);
    TopKOmittedTagAt(ss, TOP_ARTISTS, AvgTenths, StatsArtist, y, e);
  }

  /** The result of `calculate_top_artists` has min(10, number of candidate
      artists) entries for distinct artists, each the aggregate of its
      artist, by non-increasing average, and no artist left out has a higher
      average than one kept. */
  lemma TopArtistsRanking(rows: seq<Row>, genreFilter: string)
    ensures var cands := Candidates(rows, genreFilter);
      var res := CalculateTopArtists(Some(rows), genreFilter);
      && |res| == Min(TOP_ARTISTS, |Artists(cands)|)
      && (forall i, j :: 0 <= i < j < |res| ==> res[i].artist != res[j].artist)
      && (forall e :: e in res ==> e.artist in Artists(cands) && e == StatsOf(cands, e.artist))
      && NonIncreasing(res, AvgTenths)
      && (forall a, e ::
            a in Artists(cands) && e in res && (forall d :: d in res ==> d.artist != a) ==>
            StatsOf(cands, a).avgTop3Tenths <= e.avgTop3Tenths)
  {
    var cands := Candidates(rows, genreFilter);
    var res := CalculateTopArtists(Some(rows), genreFilter);
    if |cands| == 0 {
      assert res == [];
      assert Artists(cands) == {};
    } else {
      assert res == Ranking(cands);
      RankingShape(cands);
      RankingOmitted(cands);
    }
  }

  /** The ranking is empty exactly when there is no table or no candidate
      row; in particular a genre that no row has gives an empty ranking. */
  lemma TopArtistsEmpty(data: Option<seq<Row>>, genreFilter: string)
    ensures CalculateTopArtists(data, genreFilter) == [] <==>
      data.None? || Candidates(data.value, genreFilter) == []
    ensures
      (&& data.Some? && genreFilter != Genres.ALL
       && forall r :: r in data.value ==> Key(r.genre) != Key(genreFilter))
      ==> CalculateTopArtists(data, genreFilter) == []
  {
    if data.Some? {
      var cands := Candidates(data.value, genreFilter);
      TopArtistsRanking(data.value, genreFilter);
      if cands != [] {
        assert cands[0].artist in Artists(cands);
      }
    }
  }
}
