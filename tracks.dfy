/** The track table and the per-artist queries the dashboard runs on it:
    the genre mask, `groupby('artist_name')` with its `max`, `value_counts`
    and `idxmax`, and `isin` on a set of artists. */
module Tracks {
  import opened Collections
  import opened Text

  /** One row of the table. The audio-feature columns pass through
      untouched by the modelled code and are not represented. */
  datatype Row = Row(genre: string, artist: string, track: string, popularity: int)

  function Popularity(r: Row): int {
    r.popularity
  }

  /** `data[mask]` with the mask `key(row.genre) == key`. */
  function RowsOfGenreKey(rows: seq<Row>, key: string): seq<Row> {
    Filter(rows, (r: Row) => Key(r.genre) == key)
  }

  /** `data[data['artist_name'].isin(chosen)]`. */
  function RowsOfArtists(rows: seq<Row>, chosen: set<string>): seq<Row> {
    Filter(rows, (r: Row) => r.artist in chosen)
  }

  /** The group of one artist, in table order. */
  function RowsOfArtist(rows: seq<Row>, a: string): seq<Row> {
    Filter(rows, (r: Row) => r.artist == a)
  }

  function Artists(rows: seq<Row>): set<string> {
    set r | r in rows :: r.artist
  }

  function ArtistColumn(rows: seq<Row>): seq<string> {
    seq(|rows|, i requires 0 <= i < |rows| => rows[i].artist)
  }

  /** The artists in the order `groupby('artist_name')` visits them: each
      one once, in ascending name order. */
  function ArtistNames(rows: seq<Row>): (names: seq<string>)
    ensures NoDup(names) && Sorted(names)
    ensures forall a :: a in names <==> a in Artists(rows)
    ensures |names| == |Artists(rows)|
  {
    var column := ArtistColumn(rows);
    var u := Unique(column);
    var names := SortStrings(u);
    SubMultisetNoDup(names, u);
    assert forall a :: a in names <==> a in u by {
      forall a ensures a in names <==> a in u {
        assert a in names <==> a in multiset(names);
      }
    }
    assert forall a :: a in column <==> a in Artists(rows) by {
      forall a | a in column ensures a in Artists(rows) {
        var i :| 0 <= i < |column| && column[i] == a;
        assert rows[i] in rows;
      }
      forall a | a in Artists(rows) ensures a in column {
        var r :| r in rows && r.artist == a;
        var i :| 0 <= i < |rows| && rows[i] == r;
        assert column[i] == a;
      }
    }
    NoDupCard(names, Artists(rows));
    names
  }

  /** The size of an artist's group is the number of times the artist
      occurs in the artist column (`value_counts`). */
  lemma {:induction false} ArtistCount(rows: seq<Row>, a: string)
    ensures |RowsOfArtist(rows, a)| == multiset(ArtistColumn(rows))[a]
  {
    if rows != [] {
      assert ArtistColumn(rows) == [rows[0].artist] + ArtistColumn(rows[1..]);
      ArtistCount(rows[1..], a);
    }
  }

  lemma ArtistHasRows(rows: seq<Row>, a: string)
    requires a in Artists(rows)
    ensures RowsOfArtist(rows, a) != []
  {
    var r :| r in rows && r.artist == a;
    assert r in RowsOfArtist(rows, a);
  }

  /** The largest popularity in a non-empty group (`max`). */
  function MaxPopularity(rows: seq<Row>): (m: int)
    requires rows != []
    ensures forall r :: r in rows ==> r.popularity <= m
    ensures exists r :: r in rows && r.popularity == m
  {
    if |rows| == 1 then rows[0].popularity
    else
      var m := MaxPopularity(rows[1..]);
      assert rows == [rows[0]] + rows[1..];
      if rows[0].popularity >= m then rows[0].popularity else m
  }

  /** `data.groupby('artist_name')['popularity'].max()` at one artist. */
  function ArtistMax(rows: seq<Row>, a: string): int
    requires a in Artists(rows)
  {
    ArtistHasRows(rows, a);
    MaxPopularity(RowsOfArtist(rows, a))
  }

  /** An artist's maximum is reached by one of its rows and no row of the
      artist exceeds it. */
  lemma ArtistMaxIsMax(rows: seq<Row>, a: string)
    requires a in Artists(rows)
    ensures forall r :: r in rows && r.artist == a ==> r.popularity <= ArtistMax(rows, a)
    ensures exists r :: r in rows && r.artist == a && r.popularity == ArtistMax(rows, a)
  {
    ArtistHasRows(rows, a);
  }

  /** The position of the first row with popularity `p` (what `idxmax`
      returns within a group: the first row reaching the maximum). */
  function FirstIndexOf(rows: seq<Row>, p: int): (i: nat)
    requires exists r :: r in rows && r.popularity == p
    ensures i < |rows| && rows[i].popularity == p
    ensures forall j :: 0 <= j < i ==> rows[j].popularity != p
  {
    if rows[0].popularity == p then 0
    else
      assert exists r :: r in rows[1..] && r.popularity == p by {
        var r :| r in rows && r.popularity == p;
        assert rows == [rows[0]] + rows[1..];
      }
      1 + FirstIndexOf(rows[1..], p)
  }

  /** `data.loc[data.groupby('artist_name')['popularity'].idxmax()]` at one
      artist: its first row of maximal popularity. */
  function BestRow(rows: seq<Row>, a: string): (r: Row)
    requires a in Artists(rows)
    ensures r in rows && r.artist == a && r.popularity == ArtistMax(rows, a)
  {
    var group := RowsOfArtist(rows, a);
    ArtistHasRows(rows, a);
    var i := FirstIndexOf(group, MaxPopularity(group));
    assert group[i] in group;
    group[i]
  }
}
