# Spotify features dashboard: record-processing core in Dafny

The dashboard in `projeto/projeto/main.py` reads a table of tracks. Each row
has a genre, an artist name, a track name and an integer popularity. From
that table it builds three things:

- **The genre selector.** The distinct raw genres are walked in order. Each
  one is trimmed and has its quote characters mapped to `'`, which gives
  its label. A label is kept only when no earlier label has the same key.
  The key is the label lower-cased, with every character that is not an
  ASCII letter, digit or white space deleted. The list shown is `Todos`
  followed by the kept labels in ascending order. The selected entry
  filters the table by comparing keys.
- **The top-artist ranking (`calculate_top_artists`).**
  - The candidate rows are either the rows of one genre key, or, for
    `Todos`, every row of the 500 artists with the highest single-track
    popularity.
  - Each candidate artist gets an aggregate from its three most popular
    rows: their mean popularity rounded to one decimal, the best
    popularity, the best track's name, and the artist's total number of
    candidate rows.
  - The result is the ten aggregates with the highest mean.
- **The best-track chart.** Each artist contributes its first row of
  maximal popularity. The chart shows the ten most popular of those rows.

The model is written over values. It has seven modules:

- `Collections`:
  - first-occurrence de-duplication (`unique`);
  - order-preserving filtering (boolean masks);
  - a stable descending sort with its top-k prefix (`nlargest`, `head`).
- `Text`:
  - ASCII `lower()`;
  - the key filter `[^a-zA-Z0-9\s]`;
  - `strip()`;
  - the quote mapping;
  - Python's code-point string order together with `sorted()`.
- `FirstKeys`: the "first label per key" walk of the selector, stated for
  any labelling and any key function, with its properties.
- `Tracks`: the row type and the per-artist queries (`groupby` with `max`,
  `idxmax` and `value_counts`).
- `Genres`:
  - the selector list, including the de-duplication loop, which is a method
    with loop invariants;
  - the dashboard filter.
- `TopArtists`: `calculate_top_artists`.
- `BestTracks`: the best-track chart.

Each function has an independent statement of what its result means, proved
as contracts and lemmas:

- For the de-duplication loop, the result equals a reference definition
  (`KeptLabels`). The reference definition's meaning is then proved
  separately.
- For the rankings, the statements cover:
  - size;
  - distinctness;
  - order;
  - "nothing left out beats anything kept";
  - how each entry relates to the input rows.

Conventions of the model:

- **Averages are whole numbers of tenths.** A mean of 80.3 is 803. This is
  exact, because a mean of at most three integers is never half-way between
  two tenths (`RoundedMeanNearest`): the exact mean is at least 1/6 of a
  tenth away from every half-way point. float64 misses `sum / n`, and the
  scaling by 10 inside `round(1)`, by far less than that gap, so the
  rounded value pandas computes is the one modelled. This holds for the
  0-100 popularities of the data set.
- **`groupby` visits names in ascending order.** This is pandas' default
  `sort=True` behaviour, and the model's groups follow it
  (`Tracks.ArtistNames`).
- **Where pandas breaks ties, the model picks one definite order.**
  `nlargest` and the descending sort keep equal elements in input order.
  No proved property depends on this choice.
- **A missing data file is the `None` input.** `load_data` returns `None`
  when the CSV file is missing; the model takes the table as an
  `Option<seq<Row>>` parameter.

Behaviour of the code that the model makes explicit:

- **"Hip-Hop" and "hip hop" get different keys.** The hyphen is deleted
  but the space is kept, giving "hiphop" and "hip hop"
  (`Text.HyphenDeleted`, `Text.SpaceKept`). The comment at line 96 says
  that spaces are removed; the key expression keeps inner white space, and
  the model follows the expression.
- **Typographic and ASCII apostrophes are merged.** "Children’s Music" and
  "Children's Music" do share a key (`Genres.ApostrophesMerge`). The
  typographic apostrophe is not in the quote class, but the key filter
  deletes it.
- **The list and the filter key different strings.** The list keys the
  trimmed label while the filter keys the raw, untrimmed genre. A row whose
  genre has surrounding white space is listed under its trimmed label, and
  that label does not select it (`Genres.PaddedGenreNotSelected`).
- **A raw genre spelled "Todos" would be shown twice.** Its label would
  appear a second time, among the sorted labels after the sentinel, and the
  code does not guard against this.

## Model

| member | source | states |
|---|---|---|
| Text.IsSpace | projeto/projeto/main.py:97-98 | Python's `isspace` set, which both `\s` and `strip()` use; its role is stated by `Text.KeyAlphabet` and `Text.StripShape` |
| Text.Lower | projeto/projeto/main.py:98 | ASCII `lower()`, character by character; its meaning is stated through `Text.KeyIgnoresCase` |
| Text.KeepKeyChars | projeto/projeto/main.py:98 | `re.sub(r'[^a-zA-Z0-9\s]', '', ...)` is never longer than its input; which characters it keeps is stated by `Text.KeepKeyCharsSound` and `Text.KeepKeyCharsKeepsAll` |
| Text.Key | projeto/projeto/main.py:38 | the key of lines 38, 98 and 111, `lower()` then the substitution; its meaning is stated by `Text.KeyAlphabet`, `Text.KeyIdempotent`, `Text.KeyIgnoresCase` and `Text.KeyIgnoresPunctuation` |
| Text.KeyAlphabet | projeto/projeto/main.py:38 | a key holds only lower-case ASCII letters, digits and white space, and is never longer than its label |
| Text.KeyIdempotent | projeto/projeto/main.py:98 | taking the key of a key changes nothing |
| Text.KeyIgnoresCase | projeto/projeto/main.py:111 | labels differing only in ASCII letter case have the same key |
| Text.KeyIgnoresPunctuation | projeto/projeto/main.py:98 | deleting any character outside the class `[a-zA-Z0-9\s]` leaves the key unchanged |
| Text.HyphenDeleted | projeto/projeto/main.py:98 | the key of "Hip-Hop" is "hiphop" |
| Text.SpaceKept | projeto/projeto/main.py:98 | the key of "hip hop" is "hip hop": white space is kept |
| Text.KeepKeyCharsSound | projeto/projeto/main.py:98 | the substitution keeps only class characters, all taken from its input |
| Text.KeepKeyCharsKeepsAll | projeto/projeto/main.py:98 | the substitution changes nothing in a string made only of class characters |
| Text.Strip | projeto/projeto/main.py:97 | `str.strip()` with Python's white-space set; its meaning is stated by `Text.StripShape`, `Text.StripUnpadded` and `Text.StripIdempotent` |
| Text.StripShape | projeto/projeto/main.py:97 | `strip()` returns a contiguous part of its input, with only white space cut from each end, that neither starts nor ends with white space |
| Text.StripUnpadded | projeto/projeto/main.py:97 | a string without white space at either end is left unchanged |
| Text.StripIdempotent | projeto/projeto/main.py:97 | stripping twice gives the same as stripping once |
| Text.NormalizeQuotes | projeto/projeto/main.py:97 | `re.sub(r'[""\'`]', "'", ...)`: every character of the class becomes `'`; its meaning is stated by `Text.NormalizeQuotesFacts` |
| Text.NormalizeQuotesFacts | projeto/projeto/main.py:97-98 | after the mapping no `"` or backtick is left; the mapping is idempotent and does not change the key |
| Text.LexLeTotal | projeto/projeto/main.py:104 | any two strings are comparable in code-point order |
| Text.LexLeTransitive | projeto/projeto/main.py:104 | code-point order is transitive |
| Text.LexLeAntisymmetric | projeto/projeto/main.py:104 | two strings that are each ordered before the other are equal |
| Text.SortStrings | projeto/projeto/main.py:104 | `sorted()` returns an ascending permutation of its input |
| Text.SortedUnique | projeto/projeto/main.py:104 | two ascending arrangements of the same multiset are equal, so the sorted list is determined |
| Collections.Unique | projeto/projeto/main.py:90 | `unique()` has no repeats, has the same members as its input, and is no longer than it; its order is stated by `Collections.UniqueOrder` |
| Collections.UniqueOrder | projeto/projeto/main.py:90 | `unique()` lists the distinct elements in the order of their first occurrences |
| Collections.Filter | projeto/projeto/main.py:40 | a boolean mask keeps exactly the rows that satisfy it |
| Collections.FilterAppend | projeto/projeto/main.py:40 | masking a concatenation masks each part and keeps them in order |
| Collections.SortDesc | projeto/projeto/main.py:52 | the descending sort is non-increasing and a permutation of its input |
| Collections.TopK | projeto/projeto/main.py:72 | `nlargest(k)` returns min(k, n) elements in non-increasing order, drawn from the input, with nothing left out scoring more than anything kept |
| Collections.TopKEnds | projeto/projeto/main.py:55 | when something is asked for from a non-empty input, something is selected, and every selected score lies between the last and the first (the first being the highest of the input is `Collections.TopKHead`) |
| Collections.TopKTagCount | projeto/projeto/main.py:44 | with pairwise different tags, the selection holds min(k, n) tags, all taken from the input |
| Collections.TopKDistinctTags | projeto/projeto/main.py:44 | with pairwise different tags, the selected elements also have pairwise different tags |
| Collections.TopKOmittedTag | projeto/projeto/main.py:72 | an element whose tag is not selected scores no more than any selected element |
| Tracks.RowsOfArtists | projeto/projeto/main.py:45 | `data[data['artist_name'].isin(chosen)]`: the rows whose artist is chosen, in table order; its meaning is stated through `Collections.Filter` and `TopArtists.CandidatesAllMode` |
| Tracks.RowsOfGenreKey | projeto/projeto/main.py:39-40 | the rows whose raw genre has a given key, in table order; its meaning is stated through `Collections.Filter` and `TopArtists.CandidatesGenreMode` |
| Tracks.ArtistNames | projeto/projeto/main.py:58 | `groupby` visits every artist of the table exactly once, in ascending name order |
| Tracks.ArtistCount | projeto/projeto/main.py:68 | an artist's group has as many rows as the artist's `value_counts` entry |
| Tracks.MaxPopularity | projeto/projeto/main.py:43 | `max` of a non-empty group is reached by one of its rows, and no row exceeds it |
| Tracks.ArtistMax | projeto/projeto/main.py:43 | `groupby('artist_name')['popularity'].max()` at one artist; its meaning is stated by `Tracks.ArtistMaxIsMax` |
| Tracks.ArtistMaxIsMax | projeto/projeto/main.py:43 | an artist's maximum is reached by one of the artist's rows, and no row of the artist exceeds it |
| Tracks.FirstIndexOf | projeto/projeto/main.py:247 | the index `idxmax` picks holds the maximum, and no earlier row holds it |
| Tracks.BestRow | projeto/projeto/main.py:247 | an artist's best row is a row of the table for that artist, at the artist's maximum popularity |
| Genres.Label | projeto/projeto/main.py:97 | the label of a raw genre, stripped and with its quotes mapped; its meaning is stated by `Text.StripShape` and `Text.NormalizeQuotesFacts`, and `Genres.UnchangedLabel` |
| Genres.KeptLabels | projeto/projeto/main.py:95-102 | the reference list of kept labels (the walk of `FirstKeys.KeepFirst` with `Label` and `Key`); its meaning is stated by the `Genres.KeptLabels*` lemmas and it is what `Genres.DedupGenres` computes |
| Genres.KeptLabelsSound | projeto/projeto/main.py:97 | every kept label is the trimmed, quote-mapped label of one of the genres |
| Genres.KeptLabelsDistinctKeys | projeto/projeto/main.py:100-102 | no two kept labels share a key |
| Genres.KeptLabelsCover | projeto/projeto/main.py:100-102 | the key of every raw genre is the key of some kept label |
| Genres.KeptLabelsFirstSeen | projeto/projeto/main.py:95-102 | each kept label is the label of a genre whose key no earlier genre had |
| Genres.KeptLabelsComplete | projeto/projeto/main.py:95-102 | the label of every genre whose key no earlier genre had is kept |
| Genres.KeptLabelsOfUnique | projeto/projeto/main.py:90-95 | walking only the distinct raw genres keeps the same labels as walking every raw genre |
| Genres.KeysOfSnoc | projeto/projeto/main.py:100-102 | one loop step: the seen-key set grows by the genre's key, and a key is new exactly when it is absent from the set |
| Genres.DedupGenres | projeto/projeto/main.py:92-102 | the loop's output equals the reference kept-label list; its labels have pairwise different keys and cover the key of every input genre |
| Genres.SidebarGenres | projeto/projeto/main.py:90-104 | the selector list is `Todos` followed by the kept labels, sorted; it is an ascending permutation of the kept labels, and at most 1 + the number of distinct raw genres long |
| Genres.SidebarKeys | projeto/projeto/main.py:104 | the labels after `Todos` have pairwise different keys, and every row's trimmed genre key is the key of one of them |
| Genres.FilteredData | projeto/projeto/main.py:108-113 | the dashboard keeps every row for `Todos`, otherwise exactly the rows whose raw genre key equals the selected label's key |
| Genres.ApostrophesMerge | projeto/projeto/main.py:97-98 | "Children’s Music" and "Children's Music" have the same key |
| Genres.PaddedGenreNotSelected | projeto/projeto/main.py:97-112 | a row with genre " Pop" is listed as "Pop", yet selecting "Pop" does not keep it |
| TopArtists.CappedArtists | projeto/projeto/main.py:43-44 | the artists of `nlargest(500)` over the per-artist maxima; its meaning is stated by `TopArtists.CappedArtistsSize` and `TopArtists.CappedArtistsBest` |
| TopArtists.Candidates | projeto/projeto/main.py:36-45 | `filtered_data` for a filter; its meaning is stated by `TopArtists.CandidatesGenreMode`, `TopArtists.CandidatesAllMode` and `TopArtists.CandidatesAllFew` |
| TopArtists.CandidatesAllFew | projeto/projeto/main.py:43-45 | with no more than 500 artists, "Todos" chooses every artist and the candidates are the whole table |
| TopArtists.TopSongs | projeto/projeto/main.py:52-55 | `sort_values` then `head(3)` for one artist; its meaning is stated by `TopArtists.TopSongsShape`, `TopArtists.TopSongsOmitted`, `TopArtists.TopSongsMax` and `TopArtists.TopSongsHead` |
| TopArtists.TopSongsShape | projeto/projeto/main.py:52-55 | an artist's top rows are min(3, n) candidate rows of that artist, in non-increasing popularity, each between the last and the first |
| TopArtists.RoundedMeanTenths | projeto/projeto/main.py:59-61 | `mean()` then `round(1)`, in tenths; its meaning is stated by `TopArtists.RoundedMeanNearest` |
| TopArtists.StatsOf | projeto/projeto/main.py:58-69 | one artist's `artist_stats` row; its meaning is stated by `TopArtists.StatsBest` and `TopArtists.StatsMean` |
| TopArtists.ArtistPeaks | projeto/projeto/main.py:43 | `groupby('artist_name')['popularity'].max()`: one peak per artist, in `groupby` order, each holding the artist's maximum popularity; what the cap built on it means is stated by `TopArtists.CappedArtistsSize` and `TopArtists.CappedArtistsBest` |
| TopArtists.RoundedMeanNearest | projeto/projeto/main.py:61 | for 1-3 values, the rounded mean in tenths is strictly within half a tenth of the exact mean, so ties never arise; it lies within the values' bounds |
| TopArtists.CandidatesGenreMode | projeto/projeto/main.py:36-40 | with a genre filter, the candidates are exactly the rows with the filter's key, in table order: one row is kept or dropped, and candidates of a concatenation concatenate |
| TopArtists.CappedArtistsSize | projeto/projeto/main.py:43-44 | `Todos` chooses min(500, number of artists) artists, all from the table |
| TopArtists.CappedArtistsBest | projeto/projeto/main.py:43-44 | no artist left out of the `Todos` choice has a higher maximum popularity than a chosen artist |
| TopArtists.CandidatesAllMode | projeto/projeto/main.py:41-45 | for `Todos`, the candidates are exactly the rows of the chosen artists; there are min(500, n) chosen artists, and none left out has a higher maximum |
| TopArtists.TopSongsHead | projeto/projeto/main.py:52-55 | an artist's top rows are min(3, n) of its candidate rows; none left out is more popular than one kept; the first is the artist's maximum |
| TopArtists.TopSongsOmitted | projeto/projeto/main.py:52-55 | no row of the artist left out of the top rows is more popular than one kept |
| TopArtists.TopSongsMax | projeto/projeto/main.py:52-55 | the first of an artist's top rows carries the artist's maximum popularity, which is also the maximum of the top rows |
| TopArtists.TopMeanBounds | projeto/projeto/main.py:58-61 | the rounded mean of one to three rows, each with a popularity between the last row's and the first row's, is within half a tenth of the exact mean and between ten times the last and ten times the first popularity |
| TopArtists.SumBounds | projeto/projeto/main.py:59 | the sum of n popularities lies between n times a lower bound and n times an upper bound |
| TopArtists.StatsBest | projeto/projeto/main.py:59-69 | `best_song_popularity` is the artist's maximum; `best_song` names a candidate row of that artist at that popularity; `total_songs` is the artist's `value_counts`, at least 1 |
| TopArtists.StatsMean | projeto/projeto/main.py:58-61 | the average is the mean of the top min(3, total) rows rounded to the nearest tenth, between ten times the least of them and ten times `best_song_popularity` |
| TopArtists.AllStats | projeto/projeto/main.py:58-69 | `artist_stats`: one aggregate per candidate artist, in `groupby` order, each the aggregate of its artist; its entries' meaning is stated by `TopArtists.StatsBest`, `TopArtists.StatsMean` and `TopArtists.RankingShape` |
| TopArtists.Ranking | projeto/projeto/main.py:72 | `artist_stats.nlargest(10, 'avg_top3_popularity')`; its meaning is stated by `TopArtists.RankingShape` and `TopArtists.RankingOmitted` |
| TopArtists.RankingShape | projeto/projeto/main.py:72 | the ranking has min(10, number of artists) entries; artists are distinct, each entry is its artist's aggregate, and averages are non-increasing |
| TopArtists.RankingOmitted | projeto/projeto/main.py:72 | no artist left out of the ranking has a higher average than an entry |
| TopArtists.CalculateTopArtists | projeto/projeto/main.py:29-74 | `calculate_top_artists`; its meaning is stated by `TopArtists.TopArtistsRanking` and `TopArtists.TopArtistsEmpty` |
| TopArtists.TopArtistsRanking | projeto/projeto/main.py:29-74 | the result has min(10, number of candidate artists) entries for distinct candidate artists, each its aggregate, non-increasing, with no omitted artist averaging higher |
| TopArtists.TopArtistsEmpty | projeto/projeto/main.py:32-48 | the result is empty exactly when there is no table or no candidate row; a genre that no row has gives an empty result |
| BestTracks.BestRows | projeto/projeto/main.py:247 | `loc[groupby(...).idxmax()]`: one best row per artist, in `groupby` order; its meaning is stated by `BestTracks.BestRowsFacts` |
| BestTracks.BestRowsFacts | projeto/projeto/main.py:247 | the best rows belong to pairwise different artists; each is a row of the table at its artist's maximum; together they cover every artist |
| BestTracks.TopTracks | projeto/projeto/main.py:247 | the ten best artist rows, projected to artist, track and popularity; its meaning is stated by `BestTracks.TopTracksShape` and `BestTracks.TopTracksOmitted` |
| BestTracks.TopTracksFor | projeto/projeto/main.py:245-250 | the chart for the selected entry; its meaning is stated by `BestTracks.TopTracksForFacts` |
| BestTracks.TopTracksShape | projeto/projeto/main.py:247 | the chart has min(10, number of artists) bars for distinct artists, by non-increasing popularity, each a track of the table at its artist's maximum popularity |
| BestTracks.BestRowsOmitted | projeto/projeto/main.py:247 | no artist whose best row is not chosen has a higher maximum than a chosen row |
| BestTracks.TopTracksOmitted | projeto/projeto/main.py:247 | an artist without a bar has a maximum no higher than any bar's popularity |
| BestTracks.TopTracksForFacts | projeto/projeto/main.py:242-250 | for the selected entry, every bar is a track of a selected row; there are min(10, selected artists) bars, and the chart is empty exactly when the selection is |

## Left out

- **Data loading and caching.** `load_data`, its CSV reading and its
  `FileNotFoundError` branch (lines 17-26), and the `@st.cache_data`
  memoisation are I/O and framework code. The loaded table is a parameter;
  a missing file is `None`.
- **The user interface.** All Streamlit and Plotly calls (page set-up,
  sidebar widgets, metrics, charts, tables) are left out, and so are the
  `try`/`except` around the chart.
- **Floating-point statistics.** This covers:
  - the popularity and feature means;
  - the duration conversions;
  - the correlation and its wording;
  - `describe()`.

  The one mean that is modelled, at line 59, is exact in tenths.
- **Random sampling.** `sample(...)` at line 319 is non-deterministic.
- `Collections.TopK`: states which elements are chosen only up to ties. The
  definition pins pandas' choice (`groupby` in ascending name order, a
  stable descending sort, `keep='first'`), but no contract depends on which
  of several equally scored elements is kept. Two further consequences:
  - `TopArtists.StatsBest` says that `best_song` is some track of the
    artist at its maximum popularity, not which one.
  - `BestTracks.TopTracksShape` likewise says that the bar's track is some
    row at the artist's maximum.
- **Non-ASCII lower-casing.** `Text.Lower` is ASCII only. Python's `str.lower()` also maps non-ASCII
  upper-case letters. Under the key filter this matters only for the few
  non-ASCII characters whose lower-case form is an ASCII letter (the Kelvin
  sign and the dotted capital I).
- **Missing values.** `NaN` genres, artists or track names are not
  represented; every field is a string.
- **Audio-feature columns.** They pass through the modelled code untouched
  and are not part of `Row`.
- **Trimmed list keys versus untrimmed filter keys.** The key the list
  compares (trimmed, line 98) and the key the filter compares (untrimmed,
  lines 39 and 112) are each modelled as written and not reconciled.
- **`projeto/projeto/teste.py`.** It only loads and plots, and as written
  it cannot run (a `sep="t"` separator, an empty column name, and
  `set_index("genre")` on a frame without that column).
