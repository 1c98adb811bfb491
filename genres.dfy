/** The genre list of the sidebar: the distinct raw genres are walked in
    order, each is trimmed and its quote characters mapped to `'`, and only
    the first label seen for each key is kept; the list shown is the
    sentinel "Todos" followed by the kept labels in sorted order. */
module Genres {
  import opened Collections
  import opened Text
  import opened Tracks
  import opened FirstKeys

  /** The sentinel entry that selects every genre. */
  const ALL: string := "Todos"

  /** The label a raw genre is shown as: trimmed, quotes mapped to `'`. */
  function Label(g: string): string {
    NormalizeQuotes(Strip(g))
  }

  /** The key a raw genre is de-duplicated under: the key of its label. */
  function LabelKey(g: string): string {
    Key(Label(g))
  }

  /** No genre in `prev` has the same label key as `g`. */
  predicate NewKey(prev: seq<string>, g: string) {
    NewKeyOf(prev, g, Label, Key)
  }

  /** Reference definition of the de-duplicated list: the label of every
      genre whose key no earlier genre has, in the order they occur. */
  function KeptLabels(gs: seq<string>): seq<string> {
    KeepFirst(gs, Label, Key)
  }

  /** Every kept label is the label of one of the genres. */
  lemma KeptLabelsSound(gs: seq<string>)
    ensures forall c :: c in KeptLabels(gs) ==> exists p :: p in gs && c == Label(p)
  {
    KeepFirstSound(gs, Label, Key);
  }

  /** No two kept labels share a key. */
  lemma KeptLabelsDistinctKeys(gs: seq<string>)
    ensures forall i, j :: 0 <= i < j < |KeptLabels(gs)| ==>
      Key(KeptLabels(gs)[i]) != Key(KeptLabels(gs)[j])
  {
    KeepFirstDistinctKeys(gs, Label, Key);
  }

  /** The key of every genre is the key of some kept label. */
  lemma KeptLabelsCover(gs: seq<string>)
    ensures forall g :: g in gs ==> exists c :: c in KeptLabels(gs) && Key(c) == LabelKey(g)
  {
    KeepFirstCover(gs, Label, Key);
  }

  /** Each kept label comes from the first genre seen with that key. */
  lemma KeptLabelsFirstSeen(gs: seq<string>)
    ensures forall c :: c in KeptLabels(gs) ==>
      exists j :: 0 <= j < |gs| && c == Label(gs[j]) && NewKey(gs[..j], gs[j])
  {
    forall c | c in KeptLabels(gs)
      ensures exists j :: 0 <= j < |gs| && c == Label(gs[j]) && NewKey(gs[..j], gs[j])
    {
      var j := FirstSeenAt(gs, Label, Key, c);
    }
  }

  /** The label of every genre that no earlier genre shares a key with is
      kept. */
  lemma KeptLabelsComplete(gs: seq<string>)
    ensures forall j :: 0 <= j < |gs| && NewKey(gs[..j], gs[j]) ==> Label(gs[j]) in KeptLabels(gs)
  {
    forall j | 0 <= j < |gs| && NewKey(gs[..j], gs[j]) ensures Label(gs[j]) in KeptLabels(gs) {
      CompleteAt(gs, Label, Key, j);
    }
  }

  /** Walking only the distinct genres keeps the same labels as walking
      every raw genre: a repeated genre never brings a new key. */
  lemma KeptLabelsOfUnique(gs: seq<string>)
    ensures KeptLabels(Unique(gs)) == KeptLabels(gs)
  {
    KeepFirstOfUnique(gs, Label, Key);
  }

  /** The label keys of the genres in `prev`. */
  ghost function KeysOf(prev: seq<string>): set<string> {
    set p | p in prev :: LabelKey(p)
  }

  lemma KeysOfSnoc(prev: seq<string>, g: string)
    ensures KeysOf(prev + [g]) == KeysOf(prev) + {LabelKey(g)}
    ensures LabelKey(g) !in KeysOf(prev) <==> NewKey(prev, g)
  {
  }

  /** The de-duplication loop of the sidebar: `seen` holds the keys met so
      far, and a genre's label is appended when its key is new. */
  method DedupGenres(uniqueGenres: seq<string>) returns (cleaned: seq<string>)
    ensures cleaned == KeptLabels(uniqueGenres)
    ensures forall i, j :: 0 <= i < j < |cleaned| ==> Key(cleaned[i]) != Key(cleaned[j])
    ensures forall g :: g in uniqueGenres ==> exists c :: c in cleaned && Key(c) == LabelKey(g)
  {
    cleaned := [];
    var seen: set<string> := {};
    var i := 0;
    while i < |uniqueGenres|
      invariant 0 <= i <= |uniqueGenres|
      invariant cleaned == KeptLabels(uniqueGenres[..i])
      invariant seen == KeysOf(uniqueGenres[..i])
    {
      var genre := uniqueGenres[i];
      ghost var prev := uniqueGenres[..i];
      assert uniqueGenres[..i + 1] == prev + [genre];
      KeysOfSnoc(prev, genre);
      KeepFirstSnoc(prev, genre, Label, Key);
      var normalized := Label(genre);
      var normalizedKey := Key(normalized);
      if normalizedKey !in seen {
        seen := seen + {normalizedKey};
        cleaned := cleaned + [normalized];
      }
      i := i + 1;
    }
    assert uniqueGenres[..i] == uniqueGenres;
    KeptLabelsDistinctKeys(uniqueGenres);
    KeptLabelsCover(uniqueGenres);
  }

  /** `data['genre']`. */
  function GenreColumn(rows: seq<Row>): seq<string> {
    seq(|rows|, i requires 0 <= i < |rows| => rows[i].genre)
  }

  /** The list offered by the genre selector: "Todos", then the kept labels
      of the distinct genres in ascending order. */
  method SidebarGenres(rows: seq<Row>) returns (genres: seq<string>)
    ensures genres == [ALL] + SortStrings(KeptLabels(GenreColumn(rows)))
    ensures |genres| <= 1 + |Unique(GenreColumn(rows))|
    ensures genres[0] == ALL && Sorted(genres[1..])
    ensures multiset(genres[1..]) == multiset(KeptLabels(GenreColumn(rows)))
  {
    var uniqueGenres := Unique(GenreColumn(rows));
    var cleaned := DedupGenres(uniqueGenres);
    KeptLabelsOfUnique(GenreColumn(rows));
    genres := [ALL] + SortStrings(cleaned);
    assert genres[1..] == SortStrings(cleaned);
  }

  /** The labels after "Todos" have pairwise different keys. */
  lemma SidebarDistinctKeys(rows: seq<Row>)
    ensures var shown := SortStrings(KeptLabels(GenreColumn(rows)));
      forall i, j :: 0 <= i < j < |shown| ==> Key(shown[i]) != Key(shown[j])
  {
    var kept := KeptLabels(GenreColumn(rows));
    var shown := SortStrings(kept);
    KeptLabelsDistinctKeys(GenreColumn(rows));
    assert NoDup(kept) by {
      forall a, b | 0 <= a < b < |kept| ensures kept[a] != kept[b] {
        assert Key(kept[a]) != Key(kept[b]);
      }
    }
    forall i, j | 0 <= i < j < |shown| ensures Key(shown[i]) != Key(shown[j]) {
      assert shown[i] in multiset(kept) && shown[j] in multiset(kept);
      var p :| 0 <= p < |kept| && kept[p] == shown[i];
      var q :| 0 <= q < |kept| && kept[q] == shown[j];
      if p == q {
        RepeatedCount(shown, i, j);
        NoDupCount(kept, kept[p]);
      }
    }
  }

  /** Every row's trimmed genre has its key among the labels after
      "Todos". */
  lemma SidebarCoversRows(rows: seq<Row>)
    ensures var shown := SortStrings(KeptLabels(GenreColumn(rows)));
      forall r :: r in rows ==> exists c :: c in shown && Key(c) == LabelKey(r.genre)
  {
    var gs := GenreColumn(rows);
    var kept := KeptLabels(gs);
    var shown := SortStrings(kept);
    KeptLabelsCover(gs);
    forall r | r in rows ensures exists c :: c in shown && Key(c) == LabelKey(r.genre) {
      var i :| 0 <= i < |rows| && rows[i] == r;
      assert gs[i] == r.genre && gs[i] in gs;
      var c :| c in kept && Key(c) == LabelKey(r.genre);
      assert c in multiset(shown);
    }
  }

  /** The labels after "Todos" have pairwise different keys, and every
      row's genre has its key among them. */
  lemma SidebarKeys(rows: seq<Row>)
    ensures var shown := SortStrings(KeptLabels(GenreColumn(rows)));
      && (forall i, j :: 0 <= i < j < |shown| ==> Key(shown[i]) != Key(shown[j]))
      && (forall r :: r in rows ==> exists c :: c in shown && Key(c) == LabelKey(r.genre))
  {
    SidebarDistinctKeys(rows);
    SidebarCoversRows(rows);
  }

  /** The table the dashboard shows for the selected entry: every row for
      "Todos", otherwise the rows whose raw genre has the key of the
      selected label. */
  function FilteredData(rows: seq<Row>, selected: string): (r: seq<Row>)
    ensures forall x :: x in r <==> x in rows && (selected == ALL || Key(x.genre) == Key(selected))
  {
    if selected != ALL then RowsOfGenreKey(rows, Key(selected)) else rows
  }

  /** The raw genres "Children\u2019s Music" (typographic apostrophe) and
      "Children's Music" fall under one key, so the list shows only the
      first of them and selecting it shows the rows of both. */
  lemma ApostrophesMerge()
    ensures LabelKey("Children\U{2019}s Music") == LabelKey("Children's Music")
  {
    var a, b := "Children", "s Music";
    UnchangedLabel(a + ['\U{2019}'] + b);
    UnchangedLabel(a + ['\''] + b);
    assert a + ['\U{2019}'] + b == "Children\U{2019}s Music";
    assert a + ['\''] + b == "Children's Music";
    KeyIgnoresPunctuation(a, '\U{2019}', b);
    KeyIgnoresPunctuation(a, '\'', b);
  }

  /** A genre without surrounding white space and without `"` or backtick
      is its own label. */
  lemma UnchangedLabel(g: string)
    requires g == [] || (!IsSpace(g[0]) && !IsSpace(g[|g| - 1]))
    requires forall i :: 0 <= i < |g| ==> g[i] != '"' && g[i] != '`'
    ensures Label(g) == g
  {
    StripUnpadded(g);
  }

  lemma PaddedPopLabel()
    ensures Label(" Pop") == "Pop"
  {
    var g := " Pop";
    assert SkipSpaces(g, 1) == 1;
    assert SkipSpacesBack(g, 1, 4) == 4;
    assert g[1..4] == "Pop";
    assert NormalizeQuotes("Pop") == "Pop";
  }

  lemma PaddedPopKeys()
    ensures Key(" Pop") == " pop"
    ensures Key("Pop") == "pop"
  {
    assert Lower(" Pop") == " pop";
    KeepKeyCharsKeepsAll(" pop");
    assert Lower("Pop") == "pop";
    KeepKeyCharsKeepsAll("pop");
  }

  /** The list compares trimmed labels while the filter compares raw
      genres: a row whose genre carries a leading space is listed under the
      trimmed label, and that label does not select it. */
  lemma PaddedGenreNotSelected(r: Row)
    requires r.genre == " Pop"
    ensures Label(r.genre) == "Pop"
    ensures FilteredData([r], Label(r.genre)) == []
  {
    PaddedPopLabel();
    PaddedPopKeys();
  }
}
