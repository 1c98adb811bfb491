/** Character-level text operations used on genre labels: Python's
    `str.lower()` restricted to ASCII, the regular-expression filter
    `[^a-zA-Z0-9\s]` that builds the comparison key, `str.strip()`, the
    quote mapping `[""\'`]` -> `'`, and the code-point order that
    `sorted()` puts strings in. */
module Text {

  /** Python's `str.isspace()`, which is also what `\s` matches in a
      `str` regular expression and what `strip()` removes. */
  predicate IsSpace(c: char) {
    || ('\t' <= c <= '\r')
    || ('\U{1C}' <= c <= '\U{1F}')
    || c == ' '
    || c == '\U{85}'
    || c == '\U{A0}'
    || c == '\U{1680}'
    || ('\U{2000}' <= c <= '\U{200A}')
    || c == '\U{2028}'
    || c == '\U{2029}'
    || c == '\U{202F}'
    || c == '\U{205F}'
    || c == '\U{3000}'
  }

  predicate IsUpper(c: char) { 'A' <= c <= 'Z' }

  predicate IsLower(c: char) { 'a' <= c <= 'z' }

  predicate IsDigit(c: char) { '0' <= c <= '9' }

  function LowerChar(c: char): char {
    if IsUpper(c) then (c as int + 32) as char else c
  }

  function Lower(s: string): string {
    seq(|s|, i requires 0 <= i < |s| => LowerChar(s[i]))
  }

  /** The characters the pattern `[^a-zA-Z0-9\s]` does not delete. */
  predicate IsKeyChar(c: char) {
    IsUpper(c) || IsLower(c) || IsDigit(c) || IsSpace(c)
  }

  /** `re.sub(r'[^a-zA-Z0-9\s]', '', s)`. */
  function KeepKeyChars(s: string): (r: string)
    ensures |r| <= |s|
  {
    if s == [] then []
    else if IsKeyChar(s[0]) then [s[0]] + KeepKeyChars(s[1..])
    else KeepKeyChars(s[1..])
  }

  /** The filter keeps only characters of the class, and only characters
      that were there. */
  lemma {:induction false} KeepKeyCharsSound(s: string)
    ensures forall c :: c in KeepKeyChars(s) ==> IsKeyChar(c) && c in s
  {
    if s != [] {
      KeepKeyCharsSound(s[1..]);
    }
  }

  /** The filter deletes nothing from a string made of class characters. */
  lemma {:induction false} KeepKeyCharsKeepsAll(s: string)
    requires forall c :: c in s ==> IsKeyChar(c)
    ensures KeepKeyChars(s) == s
  {
    if s != [] {
      assert s[0] in s;
      KeepKeyCharsKeepsAll(s[1..]);
      assert s == [s[0]] + s[1..];
    }
  }

  /** The key two genre labels are compared by: lower-cased, then every
      character that is not an ASCII letter, an ASCII digit or white space
      deleted. */
  function Key(g: string): string {
    KeepKeyChars(Lower(g))
  }

  /** A key holds only lower-case ASCII letters, digits and white space,
      and is never longer than the label it comes from. */
  lemma KeyAlphabet(g: string)
    ensures |Key(g)| <= |g|
    ensures forall c :: c in Key(g) ==> IsLower(c) || IsDigit(c) || IsSpace(c)
  {
    KeepKeyCharsSound(Lower(g));
    forall c | c in Key(g) ensures IsLower(c) || IsDigit(c) || IsSpace(c) {
      assert c in Lower(g);
    }
  }

  lemma {:induction false} LowerOfLowered(s: string)
    requires forall c :: c in s ==> !IsUpper(c)
    ensures Lower(s) == s
  {
    assert forall i :: 0 <= i < |s| ==> s[i] in s;
  }

  /** Taking the key of a key changes nothing. */
  lemma KeyIdempotent(g: string)
    ensures Key(Key(g)) == Key(g)
  {
    var k := Key(g);
    KeyAlphabet(g);
    LowerOfLowered(k);
    KeepKeyCharsKeepsAll(k);
  }

  lemma {:induction false} KeepKeyCharsAppend(a: string, b: string)
    ensures KeepKeyChars(a + b) == KeepKeyChars(a) + KeepKeyChars(b)
  {
    if a == [] {
      assert a + b == b;
    } else {
      assert (a + b)[0] == a[0] && (a + b)[1..] == a[1..] + b;
      KeepKeyCharsAppend(a[1..], b);
    }
  }

  /** Labels that differ only in letter case have the same key. */
  lemma KeyIgnoresCase(g: string)
    ensures Key(Lower(g)) == Key(g)
  {
    assert Lower(Lower(g)) == Lower(g);
  }

  /** Deleting one character the key filter drops (a hyphen, a quote, any
      punctuation) does not change the key. */
  lemma KeyIgnoresPunctuation(a: string, c: char, b: string)
    requires !IsKeyChar(c)
    ensures Key(a + [c] + b) == Key(a + b)
  {
    assert Lower(a + [c] + b) == Lower(a) + [LowerChar(c)] + Lower(b);
    assert Lower(a + b) == Lower(a) + Lower(b);
    assert !IsKeyChar(LowerChar(c));
    KeepKeyCharsAppend(Lower(a) + [LowerChar(c)], Lower(b));
    KeepKeyCharsAppend(Lower(a), [LowerChar(c)]);
    KeepKeyCharsAppend(Lower(a), Lower(b));
  }

  /** A hyphen and a space are not interchangeable: the hyphen is deleted and
      the space is kept, so "Hip-Hop" and "hip hop" get different keys. */
  lemma HyphenDeleted()
    ensures Key("Hip-Hop") == "hiphop"
  {
    assert Lower("Hip-Hop") == "hip-hop";
  }

  lemma SpaceKept()
    ensures Key("hip hop") == "hip hop"
  {
    assert Lower("hip hop") == "hip hop";
  }

  // ---------------------------------------------------------------------
  // strip() and the quote mapping

  /** Index of the first character at or after `i` that is not white space. */
  function SkipSpaces(s: string, i: nat): (k: nat)
    requires i <= |s|
    ensures i <= k <= |s|
    ensures forall j :: i <= j < k ==> IsSpace(s[j])
    ensures k < |s| ==> !IsSpace(s[k])
    decreases |s| - i
  {
    if i == |s| || !IsSpace(s[i]) then i else SkipSpaces(s, i + 1)
  }

  /** Index just past the last character before `i`, and not before `lo`,
      that is not white space. */
  function SkipSpacesBack(s: string, lo: nat, i: nat): (k: nat)
    requires lo <= i <= |s|
    ensures lo <= k <= i
    ensures forall j :: k <= j < i ==> IsSpace(s[j])
    ensures lo < k ==> !IsSpace(s[k - 1])
  {
    if i == lo || !IsSpace(s[i - 1]) then i else SkipSpacesBack(s, lo, i - 1)
  }

  /** `str.strip()`: white space removed from both ends. */
  function Strip(s: string): string {
    var lo := SkipSpaces(s, 0);
    s[lo..SkipSpacesBack(s, lo, |s|)]
  }

  /** The result of `strip()` is a contiguous part of its input, with only
      white space cut away on either side, and it neither starts nor ends
      with white space. */
  lemma StripShape(s: string)
    ensures var r := Strip(s);
      && (r == [] || (!IsSpace(r[0]) && !IsSpace(r[|r| - 1])))
      && (exists lo, hi ::
            && 0 <= lo <= hi <= |s| && r == s[lo..hi]
            && (forall j :: 0 <= j < lo ==> IsSpace(s[j]))
            && (forall j :: hi <= j < |s| ==> IsSpace(s[j])))
  {
    var lo := SkipSpaces(s, 0);
    var hi := SkipSpacesBack(s, lo, |s|);
    assert Strip(s) == s[lo..hi];
  }

  /** A string that neither starts nor ends with white space is left as it
      is. */
  lemma StripUnpadded(s: string)
    requires s == [] || (!IsSpace(s[0]) && !IsSpace(s[|s| - 1]))
    ensures Strip(s) == s
  {
    assert SkipSpaces(s, 0) == 0;
    assert SkipSpacesBack(s, 0, |s|) == |s|;
  }

  /** Stripping twice strips nothing more. */
  lemma StripIdempotent(s: string)
    ensures Strip(Strip(s)) == Strip(s)
  {
    StripShape(s);
    StripUnpadded(Strip(s));
  }

  /** The characters `[""\'`]` matches: the double quote, the apostrophe and
      the backtick. */
  predicate IsQuote(c: char) {
    c == '"' || c == '\'' || c == '`'
  }

  /** `re.sub(r'[""\'`]', "'", s)`. */
  function NormalizeQuotes(s: string): string {
    seq(|s|, i requires 0 <= i < |s| => if IsQuote(s[i]) then '\'' else s[i])
  }

  /** After the mapping the only quote character left is the apostrophe,
      and the mapping does not change the key. */
  lemma NormalizeQuotesFacts(s: string)
    ensures forall c :: c in NormalizeQuotes(s) ==> c != '"' && c != '`'
    ensures NormalizeQuotes(NormalizeQuotes(s)) == NormalizeQuotes(s)
    ensures Key(NormalizeQuotes(s)) == Key(s)
  {
    KeepQuotesMapped(Lower(s), Lower(NormalizeQuotes(s)));
  }

  lemma {:induction false} KeepQuotesMapped(a: string, b: string)
    requires |a| == |b|
    requires forall i :: 0 <= i < |a| ==> a[i] == b[i] || (IsQuote(a[i]) && IsQuote(b[i]))
    ensures KeepKeyChars(a) == KeepKeyChars(b)
  {
    if a != [] {
      assert forall i :: 0 <= i < |a| - 1 ==> a[1..][i] == a[i + 1] && b[1..][i] == b[i + 1];
      KeepQuotesMapped(a[1..], b[1..]);
      assert !IsQuote(a[0]) ==> a[0] == b[0];
    }
  }

  // ---------------------------------------------------------------------
  // The order of Python's sorted() on str

  /** Lexicographic order on code points; a proper prefix comes first. */
  predicate LexLe(a: string, b: string) {
    if a == [] then true
    else if b == [] then false
    else if a[0] != b[0] then a[0] < b[0]
    else LexLe(a[1..], b[1..])
  }

  lemma {:induction false} LexLeTotal(a: string, b: string)
    ensures LexLe(a, b) || LexLe(b, a)
  {
    if a != [] && b != [] && a[0] == b[0] {
      LexLeTotal(a[1..], b[1..]);
    }
  }

  lemma {:induction false} LexLeTransitive(a: string, b: string, c: string)
    requires LexLe(a, b) && LexLe(b, c)
    ensures LexLe(a, c)
  {
    if a != [] && b != [] && c != [] && a[0] == b[0] && b[0] == c[0] {
      LexLeTransitive(a[1..], b[1..], c[1..]);
    }
  }

  lemma {:induction false} LexLeAntisymmetric(a: string, b: string)
    requires LexLe(a, b) && LexLe(b, a)
    ensures a == b
  {
    if a != [] && b != [] {
      LexLeAntisymmetric(a[1..], b[1..]);
      assert a == [a[0]] + a[1..] && b == [b[0]] + b[1..];
    }
  }

  predicate Sorted(s: seq<string>) {
    forall i, j :: 0 <= i < j < |s| ==> LexLe(s[i], s[j])
  }

  function InsertSorted(x: string, s: seq<string>): (r: seq<string>)
    requires Sorted(s)
    ensures Sorted(r)
    ensures multiset(r) == multiset(s) + multiset{x}
  {
    if s == [] || LexLe(x, s[0]) then
      ConsSorted(x, s);
      [x] + s
    else
      var rest := s[1..];
      assert s == [s[0]] + rest;
      LexLeTotal(x, s[0]);
      var t := InsertSorted(x, rest);
      assert forall y :: y in t ==> LexLe(s[0], y) by {
        forall y | y in t ensures LexLe(s[0], y) {
          assert y in multiset(rest) + multiset{x};
        }
      }
      ConsSorted(s[0], t);
      [s[0]] + t
  }

  lemma ConsSorted(h: string, t: seq<string>)
    requires Sorted(t)
    requires t == [] || LexLe(h, t[0])
    ensures Sorted([h] + t)
  {
    var r := [h] + t;
    forall i, j | 0 <= i < j < |r| ensures LexLe(r[i], r[j]) {
      assert r[j] == t[j - 1];
      if i > 0 {
        assert r[i] == t[i - 1];
      } else if j > 1 {
        LexLeTransitive(h, t[0], t[j - 1]);
      }
    }
  }

  /** `sorted()` on a list of strings: ascending, a permutation of the input. */
  function SortStrings(s: seq<string>): (r: seq<string>)
    ensures Sorted(r)
    ensures multiset(r) == multiset(s)
    ensures |r| == |s|
  {
    if s == [] then []
    else
      assert s == [s[0]] + s[1..];
      InsertSorted(s[0], SortStrings(s[1..]))
  }

  /** The sorted order is the only ascending arrangement of the list. */
  lemma {:induction false} SortedUnique(a: seq<string>, b: seq<string>)
    requires Sorted(a) && Sorted(b) && multiset(a) == multiset(b)
    ensures a == b
  {
    if a != [] {
      assert b != [] by {
        assert a[0] in multiset(b);
      }
      SortedHeads(a, b);
      assert a == [a[0]] + a[1..] && b == [b[0]] + b[1..];
      assert multiset(a) == multiset{a[0]} + multiset(a[1..]);
      assert multiset(b) == multiset{b[0]} + multiset(b[1..]);
      assert multiset(a[1..]) == multiset(a) - multiset{a[0]};
      assert multiset(b[1..]) == multiset(b) - multiset{b[0]};
      SortedTail(a);
      SortedTail(b);
      SortedUnique(a[1..], b[1..]);
    }
  }

  /** Two ascending arrangements of the same non-empty list start alike. */
  lemma SortedHeads(a: seq<string>, b: seq<string>)
    requires Sorted(a) && Sorted(b) && multiset(a) == multiset(b)
    requires a != [] && b != []
    ensures a[0] == b[0]
  {
    assert a[0] in multiset(b) && b[0] in multiset(a);
    var i :| 0 <= i < |b| && b[i] == a[0];
    var j :| 0 <= j < |a| && a[j] == b[0];
    if a[0] != b[0] {
      assert LexLe(b[0], b[i]) && LexLe(a[0], a[j]);
      LexLeAntisymmetric(a[0], b[0]);
    }
  }

  lemma SortedTail(s: seq<string>)
    requires Sorted(s) && s != []
    ensures Sorted(s[1..])
  {
    forall i, j | 0 <= i < j < |s| - 1 ensures LexLe(s[1..][i], s[1..][j]) {
      assert s[1..][i] == s[i + 1] && s[1..][j] == s[j + 1];
    }
  }
}
