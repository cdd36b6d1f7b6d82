/**
 * CoordinateMapper: the Seoul district name to KMA forecast grid (nx, ny)
 * lookup by trimmed, lower-cased name, with a fixed default.
 */
module CoordinateMapper {
  import opened Wrappers
  import opened JavaStrings
  import opened DistrictTable

  /** Jung-gu, used for anything the table does not know. */
  const DefaultCoordinate := Coordinate(60, 127)

  /** The name the table is searched with: trimmed, then lower-cased. */
  function Normalize(districtName: string): string {
    ToLower(Trim(districtName))
  }

  /** The stream filter: an entry matches when its lower-cased key equals the
      normalised name. */
  predicate KeyMatches(key: string, normalized: string) {
    ToLower(key) == normalized
  }

  /** toGridXY over a given table with Hangul keys: the default for a null or
      blank name, else the coordinate of the entry matching the normalised
      name, else the default. Lower-casing leaves a Hangul key as it is, so at
      most one entry matches and the order the entries are visited in does not
      matter. */
  function GridIn(table: map<string, Coordinate>, districtName: Option<string>): (c: Coordinate)
    requires HangulKeys(table)
    ensures districtName.None? || IsBlank(districtName.value) ==> c == DefaultCoordinate
    ensures c == DefaultCoordinate || c in table.Values
    ensures districtName.Some? && !IsBlank(districtName.value) ==>
              var normalized := Normalize(districtName.value);
              && (forall key :: key in table && KeyMatches(key, normalized) ==> c == table[key])
              && ((forall key :: key in table ==> !KeyMatches(key, normalized)) ==> c == DefaultCoordinate)
  {
    if districtName.None? || IsBlank(districtName.value) then DefaultCoordinate
    else
      KeysAreLowerCase(table);
      var normalized := Normalize(districtName.value);
      if normalized in table then table[normalized] else DefaultCoordinate
  }

  /** toGridXY: the lookup over the district table. */
  function ToGridXY(districtName: Option<string>): Coordinate {
    TableKeysAreHangul();
    GridIn(PredefinedCoordinates, districtName)
  }

  /** Lower-casing leaves Hangul as it is. */
  lemma HangulWordLower(s: string)
    requires IsHangulWord(s)
    ensures ToLower(s) == s
  {
    forall i | 0 <= i < |s| ensures ToLower(s)[i] == s[i] {
      assert IsSyllable(s[i]);
    }
  }

  /** A Hangul word is its own normal form and is not blank. */
  lemma HangulWordNormal(s: string)
    requires IsHangulWord(s)
    ensures Normalize(s) == s && !IsBlank(s)
  {
    assert !IsTrimmable(s[0]) && !IsTrimmable(s[|s| - 1]) && !IsWhitespace(s[0]);
    TrimStartOfTrimmed(s);
    TrimEndOfTrimmed(s);
    HangulWordLower(s);
  }

  lemma KeysAreLowerCase(table: map<string, Coordinate>)
    requires HangulKeys(table)
    ensures forall key :: key in table ==> ToLower(key) == key
  {
    forall key | key in table ensures ToLower(key) == key {
      HangulWordLower(key);
    }
  }

  /** Every key is found under its own name, so each entry is returned as
      listed. */
  lemma EntryFound(table: map<string, Coordinate>, key: string)
    requires HangulKeys(table) && key in table
    ensures GridIn(table, Some(key)) == table[key]
  {
    HangulWordNormal(key);
  }

  lemma GangnamAndGangdong()
    ensures ToGridXY(Some("강남구")) == Coordinate(61, 125)
    ensures ToGridXY(Some("강동구")) == Coordinate(63, 126)
  {
    TableKeysAreHangul();
    assert "강남구" in Row5 && "강동구" in Row5;
    EntryFound(PredefinedCoordinates, "강남구");
    EntryFound(PredefinedCoordinates, "강동구");
  }

  /** Characters trim removes around the name do not change the result. */
  lemma PaddingIgnored(w1: string, s: string, w2: string)
    requires AllTrimmable(w1) && AllTrimmable(w2)
    ensures ToGridXY(Some(w1 + s + w2)) == ToGridXY(Some(s))
  {
    TableKeysAreHangul();
    PaddingIgnoredIn(PredefinedCoordinates, w1, s, w2);
  }

  lemma PaddingIgnoredIn(table: map<string, Coordinate>, w1: string, s: string, w2: string)
    requires HangulKeys(table) && AllTrimmable(w1) && AllTrimmable(w2)
    ensures GridIn(table, Some(w1 + s + w2)) == GridIn(table, Some(s))
  {
    var padded := w1 + s + w2;
    TrimIgnoresPadding(w1, s, w2);
    assert Normalize(padded) == Normalize(s);
    if IsBlank(s) {
      BlankTrimsToBlank(s);
      BlankUnderLower(Trim(s));
      NoKeyIsBlank(table, Normalize(s));
    } else {
      NotBlankWithin(w1, s, w2);
    }
  }

  /** A blank name is not a key. */
  lemma NoKeyIsBlank(table: map<string, Coordinate>, t: string)
    requires HangulKeys(table) && IsBlank(t)
    ensures t !in table
  {
    if |t| > 0 {
      assert IsWhitespace(t[0]);
    }
    assert !IsHangulWord(t);
  }

  /** A string around a non-blank part is not blank. */
  lemma NotBlankWithin(w1: string, s: string, w2: string)
    requires !IsBlank(s)
    ensures !IsBlank(w1 + s + w2)
  {
    var k :| 0 <= k < |s| && !IsWhitespace(s[k]);
    assert (w1 + s + w2)[|w1| + k] == s[k];
  }

  /** The lookup ignores ASCII letter case. */
  lemma CaseInsensitive(s: string)
    ensures ToGridXY(Some(ToLower(s))) == ToGridXY(Some(s))
  {
    TableKeysAreHangul();
    CaseInsensitiveIn(PredefinedCoordinates, s);
  }

  lemma CaseInsensitiveIn(table: map<string, Coordinate>, s: string)
    requires HangulKeys(table)
    ensures GridIn(table, Some(ToLower(s))) == GridIn(table, Some(s))
  {
    BlankUnderLower(s);
    SameNormalForm(s);
  }

  lemma SameNormalForm(s: string)
    ensures Normalize(ToLower(s)) == Normalize(s)
  {
    TrimCommutesWithLower(s);
    ToLowerIdempotent(Trim(s));
  }

  /** A name padded with a space that trim keeps, such as the ideographic
      space U+3000, is not blank and matches no key. */
  lemma IdeographicSpaceNotTrimmed()
    ensures ToGridXY(Some("\U{3000}강남구")) == DefaultCoordinate
  {
    var s := "\U{3000}강남구";
    assert !IsTrimmable(s[0]) && !IsTrimmable(s[3]) && !IsWhitespace(s[1]);
    TrimStartOfTrimmed(s);
    TrimEndOfTrimmed(s);
    var n := Normalize(s);
    assert n[0] == '\U{3000}';
    TableKeysAreHangul();
    assert !IsHangulWord(n);
  }
}
