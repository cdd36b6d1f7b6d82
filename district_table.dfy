/**
 * The district table CoordinateMapper searches: Seoul's 25 autonomous districts
 * and their KMA forecast grid points, with the facts about its keys the lookup
 * relies on.
 */
module DistrictTable {
  /** A KMA grid point. */
  datatype Coordinate = Coordinate(nx: int, ny: int)

  /** The district table (Map.ofEntries): the 25 autonomous districts of
      Seoul and their grid points, written in five rows of five in the
      order they are listed. */
  const PredefinedCoordinates: map<string, Coordinate> := Row1 + Row2 + Row3 + Row4 + Row5

  const Row1: map<string, Coordinate> := map[
    "종로구" := Coordinate(60, 127),
    "중구" := Coordinate(60, 127),
    "용산구" := Coordinate(60, 126),
    "성동구" := Coordinate(61, 127),
    "광진구" := Coordinate(62, 126)
  ]

  const Row2: map<string, Coordinate> := map[
    "동대문구" := Coordinate(61, 127),
    "중랑구" := Coordinate(62, 128),
    "성북구" := Coordinate(61, 128),
    "강북구" := Coordinate(61, 129),
    "도봉구" := Coordinate(61, 130)
  ]

  const Row3: map<string, Coordinate> := map[
    "노원구" := Coordinate(61, 130),
    "은평구" := Coordinate(59, 128),
    "서대문구" := Coordinate(59, 127),
    "마포구" := Coordinate(59, 127),
    "양천구" := Coordinate(58, 126)
  ]

  const Row4: map<string, Coordinate> := map[
    "강서구" := Coordinate(58, 126),
    "구로구" := Coordinate(58, 125),
    "금천구" := Coordinate(59, 124),
    "영등포구" := Coordinate(58, 126),
    "동작구" := Coordinate(59, 125)
  ]

  const Row5: map<string, Coordinate> := map[
    "관악구" := Coordinate(59, 124),
    "서초구" := Coordinate(61, 125),
    "강남구" := Coordinate(61, 125),
    "송파구" := Coordinate(62, 125),
    "강동구" := Coordinate(63, 126)
  ]



  /** A non-empty run of Hangul syllables. */
  predicate IsHangulWord(s: string) {
    |s| > 0 && forall i :: 0 <= i < |s| ==> IsSyllable(s[i])
  }

  predicate IsSyllable(c: char) {
    '가' <= c <= '힣'
  }

  /** Every key is written in Hangul. */
  predicate HangulKeys(table: map<string, Coordinate>) {
    forall key :: key in table ==> IsHangulWord(key)
  }

  lemma TableKeysAreHangul()
    ensures HangulKeys(PredefinedCoordinates)
  {
    RowsAreHangul();
    UnionKeysAreHangul(Row1, Row2);
    UnionKeysAreHangul(Row1 + Row2, Row3);
    UnionKeysAreHangul(Row1 + Row2 + Row3, Row4);
    UnionKeysAreHangul(Row1 + Row2 + Row3 + Row4, Row5);
  }

  lemma RowsAreHangul()
    ensures HangulKeys(Row1) && HangulKeys(Row2) && HangulKeys(Row3) && HangulKeys(Row4) && HangulKeys(Row5)
  {
    Row1Hangul();
    Row2Hangul();
    Row3Hangul();
    Row4Hangul();
    Row5Hangul();
  }

  lemma Row1Hangul()
    ensures HangulKeys(Row1)
  {
  }
  lemma Row2Hangul()
    ensures HangulKeys(Row2)
  {
  }
  lemma Row3Hangul()
    ensures HangulKeys(Row3)
  {
  }
  lemma Row4Hangul()
    ensures HangulKeys(Row4)
  {
  }
  lemma Row5Hangul()
    ensures HangulKeys(Row5)
  {
  }

  lemma UnionKeysAreHangul(a: map<string, Coordinate>, b: map<string, Coordinate>)
    requires HangulKeys(a) && HangulKeys(b)
    ensures HangulKeys(a + b)
  {
  }
}
