/** What the three scrapers share: the row of a ShotChartDetail response that
    two of them read, the season label every scraper builds from a year, and the
    2PT/3PT classification of a raw shot type. */
module ShotChart {
  import opened Strings

  /** One row of the first frame of a ShotChartDetail response, restricted to
      the columns the scrapers read. */
  datatype RawShot = RawShot(
    locX: int,
    locY: int,
    shotType: string,
    gameId: string,
    gameDate: string,
    period: int,
    shotMadeFlag: int)

  /** `str(s)[-2:]`: the last two characters, or the whole string when it is
      shorter. */
  function LastTwo(s: string): (r: string)
    ensures |r| == if |s| < 2 then |s| else 2
    ensures s == s[..|s| - |r|] + r
  {
    if |s| <= 2 then s else s[|s| - 2..]
  }

  /** The last two decimal digits of n, as `str(n)[-2:]` prints them (one digit
      when n < 10), computed from n's value. */
  function LastTwoDigits(n: nat): string
  {
    if n < 10 then [DigitChar(n)] else [DigitChar(n / 10 % 10), DigitChar(n % 10)]
  }

  /** The digits computed from the value are the last two characters of `str(n)`. */
  lemma LastTwoDigitsOfString(n: nat)
    ensures LastTwoDigits(n) == LastTwo(NatToString(n))
  {
    if n >= 10 {
      var s, p := NatToString(n), NatToString(n / 10);
      var a, b := DigitChar(n / 10 % 10), DigitChar(n % 10);
      assert s == p + [b];
      NatToStringLast(n / 10);
      assert |s| >= 2 && s[|s| - 2] == a && s[|s| - 1] == b;
      assert LastTwo(s) == s[|s| - 2..];
      assert s[|s| - 2..] == [a, b];
    }
  }

  /** The last character of `str(n)` is the digit n % 10. */
  lemma NatToStringLast(n: nat)
    ensures NatToString(n)[|NatToString(n)| - 1] == DigitChar(n % 10)
  {
  }

  /** `f"{year}-{str(year + 1)[-2:]}"`, the season key the API expects. */
  function SeasonLabel(year: nat): string
  {
    NatToString(year) + "-" + LastTwoDigits(year + 1)
  }

  /** The label is the year, a dash, and the last two characters of the
      following year as a string. */
  lemma SeasonLabelFormat(year: nat)
    ensures SeasonLabel(year) == NatToString(year) + "-" + LastTwo(NatToString(year + 1))
  {
    LastTwoDigitsOfString(year + 1);
  }

  /** The labels of two seasons as the source's callers see them. */
  lemma SeasonLabelExamples()
    ensures SeasonLabel(2008) == "2008-09"
    ensures SeasonLabel(2009) == "2009-10"
    ensures SeasonLabel(2023) == "2023-24"
  {
    assert NatToString(20) == "20";
    assert NatToString(200) == "200";
    assert NatToString(201) == "201";
    assert NatToString(202) == "202";
    assert NatToString(2008) == "2008";
    assert NatToString(2009) == "2009";
    assert NatToString(2010) == "2010";
    assert NatToString(2023) == "2023";
    assert NatToString(2024) == "2024";
  }

  /** For four-digit years the label is "YYYY-YY": the year, a dash and the last
      two digits of the following year. */
  lemma SeasonLabelShape(year: nat)
    requires 1000 <= year <= 9998
    ensures |SeasonLabel(year)| == 7
    ensures SeasonLabel(year)[..4] == NatToString(year)
    ensures SeasonLabel(year)[4] == '-'
    ensures SeasonLabel(year)[5..] == NatToString(year + 1)[2..]
  {
    NatToStringFourDigits(year);
    NatToStringFourDigits(year + 1);
  }

  /** String order on the labels of four-digit years is chronological order, so
      sorting season keys as strings (what pandas' groupby does) puts them in
      the order of play. */
  lemma SeasonLabelOrder(y1: nat, y2: nat)
    requires 1000 <= y1 < y2 <= 9999
    ensures LexLess(SeasonLabel(y1), SeasonLabel(y2))
  {
    NatToStringFourDigits(y1);
    NatToStringFourDigits(y2);
    NatToStringOrder(y1, y2);
    var rest1 := "-" + LastTwoDigits(y1 + 1);
    var rest2 := "-" + LastTwoDigits(y2 + 1);
    LexLessExtend(NatToString(y1), NatToString(y2), rest1, rest2);
    assert SeasonLabel(y1) == NatToString(y1) + rest1;
    assert SeasonLabel(y2) == NatToString(y2) + rest2;
  }

  /** The labels of consecutive four-digit years from `first` on are in
      string order, which is chronological order. */
  lemma SeasonsInYearOrder(first: nat, labels: seq<string>)
    requires 1000 <= first && first + |labels| <= 10000
    requires forall i :: 0 <= i < |labels| ==> labels[i] == SeasonLabel(first + i)
    ensures forall i, j :: 0 <= i < j < |labels| ==> LexLess(labels[i], labels[j])
  {
    forall i, j | 0 <= i < j < |labels|
      ensures LexLess(labels[i], labels[j])
    {
      SeasonLabelOrder(first + i, first + j);
    }
  }

  /** Distinct four-digit years get distinct labels. */
  lemma SeasonLabelInjective(y1: nat, y2: nat)
    requires 1000 <= y1 <= 9999 && 1000 <= y2 <= 9999
    ensures SeasonLabel(y1) == SeasonLabel(y2) <==> y1 == y2
  {
    if y1 < y2 {
      SeasonLabelOrder(y1, y2);
      LexLessIrreflexive(SeasonLabel(y1));
    } else if y2 < y1 {
      SeasonLabelOrder(y2, y1);
      LexLessIrreflexive(SeasonLabel(y2));
    }
  }

  /** `'3PT' if '3PT' in x else '2PT'`: a raw shot type is a three-pointer
      exactly when "3PT" occurs in it, and every other type is a two-pointer. */
  function ClassifyShotType(raw: string): (t: string)
    ensures t == "3PT" || t == "2PT"
    ensures t == "3PT" <==> exists i :: OccursAt(raw, "3PT", i)
  {
    ContainsIff(raw, "3PT");
    if Contains(raw, "3PT") then "3PT" else "2PT"
  }

  /** The API's own type names classify as their names say. */
  lemma ClassifyApiTypes()
    ensures ClassifyShotType("3PT Field Goal") == "3PT"
    ensures ClassifyShotType("2PT Field Goal") == "2PT"
  {
    assert OccursAt("3PT Field Goal", "3PT", 0);
    var two := "2PT Field Goal";
    assert forall j :: 0 <= j < |two| ==> two[j] != '3';
    forall i
      ensures !OccursAt(two, "3PT", i)
    {
      if 0 <= i && i + 3 <= |two| {
        assert two[i..i + 3][0] == two[i];
      }
    }
  }
}
