/** Worked examples of the date normaliser, from the front-end's own dates. */
module DateExamples {
  import opened Results
  import opened Dates

  /** The day before the first of March is the 29th of February in a leap year only. */
  lemma LeapDayExamples()
    ensures PrevDay(Date(2020, 3, 1)) == Date(2020, 2, 29)
    ensures PrevDay(Date(2019, 3, 1)) == Date(2019, 2, 28)
    ensures PrevDay(Date(1900, 3, 1)) == Date(1900, 2, 28)
    ensures PrevDay(Date(2000, 3, 1)) == Date(2000, 2, 29)
  {
  }

  /** The padded years the worked examples below use. */
  lemma PadYear2019()
    ensures Pad(2019, 4) == "2019"
  {
    assert Pad(2, 1) == "2";
    assert Pad(20, 2) == "20";
    assert Pad(201, 3) == "201";
  }

  lemma PadYear2020()
    ensures Pad(2020, 4) == "2020"
  {
    assert Pad(2, 1) == "2";
    assert Pad(20, 2) == "20";
    assert Pad(202, 3) == "202";
  }

  lemma PadYearOne()
    ensures Pad(1, 4) == "0001"
  {
    assert Pad(0, 1) == "0";
    assert Pad(0, 2) == "00";
    assert Pad(0, 3) == "000";
  }

  /** The padded months and days the worked examples below use. */
  lemma PadDays()
    ensures Pad(1, 2) == "01" && Pad(12, 2) == "12" && Pad(14, 2) == "14"
    ensures Pad(15, 2) == "15" && Pad(31, 2) == "31"
  {
    assert Pad(0, 1) == "0" && Pad(1, 1) == "1" && Pad(3, 1) == "3";
  }

  /** The dates of the worked examples, written out. */
  lemma ShowMidJanuary()
    ensures ShowDate(Date(2020, 1, 15)) == "2020-01-15"
    ensures ShowDate(Date(2020, 1, 14)) == "2020-01-14"
  {
    PadYear2020();
    PadDays();
    var y20, m1, d14, d15 := Pad(2020, 4), Pad(1, 2), Pad(14, 2), Pad(15, 2);
    assert ShowDate(Date(2020, 1, 15)) == y20 + "-" + m1 + "-" + d15;
    assert ShowDate(Date(2020, 1, 14)) == y20 + "-" + m1 + "-" + d14;
  }

  lemma ShowNewYear()
    ensures ShowDate(Date(2020, 1, 1)) == "2020-01-01"
  {
    PadYear2020();
    PadDays();
    assert ShowDate(Date(2020, 1, 1)) == Pad(2020, 4) + "-" + Pad(1, 2) + "-" + Pad(1, 2);
  }

  lemma ShowYearEnd()
    ensures ShowDate(Date(2019, 12, 31)) == "2019-12-31"
  {
    PadYear2019();
    PadDays();
    assert ShowDate(Date(2019, 12, 31)) == Pad(2019, 4) + "-" + Pad(12, 2) + "-" + Pad(31, 2);
  }

  lemma ShowMonthEnd()
    ensures ShowDate(Date(2020, 1, 31)) == "2020-01-31"
  {
    PadYear2020();
    PadDays();
    var y20, m1, d31 := Pad(2020, 4), Pad(1, 2), Pad(31, 2);
    assert ShowDate(Date(2020, 1, 31)) == y20 + "-" + m1 + "-" + d31;
  }

  lemma ShowFirstDate()
    ensures ShowDate(FirstDate) == "0001-01-01"
  {
    PadYearOne();
    PadDays();
    assert ShowDate(FirstDate) == Pad(1, 4) + "-" + Pad(1, 2) + "-" + Pad(1, 2);
  }

  /** The worked example: 2020-01-15 opens a range as 2020-01-14 and closes one as itself. */
  lemma FormatDateExample()
    ensures FormatDate("2020-01-15", true) == Ok("2020-01-14" + Midnight)
    ensures FormatDate("2020-01-15", false) == Ok("2020-01-15" + Midnight)
  {
    var d := Date(2020, 1, 15);
    ShowMidJanuary();
    FormatRangeStart(d);
    FormatRangeEnd(d);
    assert PrevDay(d) == Date(2020, 1, 14);
    assert Timestamp(PrevDay(d)) == "2020-01-14" + Midnight;
    assert Timestamp(d) == "2020-01-15" + Midnight;
  }

  /** A range opening on New Year's Day starts on the last day of the year before. */
  lemma FormatDateYearEnd()
    ensures FormatDate("2020-01-01", true) == Ok("2019-12-31" + Midnight)
  {
    var d := Date(2020, 1, 1);
    ShowNewYear();
    ShowYearEnd();
    FormatRangeStart(d);
    assert PrevDay(d) == Date(2019, 12, 31);
    assert Timestamp(PrevDay(d)) == "2019-12-31" + Midnight;
  }

  lemma FormatDateMonthEnd()
    ensures FormatDate("2020-01-31", false) == Ok("2020-01-31" + Midnight)
  {
    var e := Date(2020, 1, 31);
    ShowMonthEnd();
    FormatRangeEnd(e);
    assert Timestamp(e) == "2020-01-31" + Midnight;
  }

  /** The first representable day cannot open a range. */
  lemma FormatDateFirstDay()
    ensures FormatDate("0001-01-01", true) == Err(BeforeYearOne("0001-01-01"))
  {
    ShowFirstDate();
    ParseShowDate(FirstDate);
    assert "0001-01-01" != OpenEnd;
  }
}
