/** Worked examples of the translation, on small front-end queries. */
module QueryExamples {
  import opened Results
  import opened Text
  import opened Dates
  import opened Query
  import opened QueryProperties
  import opened DateExamples

  /** An empty search asks for everything, in both zones. */
  lemma EmptySearch()
    ensures Translation([]) == Ok(map["q" := Single(" "), "zone" := Single(BothZones)])
  {
    AccumulatedEmpty();
    assert Fields([]) == map[];
  }

  const PhraseSearch: seq<Pair> := [("keyword", "cats"), ("keyword.phrase", "black cat")]

  /** A phrase is quoted. */
  lemma Quoted()
    ensures Fragment("keyword.phrase", "black cat") == Some("\"black cat\"")
  {
    assert "\"" + "black cat" + "\"" == "\"black cat\"";
  }

  lemma PhraseFacts()
    ensures LastValue(PhraseSearch, "keyword") == Some("cats")
    ensures LastValue(PhraseSearch, "date.from") == None && LastValue(PhraseSearch, "date.to") == None
    ensures Fragments(PhraseSearch) == ["\"black cat\""]
    ensures !WordConflict(PhraseSearch)
  {
    var p1, p2 := ("keyword", "cats"), ("keyword.phrase", "black cat");
    assert [p1] == [] + [p1] && PhraseSearch == [p1] + [p2];
    StepFacts([], p1);
    StepFacts([p1], p2);
    Quoted();
    ConflictAtWord(PhraseSearch);
  }

  /** A keyword seeds the query and a phrase is added, quoted, after ` AND `. */
  lemma KeywordAndPhrase()
    ensures Translation(PhraseSearch).Ok?
    ensures Translation(PhraseSearch).value["q"] == Single("cats" + " AND " + "\"black cat\"")
  {
    PhraseFacts();
    assert DateRange(PhraseSearch) == Ok(None);
    QueryOf(PhraseSearch);
    assert Join(["\"black cat\""], " AND ") == "\"black cat\"";
  }

  const JanuarySearch: seq<Pair> := [("date.from", "2020-01-01"), ("date.to", "2020-01-31")]

  /** The range of January 2020, as the API wants it. */
  const JanuaryRange: string := "date:[" + ("2019-12-31" + Midnight) + " TO " + ("2020-01-31" + Midnight) + "]"

  lemma JanuaryDates()
    ensures LastValue(JanuarySearch, "date.from") == Some("2020-01-01")
    ensures LastValue(JanuarySearch, "date.to") == Some("2020-01-31")
    ensures !WordConflict(JanuarySearch)
    ensures Fragments(JanuarySearch) == [] && LastValue(JanuarySearch, "keyword") == None
  {
    var p1, p2 := ("date.from", "2020-01-01"), ("date.to", "2020-01-31");
    assert [p1] == [] + [p1] && JanuarySearch == [p1] + [p2];
    StepFacts([], p1);
    StepFacts([p1], p2);
    ConflictAtWord(JanuarySearch);
  }

  /** A date range becomes the `date:` clause, its start moved to the day before. */
  lemma DateClause()
    ensures Translation(JanuarySearch).Ok?
    ensures Translation(JanuarySearch).value["q"] == Single(JanuaryRange)
  {
    JanuaryDates();
    FormatDateYearEnd();
    FormatDateMonthEnd();
    assert DateRange(JanuarySearch) == Ok(Some(JanuaryRange));
    QueryOf(JanuarySearch);
  }

  const SinceNewYear: seq<Pair> := [("date.from", "2020-01-01")]

  /** A range with no end: the start is the day before, the end is `*`. */
  lemma OpenEndedClause()
    ensures Translation(SinceNewYear).Ok?
    ensures Translation(SinceNewYear).value["q"] == Single("date:[" + ("2019-12-31" + Midnight) + " TO " + "*" + "]")
  {
    var p := ("date.from", "2020-01-01");
    assert SinceNewYear == [] + [p];
    StepFacts([], p);
    ConflictAtWord(SinceNewYear);
    FormatDateYearEnd();
    assert DateRange(SinceNewYear) == Ok(Some("date:[" + ("2019-12-31" + Midnight) + " TO " + "*" + "]"));
    QueryOf(SinceNewYear);
  }

  const NewspaperSearch: seq<Pair> := [("l-ArtType", "newspapers")]

  /** An art type of `newspapers` searches the newspaper zone only. */
  lemma NewspaperZone()
    ensures Translation(NewspaperSearch).Ok?
    ensures Translation(NewspaperSearch).value["zone"] == Single("newspaper")
  {
    var p := ("l-ArtType", "newspapers");
    assert NewspaperSearch == [] + [p];
    StepFacts([], p);
    ConflictAtWord(NewspaperSearch);
    assert LastValue(NewspaperSearch, "date.from") == None && LastValue(NewspaperSearch, "date.to") == None;
    QueryOf(NewspaperSearch);
  }

  const PhotoSearch: seq<Pair> := [("l-illustrationType", "Photo")]

  lemma PhotoFacts()
    ensures Translation(PhotoSearch).Ok?
    ensures ValuesFor(PhotoSearch, "l-illtype") == ["Photo"]
  {
    var p := ("l-illustrationType", "Photo");
    assert PhotoSearch == [] + [p];
    StepFacts([], p);
    ConflictAtWord(PhotoSearch);
    assert LastValue(PhotoSearch, "date.from") == None && LastValue(PhotoSearch, "date.to") == None;
    assert ListTarget(p.0) == Some("l-illtype");
  }

  /** An illustration type sets the flag and is listed under `l-illtype`. */
  lemma IllustrationType()
    ensures Translation(PhotoSearch).Ok?
    ensures "l-illustrated" in Translation(PhotoSearch).value && "l-illtype" in Translation(PhotoSearch).value
    ensures Translation(PhotoSearch).value["l-illustrated"] == Single("true")
    ensures Translation(PhotoSearch).value["l-illtype"] == Many(["Photo"])
  {
    PhotoFacts();
    IllustratedFlag(PhotoSearch);
    assert PhotoSearch[0].0 in IllustrationKeys;
    var m := Translation(PhotoSearch).value;
    assert Matches(m, "l-illtype", FieldEntry(PhotoSearch, "l-illtype"));
  }

  /** `keyword.any` splits on every whitespace run, tabs and repeated spaces included: `  cat\tdog ` gives `(cat OR dog)`. */
  lemma AnyOfTabbedWords()
    ensures Fragment("keyword.any", "  " + "cat" + ("\t" + "dog" + " ")) == Some("(" + ("cat" + " OR " + "dog") + ")")
  {
    var words, seps := ["cat", "dog"], ["  ", "\t", " "];
    assert IsToken(words[0]) && IsToken(words[1]);
    assert forall w | w in words :: IsToken(w);
    assert AllSpace(seps[0]) && AllSpace(seps[1]) && AllSpace(seps[2]);
    assert Separators(seps, |words|);
    assert Spaced(words[1..], seps[1..]) == "\t" + "dog" + " ";
    assert Spaced(words, seps) == "  " + "cat" + ("\t" + "dog" + " ");
    AnyOfWords(words, seps);
    assert Join(words, " OR ") == "cat" + " OR " + "dog";
  }

  /** A state and an advanced-search state share one list, in input order. */
  lemma StatesInOrder()
    ensures ValuesFor([("l-state", "Victoria"), ("l-advstate", "Tasmania")], "l-state") == ["Victoria", "Tasmania"]
  {
    var p1, p2 := ("l-state", "Victoria"), ("l-advstate", "Tasmania");
    ValuesForAppend([p1], [p2], "l-state");
    assert [p1] + [p2] == [p1, p2];
    assert ValuesFor([p1], "l-state") == ["Victoria"];
  }

  /** A word after an advanced-search word cannot be appended. */
  lemma WordAfterAdvancedWord()
    ensures Translation([("l-advWord", "cat"), ("l-word", "dog")]) == Err(WordNotAList)
  {
    var ps := [("l-advWord", "cat"), ("l-word", "dog")];
    assert ps[0].0 == "l-advWord" && ps[1].0 == "l-word";
    assert WordConflict(ps);
  }
}
