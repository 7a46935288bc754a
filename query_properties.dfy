/**
 * What a translation promises, stated against the pairs of the query
 * string: which value wins, in what order lists are kept, when the
 * translation fails and which pairs it ignores.
 */
module QueryProperties {
  import opened Results
  import opened Text
  import opened Dates
  import opened Query

  // ---------------------------------------------------------------------------
  // Lists keep input order, aliases included

  /** Collecting over two stretches of input is collecting over each in turn. */
  lemma {:induction false} ValuesForAppend(a: seq<Pair>, b: seq<Pair>, t: string)
    ensures ValuesFor(a + b, t) == ValuesFor(a, t) + ValuesFor(b, t)
  {
    if b == [] {
      assert a + b == a;
    } else {
      var init := b[..|b| - 1];
      var p := b[|b| - 1];
      assert (a + b)[..|a + b| - 1] == a + init && (a + b)[|a + b| - 1] == p;
      ValuesForAppend(a, init, t);
    }
  }

  /** A list is non-empty exactly when some pair feeds it. */
  lemma {:induction false} ValuesForFound(ps: seq<Pair>, t: string)
    ensures ValuesFor(ps, t) != [] <==> exists i | 0 <= i < |ps| :: ListTarget(ps[i].0) == Some(t)
  {
    if ps != [] {
      var init := ps[..|ps| - 1];
      ValuesForFound(init, t);
      if ListTarget(ps[|ps| - 1].0) != Some(t) {
        forall i | 0 <= i < |ps| && ListTarget(ps[i].0) == Some(t)
          ensures exists i' | 0 <= i' < |init| :: ListTarget(init[i'].0) == Some(t)
        {
          assert init[i] == ps[i];
        }
      }
    }
  }

  /** A list key of the output holds every value fed to it, in input order. */
  lemma ListField(ps: seq<Pair>, t: string)
    requires Translation(ps).Ok? && t in ListTargets
    ensures t in Translation(ps).value <==> exists i | 0 <= i < |ps| :: ListTarget(ps[i].0) == Some(t)
    ensures t in Translation(ps).value ==> Translation(ps).value[t] == Many(ValuesFor(ps, t))
  {
    assert t != "q" && t != "zone";
    assert Matches(Translation(ps).value, t, FieldEntry(ps, t));
    ValuesForFound(ps, t);
  }

  /** Only the two illustration keys feed `l-illtype`. */
  lemma IllustrationTarget(key: string)
    ensures ListTarget(key) == Some("l-illtype") <==> key in IllustrationKeys
  {
    if key in Safe && key != "l-word" {
      assert key != "l-illtype";
    }
  }

  /** Each advanced-search alias shares the list of the key it stands for, and only it does. */
  lemma ListTargetAliases(key: string)
    ensures ListTarget(key) == Some("l-state") <==> key == "l-state" || key == "l-advstate"
    ensures ListTarget(key) == Some("l-category") <==> key == "l-category" || key == "l-advcategory"
    ensures ListTarget(key) == Some("l-title") <==> key == "l-title" || key == "l-advtitle"
  {
  }

  /** The other copied keys feed only their own list, and nothing feeds `l-word` as a plain list. */
  lemma ListTargetDirect(key: string)
    ensures ListTarget(key) == Some("l-decade") <==> key == "l-decade"
    ensures ListTarget(key) == Some("l-year") <==> key == "l-year"
    ensures ListTarget(key) == Some("l-month") <==> key == "l-month"
    ensures ListTarget(key) == Some("include") <==> key == "include"
    ensures ListTarget(key) != Some("l-word")
  {
  }

  /** `l-illustrated` is present, and `true`, exactly when an illustration key occurs. */
  lemma IllustratedFlag(ps: seq<Pair>)
    requires Translation(ps).Ok?
    ensures "l-illustrated" in Translation(ps).value <==> exists i | 0 <= i < |ps| :: ps[i].0 in IllustrationKeys
    ensures "l-illustrated" in Translation(ps).value ==> Translation(ps).value["l-illustrated"] == Single("true")
  {
    var m := Translation(ps).value;
    assert Matches(m, "l-illustrated", FieldEntry(ps, "l-illustrated"));
    assert "l-illustrated" !in ListTargets;
    ValuesForFound(ps, "l-illtype");
    forall i | 0 <= i < |ps| ensures ListTarget(ps[i].0) == Some("l-illtype") <==> ps[i].0 in IllustrationKeys {
      IllustrationTarget(ps[i].0);
    }
  }

  // ---------------------------------------------------------------------------
  // Single values: the last one wins

  /** A single-valued key takes the value of its last pair. */
  lemma {:induction false} LastValueIsLast(ps: seq<Pair>, key: string)
    requires LastValue(ps, key).Some?
    ensures exists i | 0 <= i < |ps| :: ps[i] == (key, LastValue(ps, key).value)
                                         && forall j | i < j < |ps| :: ps[j].0 != key
  {
    var n := |ps| - 1;
    if ps[n].0 == key {
      assert ps[n] == (key, LastValue(ps, key).value);
    } else {
      var init := ps[..n];
      LastValueIsLast(init, key);
      var i :| 0 <= i < |init| && init[i] == (key, LastValue(init, key).value)
                && forall j | i < j < |init| :: init[j].0 != key;
      assert ps[i] == init[i];
      forall j | i < j < |ps| ensures ps[j].0 != key {
        if j < n {
          assert ps[j] == init[j];
        }
      }
    }
  }

  /** The zone is chosen by the last art-type pair with a known value. */
  lemma {:induction false} ZoneOfIsLast(ps: seq<Pair>)
    ensures ZoneOf(ps).None? <==> forall i | 0 <= i < |ps| :: !(ps[i].0 in ArtTypeKeys && ZoneFor(ps[i].1).Some?)
    ensures ZoneOf(ps).Some? ==>
      exists i | 0 <= i < |ps| :: ps[i].0 in ArtTypeKeys && ZoneFor(ps[i].1) == ZoneOf(ps)
        && forall j | i < j < |ps| :: !(ps[j].0 in ArtTypeKeys && ZoneFor(ps[j].1).Some?)
  {
    if ps != [] {
      var n := |ps| - 1;
      var init := ps[..n];
      ZoneOfIsLast(init);
      if !(ps[n].0 in ArtTypeKeys && ZoneFor(ps[n].1).Some?) {
        forall i | 0 <= i < n ensures ps[i] == init[i] {
        }
        if ZoneOf(ps).Some? {
          var i :| 0 <= i < |init| && init[i].0 in ArtTypeKeys && ZoneFor(init[i].1) == ZoneOf(init)
                   && forall j | i < j < |init| :: !(init[j].0 in ArtTypeKeys && ZoneFor(init[j].1).Some?);
          assert ps[i] == init[i];
          forall j | i < j < |ps| ensures !(ps[j].0 in ArtTypeKeys && ZoneFor(ps[j].1).Some?) {
            if j < n {
              assert ps[j] == init[j];
            }
          }
        }
      }
    }
  }

  /** Without an art-type pair that names a zone, both zones are searched. */
  lemma DefaultZone(ps: seq<Pair>)
    requires Translation(ps).Ok?
    requires forall i | 0 <= i < |ps| :: !(ps[i].0 in ArtTypeKeys && ZoneFor(ps[i].1).Some?)
    ensures Translation(ps).value["zone"] == Single(BothZones)
  {
    ZoneOfIsLast(ps);
  }

  // ---------------------------------------------------------------------------
  // When the translation fails

  /** A conflict is an `l-word` pair met after some `l-advWord` has been seen. */
  lemma ConflictAtWord(ps: seq<Pair>)
    ensures WordConflict(ps) <==>
      exists b | 0 <= b < |ps| :: ps[b].0 == "l-word" && LastValue(ps[..b], "l-advWord").Some?
  {
    if WordConflict(ps) {
      var a, b :| 0 <= a < b < |ps| && ps[a].0 == "l-advWord" && ps[b].0 == "l-word";
      LastValueFound(ps[..b], "l-advWord");
      assert ps[..b][a].0 == "l-advWord";
    }
    if exists b | 0 <= b < |ps| :: ps[b].0 == "l-word" && LastValue(ps[..b], "l-advWord").Some? {
      var b :| 0 <= b < |ps| && ps[b].0 == "l-word" && LastValue(ps[..b], "l-advWord").Some?;
      LastValueFound(ps[..b], "l-advWord");
      var a :| 0 <= a < b && ps[..b][a].0 == "l-advWord";
      assert ps[a].0 == "l-advWord";
    }
  }

  /** The translation fails on the word list exactly when there is a conflict. */
  lemma ConflictIsError(ps: seq<Pair>)
    ensures Translation(ps) == Err(WordNotAList) <==> WordConflict(ps)
  {
    if !WordConflict(ps) && DateRange(ps).Err? {
      assert Translation(ps) == Err(BadDate(DateRange(ps).error));
    }
  }

  /** The date range fails exactly when a given date token is not accepted. */
  lemma DateRangeFails(ps: seq<Pair>)
    ensures DateRange(ps).Err? <==>
      (LastValue(ps, "date.from").Some? && !Accepted(LastValue(ps, "date.from").value, true))
      || (LastValue(ps, "date.to").Some? && !Accepted(LastValue(ps, "date.to").value, false))
  {
    var from, to := LastValue(ps, "date.from"), LastValue(ps, "date.to");
    FormatDateAccepts(from.GetOr(OpenEnd), true);
    FormatDateAccepts(to.GetOr(OpenEnd), false);
  }

  /** The translation succeeds exactly when it meets no conflict and every given date token is accepted. */
  lemma TranslationSucceeds(ps: seq<Pair>)
    ensures Translation(ps).Ok? <==>
      !WordConflict(ps)
      && (LastValue(ps, "date.from").Some? ==> Accepted(LastValue(ps, "date.from").value, true))
      && (LastValue(ps, "date.to").Some? ==> Accepted(LastValue(ps, "date.to").value, false))
  {
    DateRangeFails(ps);
  }

  /** Two days give a range from midnight of the day before the first to midnight of the second. */
  lemma DateRangeOfDays(ps: seq<Pair>, d: Date, e: Date)
    requires Valid(d) && d != FirstDate && Valid(e)
    requires LastValue(ps, "date.from") == Some(ShowDate(d)) && LastValue(ps, "date.to") == Some(ShowDate(e))
    ensures DateRange(ps) == Ok(Some("date:[" + Timestamp(PrevDay(d)) + " TO " + Timestamp(e) + "]"))
    ensures DayNumber(PrevDay(d)) == DayNumber(d) - 1
  {
    FormatRangeStart(d);
    FormatRangeEnd(e);
  }

  /** Only `date.to` given: the range opens with `*` and ends at midnight of that day. */
  lemma DateRangeToOnly(ps: seq<Pair>, e: Date)
    requires Valid(e)
    requires LastValue(ps, "date.from").None? && LastValue(ps, "date.to") == Some(ShowDate(e))
    ensures DateRange(ps) == Ok(Some("date:[" + "*" + " TO " + Timestamp(e) + "]"))
  {
    FormatRangeEnd(e);
  }

  /** Only `date.from` given: the range starts at midnight of the day before and ends with `*`. */
  lemma DateRangeFromOnly(ps: seq<Pair>, d: Date)
    requires Valid(d) && d != FirstDate
    requires LastValue(ps, "date.from") == Some(ShowDate(d)) && LastValue(ps, "date.to").None?
    ensures DateRange(ps) == Ok(Some("date:[" + Timestamp(PrevDay(d)) + " TO " + "*" + "]"))
  {
    FormatRangeStart(d);
  }

  // ---------------------------------------------------------------------------
  // Keyword fragments

  /** The fragments of two stretches of input follow each other. */
  lemma {:induction false} FragmentsAppend(a: seq<Pair>, b: seq<Pair>)
    ensures Fragments(a + b) == Fragments(a) + Fragments(b)
  {
    if b == [] {
      assert a + b == a;
    } else {
      var init := b[..|b| - 1];
      assert (a + b)[..|a + b| - 1] == a + init && (a + b)[|a + b| - 1] == b[|b| - 1];
      FragmentsAppend(a, init);
    }
  }

  /**
   * `keyword.any` on words separated by any whitespace asks for any of them,
   * and `keyword.not` for none of them.
   */
  lemma AnyOfWords(words: seq<string>, seps: seq<string>)
    requires forall w | w in words :: IsToken(w)
    requires Separators(seps, |words|)
    ensures Fragment("keyword.any", Spaced(words, seps)) == Some("(" + Join(words, " OR ") + ")")
    ensures Fragment("keyword.not", Spaced(words, seps)) == Some("NOT (" + Join(words, " OR ") + ")")
  {
    SplitSpaced(words, seps);
  }

  /** Only the three keyword keys give a fragment, and a phrase is its value in double quotes. */
  lemma FragmentKinds(key: string, value: string)
    ensures Fragment(key, value).Some? <==> key == "keyword.phrase" || key == "keyword.not" || key == "keyword.any"
    ensures key == "keyword.phrase" ==> |Fragment(key, value).value| == |value| + 2
    ensures key == "keyword.phrase" ==>
      var f := Fragment(key, value).value;
      f[0] == '"' && f[|value| + 1] == '"' && f[1..|value| + 1] == value
  {
  }

  // ---------------------------------------------------------------------------
  // The pieces of the free-text query

  /** No date key gives no range; a range fails exactly when a token that is given does not format. */
  lemma DateRangeGiven(ps: seq<Pair>)
    ensures DateRange(ps) == Ok(None) <==> LastValue(ps, "date.from").None? && LastValue(ps, "date.to").None?
    ensures DateRange(ps).Err? <==>
      || (LastValue(ps, "date.from").Some? && FormatDate(LastValue(ps, "date.from").value, true).Err?)
      || (LastValue(ps, "date.to").Some? && FormatDate(LastValue(ps, "date.to").value, false).Err?)
  {
  }

  /**
   * The query starts with the seed, or with the fragments when there is no
   * seed, and ends with the date range; it is a single space when all three
   * are absent. Nothing lies between the pieces: the range follows the
   * keyword part after one space, and the keyword part is exactly as long as
   * the seed, ` AND ` and the joined fragments.
   */
  lemma AssembleQueryParts(seed: Option<string>, frags: seq<string>, range: Option<string>)
    ensures seed.None? && frags == [] && range.None? ==> AssembleQuery(seed, frags, range) == " "
    ensures seed.None? && frags == [] && range.Some? ==> AssembleQuery(seed, frags, range) == range.value
    ensures seed.Some? ==> seed.value <= AssembleQuery(seed, frags, range)
    ensures seed.None? && frags != [] ==> Join(frags, " AND ") <= AssembleQuery(seed, frags, range)
    ensures seed.Some? && frags != [] ==> seed.value + " AND " + Join(frags, " AND ") <= AssembleQuery(seed, frags, range)
    ensures range.Some? ==>
      var q := AssembleQuery(seed, frags, range);
      |range.value| <= |q| && q[|q| - |range.value|..] == range.value
    ensures range.Some? && (seed.Some? || frags != []) ==>
      var q := AssembleQuery(seed, frags, range);
      |range.value| < |q| && q[|q| - |range.value| - 1] == ' '
    ensures range.Some? && (seed.Some? || frags != []) ==>
      AssembleQuery(seed, frags, range) == AssembleQuery(seed, frags, None) + " " + range.value
    ensures seed.Some? ==> AssembleQuery(seed, [], None) == seed.value
    ensures frags != [] ==>
      |AssembleQuery(seed, frags, None)| == (if seed.Some? then |seed.value| + 5 else 0) + |Join(frags, " AND ")|
  {
    var q := AssembleQuery(seed, frags, range);
    var keywords :=
      if frags == [] then seed
      else Some((if seed.Some? then seed.value + " AND " else "") + Join(frags, " AND "));
    if seed.Some? {
      assert seed.value <= keywords.value;
    }
    if range.Some? && keywords.Some? {
      var d := range.value;
      assert q == (keywords.value + " ") + d;
      assert q[|q| - |d|..] == d;
      assert q[|q| - |d| - 1] == (keywords.value + " ")[|keywords.value|];
    }
  }

  /** The zone an art-type value selects: `newspapers` selects `newspaper`, `gazette` selects `gazette`, nothing else selects one. */
  lemma ZoneChoice(value: string)
    ensures ZoneFor(value).Some? <==> value == "newspapers" || value == "gazette"
    ensures ZoneFor(value) == Some("newspaper") <==> value == "newspapers"
    ensures ZoneFor(value) == Some("gazette") <==> value == "gazette"
  {
  }

  /** `l-word` is absent exactly when neither word key occurs, and a single string exactly when `l-advWord` does. */
  lemma WordEntryOccurs(ps: seq<Pair>)
    ensures WordEntry(ps).None? <==> !Occurs(ps, "l-word") && !Occurs(ps, "l-advWord")
    ensures WordEntry(ps).Some? && WordEntry(ps).value.Single? <==> Occurs(ps, "l-advWord")
  {
    LastValueFound(ps, "l-advWord");
    ValuesWithKeyFound(ps, "l-word");
  }

  // ---------------------------------------------------------------------------
  // Pairs the pass ignores

  /** The keys the pass does something with. */
  predicate Recognised(key: string) {
    || key in FieldKeys || key in ArtTypeKeys
    || key in {"date.from", "date.to", "keyword", "keyword.phrase", "keyword.not", "keyword.any"}
  }

  /** An unrecognised key, or an art type with an unknown value, changes nothing, wherever it stands. */
  lemma IgnoredPair(a: seq<Pair>, p: Pair, b: seq<Pair>)
    requires !Recognised(p.0) || (p.0 in ArtTypeKeys && ZoneFor(p.1).None?)
    ensures Translation(a + [p] + b) == Translation(a + b)
  {
    IgnoredKey(p);
    SkipOne(a, p);
    SummariesSkip(a, p, b);
    ConflictSkip(a, p, b);
    FieldsSkip(a, p, b);
    SameTranslation(a + [p] + b, a + b);
  }

  /** What one ignored pair at the end of `a` leaves as it was. */
  lemma SkipOne(a: seq<Pair>, p: Pair)
    requires ListTarget(p.0).None? && Fragment(p.0, p.1).None?
    requires p.0 != "l-word" && p.0 != "l-advWord" && p.0 != "keyword" && p.0 != "date.from" && p.0 != "date.to"
    requires !(p.0 in ArtTypeKeys && ZoneFor(p.1).Some?)
    ensures LastValue(a + [p], "keyword") == LastValue(a, "keyword") && LastValue(a + [p], "l-advWord") == LastValue(a, "l-advWord")
    ensures LastValue(a + [p], "date.from") == LastValue(a, "date.from") && LastValue(a + [p], "date.to") == LastValue(a, "date.to")
    ensures ValuesWithKey(a + [p], "l-word") == ValuesWithKey(a, "l-word")
    ensures forall t :: ValuesFor(a + [p], t) == ValuesFor(a, t)
    ensures ZoneOf(a + [p]) == ZoneOf(a) && Fragments(a + [p]) == Fragments(a)
  {
    assert (a + [p])[..|a|] == a;
    assert ValuesWithKey(a + [p], "l-word") == ValuesWithKey(a, "l-word") + [];
    forall t ensures ValuesFor(a + [p], t) == ValuesFor(a, t) {
      assert ValuesFor(a + [p], t) == ValuesFor(a, t) + [];
    }
    assert Fragments(a + [p]) == Fragments(a) + [];
  }

  /** The single-valued summaries, the zone and the fragments skip an ignored pair. */
  lemma SummariesSkip(a: seq<Pair>, p: Pair, b: seq<Pair>)
    requires LastValue(a + [p], "keyword") == LastValue(a, "keyword")
    requires LastValue(a + [p], "date.from") == LastValue(a, "date.from") && LastValue(a + [p], "date.to") == LastValue(a, "date.to")
    requires ZoneOf(a + [p]) == ZoneOf(a) && Fragments(a + [p]) == Fragments(a)
    ensures LastValue(a + [p] + b, "keyword") == LastValue(a + b, "keyword")
    ensures DateRange(a + [p] + b) == DateRange(a + b)
    ensures ZoneOf(a + [p] + b) == ZoneOf(a + b) && Fragments(a + [p] + b) == Fragments(a + b)
  {
    LastValueAppend(a + [p], b, "keyword");
    LastValueAppend(a, b, "keyword");
    LastValueAppend(a + [p], b, "date.from");
    LastValueAppend(a, b, "date.from");
    LastValueAppend(a + [p], b, "date.to");
    LastValueAppend(a, b, "date.to");
    SameDates(a + [p] + b, a + b);
    ZoneOfAppend(a + [p], b);
    ZoneOfAppend(a, b);
    FragmentsAppend(a + [p], b);
    FragmentsAppend(a, b);
  }

  /** The date range depends only on the last `date.from` and `date.to` values. */
  lemma SameDates(x: seq<Pair>, y: seq<Pair>)
    requires LastValue(x, "date.from") == LastValue(y, "date.from") && LastValue(x, "date.to") == LastValue(y, "date.to")
    ensures DateRange(x) == DateRange(y)
  {
  }

  /** The last value over two stretches of input is the second stretch's, if it has one. */
  lemma {:induction false} LastValueAppend(a: seq<Pair>, b: seq<Pair>, k: string)
    ensures LastValue(a + b, k) == if LastValue(b, k).Some? then LastValue(b, k) else LastValue(a, k)
  {
    if b == [] {
      assert a + b == a;
    } else {
      var init := b[..|b| - 1];
      assert (a + b)[..|a + b| - 1] == a + init && (a + b)[|a + b| - 1] == b[|b| - 1];
      LastValueAppend(a, init, k);
    }
  }

  /** The zone over two stretches of input is the second stretch's, if it names one. */
  lemma {:induction false} ZoneOfAppend(a: seq<Pair>, b: seq<Pair>)
    ensures ZoneOf(a + b) == if ZoneOf(b).Some? then ZoneOf(b) else ZoneOf(a)
  {
    if b == [] {
      assert a + b == a;
    } else {
      var init := b[..|b| - 1];
      assert (a + b)[..|a + b| - 1] == a + init && (a + b)[|a + b| - 1] == b[|b| - 1];
      ZoneOfAppend(a, init);
    }
  }

  /** A pair that is neither word key takes no part in a conflict. */
  lemma ConflictSkip(a: seq<Pair>, p: Pair, b: seq<Pair>)
    requires p.0 != "l-word" && p.0 != "l-advWord"
    ensures WordConflict(a + [p] + b) <==> WordConflict(a + b)
  {
    var s, t, n := a + [p] + b, a + b, |a|;
    assert forall i | 0 <= i < n :: s[i] == t[i];
    assert forall i | n < i < |s| :: s[i] == t[i - 1];
    if WordConflict(s) {
      var x, y :| 0 <= x < y < |s| && s[x].0 == "l-advWord" && s[y].0 == "l-word";
      var x', y' := if x < n then x else x - 1, if y < n then y else y - 1;
      assert t[x'] == s[x] && t[y'] == s[y];
    }
    if WordConflict(t) {
      var x, y :| 0 <= x < y < |t| && t[x].0 == "l-advWord" && t[y].0 == "l-word";
      var x', y' := if x < n then x else x + 1, if y < n then y else y + 1;
      assert s[x'] == t[x] && s[y'] == t[y];
    }
  }

  /** A pair that leaves the lists and the word entry of `a` as they were leaves every field entry as it is, wherever it stands. */
  lemma FieldEntrySkip(a: seq<Pair>, p: Pair, b: seq<Pair>, k: string)
    requires LastValue(a + [p], "l-advWord") == LastValue(a, "l-advWord")
    requires ValuesWithKey(a + [p], "l-word") == ValuesWithKey(a, "l-word")
    requires forall t :: ValuesFor(a + [p], t) == ValuesFor(a, t)
    ensures FieldEntry(a + [p] + b, k) == FieldEntry(a + b, k)
  {
    var s, t := a + [p] + b, a + b;
    ValuesForAppend(a + [p], b, k);
    ValuesForAppend(a, b, k);
    ValuesForAppend(a + [p], b, "l-illtype");
    ValuesForAppend(a, b, "l-illtype");
    LastValueAppend(a + [p], b, "l-advWord");
    LastValueAppend(a, b, "l-advWord");
    ValuesWithKeyAppend(a + [p], b, "l-word");
    ValuesWithKeyAppend(a, b, "l-word");
    assert WordEntry(s) == WordEntry(t);
  }

  /** A pair that leaves the lists and the word entry of `a` as they were leaves the fields as they are, wherever it stands. */
  lemma FieldsSkip(a: seq<Pair>, p: Pair, b: seq<Pair>)
    requires LastValue(a + [p], "l-advWord") == LastValue(a, "l-advWord")
    requires ValuesWithKey(a + [p], "l-word") == ValuesWithKey(a, "l-word")
    requires forall t :: ValuesFor(a + [p], t) == ValuesFor(a, t)
    ensures Fields(a + [p] + b) == Fields(a + b)
  {
    var s, t := a + [p] + b, a + b;
    var m, m' := Fields(s), Fields(t);
    forall k ensures (k in m <==> k in m') && (k in m ==> m[k] == m'[k]) {
      if k != "q" && k != "zone" {
        FieldEntrySkip(a, p, b, k);
        assert Matches(m, k, FieldEntry(s, k)) && Matches(m', k, FieldEntry(t, k));
      }
    }
  }

  /** The free-text query and the zone of a successful translation. */
  lemma QueryOf(ps: seq<Pair>)
    requires Translation(ps).Ok?
    ensures DateRange(ps).Ok?
    ensures Translation(ps).value["q"] == Single(AssembleQuery(LastValue(ps, "keyword"), Fragments(ps), DateRange(ps).value))
    ensures Translation(ps).value["zone"] == Single(ZoneOf(ps).GetOr(BothZones))
  {
  }

  /** A translation depends only on what the pairs say key by key. */
  lemma SameTranslation(a: seq<Pair>, b: seq<Pair>)
    requires WordConflict(a) == WordConflict(b) && DateRange(a) == DateRange(b) && Fields(a) == Fields(b)
    requires LastValue(a, "keyword") == LastValue(b, "keyword") && Fragments(a) == Fragments(b)
    requires ZoneOf(a) == ZoneOf(b)
    ensures Translation(a) == Translation(b)
  {
  }

  /** What an ignored pair is not. */
  lemma IgnoredKey(p: Pair)
    requires !Recognised(p.0) || (p.0 in ArtTypeKeys && ZoneFor(p.1).None?)
    ensures ListTarget(p.0).None? && Fragment(p.0, p.1).None?
    ensures p.0 != "l-word" && p.0 != "l-advWord" && p.0 != "keyword" && p.0 != "date.from" && p.0 != "date.to"
    ensures !(p.0 in ArtTypeKeys && ZoneFor(p.1).Some?)
  {
    assert p.0 !in FieldKeys;
  }

  // ---------------------------------------------------------------------------
  // The API branch

  /** Every API parameter keeps the list of its values in input order. */
  lemma {:induction false} ValuesWithKeyAppend(a: seq<Pair>, b: seq<Pair>, k: string)
    ensures ValuesWithKey(a + b, k) == ValuesWithKey(a, k) + ValuesWithKey(b, k)
  {
    if b == [] {
      assert a + b == a;
    } else {
      var init := b[..|b| - 1];
      assert (a + b)[..|a + b| - 1] == a + init && (a + b)[|a + b| - 1] == b[|b| - 1];
      ValuesWithKeyAppend(a, init, k);
    }
  }

  /** A grouped parameter holds exactly its values, each once per pair. */
  lemma {:induction false} GroupedCount(ps: seq<Pair>, k: string)
    ensures |ValuesWithKey(ps, k)| == |set i | 0 <= i < |ps| && ps[i].0 == k|
  {
    if ps != [] {
      var n := |ps| - 1;
      var init := ps[..n];
      GroupedCount(init, k);
      var before := set i | 0 <= i < |init| && init[i].0 == k;
      var after := set i | 0 <= i < |ps| && ps[i].0 == k;
      var last: set<int> := if ps[n].0 == k then {n} else {};
      forall i ensures i in after <==> i in before || i in last {
        if 0 <= i < n {
          assert ps[i] == init[i];
        }
      }
      assert after == before + last;
      assert n !in before;
      assert ValuesWithKey(ps, k) == ValuesWithKey(init, k) + (if ps[n].0 == k then [ps[n].1] else []);
    }
  }
}
