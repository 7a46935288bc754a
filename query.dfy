/**
 * The query translator (`parse_query`): the decoded (key, value) pairs of a
 * search made in the Trove web interface become the parameters of the
 * equivalent API search.
 *
 * `Translation` says, key by key, what the output holds for a given input;
 * the method `Translate` is the single pass over the pairs that the source
 * performs, with its accumulators, proved to produce exactly `Translation`.
 */
module Query {
  import opened Results
  import opened Text
  import opened Dates

  /** One decoded query-string parameter: (key, value). */
  type Pair = (string, string)

  /** An output parameter: a single string, or an ordered list of strings. */
  datatype Value = Single(text: string) | Many(items: seq<string>)

  datatype Error =
    | BadDate(reason: DateError)  // a `date.from` / `date.to` value the date normaliser refuses
    | WordNotAList                // `l-word` arrived after `l-advWord` made it a single string

  // ---------------------------------------------------------------------------
  // The key vocabulary

  /** Keys copied under their own name, their values collected in a list. */
  const Safe: set<string> :=
    {"l-category", "l-title", "l-decade", "l-year", "l-month", "l-state", "l-word", "include"}

  const IllustrationKeys: set<string> := {"l-illustrationType", "l-advIllustrationType"}

  const ArtTypeKeys: set<string> := {"l-ArtType", "l-advArtType", "l-artType"}

  /** The output keys whose value is always a list. */
  const ListTargets: set<string> :=
    {"l-category", "l-title", "l-decade", "l-year", "l-month", "l-state", "include", "l-illtype"}

  /** Every key a translation can produce. */
  const OutputKeys: set<string> := Safe + {"l-illustrated", "l-illtype", "q", "zone"}

  /** The zone used when the search names none. */
  const BothZones: string := "newspaper,gazette"

  /**
   * The list an input key appends its value to, if it is one of the
   * list-collecting keys; aliases share the list of the key they stand for.
   * `l-word` is collected too, but is left to `WordEntry`, since `l-advWord`
   * can overwrite it.
   */
  function ListTarget(key: string): (t: Option<string>)
    ensures t.Some? ==> t.value in ListTargets
  {
    if key in Safe && key != "l-word" then Some(key)
    else if key == "l-advstate" then Some("l-state")
    else if key == "l-advcategory" then Some("l-category")
    else if key == "l-advtitle" then Some("l-title")
    else if key in IllustrationKeys then Some("l-illtype")
    else None
  }

  /** The zone an art-type value selects, if it selects one. */
  function ZoneFor(value: string): Option<string> {
    if value == "newspapers" then Some("newspaper")
    else if value == "gazette" then Some("gazette")
    else None
  }

  /** The keyword fragment a pair contributes to the free-text query, if any. */
  function Fragment(key: string, value: string): Option<string> {
    if key == "keyword.phrase" then Some("\"" + value + "\"")
    else if key == "keyword.not" then Some("NOT (" + Join(Split(value), " OR ") + ")")
    else if key == "keyword.any" then Some("(" + Join(Split(value), " OR ") + ")")
    else None
  }

  // ---------------------------------------------------------------------------
  // What the input says, key by key (each defined by the pairs in input order)

  /** The values, in input order, of the pairs collected into list `target`. */
  function ValuesFor(ps: seq<Pair>, target: string): seq<string> {
    if ps == [] then []
    else
      var p := ps[|ps| - 1];
      ValuesFor(ps[..|ps| - 1], target) + (if ListTarget(p.0) == Some(target) then [p.1] else [])
  }

  /** The values, in input order, of the pairs with key `key`. */
  function ValuesWithKey(ps: seq<Pair>, key: string): seq<string> {
    if ps == [] then []
    else
      var p := ps[|ps| - 1];
      ValuesWithKey(ps[..|ps| - 1], key) + (if p.0 == key then [p.1] else [])
  }

  /** The value of the last pair with key `key`. */
  function LastValue(ps: seq<Pair>, key: string): Option<string> {
    if ps == [] then None
    else if ps[|ps| - 1].0 == key then Some(ps[|ps| - 1].1)
    else LastValue(ps[..|ps| - 1], key)
  }

  /** The zone selected by the last art-type pair that selects one. */
  function ZoneOf(ps: seq<Pair>): Option<string> {
    if ps == [] then None
    else
      var p := ps[|ps| - 1];
      if p.0 in ArtTypeKeys && ZoneFor(p.1).Some? then ZoneFor(p.1) else ZoneOf(ps[..|ps| - 1])
  }

  /** The keyword fragments, in input order. */
  function Fragments(ps: seq<Pair>): seq<string> {
    if ps == [] then []
    else
      var p := ps[|ps| - 1];
      Fragments(ps[..|ps| - 1]) + (match Fragment(p.0, p.1) case Some(f) => [f] case None => [])
  }

  /** Some `l-word` pair comes after an `l-advWord` pair. */
  predicate WordConflict(ps: seq<Pair>) {
    exists a, b | 0 <= a < b < |ps| :: ps[a].0 == "l-advWord" && ps[b].0 == "l-word"
  }

  /** Some pair has key `key`. */
  predicate Occurs(ps: seq<Pair>, key: string) {
    exists i | 0 <= i < |ps| :: ps[i].0 == key
  }

  /** `l-word`: the last `l-advWord` value if there is one, else the list of `l-word` values. */
  function WordEntry(ps: seq<Pair>): Option<Value> {
    match LastValue(ps, "l-advWord")
    case Some(w) => Some(Single(w))
    case None =>
      var ws := ValuesWithKey(ps, "l-word");
      if ws == [] then None else Some(Many(ws))
  }

  /** The output entry for key `k`, for every key other than `q` and `zone`. */
  function FieldEntry(ps: seq<Pair>, k: string): Option<Value> {
    if k in ListTargets then
      var vs := ValuesFor(ps, k);
      if vs == [] then None else Some(Many(vs))
    else if k == "l-word" then WordEntry(ps)
    else if k == "l-illustrated" then
      if ValuesFor(ps, "l-illtype") == [] then None else Some(Single("true"))
    else None
  }

  /** `e` says whether `k` is in `m` and, if it is, what it maps to. */
  predicate Matches<V(==)>(m: map<string, V>, k: string, e: Option<V>) {
    (k in m <==> e.Some?) && (k in m ==> m[k] == e.value)
  }

  function SingleOf(o: Option<string>): Option<Value> {
    match o
    case Some(s) => Some(Single(s))
    case None => None
  }

  /** The entries every key other than `q` and `zone` contributes. */
  function Fields(ps: seq<Pair>): (m: map<string, Value>)
    ensures forall k | k != "q" && k != "zone" :: Matches(m, k, FieldEntry(ps, k))
    ensures "q" !in m && "zone" !in m
  {
    map k | k in OutputKeys && FieldEntry(ps, k).Some? :: FieldEntry(ps, k).value
  }

  /** The output map as the pass leaves it, before the post-processing. */
  function Collected(ps: seq<Pair>): map<string, Value> {
    OutputWith(Fields(ps), LastValue(ps, "keyword"), ZoneOf(ps))
  }

  /** `m` with `q` and `zone` added where they are known. */
  function OutputWith(m: map<string, Value>, q: Option<string>, zone: Option<string>): map<string, Value> {
    var m := match q case Some(s) => m["q" := Single(s)] case None => m;
    match zone case Some(z) => m["zone" := Single(z)] case None => m
  }

  lemma OutputWithFacts(m: map<string, Value>, q: Option<string>, zone: Option<string>)
    requires "q" !in m && "zone" !in m
    ensures Matches(OutputWith(m, q, zone), "q", SingleOf(q))
    ensures Matches(OutputWith(m, q, zone), "zone", SingleOf(zone))
  {
  }

  /** Setting `q` in the output is setting the `q` that `OutputWith` adds. */
  lemma OutputWithQuery(m: map<string, Value>, q: Option<string>, zone: Option<string>, s: string)
    ensures OutputWith(m, q, zone)["q" := Single(s)] == OutputWith(m, Some(s), zone)
  {
  }

  /**
   * `date:[F TO T]` when either date key occurs (a missing side is `*`, `F`
   * is formatted as a range start and `T` as an end), nothing otherwise.
   */
  function DateRange(ps: seq<Pair>): Result<Option<string>, DateError> {
    var from, to := LastValue(ps, "date.from"), LastValue(ps, "date.to");
    if from.None? && to.None? then Ok(None)
    else
      match FormatDate(from.GetOr(OpenEnd), true)
      case Err(e) => Err(e)
      case Ok(f) =>
        match FormatDate(to.GetOr(OpenEnd), false)
        case Err(e) => Err(e)
        case Ok(t) => Ok(Some("date:[" + f + " TO " + t + "]"))
  }

  /**
   * The free-text query: the seed, then ` AND ` and the fragments joined by
   * ` AND ` (without the leading ` AND ` when there is no seed), then a space
   * and the date range; a single space when all three are absent.
   */
  function AssembleQuery(seed: Option<string>, frags: seq<string>, range: Option<string>): string {
    var keywords :=
      if frags == [] then seed
      else Some((if seed.Some? then seed.value + " AND " else "") + Join(frags, " AND "));
    var dated :=
      match range
      case None => keywords
      case Some(d) => Some(if keywords.Some? then keywords.value + " " + d else d);
    dated.GetOr(" ")
  }

  /** The output map of a translation, or the error that aborts it. */
  function Translation(ps: seq<Pair>): (r: Result<map<string, Value>, Error>)
    ensures r.Ok? ==> "q" in r.value && "zone" in r.value && r.value.Keys <= OutputKeys
    ensures r.Ok? ==> forall k | k != "q" && k != "zone" :: Matches(r.value, k, FieldEntry(ps, k))
  {
    if WordConflict(ps) then Err(WordNotAList)
    else
      match DateRange(ps)
      case Err(e) => Err(BadDate(e))
      case Ok(range) =>
        var q := AssembleQuery(LastValue(ps, "keyword"), Fragments(ps), range);
        Ok(Fields(ps)["q" := Single(q)]["zone" := Single(ZoneOf(ps).GetOr(BothZones))])
  }

  /** The API's own parameters, each key with the list of its values in order. */
  function Grouped(ps: seq<Pair>): (r: map<string, Value>)
    ensures forall k :: k in r <==> exists i | 0 <= i < |ps| :: ps[i].0 == k
    ensures forall k | k in r :: r[k] == Many(ValuesWithKey(ps, k))
  {
    map k | k in (set p | p in ps :: p.0) :: Many(ValuesWithKey(ps, k))
  }

  // ---------------------------------------------------------------------------
  // One step of the pass

  /** What one more pair does to the single-valued parts of the input. */
  lemma StepFacts(pre: seq<Pair>, p: Pair)
    ensures LastValue(pre + [p], "keyword") == if p.0 == "keyword" then Some(p.1) else LastValue(pre, "keyword")
    ensures LastValue(pre + [p], "l-advWord") == if p.0 == "l-advWord" then Some(p.1) else LastValue(pre, "l-advWord")
    ensures LastValue(pre + [p], "date.from") == if p.0 == "date.from" then Some(p.1) else LastValue(pre, "date.from")
    ensures LastValue(pre + [p], "date.to") == if p.0 == "date.to" then Some(p.1) else LastValue(pre, "date.to")
    ensures ZoneOf(pre + [p]) == if p.0 in ArtTypeKeys && ZoneFor(p.1).Some? then ZoneFor(p.1) else ZoneOf(pre)
    ensures Fragments(pre + [p]) == Fragments(pre) + (match Fragment(p.0, p.1) case Some(f) => [f] case None => [])
  {
    assert (pre + [p])[..|pre|] == pre;
  }

  /** Adding `q` and `zone` commutes with changing another key. */
  lemma OutputWithUpdate(m: map<string, Value>, q: Option<string>, zone: Option<string>, k: string, v: Value)
    requires k != "q" && k != "zone"
    ensures OutputWith(m[k := v], q, zone) == OutputWith(m, q, zone)[k := v]
  {
  }

  /** `LastValue` finds a value exactly when some pair has the key. */
  lemma {:induction false} LastValueFound(ps: seq<Pair>, key: string)
    ensures LastValue(ps, key).Some? <==> exists a | 0 <= a < |ps| :: ps[a].0 == key
  {
    if ps != [] {
      var init := ps[..|ps| - 1];
      LastValueFound(init, key);
      if ps[|ps| - 1].0 != key {
        forall a | 0 <= a < |ps| && ps[a].0 == key ensures exists a' | 0 <= a' < |init| :: init[a'].0 == key {
          assert init[a].0 == key;
        }
      }
    }
  }

  /** `ValuesWithKey` finds a value exactly when some pair has the key. */
  lemma {:induction false} ValuesWithKeyFound(ps: seq<Pair>, key: string)
    ensures ValuesWithKey(ps, key) != [] <==> exists a | 0 <= a < |ps| :: ps[a].0 == key
  {
    if ps != [] {
      var init := ps[..|ps| - 1];
      ValuesWithKeyFound(init, key);
      if ps[|ps| - 1].0 != key {
        forall a | 0 <= a < |ps| && ps[a].0 == key ensures exists a' | 0 <= a' < |init| :: init[a'].0 == key {
          assert init[a].0 == key;
        }
      }
    }
  }

  /** A conflict appears when `l-word` follows some `l-advWord`. */
  lemma ConflictStep(pre: seq<Pair>, p: Pair)
    ensures WordConflict(pre + [p]) <==> WordConflict(pre) || (p.0 == "l-word" && LastValue(pre, "l-advWord").Some?)
  {
    var ps := pre + [p];
    LastValueFound(pre, "l-advWord");
    if WordConflict(ps) && !WordConflict(pre) {
      var a, b :| 0 <= a < b < |ps| && ps[a].0 == "l-advWord" && ps[b].0 == "l-word";
      assert b == |pre|;
      assert pre[a].0 == "l-advWord";
    }
    if p.0 == "l-word" && LastValue(pre, "l-advWord").Some? {
      var a :| 0 <= a < |pre| && pre[a].0 == "l-advWord";
      assert ps[a].0 == "l-advWord" && ps[|pre|].0 == "l-word";
    }
    if WordConflict(pre) {
      var a, b :| 0 <= a < b < |pre| && pre[a].0 == "l-advWord" && pre[b].0 == "l-word";
      assert ps[a].0 == "l-advWord" && ps[b].0 == "l-word";
    }
  }

  lemma ConflictExtends(pre: seq<Pair>, ps: seq<Pair>)
    requires pre <= ps && WordConflict(pre)
    ensures WordConflict(ps)
  {
    var a, b :| 0 <= a < b < |pre| && pre[a].0 == "l-advWord" && pre[b].0 == "l-word";
    assert ps[a] == pre[a] && ps[b] == pre[b];
  }

  // ---------------------------------------------------------------------------
  // How one more pair changes what the pass has collected

  /** How one more pair changes the entry of one key. */
  lemma FieldEntryStep(pre: seq<Pair>, p: Pair, k: string)
    ensures FieldEntry(pre + [p], k)
         == if k in ListTargets && ListTarget(p.0) == Some(k) then Some(Many(ValuesFor(pre, k) + [p.1]))
            else if k == "l-word" && p.0 == "l-advWord" then Some(Single(p.1))
            else if k == "l-word" && p.0 == "l-word" && LastValue(pre, "l-advWord").None?
            then Some(Many(ValuesWithKey(pre, "l-word") + [p.1]))
            else if k == "l-illustrated" && p.0 in IllustrationKeys then Some(Single("true"))
            else FieldEntry(pre, k)
  {
    var ps := pre + [p];
    assert ps[..|pre|] == pre && ps[|ps| - 1] == p;
    if k in ListTargets {
      assert ValuesFor(ps, k) == ValuesFor(pre, k) + (if ListTarget(p.0) == Some(k) then [p.1] else []);
      assert k != "l-word" && k != "l-illustrated";
      if ListTarget(p.0) == Some(k) {
        assert FieldEntry(ps, k) == Some(Many(ValuesFor(pre, k) + [p.1]));
      } else {
        assert ValuesFor(ps, k) == ValuesFor(pre, k);
        assert FieldEntry(ps, k) == FieldEntry(pre, k);
      }
    } else if k == "l-word" {
      assert LastValue(ps, "l-advWord") == if p.0 == "l-advWord" then Some(p.1) else LastValue(pre, "l-advWord");
      assert ValuesWithKey(ps, "l-word") == ValuesWithKey(pre, "l-word") + (if p.0 == "l-word" then [p.1] else []);
      assert k !in ListTargets;
      if p.0 == "l-advWord" {
        assert FieldEntry(ps, k) == Some(Single(p.1));
      } else if p.0 == "l-word" && LastValue(pre, "l-advWord").None? {
        assert FieldEntry(ps, k) == Some(Many(ValuesWithKey(pre, "l-word") + [p.1]));
      } else if p.0 == "l-word" {
        assert FieldEntry(ps, k) == FieldEntry(pre, k);
      } else {
        assert ValuesWithKey(ps, "l-word") == ValuesWithKey(pre, "l-word");
        assert FieldEntry(ps, k) == FieldEntry(pre, k);
      }
    } else if k == "l-illustrated" {
      assert ValuesFor(ps, "l-illtype") == ValuesFor(pre, "l-illtype") + (if ListTarget(p.0) == Some("l-illtype") then [p.1] else []);
      assert ListTarget(p.0) == Some("l-illtype") <==> p.0 in IllustrationKeys;
    }
  }

  /** `Fields` after one more pair, given how each entry changed. */
  lemma FieldsStep(pre: seq<Pair>, p: Pair, changed: map<string, Value>)
    requires forall k | k != "q" && k != "zone" :: Matches(changed, k, FieldEntry(pre + [p], k))
    requires "q" !in changed && "zone" !in changed
    ensures Fields(pre + [p]) == changed
  {
    var m := Fields(pre + [p]);
    forall k ensures (k in m <==> k in changed) && (k in m ==> m[k] == changed[k]) {
      if k != "q" && k != "zone" {
        assert Matches(m, k, FieldEntry(pre + [p], k));
        assert Matches(changed, k, FieldEntry(pre + [p], k));
      }
    }
  }

  /** A list-collecting key other than an illustration key appends to its list. */
  lemma ListStep(pre: seq<Pair>, p: Pair, t: string)
    requires ListTarget(p.0) == Some(t) && p.0 !in IllustrationKeys
    ensures Collected(pre + [p]) == Collected(pre)[t := Many(ValuesFor(pre, t) + [p.1])]
  {
    StepFacts(pre, p);
    assert p.0 != "l-word" && p.0 != "l-advWord" && p.0 != "keyword" && p.0 !in ArtTypeKeys;
    var v := Many(ValuesFor(pre, t) + [p.1]);
    var changed := Fields(pre)[t := v];
    forall k | k != "q" && k != "zone" ensures Matches(changed, k, FieldEntry(pre + [p], k)) {
      FieldEntryStep(pre, p, k);
      assert Matches(Fields(pre), k, FieldEntry(pre, k));
    }
    FieldsStep(pre, p, changed);
    OutputWithUpdate(Fields(pre), LastValue(pre, "keyword"), ZoneOf(pre), t, v);
  }

  /** The fields after an illustration key: the flag is set and `l-illtype` grows. */
  lemma IllustrationFields(pre: seq<Pair>, p: Pair)
    requires p.0 in IllustrationKeys
    ensures Fields(pre + [p])
         == Fields(pre)["l-illustrated" := Single("true")]["l-illtype" := Many(ValuesFor(pre, "l-illtype") + [p.1])]
  {
    assert ListTarget(p.0) == Some("l-illtype") && "l-illtype" in ListTargets;
    assert p.0 != "l-word" && p.0 != "l-advWord";
    var changed := Fields(pre)["l-illustrated" := Single("true")]["l-illtype" := Many(ValuesFor(pre, "l-illtype") + [p.1])];
    forall k | k != "q" && k != "zone" ensures Matches(changed, k, FieldEntry(pre + [p], k)) {
      FieldEntryStep(pre, p, k);
      if k != "l-illustrated" && k != "l-illtype" {
        assert Matches(Fields(pre), k, FieldEntry(pre, k));
      }
    }
    FieldsStep(pre, p, changed);
  }

  /** An illustration key sets the flag and appends to `l-illtype`. */
  lemma IllustrationStep(pre: seq<Pair>, p: Pair)
    requires p.0 in IllustrationKeys
    ensures Collected(pre + [p])
         == Collected(pre)["l-illustrated" := Single("true")]["l-illtype" := Many(ValuesFor(pre, "l-illtype") + [p.1])]
  {
    StepFacts(pre, p);
    assert p.0 != "keyword" && p.0 !in ArtTypeKeys;
    IllustrationFields(pre, p);
    var v := Many(ValuesFor(pre, "l-illtype") + [p.1]);
    var flagged := Fields(pre)["l-illustrated" := Single("true")];
    OutputWithUpdate(Fields(pre), LastValue(pre, "keyword"), ZoneOf(pre), "l-illustrated", Single("true"));
    OutputWithUpdate(flagged, LastValue(pre, "keyword"), ZoneOf(pre), "l-illtype", v);
  }

  /** `l-word`, while no `l-advWord` has been seen, appends to the `l-word` list. */
  lemma WordStep(pre: seq<Pair>, p: Pair)
    requires p.0 == "l-word" && LastValue(pre, "l-advWord").None?
    ensures Collected(pre + [p]) == Collected(pre)["l-word" := Many(ValuesWithKey(pre, "l-word") + [p.1])]
  {
    StepFacts(pre, p);
    var v := Many(ValuesWithKey(pre, "l-word") + [p.1]);
    var changed := Fields(pre)["l-word" := v];
    forall k | k != "q" && k != "zone" ensures Matches(changed, k, FieldEntry(pre + [p], k)) {
      FieldEntryStep(pre, p, k);
      assert Matches(Fields(pre), k, FieldEntry(pre, k));
    }
    FieldsStep(pre, p, changed);
    OutputWithUpdate(Fields(pre), LastValue(pre, "keyword"), ZoneOf(pre), "l-word", v);
  }

  /** `l-advWord` replaces `l-word` by its single value. */
  lemma AdvancedWordStep(pre: seq<Pair>, p: Pair)
    requires p.0 == "l-advWord"
    ensures Collected(pre + [p]) == Collected(pre)["l-word" := Single(p.1)]
  {
    StepFacts(pre, p);
    var changed := Fields(pre)["l-word" := Single(p.1)];
    forall k | k != "q" && k != "zone" ensures Matches(changed, k, FieldEntry(pre + [p], k)) {
      FieldEntryStep(pre, p, k);
      assert Matches(Fields(pre), k, FieldEntry(pre, k));
    }
    FieldsStep(pre, p, changed);
    OutputWithUpdate(Fields(pre), LastValue(pre, "keyword"), ZoneOf(pre), "l-word", Single(p.1));
  }

  /** Pairs that touch no field leave `Fields` as it is. */
  lemma FieldsUnchanged(pre: seq<Pair>, p: Pair)
    requires ListTarget(p.0).None? && p.0 != "l-word" && p.0 != "l-advWord"
    ensures Fields(pre + [p]) == Fields(pre)
  {
    forall k | k != "q" && k != "zone" ensures Matches(Fields(pre), k, FieldEntry(pre + [p], k)) {
      FieldEntryStep(pre, p, k);
    }
    FieldsStep(pre, p, Fields(pre));
  }

  /** `keyword` replaces the seed of the free-text query. */
  lemma KeywordStep(pre: seq<Pair>, p: Pair)
    requires p.0 == "keyword"
    ensures Collected(pre + [p]) == Collected(pre)["q" := Single(p.1)]
  {
    StepFacts(pre, p);
    FieldsUnchanged(pre, p);
  }

  /** An art-type pair with a known value selects its zone. */
  lemma ZoneStep(pre: seq<Pair>, p: Pair)
    requires p.0 in ArtTypeKeys && ZoneFor(p.1).Some?
    ensures Collected(pre + [p]) == Collected(pre)["zone" := Single(ZoneFor(p.1).value)]
  {
    StepFacts(pre, p);
    FieldsUnchanged(pre, p);
  }

  /** Every other pair leaves the output map as it is. */
  lemma QuietStep(pre: seq<Pair>, p: Pair)
    requires ListTarget(p.0).None? && p.0 != "l-word" && p.0 != "l-advWord" && p.0 != "keyword"
    requires !(p.0 in ArtTypeKeys && ZoneFor(p.1).Some?)
    ensures Collected(pre + [p]) == Collected(pre)
  {
    StepFacts(pre, p);
    FieldsUnchanged(pre, p);
  }

  // ---------------------------------------------------------------------------
  // The translation itself

  /** Python's `try: m[k].append(v) except KeyError: m[k] = [v]`; `None` when `m[k]` is a string. */
  function Append(m: map<string, Value>, k: string, v: string): (r: Option<map<string, Value>>)
    ensures r.None? <==> k in m && m[k].Single?
    ensures r.Some? ==> r.value == m[k := Many((if k in m then m[k].items else []) + [v])]
  {
    if k !in m then assert [] + [v] == [v]; Some(m[k := Many([v])])
    else
      match m[k]
      case Many(items) => Some(m[k := Many(items + [v])])
      case Single(_) => None
  }

  /** The locals of `parse_query` agree with what the pairs `pre` say. */
  predicate Accumulated(out: map<string, Value>, dates: map<string, string>, keywords: seq<string>, pre: seq<Pair>) {
    && out == Collected(pre)
    && dates.Keys <= {"from", "to"}
    && Matches(dates, "from", LastValue(pre, "date.from"))
    && Matches(dates, "to", LastValue(pre, "date.to"))
    && keywords == Fragments(pre)
  }

  /** Before the first pair nothing has been collected. */
  lemma AccumulatedEmpty()
    ensures Accumulated(map[], map[], [], [])
  {
    var m := Fields([]);
    forall k ensures k !in m {
      if k != "q" && k != "zone" {
        assert Matches(m, k, FieldEntry([], k));
      }
    }
    assert m == map[];
  }

  /** The collected entry of every key other than `q` and `zone`. */
  lemma CollectedAt(pre: seq<Pair>, k: string)
    requires k != "q" && k != "zone"
    ensures Matches(Collected(pre), k, FieldEntry(pre, k))
  {
    assert Matches(Fields(pre), k, FieldEntry(pre, k));
  }

  /** Appending to a list-collecting key's list is what one more such pair does. */
  lemma ListAppend(pre: seq<Pair>, p: Pair, t: string)
    requires ListTarget(p.0) == Some(t) && p.0 !in IllustrationKeys
    ensures Append(Collected(pre), t, p.1) == Some(Collected(pre + [p]))
  {
    CollectedAt(pre, t);
    ListStep(pre, p, t);
  }

  lemma IllustrationAppend(pre: seq<Pair>, p: Pair)
    requires p.0 in IllustrationKeys
    ensures Append(Collected(pre)["l-illustrated" := Single("true")], "l-illtype", p.1) == Some(Collected(pre + [p]))
  {
    CollectedAt(pre, "l-illtype");
    IllustrationStep(pre, p);
  }

  lemma WordField(ps: seq<Pair>)
    ensures FieldEntry(ps, "l-word") == WordEntry(ps)
  {
    assert "l-word" !in ListTargets;
  }

  /** Appending to `l-word` fails exactly when `l-advWord` has made it a string. */
  lemma WordAppend(pre: seq<Pair>, p: Pair)
    requires p.0 == "l-word"
    ensures Append(Collected(pre), "l-word", p.1)
         == if LastValue(pre, "l-advWord").Some? then None else Some(Collected(pre + [p]))
  {
    var m := Collected(pre);
    CollectedAt(pre, "l-word");
    WordField(pre);
    if LastValue(pre, "l-advWord").Some? {
      assert "l-word" in m && m["l-word"].Single?;
    } else {
      var ws := ValuesWithKey(pre, "l-word");
      assert (if "l-word" in m then m["l-word"].items else []) == ws;
      WordStep(pre, p);
    }
  }

  /** A pair for the output map keeps the dates and the fragments in step. */
  lemma OutputPairStep(dates: map<string, string>, keywords: seq<string>, pre: seq<Pair>, p: Pair)
    requires Accumulated(Collected(pre), dates, keywords, pre)
    requires p.0 != "date.from" && p.0 != "date.to" && Fragment(p.0, p.1).None?
    ensures Accumulated(Collected(pre + [p]), dates, keywords, pre + [p])
  {
    StepFacts(pre, p);
  }

  /** A date key or a fragment key is no field, `q` or zone key (kept apart to keep the step proofs small). */
  lemma QuietKey(key: string, value: string)
    requires key == "date.from" || key == "date.to" || Fragment(key, value).Some?
    ensures ListTarget(key).None? && key != "l-word" && key != "l-advWord" && key != "keyword"
    ensures key !in ArtTypeKeys
  {
  }

  lemma DatePairStep(dates: map<string, string>, keywords: seq<string>, pre: seq<Pair>, p: Pair, side: string)
    requires Accumulated(Collected(pre), dates, keywords, pre)
    requires (p.0 == "date.from" && side == "from") || (p.0 == "date.to" && side == "to")
    ensures Collected(pre + [p]) == Collected(pre)
    ensures Accumulated(Collected(pre), dates[side := p.1], keywords, pre + [p])
  {
    QuietKey(p.0, p.1);
    StepFacts(pre, p);
    QuietStep(pre, p);
  }

  lemma FragmentPairStep(dates: map<string, string>, keywords: seq<string>, pre: seq<Pair>, p: Pair, f: string)
    requires Accumulated(Collected(pre), dates, keywords, pre)
    requires Fragment(p.0, p.1) == Some(f)
    ensures Collected(pre + [p]) == Collected(pre)
    ensures Accumulated(Collected(pre), dates, keywords + [f], pre + [p])
  {
    QuietKey(p.0, p.1);
    StepFacts(pre, p);
    QuietStep(pre, p);
  }

  /** The keys that `parse_query` stores into the output map as they arrive. */
  const FieldKeys: set<string> := Safe + {"l-advWord", "l-advstate", "l-advcategory", "l-advtitle"} + IllustrationKeys

  /** A key stored as it arrives is no date, keyword or fragment key (kept apart to keep the dispatch's proof small). */
  lemma FieldKey(key: string, value: string)
    requires key in FieldKeys
    ensures key != "date.from" && key != "date.to" && key != "keyword" && key !in ArtTypeKeys
    ensures Fragment(key, value).None?
  {
  }

  /**
   * The branches of the loop of `parse_query` that store a pair into the
   * output map. `failed` is the `AttributeError` of appending to a string.
   */
  method AbsorbField(out: map<string, Value>, key: string, value: string, ghost pre: seq<Pair>)
    returns (out': map<string, Value>, failed: bool)
    requires key in Safe || key == "l-advWord" || key == "l-advstate" || key == "l-advcategory" || key == "l-advtitle"
          || key in IllustrationKeys
    requires out == Collected(pre)
    ensures failed <==> key == "l-word" && LastValue(pre, "l-advWord").Some?
    ensures !failed ==> out' == Collected(pre + [(key, value)])
  {
    ghost var p := (key, value);
    out', failed := out, false;
    if key in Safe {
      if key == "l-word" {
        WordAppend(pre, p);
      } else {
        ListAppend(pre, p, key);
      }
      var next := Append(out, key, value);
      if next.None? {
        failed := true;
      } else {
        out' := next.value;
      }
    } else if key == "l-advWord" {
      AdvancedWordStep(pre, p);
      out' := out["l-word" := Single(value)];
    } else if key == "l-advstate" {
      ListAppend(pre, p, "l-state");
      out' := Append(out, "l-state", value).value;
    } else if key == "l-advcategory" {
      ListAppend(pre, p, "l-category");
      out' := Append(out, "l-category", value).value;
    } else if key == "l-advtitle" {
      ListAppend(pre, p, "l-title");
      out' := Append(out, "l-title", value).value;
    } else {
      IllustrationAppend(pre, p);
      out' := out["l-illustrated" := Single("true")];
      out' := Append(out', "l-illtype", value).value;
    }
  }

  /**
   * The body of the loop of `parse_query`: dispatch one pair on its key.
   * `failed` is the `AttributeError` of appending to a string.
   */
  method Absorb(out: map<string, Value>, dates: map<string, string>, keywords: seq<string>,
                key: string, value: string, ghost pre: seq<Pair>)
    returns (out': map<string, Value>, dates': map<string, string>, keywords': seq<string>, failed: bool)
    requires !WordConflict(pre) && Accumulated(out, dates, keywords, pre)
    ensures failed <==> WordConflict(pre + [(key, value)])
    ensures !failed ==> Accumulated(out', dates', keywords', pre + [(key, value)])
  {
    ghost var p := (key, value);
    ConflictStep(pre, p);
    assert "l-word" in FieldKeys;
    out', dates', keywords', failed := out, dates, keywords, false;
    if key in FieldKeys {
      out', failed := AbsorbField(out, key, value, pre);
      FieldKey(key, value);
      if !failed {
        OutputPairStep(dates, keywords, pre, p);
      }
    } else if key == "date.from" {
      DatePairStep(dates, keywords, pre, p, "from");
      dates' := dates["from" := value];
    } else if key == "date.to" {
      DatePairStep(dates, keywords, pre, p, "to");
      dates' := dates["to" := value];
    } else if key == "keyword" {
      KeywordStep(pre, p);
      out' := out["q" := Single(value)];
      OutputPairStep(dates, keywords, pre, p);
    } else if key == "keyword.phrase" {
      keywords' := keywords + ["\"" + value + "\""];
      FragmentPairStep(dates, keywords, pre, p, "\"" + value + "\"");
    } else if key == "keyword.not" {
      keywords' := keywords + ["NOT (" + Join(Split(value), " OR ") + ")"];
      FragmentPairStep(dates, keywords, pre, p, "NOT (" + Join(Split(value), " OR ") + ")");
    } else if key == "keyword.any" {
      keywords' := keywords + ["(" + Join(Split(value), " OR ") + ")"];
      FragmentPairStep(dates, keywords, pre, p, "(" + Join(Split(value), " OR ") + ")");
    } else if key in ArtTypeKeys {
      if value == "newspapers" {
        ZoneStep(pre, p);
        out' := out["zone" := Single("newspaper")];
      } else if value == "gazette" {
        ZoneStep(pre, p);
        out' := out["zone" := Single("gazette")];
      } else {
        QuietStep(pre, p);
      }
      OutputPairStep(dates, keywords, pre, p);
    } else {
      QuietStep(pre, p);
      OutputPairStep(dates, keywords, pre, p);
    }
  }

  /**
   * The post-processing of `parse_query`: build `q` from the seed, the
   * keyword fragments and the date range, then supply the defaults.
   */
  method Finish(out: map<string, Value>, dates: map<string, string>, keywords: seq<string>, ghost ps: seq<Pair>)
    returns (r: Result<map<string, Value>, Error>)
    requires !WordConflict(ps) && Accumulated(out, dates, keywords, ps)
    ensures r == Translation(ps)
  {
    ghost var fields := Fields(ps);
    ghost var zone := ZoneOf(ps);
    ghost var q := LastValue(ps, "keyword");
    var out := out;
    var dates := dates;
    assert out == OutputWith(fields, q, zone) && keywords == Fragments(ps);
    OutputWithFacts(fields, q, zone);
    if keywords != [] {
      var text := Join(keywords, " AND ");
      if "q" in out {
        assert out["q"] == Single(q.value);
        text := out["q"].text + " AND " + text;
      } else {
        assert "" + text == text;
      }
      OutputWithQuery(fields, q, zone, text);
      out := out["q" := Single(text)];
      q := Some(text);
    }
    assert q == (if Fragments(ps) == [] then LastValue(ps, "keyword")
                 else Some((if LastValue(ps, "keyword").Some? then LastValue(ps, "keyword").value + " AND " else "")
                           + Join(Fragments(ps), " AND ")));
    assert out == OutputWith(fields, q, zone);
    OutputWithFacts(fields, q, zone);
    ghost var from0, to0 := LastValue(ps, "date.from"), LastValue(ps, "date.to");
    assert |dates| > 0 <==> from0.Some? || to0.Some? by {
      if from0.None? && to0.None? {
        assert dates.Keys == {};
      }
    }
    if |dates| > 0 {
      if "from" !in dates {
        dates := dates["from" := OpenEnd];
      }
      if "to" !in dates {
        dates := dates["to" := OpenEnd];
      }
      assert dates["from"] == from0.GetOr(OpenEnd) && dates["to"] == to0.GetOr(OpenEnd);
      var from := FormatDate(dates["from"], true);
      if from.Err? {
        return Err(BadDate(from.error));
      }
      var to := FormatDate(dates["to"], false);
      if to.Err? {
        return Err(BadDate(to.error));
      }
      var dateQuery := "date:[" + from.value + " TO " + to.value + "]";
      assert DateRange(ps) == Ok(Some(dateQuery));
      var text := dateQuery;
      if "q" in out {
        text := out["q"].text + " " + dateQuery;
      }
      OutputWithQuery(fields, q, zone, text);
      out := out["q" := Single(text)];
      q := Some(text);
    } else {
      assert DateRange(ps) == Ok(None);
    }
    assert out == OutputWith(fields, q, zone);
    OutputWithFacts(fields, q, zone);
    if "q" !in out {
      OutputWithQuery(fields, q, zone, " ");
      out := out["q" := Single(" ")];
      q := Some(" ");
    }
    if "zone" !in out {
      out := out["zone" := Single(BothZones)];
    }
    r := Ok(out);
  }

  /**
   * The loop of `parse_query` over the pairs. It stops at the first
   * `AttributeError`, which `failed` reports.
   */
  method Pass(params: seq<Pair>)
    returns (out: map<string, Value>, dates: map<string, string>, keywords: seq<string>, failed: bool)
    ensures failed <==> WordConflict(params)
    ensures !failed ==> Accumulated(out, dates, keywords, params)
  {
    out, dates, keywords := map[], map[], [];
    var i := 0;
    AccumulatedEmpty();
    assert params[..i] == [];
    while i < |params|
      invariant 0 <= i <= |params|
      invariant !WordConflict(params[..i])
      invariant Accumulated(out, dates, keywords, params[..i])
    {
      var (key, value) := params[i];
      assert params[..i + 1] == params[..i] + [(key, value)];
      out, dates, keywords, failed := Absorb(out, dates, keywords, key, value, params[..i]);
      if failed {
        ConflictExtends(params[..i + 1], params);
        return;
      }
      i := i + 1;
    }
    assert params[..i] == params;
    failed := false;
  }

  /** The translation branch of `parse_query`: the pass, then the post-processing. */
  method Translate(params: seq<Pair>) returns (r: Result<map<string, Value>, Error>)
    ensures r == Translation(params)
  {
    var out, dates, keywords, failed := Pass(params);
    if failed {
      return Err(WordNotAList);
    }
    r := Finish(out, dates, keywords, params);
  }

  /**
   * `parse_query` on a URL already decoded into pairs: an API URL's
   * parameters are only grouped by key, any other URL is translated.
   */
  method ParseQuery(isApiUrl: bool, params: seq<Pair>) returns (r: Result<map<string, Value>, Error>)
    ensures isApiUrl ==> r == Ok(Grouped(params))
    ensures !isApiUrl ==> r == Translation(params)
  {
    if isApiUrl {
      r := Ok(Grouped(params));
    } else {
      r := Translate(params);
    }
  }
}
