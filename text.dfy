/**
 * The string helpers the query translator relies on: splitting a value on
 * whitespace (Python's `str.split()` with no argument) and joining a list of
 * strings with a separator (Python's `sep.join(parts)`).
 */
module Text {

  /** The ASCII characters Python's `str.split()` treats as whitespace. */
  predicate IsSpace(c: char) {
    c == ' ' || 9 <= c as int <= 13 || 28 <= c as int <= 31
  }

  predicate NoSpace(s: string) {
    forall i | 0 <= i < |s| :: !IsSpace(s[i])
  }

  /** A token as `str.split()` produces it: non-empty, no whitespace. */
  predicate IsToken(t: string) {
    t != [] && NoSpace(t)
  }

  /** The longest prefix of `s` that holds no whitespace. */
  function LeadingWord(s: string): (w: string)
    ensures w <= s && NoSpace(w)
    ensures |w| < |s| ==> IsSpace(s[|w|])
  {
    if s == [] || IsSpace(s[0]) then [] else [s[0]] + LeadingWord(s[1..])
  }

  /** The maximal runs of non-whitespace characters of `s`, in order. */
  function Split(s: string): (r: seq<string>)
    ensures forall t | t in r :: IsToken(t)
    decreases |s|
  {
    if s == [] then []
    else if IsSpace(s[0]) then Split(s[1..])
    else
      var w := LeadingWord(s);
      [w] + Split(s[|w|..])
  }

  /** `parts` with `sep` between each two neighbours. */
  function Join(parts: seq<string>, sep: string): string {
    if |parts| == 0 then ""
    else if |parts| == 1 then parts[0]
    else parts[0] + sep + Join(parts[1..], sep)
  }

  /** A join starts with the first part and ends with the last. */
  lemma {:induction false} JoinEnds(parts: seq<string>, sep: string)
    requires parts != []
    ensures parts[0] <= Join(parts, sep)
    ensures |parts[|parts| - 1]| <= |Join(parts, sep)|
    ensures Join(parts, sep)[|Join(parts, sep)| - |parts[|parts| - 1]|..] == parts[|parts| - 1]
  {
    if |parts| > 1 {
      var tail := parts[1..];
      JoinEnds(tail, sep);
      var j := Join(tail, sep);
      assert Join(parts, sep) == parts[0] + (sep + j);
      assert tail[|tail| - 1] == parts[|parts| - 1];
    }
  }

  /** The characters of `s` that are not whitespace, in order. */
  function Unspaced(s: string): string {
    if s == [] then []
    else (if IsSpace(s[0]) then [] else [s[0]]) + Unspaced(s[1..])
  }

  predicate AllSpace(s: string) {
    forall i | 0 <= i < |s| :: IsSpace(s[i])
  }

  /**
   * `tokens` laid out with the whitespace runs `seps` around them: `seps[0]`
   * before the first token, `seps[i]` between token `i - 1` and token `i`,
   * and the last one after the last token.
   */
  function Spaced(tokens: seq<string>, seps: seq<string>): string
    requires |seps| == |tokens| + 1
  {
    if tokens == [] then seps[0] else seps[0] + tokens[0] + Spaced(tokens[1..], seps[1..])
  }

  /** Whitespace runs that can surround `n` tokens: empty only at either end. */
  predicate Separators(seps: seq<string>, n: nat) {
    && |seps| == n + 1
    && (forall i | 0 <= i < |seps| :: AllSpace(seps[i]))
    && (forall i | 0 < i < n :: seps[i] != [])
  }

  /** `s` is `tokens` separated, and possibly preceded and followed, by whitespace. */
  ghost predicate LaidOut(s: string, tokens: seq<string>) {
    exists seps | Separators(seps, |tokens|) :: Spaced(tokens, seps) == s
  }

  lemma {:induction false} UnspacedAppend(a: string, b: string)
    ensures Unspaced(a + b) == Unspaced(a) + Unspaced(b)
  {
    if a == [] {
      assert a + b == b;
    } else {
      var head := if IsSpace(a[0]) then [] else [a[0]];
      assert (a + b)[0] == a[0] && (a + b)[1..] == a[1..] + b;
      UnspacedAppend(a[1..], b);
      calc {
        Unspaced(a + b);
        head + Unspaced(a[1..] + b);
        head + (Unspaced(a[1..]) + Unspaced(b));
        (head + Unspaced(a[1..])) + Unspaced(b);
      }
    }
  }

  lemma {:induction false} UnspacedOfWord(w: string)
    requires NoSpace(w)
    ensures Unspaced(w) == w
  {
    if w != [] {
      UnspacedOfWord(w[1..]);
    }
  }

  /** Splitting loses exactly the whitespace: the tokens laid end to end are `s` without its whitespace. */
  lemma {:induction false} SplitKeepsNonSpace(s: string)
    ensures Join(Split(s), "") == Unspaced(s)
    decreases |s|
  {
    if s == [] {
    } else if IsSpace(s[0]) {
      SplitKeepsNonSpace(s[1..]);
    } else {
      var w := LeadingWord(s);
      var rest := s[|w|..];
      assert s == w + rest;
      SplitKeepsNonSpace(rest);
      UnspacedAppend(w, rest);
      UnspacedOfWord(w);
      assert Split(s) == [w] + Split(rest);
      assert ([w] + Split(rest))[1..] == Split(rest);
      if Split(rest) == [] {
        assert w + [] == w;
      } else {
        assert w + "" == w;
      }
    }
  }

  lemma {:induction false} LeadingWordOf(w: string, rest: string)
    requires NoSpace(w)
    requires rest == [] || IsSpace(rest[0])
    ensures LeadingWord(w + rest) == w
  {
    if w != [] {
      assert (w + rest)[1..] == w[1..] + rest;
      LeadingWordOf(w[1..], rest);
    }
  }

  /** Splitting tokens joined by single spaces gives the tokens back. */
  lemma {:induction false} SplitJoin(tokens: seq<string>)
    requires forall t | t in tokens :: IsToken(t)
    ensures Split(Join(tokens, " ")) == tokens
  {
    if |tokens| == 0 {
    } else if |tokens| == 1 {
      var t := tokens[0];
      assert IsToken(t) by { assert t in tokens; }
      LeadingWordOf(t, []);
      assert t + [] == t;
      assert t[|t|..] == [];
    } else {
      var t := tokens[0];
      assert IsToken(t) by { assert t in tokens; }
      var rest := Join(tokens[1..], " ");
      var s := t + " " + rest;
      assert Join(tokens, " ") == s;
      LeadingWordOf(t, " " + rest);
      assert s == t + (" " + rest);
      assert s[|t|..] == " " + rest;
      assert (" " + rest)[1..] == rest;
      SplitJoin(tokens[1..]);
      assert tokens == [t] + tokens[1..];
    }
  }

  /** Leading whitespace does not change the split. */
  lemma {:induction false} SplitSkipsSpace(sp: string, rest: string)
    requires AllSpace(sp)
    ensures Split(sp + rest) == Split(rest)
  {
    if sp == [] {
      assert sp + rest == rest;
    } else {
      assert IsSpace(sp[0]);
      assert (sp + rest)[0] == sp[0] && (sp + rest)[1..] == sp[1..] + rest;
      assert Split(sp + rest) == Split((sp + rest)[1..]);
      SplitSkipsSpace(sp[1..], rest);
    }
  }

  /** A token followed by nothing or by whitespace splits off as one token. */
  lemma SplitToken(t: string, rest: string)
    requires IsToken(t)
    requires rest == [] || IsSpace(rest[0])
    ensures Split(t + rest) == [t] + Split(rest)
  {
    LeadingWordOf(t, rest);
    assert (t + rest)[0] == t[0] && (t + rest)[|t|..] == rest;
  }

  /** The runs after the first surround the tokens after the first. */
  lemma SeparatorsTail(seps: seq<string>, n: nat)
    requires n > 0 && Separators(seps, n)
    ensures Separators(seps[1..], n - 1)
  {
    forall i | 0 < i < n - 1
      ensures seps[1..][i] != []
    {
      assert seps[1..][i] == seps[i + 1];
    }
  }

  /** Splitting tokens laid out with any whitespace runs gives the tokens back. */
  lemma {:induction false} SplitSpaced(tokens: seq<string>, seps: seq<string>)
    requires forall t | t in tokens :: IsToken(t)
    requires Separators(seps, |tokens|)
    ensures Split(Spaced(tokens, seps)) == tokens
  {
    if tokens == [] {
      SplitSkipsSpace(seps[0], []);
      assert seps[0] + [] == seps[0];
    } else {
      var t := tokens[0];
      assert IsToken(t) by { assert t in tokens; }
      var rest := Spaced(tokens[1..], seps[1..]);
      assert AllSpace(seps[1]);
      if |tokens| > 1 {
        assert seps[1] != [];
        assert rest == seps[1] + tokens[1] + Spaced(tokens[2..], seps[2..]);
        assert rest[0] == seps[1][0];
      }
      SplitToken(t, rest);
      assert Spaced(tokens, seps) == seps[0] + t + rest;
      assert seps[0] + t + rest == seps[0] + (t + rest);
      SplitSkipsSpace(seps[0], t + rest);
      SeparatorsTail(seps, |tokens|);
      SplitSpaced(tokens[1..], seps[1..]);
      assert tokens == [t] + tokens[1..];
    }
  }

  /** One more whitespace character in front of the first run. */
  lemma PrependSpace(c: char, tokens: seq<string>, inner: seq<string>)
    requires IsSpace(c) && Separators(inner, |tokens|)
    ensures Separators([[c] + inner[0]] + inner[1..], |tokens|)
    ensures Spaced(tokens, [[c] + inner[0]] + inner[1..]) == [c] + Spaced(tokens, inner)
  {
    var seps := [[c] + inner[0]] + inner[1..];
    assert seps[1..] == inner[1..];
    assert AllSpace(seps[0]) by {
      forall i | 0 <= i < |seps[0]|
        ensures IsSpace(seps[0][i])
      {
        if i > 0 {
          assert seps[0][i] == inner[0][i - 1];
        }
      }
    }
    assert forall i | 0 < i < |seps| :: seps[i] == inner[i] by {
      forall i | 0 < i < |seps|
        ensures seps[i] == inner[i]
      {
        assert seps[i] == seps[1..][i - 1];
      }
    }
    PrependSpaced(c, tokens, inner);
  }

  /** Concatenation regroups (kept as a lemma: the same step written as an assert is costly here). */
  lemma Associative(x: string, y: string, z: string)
    ensures (x + y) + z == x + (y + z)
  {
  }

  lemma PrependSpaced(c: char, tokens: seq<string>, inner: seq<string>)
    requires |inner| == |tokens| + 1
    ensures Spaced(tokens, [[c] + inner[0]] + inner[1..]) == [c] + Spaced(tokens, inner)
  {
    var seps := [[c] + inner[0]] + inner[1..];
    assert seps[0] == [c] + inner[0] && seps[1..] == inner[1..];
    if tokens != [] {
      var rest := Spaced(tokens[1..], inner[1..]);
      assert Spaced(tokens, seps) == ([c] + inner[0]) + tokens[0] + rest;
      assert Spaced(tokens, inner) == inner[0] + tokens[0] + rest;
      Associative([c], inner[0], tokens[0]);
      Associative([c], inner[0] + tokens[0], rest);
    }
  }

  /** One more token, with nothing before it, in front of the others. */
  lemma PrependWord(w: string, tokens: seq<string>, inner: seq<string>)
    requires Separators(inner, |tokens|)
    requires tokens != [] ==> inner[0] != []
    ensures Separators([""] + inner, |tokens| + 1)
    ensures Spaced([w] + tokens, [""] + inner) == w + Spaced(tokens, inner)
  {
    var ts, seps := [w] + tokens, [""] + inner;
    assert ts[0] == w && ts[1..] == tokens;
    assert seps[0] == "" && seps[1..] == inner;
    forall i | 0 < i < |seps|
      ensures seps[i] == inner[i - 1]
    {
      assert seps[i] == seps[1..][i - 1];
    }
    assert AllSpace(seps[0]);
    assert Spaced(ts, seps) == ("" + w) + Spaced(tokens, inner);
    assert "" + w == w;
  }

  /** Every value is its own tokens laid out with some whitespace runs. */
  lemma {:induction false} SpacedSplit(s: string) returns (seps: seq<string>)
    ensures Separators(seps, |Split(s)|) && Spaced(Split(s), seps) == s
    ensures s != [] && IsSpace(s[0]) ==> seps[0] != []
    decreases |s|
  {
    if s == [] {
      seps := [""];
    } else if IsSpace(s[0]) {
      var inner := SpacedSplit(s[1..]);
      assert Split(s) == Split(s[1..]);
      PrependSpace(s[0], Split(s[1..]), inner);
      seps := [[s[0]] + inner[0]] + inner[1..];
      assert s == [s[0]] + s[1..];
    } else {
      var w := LeadingWord(s);
      var rest := s[|w|..];
      var inner := SpacedSplit(rest);
      assert Split(s) == [w] + Split(rest);
      PrependWord(w, Split(rest), inner);
      seps := [""] + inner;
      assert s == w + rest;
    }
  }

  /** `Split(s)` is the one list of tokens that `s` lays out with whitespace. */
  lemma SplitExactly(s: string, tokens: seq<string>)
    requires forall t | t in tokens :: IsToken(t)
    ensures Split(s) == tokens <==> LaidOut(s, tokens)
  {
    if Split(s) == tokens {
      var seps := SpacedSplit(s);
      assert Separators(seps, |tokens|) && Spaced(tokens, seps) == s;
    }
    if LaidOut(s, tokens) {
      var seps :| Separators(seps, |tokens|) && Spaced(tokens, seps) == s;
      SplitSpaced(tokens, seps);
    }
  }
}
