/** BM25 lexical scoring (epimemer/storage/bm25.py), over the reals. */
module Bm25 {
  import opened Options
  import opened Order

  datatype Class = Alpha | Digit | Symbol

  /** The Unicode tables the analyzer reads: a character's class, None for
      whitespace, and a token's folding. */
  datatype Analyzer = Analyzer(cls: char -> Option<Class>, fold: string -> string)

  // --- Tokens ---

  /** How far the first character's class goes on. */
  function RunLength(cls: char -> Option<Class>, text: string): (n: nat)
    requires text != ""
    ensures 1 <= n <= |text|
    ensures forall k :: 0 <= k < n ==> cls(text[k]) == cls(text[0])
    ensures n < |text| ==> cls(text[n]) != cls(text[0])
  {
    if |text| > 1 && cls(text[1]) == cls(text[0]) then 1 + RunLength(cls, text[1..]) else 1
  }

  /** The tokens before folding. */
  function Runs(cls: char -> Option<Class>, text: string): seq<string>
    decreases |text|
  {
    if text == "" then []
    else if cls(text[0]).None? then Runs(cls, text[1..])
    else [text[..RunLength(cls, text)]] + Runs(cls, text[RunLength(cls, text)..])
  }

  function Folded(fold: string -> string, tokens: seq<string>): seq<string> {
    if tokens == [] then []
    else (if fold(tokens[0]) == "" then [] else [fold(tokens[0])]) + Folded(fold, tokens[1..])
  }

  function Tokens(a: Analyzer, text: string): seq<string> { Folded(a.fold, Runs(a.cls, text)) }

  ghost predicate OneClass(cls: char -> Option<Class>, token: string) {
    token != "" && cls(token[0]).Some? && forall k :: 0 <= k < |token| ==> cls(token[k]) == cls(token[0])
  }

  /** `text[i..j]` is one class, and neither neighbour is of it. */
  ghost predicate IsRun(cls: char -> Option<Class>, text: string, i: int, j: int) {
    && 0 <= i < j <= |text| && OneClass(cls, text[i..j])
    && (i > 0 ==> cls(text[i - 1]) != cls(text[i]))
    && (j < |text| ==> cls(text[j]) != cls(text[i]))
  }

  datatype Cut = Cut(from: nat, to: nat)

  /** No run goes on across `p`. */
  ghost predicate StartsFresh(cls: char -> Option<Class>, text: string, p: nat) {
    p <= |text| && (0 < p < |text| && cls(text[p]).Some? ==> cls(text[p - 1]) != cls(text[p]))
  }

  ghost predicate Cuts(cls: char -> Option<Class>, text: string, p: nat, tokens: seq<string>, cuts: seq<Cut>) {
    && |cuts| == |tokens|
    && (forall n :: 0 <= n < |cuts| ==> p <= cuts[n].from && IsRun(cls, text, cuts[n].from, cuts[n].to))
    && (forall n :: 0 <= n < |cuts| ==> tokens[n] == text[cuts[n].from..cuts[n].to])
    && (forall n, m :: 0 <= n < m < |cuts| ==> cuts[n].to <= cuts[m].from)
    && (forall i :: p <= i < |text| && cls(text[i]).Some? ==> Covered(cuts, i))
  }

  ghost predicate Covered(cuts: seq<Cut>, i: int) {
    exists n :: 0 <= n < |cuts| && cuts[n].from <= i < cuts[n].to
  }

  /** The tokens are exactly the maximal runs of one class, in order. */
  lemma {:induction false} TokensAreTheMaximalRuns(cls: char -> Option<Class>, text: string) returns (cuts: seq<Cut>)
    ensures Cuts(cls, text, 0, Runs(cls, text), cuts)
  {
    assert text[0..] == text;
    cuts := CutsFrom(cls, text, 0);
  }

  lemma {:induction false} CutsFrom(cls: char -> Option<Class>, text: string, p: nat) returns (cuts: seq<Cut>)
    requires StartsFresh(cls, text, p)
    ensures Cuts(cls, text, p, Runs(cls, text[p..]), cuts)
    decreases |text| - p
  {
    hide *;
    var n := RunAt(cls, text, p);
    if p == |text| {
      cuts := [];
      NoCuts(cls, text);
    } else if n == 0 {
      cuts := CutsFrom(cls, text, p + 1);
      CutLater(cls, text, p, Runs(cls, text[p + 1..]), cuts);
    } else {
      var rest := CutsFrom(cls, text, p + n);
      cuts := [Cut(p, p + n)] + rest;
      CutFirst(cls, text, p, n, Runs(cls, text[p + n..]), rest);
    }
  }

  /** The run that starts at `p`; none at the end or at whitespace. */
  lemma {:induction false} RunAt(cls: char -> Option<Class>, text: string, p: nat) returns (n: nat)
    requires StartsFresh(cls, text, p)
    ensures p <= |text| && (n > 0 ==> p + n <= |text| && IsRun(cls, text, p, p + n) && StartsFresh(cls, text, p + n))
    ensures n > 0 ==> Runs(cls, text[p..]) == [text[p..p + n]] + Runs(cls, text[p + n..])
    ensures n == 0 ==> Runs(cls, text[p..]) == if p < |text| then Runs(cls, text[p + 1..]) else []
    ensures n == 0 && p < |text| ==> cls(text[p]).None? && StartsFresh(cls, text, p + 1)
  {
    if p < |text| && cls(text[p]).Some? {
      n := RunHere(cls, text, p);
    } else {
      n := 0;
      if p < |text| {
        assert text[p..][1..] == text[p + 1..] && text[p..][0] == text[p];
      }
    }
  }

  lemma {:induction false} RunHere(cls: char -> Option<Class>, text: string, p: nat) returns (n: nat)
    requires StartsFresh(cls, text, p) && p < |text| && cls(text[p]).Some?
    ensures 0 < n <= |text| - p && IsRun(cls, text, p, p + n) && StartsFresh(cls, text, p + n)
    ensures Runs(cls, text[p..]) == [text[p..p + n]] + Runs(cls, text[p + n..])
  {
    var tail := text[p..];
    assert forall k :: 0 <= k < |tail| ==> tail[k] == text[p + k];
    n := RunLength(cls, tail);
    assert tail[n..] == text[p + n..] && tail[..n] == text[p..p + n];
    assert Runs(cls, tail) == [tail[..n]] + Runs(cls, tail[n..]);
    hide RunLength, Runs;
    assert forall j :: p <= j < p + n ==> text[j] == tail[j - p];
    SameClass(cls, text, p, n);
  }

  lemma {:induction false} SameClass(cls: char -> Option<Class>, text: string, p: nat, n: nat)
    requires 0 < n && p + n <= |text| && StartsFresh(cls, text, p) && cls(text[p]).Some?
    requires forall j :: p <= j < p + n ==> cls(text[j]) == cls(text[p])
    requires p + n < |text| ==> cls(text[p + n]) != cls(text[p])
    ensures IsRun(cls, text, p, p + n) && StartsFresh(cls, text, p + n)
  {}

  lemma {:induction false} NoCuts(cls: char -> Option<Class>, text: string)
    ensures Cuts(cls, text, |text|, [], [])
  {}

  lemma {:induction false} CutLater(cls: char -> Option<Class>, text: string, p: nat, tokens: seq<string>,
          cuts: seq<Cut>)
    requires p < |text| && cls(text[p]).None? && Cuts(cls, text, p + 1, tokens, cuts)
    ensures Cuts(cls, text, p, tokens, cuts)
  {}

  lemma {:induction false} CutFirst(cls: char -> Option<Class>, text: string, p: nat, n: nat, tokens: seq<string>,
          rest: seq<Cut>)
    requires 0 < n && p + n <= |text| && IsRun(cls, text, p, p + n) && Cuts(cls, text, p + n, tokens, rest)
    ensures Cuts(cls, text, p, [text[p..p + n]] + tokens, [Cut(p, p + n)] + rest)
  {
    hide IsRun, Covered;
    forall i | p <= i < |text| && cls(text[i]).Some? ensures Covered([Cut(p, p + n)] + rest, i) {
      OneMoreCut(rest, Cut(p, p + n), i);
    }
  }

  lemma {:induction false} OneMoreCut(rest: seq<Cut>, first: Cut, i: int)
    requires first.from <= i < first.to || Covered(rest, i)
    ensures Covered([first] + rest, i)
  {
    var cuts := [first] + rest;
    assert cuts[0] == first && forall m :: 0 <= m < |rest| ==> cuts[m + 1] == rest[m];
  }

  /** `" ".join(tokens)`. */
  function Joined(tokens: seq<string>): string {
    if tokens == [] then "" else if |tokens| == 1 then tokens[0] else tokens[0] + (" " + Joined(tokens[1..]))
  }

  lemma {:induction false} RunOf(cls: char -> Option<Class>, token: string, rest: string)
    requires OneClass(cls, token) && (rest != "" ==> cls(rest[0]) != cls(token[0]))
    ensures Runs(cls, token + rest) == [token] + Runs(cls, rest)
  {
    var text := token + rest;
    assert forall k :: 0 <= k < |token| ==> text[k] == token[k];
    assert rest != "" ==> text[|token|] == rest[0];
    assert RunLength(cls, text) == |token|;
    assert text[..|token|] == token && text[|token|..] == rest;
  }

  lemma {:induction false} RunsAreOneClass(cls: char -> Option<Class>, text: string)
    ensures forall t :: t in Runs(cls, text) ==> OneClass(cls, t)
    decreases |text|
  {
    if text != "" {
      if cls(text[0]).None? {
        RunsAreOneClass(cls, text[1..]);
      } else {
        RunsAreOneClass(cls, text[RunLength(cls, text)..]);
      }
    }
  }

  /** Tokens joined by spaces are read back as they were. */
  lemma {:induction false} JoinedTokensReadBack(cls: char -> Option<Class>, tokens: seq<string>)
    requires cls(' ').None? && forall t :: t in tokens ==> OneClass(cls, t)
    ensures Runs(cls, Joined(tokens)) == tokens
  {
    if tokens != [] {
      var t, rest := tokens[0], tokens[1..];
      assert tokens == [t] + rest && t in tokens;
      JoinedTokensReadBack(cls, rest);
      if rest == [] {
        RunOf(cls, t, "");
        assert t + "" == t;
      } else {
        RunOf(cls, t, " " + Joined(rest));
        assert (" " + Joined(rest))[1..] == Joined(rest);
      }
    }
  }

  lemma {:induction false} AnalyzingTwice(cls: char -> Option<Class>, text: string)
    requires cls(' ').None?
    ensures Runs(cls, Joined(Runs(cls, text))) == Runs(cls, text)
  {
    RunsAreOneClass(cls, text);
    JoinedTokensReadBack(cls, Runs(cls, text));
  }

  /** `analyze`: one pass over the text with a buffer. */
  method Analyze(a: Analyzer, text: string) returns (tokens: seq<string>)
    ensures tokens == Tokens(a, text)
  {
    var found := CutIntoRuns(a.cls, text);
    tokens := Folded(a.fold, found);
  }

  method CutIntoRuns(cls: char -> Option<Class>, text: string) returns (tokens: seq<string>)
    ensures tokens == Runs(cls, text)
  {
    hide *;
    var current, currentClass := "", None;
    tokens := [];
    assert text[0..] == text && "" + text == text && [] + Runs(cls, text) == Runs(cls, text);
    for i := 0 to |text|
      invariant current != "" ==> OneClass(cls, current) && currentClass == cls(current[0])
      invariant tokens + Runs(cls, current + text[i..]) == Runs(cls, text)
    {
      var c := cls(text[i]);
      assert text[i..] == [text[i]] + text[i + 1..];
      if c != currentClass && current != "" {
        RunEnds(cls, tokens, current, text[i..]);
        tokens := tokens + [current];
        current := "";
      }
      NextCharacter(cls, current, text[i], text[i + 1..]);
      currentClass := c;
      if c.Some? {
        current := current + [text[i]];
      }
    }
    assert text[|text|..] == "";
    if current != "" {
      RunEnds(cls, tokens, current, "");
      tokens := tokens + [current];
      current := "";
    }
    NothingLeft(cls, tokens);
  }

  lemma {:induction false} NothingLeft(cls: char -> Option<Class>, tokens: seq<string>)
    ensures tokens + Runs(cls, "" + "") == tokens
  {}

  /** Cutting the buffer off where the next character is of another class. */
  lemma {:induction false} RunEnds(cls: char -> Option<Class>, tokens: seq<string>, current: string, rest: string)
    requires OneClass(cls, current) && current != "" && (rest != "" ==> cls(rest[0]) != cls(current[0]))
    ensures tokens + Runs(cls, current + rest) == tokens + [current] + Runs(cls, "" + rest)
  {
    RunOf(cls, current, rest);
    assert "" + rest == rest;
    assert tokens + ([current] + Runs(cls, rest)) == tokens + [current] + Runs(cls, rest);
  }

  /** Taking one more character into the buffer, or passing over whitespace. */
  lemma {:induction false} NextCharacter(cls: char -> Option<Class>, current: string, c: char, rest: string)
    requires current != "" ==> OneClass(cls, current) && cls(current[0]) == cls(c)
    ensures cls(c).Some? ==> OneClass(cls, current + [c]) && cls((current + [c])[0]) == cls(c)
    ensures cls(c).Some? ==> current + ([c] + rest) == current + [c] + rest
    ensures cls(c).None? ==> current == "" && Runs(cls, current + ([c] + rest)) == Runs(cls, current + rest)
  {
    if cls(c).None? {
      assert current + ([c] + rest) == [c] + rest && current + rest == rest;
      assert ([c] + rest)[1..] == rest;
    }
  }

  /** The tokens of a text are its runs, each folded, in order; a run that folds to
      nothing is dropped. */
  lemma {:induction false} TokensAreFoldedRuns(a: Analyzer, early: seq<string>, run: string)
    ensures Folded(a.fold, []) == []
    ensures Folded(a.fold, early + [run]) == Folded(a.fold, early) + if a.fold(run) == "" then [] else [a.fold(run)]
  {
    if early == [] {
      assert early + [run] == [run];
    } else {
      assert (early + [run])[1..] == early[1..] + [run];
      TokensAreFoldedRuns(a, early[1..], run);
    }
  }

  // --- The weights ---

  predicate Parameters(k1: real, b: real) { k1 > 0.0 && 0.0 <= b <= 1.0 }

  function Normalised(length: nat, average: real, b: real): real
    requires average > 0.0
  {
    1.0 - b + b * length as real / average
  }

  /** What `occurrences` weigh when `z` of them would weigh half of `top`. */
  function Saturation(occurrences: real, z: real, top: real): real
    requires occurrences + z > 0.0
  {
    occurrences * top / (occurrences + z)
  }

  function Weight(occurrences: nat, length: nat, average: real, k1: real, b: real): real
    requires Parameters(k1, b) && 0 < occurrences
  {
    if average <= 0.0 then 0.0
    else
      Positive(length, average, k1, b);
      Saturation(occurrences as real, k1 * Normalised(length, average, b), k1 + 1.0)
  }

  lemma {:induction false} Product(x: real, y: real)
    requires x >= 0.0 && y >= 0.0
    ensures x * y >= 0.0
    ensures x > 0.0 && y > 0.0 ==> x * y > 0.0
  {}

  /** The weight in closed form, and where it is half of what it can come to. */
  lemma {:induction false} WeightIs(occurrences: nat, length: nat, average: real, k1: real, b: real, half: real)
    requires Parameters(k1, b) && average > 0.0 && 0 < occurrences <= length
    requires half == k1 * (1.0 - b + b * length as real / average)
    ensures var o := occurrences as real;
            half > 0.0 && o > 0.0 && Weight(occurrences, length, average, k1, b) == o * (k1 + 1.0) / (o + half)
    ensures occurrences as real == half ==> Weight(occurrences, length, average, k1, b) == (k1 + 1.0) / 2.0
  {
    Positive(length, average, k1, b);
    assert half == k1 * Normalised(length, average, b);
    hide Normalised;
    if occurrences as real == half {
      HalfOf(half, k1 + 1.0);
    }
  }

  lemma {:induction false} HalfOf(x: real, y: real)
    requires x > 0.0
    ensures x * y / (x + x) == y / 2.0
  {}

  /** `x <= y` and `x < y` survive multiplying by something positive. */
  lemma {:induction false} Scaled(x: real, y: real, z: real)
    requires z > 0.0
    ensures x * z < y * z <==> x < y
    ensures x * z <= y * z <==> x <= y
  {}

  lemma {:induction false} Quotient(x: real, y: real)
    requires y > 0.0 && x >= 0.0
    ensures x / y >= 0.0
    ensures x > 0.0 ==> x / y > 0.0
  {}

  /** `p/q` and `r/s` compare as `p*s` and `r*q`. */
  lemma {:induction false} Compare(p: real, q: real, r: real, s: real)
    requires q > 0.0 && s > 0.0
    ensures p / q < r / s <==> p * s < r * q
    ensures p / q <= r / s <==> p * s <= r * q
  {}

  lemma {:induction false} Positive(length: nat, average: real, k1: real, b: real)
    requires Parameters(k1, b) && average > 0.0
    ensures k1 * Normalised(length, average, b) >= 0.0
    ensures 0 < length ==> k1 * Normalised(length, average, b) > 0.0
  {
    Product(b, length as real);
    Quotient(b * length as real, average);
    Product(k1, Normalised(length, average, b));
  }

  lemma {:induction false} LongerIsMore(length: nat, longer: nat, average: real, k1: real, b: real)
    requires Parameters(k1, b) && average > 0.0 && length <= longer
    ensures k1 * Normalised(length, average, b) <= k1 * Normalised(longer, average, b)
  {}

  lemma {:induction false} Saturating(o: real, m: real, z: real, zz: real, top: real)
    requires 0.0 < o < m && 0.0 < z <= zz && top > 1.0
    ensures 0.0 < Saturation(o, z, top) < top
    ensures Saturation(o, z, top) < Saturation(m, z, top)
    ensures Saturation(o, zz, top) <= Saturation(o, z, top)
  {
    BelowTheTop(o, z, top);
    RisesWithOccurrences(o, m, z, top);
    Product(o, top);
    Scaled(o + z, o + zz, o * top);
    Compare(o * top, o + zz, o * top, o + z);
  }

  lemma {:induction false} BelowTheTop(o: real, z: real, top: real)
    requires 0.0 < o && 0.0 < z && top > 1.0
    ensures 0.0 < Saturation(o, z, top) < top
  {}

  lemma {:induction false} RisesWithOccurrences(o: real, m: real, z: real, top: real)
    requires 0.0 < o < m && 0.0 < z && top > 1.0
    ensures Saturation(o, z, top) < Saturation(m, z, top)
  {
    var p, q := o * top, m * top;
    Scaled(o, m, top);
    Scaled(p, q, z);
    assert p * m == q * o;
    assert p * (m + z) == p * m + p * z && q * (o + z) == q * o + q * z;
    Compare(p, o + z, q, m + z);
  }

  /** A weight is below `k1 + 1` however often the token occurs, rises with every
      occurrence, and never rises with the document's length. */
  lemma {:induction false} WeightSaturates(occurrences: nat, more: nat, length: nat, longer: nat, average: real,
          k1: real, b: real)
    requires Parameters(k1, b) && average > 0.0 && 0 < occurrences < more && occurrences <= length <= longer
    ensures 0.0 < Weight(occurrences, length, average, k1, b) < k1 + 1.0
    ensures Weight(occurrences, length, average, k1, b) < Weight(more, length, average, k1, b)
    ensures Weight(occurrences, longer, average, k1, b) <= Weight(occurrences, length, average, k1, b)
  {
    hide Saturation, Normalised;
    Positive(length, average, k1, b);
    LongerIsMore(length, longer, average, k1, b);
    var z, zz := k1 * Normalised(length, average, b), k1 * Normalised(longer, average, b);
    Saturating(occurrences as real, more as real, z, zz, k1 + 1.0);
  }

  /** All that is asked of `math.log`. */
  ghost predicate IsLog(log: real -> real) {
    log(1.0) == 0.0 && forall x, y :: 0.0 < x < y ==> log(x) < log(y)
  }

  lemma {:induction false} SomethingIsALog()
    ensures IsLog(x => x - 1.0)
  {}

  /** The odds that a document does not hold the token. */
  function Odds(documents: nat, matching: nat): real {
    (documents as real - matching as real + 0.5) / (matching as real + 0.5)
  }

  /** A token nobody holds has the best odds, and what half do not hold is as likely
      held as not. */
  lemma {:induction false} OddsAre(documents: nat, matching: nat)
    requires matching <= documents
    ensures Odds(documents, 0) == 2.0 * documents as real + 1.0
    ensures Odds(documents, matching) * Odds(documents, documents - matching) == 1.0
  {
    var x, y := (documents - matching) as real + 0.5, matching as real + 0.5;
    assert Odds(documents, matching) == x / y && Odds(documents, documents - matching) == y / x;
    Reciprocal(x, y);
  }

  lemma {:induction false} Reciprocal(x: real, y: real)
    requires x > 0.0 && y > 0.0
    ensures (x / y) * (y / x) == 1.0
  {}

  function Idf(log: real -> real, documents: nat, matching: nat): real {
    var l := log(Odds(documents, matching));
    if l > 0.0 then l else 0.0
  }

  lemma {:induction false} OddsFall(documents: nat, matching: nat, rarer: nat)
    requires rarer <= matching <= documents
    ensures 0.0 < Odds(documents, matching) <= Odds(documents, rarer)
    ensures Odds(documents, matching) > 1.0 <==> 2 * matching < documents
  {
    var n, m, r := documents as real, matching as real, rarer as real;
    Quotient(n - m + 0.5, m + 0.5);
    Compare(1.0, 1.0, n - m + 0.5, m + 0.5);
    assert 1.0 / 1.0 == 1.0;
    Product(m - r, n + 1.0);
    assert (n - r + 0.5) * (m + 0.5) - (n - m + 0.5) * (r + 0.5) == (m - r) * (n + 1.0);
    Compare(n - m + 0.5, m + 0.5, n - r + 0.5, r + 0.5);
  }

  /** A token in half the corpus or more says nothing, and a rarer one never less. */
  lemma {:induction false} CommonTokensSayNothing(log: real -> real, documents: nat, matching: nat, rarer: nat)
    requires IsLog(log) && rarer <= matching <= documents
    ensures Idf(log, documents, matching) >= 0.0
    ensures Idf(log, documents, matching) == 0.0 <==> 2 * matching >= documents
    ensures Idf(log, documents, rarer) >= Idf(log, documents, matching)
  {
    OddsFall(documents, matching, rarer);
    hide Odds;
  }

  // --- Scores ---

  type Id = string

  datatype Document = Document(id: Id, text: string)

  function LengthSum(a: Analyzer, documents: seq<Document>): nat {
    if documents == [] then 0 else |Tokens(a, documents[0].text)| + LengthSum(a, documents[1..])
  }

  function AverageLength(a: Analyzer, documents: seq<Document>): real
    requires documents != []
  {
    LengthSum(a, documents) as real / |documents| as real
  }

  /** The average is the mean of the lengths. */
  lemma {:induction false} TheAverageIs(a: Analyzer, documents: seq<Document>, d: Document)
    ensures LengthSum(a, []) == 0 && LengthSum(a, documents + [d]) == LengthSum(a, documents) + |Tokens(a, d.text)|
    ensures documents != [] ==> AverageLength(a, documents) * |documents| as real == LengthSum(a, documents) as real
  {
    hide Tokens;
    if documents == [] {
      assert documents + [d] == [d];
    } else {
      assert (documents + [d])[1..] == documents[1..] + [d];
      TheAverageIs(a, documents[1..], d);
    }
  }

  /** In how many documents a token occurs. */
  function Frequency(a: Analyzer, documents: seq<Document>, token: string): (n: nat)
    ensures n <= |documents|
  {
    if documents == [] then 0
    else (if token in Tokens(a, documents[0].text) then 1 else 0) + Frequency(a, documents[1..], token)
  }

  /** What a term is once analyzed; terms that analyze to nothing are dropped. */
  function TermTokens(a: Analyzer, terms: seq<string>): seq<seq<string>> {
    if terms == [] then []
    else if Tokens(a, terms[0]) == [] then TermTokens(a, terms[1..])
    else [Tokens(a, terms[0])] + TermTokens(a, terms[1..])
  }

  predicate HoldsAll(tokens: seq<string>, term: seq<string>) { forall t :: t in term ==> t in tokens }

  /** Every token of every term the document holds whole, as often as it is asked. */
  function Matched(tokens: seq<string>, terms: seq<seq<string>>): seq<string> {
    if terms == [] then []
    else if HoldsAll(tokens, terms[0]) then terms[0] + Matched(tokens, terms[1..])
    else Matched(tokens, terms[1..])
  }

  datatype Corpus = Corpus(analyzer: Analyzer, log: real -> real, documents: seq<Document>, k1: real, b: real)

  function Contribution(c: Corpus, tokens: seq<string>, token: string): real
    requires Parameters(c.k1, c.b) && c.documents != [] && token in tokens
  {
    assert token in multiset(tokens);
    Idf(c.log, |c.documents|, Frequency(c.analyzer, c.documents, token))
    * Weight(multiset(tokens)[token], |tokens|, AverageLength(c.analyzer, c.documents), c.k1, c.b)
  }

  function Total(c: Corpus, tokens: seq<string>, matched: seq<string>): real
    requires Parameters(c.k1, c.b) && c.documents != [] && forall t :: t in matched ==> t in tokens
  {
    if matched == [] then 0.0 else Contribution(c, tokens, matched[0]) + Total(c, tokens, matched[1..])
  }

  lemma {:induction false} MatchedIsHeld(tokens: seq<string>, terms: seq<seq<string>>)
    ensures forall t :: t in Matched(tokens, terms) ==> t in tokens
  {
    if terms != [] {
      MatchedIsHeld(tokens, terms[1..]);
    }
  }

  lemma {:induction false} MatchedWhereHeld(tokens: seq<string>, terms: seq<seq<string>>)
    requires forall term :: term in terms ==> term != []
    ensures Matched(tokens, terms) != [] <==> exists term :: term in terms && HoldsAll(tokens, term)
  {
    if terms != [] {
      var first, rest := terms[0], terms[1..];
      assert terms == [first] + rest;
      assert forall term :: term in rest ==> term in terms;
      hide HoldsAll;
      MatchedWhereHeld(tokens, rest);
      assert first in terms && first != [];
      assert (exists term :: term in terms && HoldsAll(tokens, term)) <==>
             HoldsAll(tokens, first) || exists term :: term in rest && HoldsAll(tokens, term);
    }
  }

  /** A document's score; None where it holds no term whole. */
  function ScoreOf(c: Corpus, terms: seq<seq<string>>, text: string): Option<real>
    requires Parameters(c.k1, c.b) && c.documents != []
  {
    var tokens := Tokens(c.analyzer, text);
    MatchedIsHeld(tokens, terms);
    if Matched(tokens, terms) == [] then None else Some(Total(c, tokens, Matched(tokens, terms)))
  }

  function ScoresOf(c: Corpus, terms: seq<seq<string>>, documents: seq<Document>): map<Id, real>
    requires Parameters(c.k1, c.b) && c.documents != []
  {
    if documents == [] then map[]
    else
      var last := documents[|documents| - 1];
      var before := ScoresOf(c, terms, documents[..|documents| - 1]);
      match ScoreOf(c, terms, last.text)
      case Some(score) => before[last.id := score]
      case None => before
  }

  /** `bm25_scores`. */
  function Scores(c: Corpus, terms: seq<string>): map<Id, real>
    requires Parameters(c.k1, c.b)
  {
    if c.documents == [] || TermTokens(c.analyzer, terms) == [] then map[]
    else ScoresOf(c, TermTokens(c.analyzer, terms), c.documents)
  }

  ghost predicate DistinctIds(documents: seq<Document>) {
    forall d, e :: d in documents && e in documents && d.id == e.id ==> d == e
  }

  /** The dict the scores are filled into. */
  method Bm25Scores(c: Corpus, terms: seq<string>) returns (scores: map<Id, real>)
    requires Parameters(c.k1, c.b)
    ensures scores == Scores(c, terms)
  {
    scores := map[];
    var termTokens := TermTokens(c.analyzer, terms);
    if c.documents == [] || terms == [] || termTokens == [] {
      return;
    }
    for k := 0 to |c.documents|
      invariant scores == ScoresOf(c, termTokens, c.documents[..k])
    {
      assert c.documents[..k + 1][..k] == c.documents[..k];
      var score := ScoreOf(c, termTokens, c.documents[k].text);
      if score.Some? {
        scores := scores[c.documents[k].id := score.value];
      }
    }
    assert c.documents[..|c.documents|] == c.documents;
  }

  lemma {:induction false} TermTokensAre(a: Analyzer, terms: seq<string>)
    ensures forall tokens :: tokens in TermTokens(a, terms) <==> tokens != [] && exists t :: t in terms && Tokens(a, t) == tokens
  {
    hide Tokens;
    if terms != [] {
      assert terms == [terms[0]] + terms[1..];
      TermTokensAre(a, terms[1..]);
    }
  }

  lemma {:induction false} ScoresAreTheDocuments(c: Corpus, terms: seq<seq<string>>, documents: seq<Document>)
    requires Parameters(c.k1, c.b) && c.documents != [] && DistinctIds(documents)
    ensures forall d :: d in documents ==> (d.id in ScoresOf(c, terms, documents) <==> ScoreOf(c, terms, d.text).Some?)
    ensures forall d :: d in documents && ScoreOf(c, terms, d.text).Some? ==>
                          ScoresOf(c, terms, documents)[d.id] == ScoreOf(c, terms, d.text).value
    ensures forall id :: id in ScoresOf(c, terms, documents) ==> exists d :: d in documents && d.id == id
  {
    hide ScoreOf;
    if documents != [] {
      var early, last := documents[..|documents| - 1], documents[|documents| - 1];
      assert documents == early + [last];
      assert forall d :: d in early ==> d in documents;
      ScoresAreTheDocuments(c, terms, early);
    }
  }

  /** A document is scored exactly where it holds every token of some term. */
  lemma {:induction false} ScoredIffATermIsHeld(c: Corpus, terms: seq<string>, d: Document)
    requires Parameters(c.k1, c.b) && DistinctIds(c.documents) && d in c.documents
    ensures d.id in Scores(c, terms) <==>
              exists t :: t in terms && Tokens(c.analyzer, t) != [] && HoldsAll(Tokens(c.analyzer, d.text), Tokens(c.analyzer, t))
  {
    var termTokens := TermTokens(c.analyzer, terms);
    TermTokensAre(c.analyzer, terms);
    MatchedWhereHeld(Tokens(c.analyzer, d.text), termTokens);
    ScoresAreTheDocuments(c, termTokens, c.documents);
    hide ScoresOf, Tokens, TermTokens, Matched, HoldsAll, Total, DistinctIds;
    if exists t :: t in terms && Tokens(c.analyzer, t) != [] && HoldsAll(Tokens(c.analyzer, d.text), Tokens(c.analyzer, t)) {
      var t :| t in terms && Tokens(c.analyzer, t) != [] && HoldsAll(Tokens(c.analyzer, d.text), Tokens(c.analyzer, t));
      assert Tokens(c.analyzer, t) in termTokens;
    }
  }

  lemma {:induction false} TermTokensAppend(a: Analyzer, terms: seq<string>, more: seq<string>)
    ensures TermTokens(a, terms + more) == TermTokens(a, terms) + TermTokens(a, more)
  {
    hide Tokens;
    if terms == [] {
      assert terms + more == more;
    } else {
      var rest := terms[1..] + more;
      assert (terms + more)[0] == terms[0] && (terms + more)[1..] == rest;
      TermTokensAppend(a, terms[1..], more);
      if Tokens(a, terms[0]) != [] {
        var one, two := TermTokens(a, terms[1..]), TermTokens(a, more);
        assert [Tokens(a, terms[0])] + (one + two) == [Tokens(a, terms[0])] + one + two;
      }
    }
  }

  lemma {:induction false} MatchedAppend(tokens: seq<string>, terms: seq<seq<string>>, more: seq<seq<string>>)
    ensures Matched(tokens, terms + more) == Matched(tokens, terms) + Matched(tokens, more)
  {
    hide HoldsAll;
    if terms == [] {
      assert terms + more == more;
    } else {
      var rest := terms[1..] + more;
      assert (terms + more)[0] == terms[0] && (terms + more)[1..] == rest;
      MatchedAppend(tokens, terms[1..], more);
      if HoldsAll(tokens, terms[0]) {
        var one, two := Matched(tokens, terms[1..]), Matched(tokens, more);
        assert terms[0] + (one + two) == terms[0] + one + two;
      }
    }
  }

  lemma {:induction false} ContributesSomething(c: Corpus, tokens: seq<string>, token: string)
    requires Parameters(c.k1, c.b) && c.documents != [] && token in tokens && IsLog(c.log)
    ensures Contribution(c, tokens, token) >= 0.0
  {
    assert token in multiset(tokens);
    var n, average := multiset(tokens)[token], AverageLength(c.analyzer, c.documents);
    assert n <= |multiset(tokens)| == |tokens|;
    var matching := Frequency(c.analyzer, c.documents, token);
    CommonTokensSayNothing(c.log, |c.documents|, matching, matching);
    if average > 0.0 {
      WeightSaturates(n, n + 1, |tokens|, |tokens|, average, c.k1, c.b);
    }
    hide AverageLength, Frequency, Idf, IsLog;
    Product(Idf(c.log, |c.documents|, matching), Weight(n, |tokens|, average, c.k1, c.b));
  }

  lemma {:induction false} TotalGrows(c: Corpus, tokens: seq<string>, matched: seq<string>, more: seq<string>)
    requires Parameters(c.k1, c.b) && c.documents != [] && IsLog(c.log)
    requires (forall t :: t in matched ==> t in tokens) && forall t :: t in more ==> t in tokens
    ensures 0.0 <= Total(c, tokens, matched) <= Total(c, tokens, matched + more)
    decreases |matched| + |more|
  {
    hide Contribution, IsLog;
    if matched != [] {
      assert matched[0] in tokens && (matched + more)[1..] == matched[1..] + more;
      ContributesSomething(c, tokens, matched[0]);
      TotalGrows(c, tokens, matched[1..], more);
    } else {
      assert matched + more == more;
      if more != [] {
        ContributesSomething(c, tokens, more[0]);
        TotalGrows(c, tokens, [], more[1..]);
        assert [] + more[1..] == more[1..];
      }
    }
  }

  /** Terms are alternatives: asking for more of them never drops a document and
      never lowers a score. */
  lemma {:induction false} AddingTermsNeverHurts(c: Corpus, terms: seq<string>, more: seq<string>, d: Document)
    requires Parameters(c.k1, c.b) && IsLog(c.log) && DistinctIds(c.documents) && d in c.documents
    requires d.id in Scores(c, terms)
    ensures d.id in Scores(c, terms + more) && 0.0 <= Scores(c, terms)[d.id] <= Scores(c, terms + more)[d.id]
  {
    var one, two := TermTokens(c.analyzer, terms), TermTokens(c.analyzer, more);
    TermTokensAppend(c.analyzer, terms, more);
    ScoresAreTheDocuments(c, one, c.documents);
    ScoresAreTheDocuments(c, one + two, c.documents);
    hide ScoresOf, TermTokens, DistinctIds, IsLog;
    MoreTermsScoreMore(c, one, two, d.text);
  }

  lemma {:induction false} MoreTermsScoreMore(c: Corpus, terms: seq<seq<string>>, more: seq<seq<string>>, text: string)
    requires Parameters(c.k1, c.b) && IsLog(c.log) && c.documents != [] && ScoreOf(c, terms, text).Some?
    ensures ScoreOf(c, terms + more, text).Some?
    ensures 0.0 <= ScoreOf(c, terms, text).value <= ScoreOf(c, terms + more, text).value
  {
    var tokens := Tokens(c.analyzer, text);
    MatchedAppend(tokens, terms, more);
    MatchedIsHeld(tokens, terms);
    MatchedIsHeld(tokens, more);
    hide Matched, Tokens, Total, IsLog;
    TotalGrows(c, tokens, Matched(tokens, terms), Matched(tokens, more));
  }

  function Holding(a: Analyzer, documents: seq<Document>, token: string): set<Document> {
    set d | d in documents && token in Tokens(a, d.text)
  }

  /** The frequency counts documents, not occurrences. */
  lemma {:induction false} FrequencyCountsDocuments(a: Analyzer, documents: seq<Document>, token: string)
    requires forall i, j :: 0 <= i < j < |documents| ==> documents[i] != documents[j]
    ensures Frequency(a, documents, token) == |Holding(a, documents, token)|
  {
    hide Tokens;
    if documents != [] {
      var first, rest := documents[0], documents[1..];
      assert documents == [first] + rest && first !in rest;
      FrequencyCountsDocuments(a, rest, token);
      assert Holding(a, documents, token) == Holding(a, rest, token) + if token in Tokens(a, first.text) then {first} else {};
    }
  }

  ghost predicate Rare(c: Corpus, token: string) {
    2 * Frequency(c.analyzer, c.documents, token) < |c.documents|
  }

  /** The zero rule: a matching document scores above nothing exactly where some
      token it was matched on is in less than half the corpus. */
  lemma {:induction false} PositiveIffSomethingRare(c: Corpus, terms: seq<string>, d: Document)
    requires Parameters(c.k1, c.b) && IsLog(c.log) && DistinctIds(c.documents) && d in c.documents
    requires d.id in Scores(c, terms)
    ensures var tokens := Tokens(c.analyzer, d.text);
            Scores(c, terms)[d.id] > 0.0 <==>
              exists term, t :: term in TermTokens(c.analyzer, terms) && HoldsAll(tokens, term) && t in term && Rare(c, t)
  {
    var termTokens := TermTokens(c.analyzer, terms);
    ScoresAreTheDocuments(c, termTokens, c.documents);
    hide ScoresOf, ScoreOf, TermTokens, Tokens, DistinctIds, HoldsAll, Rare, IsLog;
    ScoreIsPositiveIff(c, termTokens, d);
    MatchedAre(Tokens(c.analyzer, d.text), termTokens);
  }

  lemma {:induction false} ScoreIsPositiveIff(c: Corpus, terms: seq<seq<string>>, d: Document)
    requires Parameters(c.k1, c.b) && IsLog(c.log) && d in c.documents && ScoreOf(c, terms, d.text).Some?
    ensures ScoreOf(c, terms, d.text).value > 0.0 <==>
              exists t :: t in Matched(Tokens(c.analyzer, d.text), terms) && Rare(c, t)
  {
    hide Tokens, Matched, Total, Rare, IsLog, AverageLength;
    var tokens := Tokens(c.analyzer, d.text);
    var matched := Matched(tokens, terms);
    MatchedIsHeld(tokens, terms);
    assert matched[0] in matched && tokens != [];
    SomeLength(c.analyzer, c.documents, d);
    TotalIsPositiveIff(c, tokens, matched);
  }

  lemma {:induction false} MatchedAre(tokens: seq<string>, terms: seq<seq<string>>)
    ensures forall t :: t in Matched(tokens, terms) <==> exists term :: term in terms && HoldsAll(tokens, term) && t in term
  {
    if terms != [] {
      assert terms == [terms[0]] + terms[1..];
      hide HoldsAll;
      MatchedAre(tokens, terms[1..]);
    }
  }

  lemma {:induction false} SomeLength(a: Analyzer, documents: seq<Document>, d: Document)
    requires d in documents && Tokens(a, d.text) != []
    ensures AverageLength(a, documents) > 0.0
  {
    hide Tokens;
    SumHolds(a, documents, d);
    Quotient(LengthSum(a, documents) as real, |documents| as real);
  }

  lemma {:induction false} SumHolds(a: Analyzer, documents: seq<Document>, d: Document)
    requires d in documents
    ensures LengthSum(a, documents) >= |Tokens(a, d.text)|
  {
    hide Tokens;
    if d != documents[0] {
      assert documents == [documents[0]] + documents[1..];
      SumHolds(a, documents[1..], d);
    }
  }

  lemma {:induction false} ContributesIffRare(c: Corpus, tokens: seq<string>, token: string)
    requires Parameters(c.k1, c.b) && c.documents != [] && token in tokens && IsLog(c.log)
    requires AverageLength(c.analyzer, c.documents) > 0.0
    ensures Contribution(c, tokens, token) >= 0.0
    ensures Contribution(c, tokens, token) > 0.0 <==> Rare(c, token)
  {
    hide AverageLength, Frequency, Idf, IsLog, Weight;
    assert token in multiset(tokens);
    var n, average := multiset(tokens)[token], AverageLength(c.analyzer, c.documents);
    assert n <= |multiset(tokens)| == |tokens|;
    var matching := Frequency(c.analyzer, c.documents, token);
    CommonTokensSayNothing(c.log, |c.documents|, matching, matching);
    WeightSaturates(n, n + 1, |tokens|, |tokens|, average, c.k1, c.b);
    Product(Idf(c.log, |c.documents|, matching), Weight(n, |tokens|, average, c.k1, c.b));
  }

  lemma {:induction false} TotalIsPositiveIff(c: Corpus, tokens: seq<string>, matched: seq<string>)
    requires Parameters(c.k1, c.b) && c.documents != [] && IsLog(c.log) && forall t :: t in matched ==> t in tokens
    requires matched != [] ==> AverageLength(c.analyzer, c.documents) > 0.0
    ensures Total(c, tokens, matched) >= 0.0
    ensures Total(c, tokens, matched) > 0.0 <==> exists t :: t in matched && Rare(c, t)
  {
    hide Contribution, IsLog, AverageLength, Rare;
    if matched != [] {
      assert matched == [matched[0]] + matched[1..] && matched[0] in matched;
      ContributesIffRare(c, tokens, matched[0]);
      TotalIsPositiveIff(c, tokens, matched[1..]);
    }
  }

  /** Said at least as often in a document no longer, a token weighs at least as
      much, and more if it is said more often, or the document is shorter and
      length counts. */
  lemma {:induction false} WeightOrder(occurrences: nat, more: nat, length: nat, shorter: nat, average: real, k1: real, b: real)
    requires Parameters(k1, b) && average > 0.0 && 0 < occurrences <= more <= shorter <= length
    ensures Weight(occurrences, length, average, k1, b) <= Weight(more, shorter, average, k1, b)
    ensures occurrences < more || (b > 0.0 && shorter < length) ==>
              Weight(occurrences, length, average, k1, b) < Weight(more, shorter, average, k1, b)
  {
    WeightSaturates(occurrences, more + 1, shorter, length, average, k1, b);
    if occurrences < more {
      WeightSaturates(occurrences, more, shorter, length, average, k1, b);
    } else if b > 0.0 && shorter < length {
      ShorterWeighsMore(occurrences, length, shorter, average, k1, b);
    }
    hide Weight;
  }

  lemma {:induction false} ShorterWeighsMore(occurrences: nat, length: nat, shorter: nat, average: real, k1: real, b: real)
    requires Parameters(k1, b) && average > 0.0 && 0 < occurrences <= shorter < length && b > 0.0
    ensures Weight(occurrences, length, average, k1, b) < Weight(occurrences, shorter, average, k1, b)
  {
    Positive(length, average, k1, b);
    Positive(shorter, average, k1, b);
    NormalisedRises(length, shorter, average, k1, b);
    hide Normalised;
    SaturationFalls(occurrences as real, k1 * Normalised(shorter, average, b), k1 * Normalised(length, average, b), k1 + 1.0);
  }

  lemma {:induction false} SaturationFalls(o: real, z: real, zz: real, top: real)
    requires 0.0 < o && 0.0 < z < zz && top > 0.0
    ensures Saturation(o, zz, top) < Saturation(o, z, top)
  {
    Product(o, top);
    Scaled(o + z, o + zz, o * top);
    Compare(o * top, o + zz, o * top, o + z);
  }

  lemma {:induction false} NormalisedRises(length: nat, shorter: nat, average: real, k1: real, b: real)
    requires Parameters(k1, b) && average > 0.0 && shorter < length && b > 0.0
    ensures k1 * Normalised(shorter, average, b) < k1 * Normalised(length, average, b)
  {
    var s, l := shorter as real, length as real;
    Scaled(s, l, b);
    assert s * b == b * s && l * b == b * l;
    Compare(b * s, average, b * l, average);
    Scaled(b * s, b * l, average);
    Scaled(Normalised(shorter, average, b), Normalised(length, average, b), k1);
    assert Normalised(shorter, average, b) * k1 == k1 * Normalised(shorter, average, b);
    assert Normalised(length, average, b) * k1 == k1 * Normalised(length, average, b);
  }

  lemma {:induction false} ContributesMore(c: Corpus, tokens: seq<string>, others: seq<string>, token: string)
    requires Parameters(c.k1, c.b) && c.documents != [] && IsLog(c.log) && AverageLength(c.analyzer, c.documents) > 0.0
    requires token in tokens && |others| <= |tokens| && multiset(tokens)[token] <= multiset(others)[token]
    ensures token in others && Contribution(c, tokens, token) <= Contribution(c, others, token)
    ensures Rare(c, token) && (multiset(tokens)[token] < multiset(others)[token] || (c.b > 0.0 && |others| < |tokens|)) ==>
              Contribution(c, tokens, token) < Contribution(c, others, token)
  {
    hide AverageLength, Frequency, Idf, IsLog, Weight;
    assert token in multiset(tokens) && token in multiset(others);
    var n, more, average := multiset(tokens)[token], multiset(others)[token], AverageLength(c.analyzer, c.documents);
    assert more <= |multiset(others)| == |others|;
    var matching := Frequency(c.analyzer, c.documents, token);
    CommonTokensSayNothing(c.log, |c.documents|, matching, matching);
    WeightOrder(n, more, |tokens|, |others|, average, c.k1, c.b);
    var w, ww, idf := Weight(n, |tokens|, average, c.k1, c.b), Weight(more, |others|, average, c.k1, c.b),
                      Idf(c.log, |c.documents|, matching);
    if idf > 0.0 {
      Scaled(w, ww, idf);
    }
  }

  lemma {:induction false} TotalAppend(c: Corpus, tokens: seq<string>, one: seq<string>, two: seq<string>)
    requires Parameters(c.k1, c.b) && c.documents != [] && IsLog(c.log)
    requires (forall t :: t in one ==> t in tokens) && forall t :: t in two ==> t in tokens
    ensures Total(c, tokens, one + two) == Total(c, tokens, one) + Total(c, tokens, two)
    ensures Total(c, tokens, one) >= 0.0
  {
    hide Contribution, IsLog;
    if one == [] {
      assert one + two == two;
    } else {
      assert one[0] in one && (one + two)[1..] == one[1..] + two;
      ContributesSomething(c, tokens, one[0]);
      TotalAppend(c, tokens, one[1..], two);
    }
  }

  /** Said at least as often, in a document no longer. */
  ghost predicate Outdoes(tokens: seq<string>, others: seq<string>, asked: seq<string>) {
    && |others| <= |tokens|
    && forall t :: t in asked ==> multiset(tokens)[t] <= multiset(others)[t]
  }

  /** Where the one clearly says more. */
  ghost predicate SaysMore(c: Corpus, tokens: seq<string>, others: seq<string>, token: string) {
    Rare(c, token) && (multiset(tokens)[token] < multiset(others)[token] || (c.b > 0.0 && |others| < |tokens|))
  }

  lemma {:induction false} TotalOrder(c: Corpus, tokens: seq<string>, others: seq<string>, matched: seq<string>)
    requires Parameters(c.k1, c.b) && c.documents != [] && IsLog(c.log) && AverageLength(c.analyzer, c.documents) > 0.0
    requires Outdoes(tokens, others, matched) && forall t :: t in matched ==> t in tokens
    ensures forall t :: t in matched ==> t in others
    ensures Total(c, tokens, matched) <= Total(c, others, matched)
    ensures (exists t :: t in matched && SaysMore(c, tokens, others, t)) ==> Total(c, tokens, matched) < Total(c, others, matched)
  {
    hide Contribution, IsLog, AverageLength, Rare;
    if matched != [] {
      var first, rest := matched[0], matched[1..];
      assert matched == [first] + rest && first in matched;
      assert forall t :: t in rest ==> t in matched;
      ContributesMore(c, tokens, others, first);
      TotalOrder(c, tokens, others, rest);
      hide SaysMore, Outdoes;
    }
  }

  lemma {:induction false} MatchedOrder(c: Corpus, tokens: seq<string>, others: seq<string>, terms: seq<seq<string>>)
    requires Parameters(c.k1, c.b) && c.documents != [] && IsLog(c.log) && AverageLength(c.analyzer, c.documents) > 0.0
    requires forall term :: term in terms ==> Outdoes(tokens, others, term)
    ensures forall t :: t in Matched(tokens, terms) ==> t in tokens && t in Matched(others, terms)
    ensures forall t :: t in Matched(others, terms) ==> t in others
    ensures Total(c, tokens, Matched(tokens, terms)) <= Total(c, others, Matched(others, terms))
    ensures (exists t :: t in Matched(tokens, terms) && SaysMore(c, tokens, others, t)) ==>
              Total(c, tokens, Matched(tokens, terms)) < Total(c, others, Matched(others, terms))
  {
    MatchedIsHeld(tokens, terms);
    MatchedIsHeld(others, terms);
    if terms != [] {
      var first, rest := terms[0], terms[1..];
      assert terms == [first] + rest;
      MatchedIsHeld(tokens, rest);
      MatchedIsHeld(others, rest);
      MatchedOrder(c, tokens, others, rest);
      var early, late := Matched(tokens, rest), Matched(others, rest);
      hide Total, IsLog, AverageLength, SaysMore;
      if HoldsAll(tokens, first) {
        HeldByBoth(tokens, others, first);
        TotalAppend(c, tokens, first, early);
        TotalOrder(c, tokens, others, first);
      }
      if HoldsAll(others, first) {
        TotalAppend(c, others, first, late);
      }
      hide HoldsAll, Outdoes;
    }
  }

  lemma {:induction false} HeldByBoth(tokens: seq<string>, others: seq<string>, term: seq<string>)
    requires HoldsAll(tokens, term) && Outdoes(tokens, others, term)
    ensures HoldsAll(others, term)
  {
    forall t | t in term ensures t in others {
      assert t in multiset(tokens) && t in multiset(others);
    }
  }

  /** Of two documents of one corpus, the one that says every token asked for at
      least as often and is no longer scores at least as much; and more, if a rare
      token of a term the other holds is said more often, or it is shorter. */
  lemma {:induction false} SayingMoreScoresMore(c: Corpus, terms: seq<string>, d: Document, e: Document)
    requires Parameters(c.k1, c.b) && IsLog(c.log) && DistinctIds(c.documents) && d in c.documents && e in c.documents
    requires d.id in Scores(c, terms)
    requires forall term :: term in TermTokens(c.analyzer, terms) ==>
                              Outdoes(Tokens(c.analyzer, d.text), Tokens(c.analyzer, e.text), term)
    ensures e.id in Scores(c, terms) && Scores(c, terms)[d.id] <= Scores(c, terms)[e.id]
    ensures var tokens, others := Tokens(c.analyzer, d.text), Tokens(c.analyzer, e.text);
            (exists term, t :: term in TermTokens(c.analyzer, terms) && HoldsAll(tokens, term) && t in term
                               && SaysMore(c, tokens, others, t)) ==>
              Scores(c, terms)[d.id] < Scores(c, terms)[e.id]
  {
    var termTokens := TermTokens(c.analyzer, terms);
    var tokens, others := Tokens(c.analyzer, d.text), Tokens(c.analyzer, e.text);
    ScoresAreTheDocuments(c, termTokens, c.documents);
    hide ScoresOf, TermTokens, Tokens, DistinctIds, HoldsAll, SaysMore, IsLog, Outdoes, AverageLength, Matched, Total;
    MatchedIsHeld(tokens, termTokens);
    assert Matched(tokens, termTokens)[0] in Matched(tokens, termTokens) && tokens != [];
    SomeLength(c.analyzer, c.documents, d);
    MatchedOrder(c, tokens, others, termTokens);
    assert Matched(tokens, termTokens)[0] in Matched(others, termTokens);
    MatchedAre(tokens, termTokens);
  }

  // --- Containing rows first ---

  datatype Hit = Hit(id: Id, score: real)

  predicate IsIn(part: string, whole: string) {
    part <= whole || (whole != "" && IsIn(part, whole[1..]))
  }

  /** Whether the document holds one of the terms literally, once folded. */
  predicate HoldsATerm(fold: string -> string, documents: map<Id, string>, terms: seq<string>, id: Id) {
    exists t :: t in terms && IsIn(fold(t), fold(TextOf(documents, id)))
  }

  /** A row holds a term exactly when the term, folded, stands somewhere in the
      row's text, folded; a row without a text has the empty one. */
  lemma {:induction false} HoldsATermIff(fold: string -> string, documents: map<Id, string>, terms: seq<string>, id: Id)
    ensures HoldsATerm(fold, documents, terms, id) <==>
              exists t, a, b :: t in terms && a + fold(t) + b == fold(TextOf(documents, id))
    ensures id in documents ==> TextOf(documents, id) == documents[id]
    ensures id !in documents ==> TextOf(documents, id) == ""
  {
    var text := fold(TextOf(documents, id));
    forall t | t in terms ensures IsIn(fold(t), text) <==> exists a, b :: a + fold(t) + b == text {
      IsInIff(fold(t), text);
    }
    hide IsIn;
  }

  function TextOf(documents: map<Id, string>, id: Id): string { if id in documents then documents[id] else "" }

  lemma {:induction false} IsInIff(part: string, whole: string)
    ensures IsIn(part, whole) <==> exists a, b :: a + part + b == whole
  {
    if IsIn(part, whole) {
      if part <= whole {
        assert "" + part + whole[|part|..] == whole;
      } else {
        IsInIff(part, whole[1..]);
        var a, b :| a + part + b == whole[1..];
        assert [whole[0]] + a + part + b == whole;
      }
    }
    if a, b :| a + part + b == whole {
      StandsIn(a, part, b);
    }
  }

  lemma {:induction false} StandsIn(a: string, part: string, b: string)
    ensures IsIn(part, a + part + b)
  {
    var whole := a + part + b;
    if a == "" {
      assert whole[..|part|] == part;
    } else {
      assert whole[1..] == a[1..] + part + b;
      StandsIn(a[1..], part, b);
    }
  }

  predicate HitLeq(x: Hit, y: Hit) { x.score > y.score || (x.score == y.score && TextLeq(x.id, y.id)) }

  function Containing(fold: string -> string, candidates: seq<Hit>, documents: map<Id, string>,
          terms: seq<string>): seq<Hit> {
    Keep(candidates, set h | h in candidates && HoldsATerm(fold, documents, terms, h.id))
  }

  function TokenOnly(candidates: seq<Hit>, exact: set<Id>): seq<Hit> {
    Keep(candidates, set h | h in candidates && h.id !in exact && h.score > 0.0)
  }

  function ContainmentFirst(fold: string -> string, candidates: seq<Hit>, documents: map<Id, string>,
          terms: seq<string>): seq<Hit> {
    var containing := Containing(fold, candidates, documents, terms);
    Sort(containing, HitLeq) + Sort(TokenOnly(candidates, set h | h in containing :: h.id), HitLeq)
  }

  lemma {:induction false} HitOrder()
    ensures TotalPreorder(HitLeq)
  {
    forall x: Hit, y: Hit ensures HitLeq(x, y) || HitLeq(y, x) {
      TextLeqTotal(x.id, y.id);
    }
    forall x: Hit, y: Hit, z: Hit | HitLeq(x, y) && HitLeq(y, z) ensures HitLeq(x, z) {
      if x.score == y.score == z.score {
        TextLeqTransitive(x.id, y.id, z.id);
      }
    }
  }

  /** Every row that holds a term, whatever its score, then every other row that
      scores above nothing; each half best first, ties by id; nothing else, and
      nothing twice that was there once. */
  lemma {:induction false} ContainingRowsComeFirst(fold: string -> string, candidates: seq<Hit>, documents: map<Id,
          string>, terms: seq<string>)
    returns (first: seq<Hit>, rest: seq<Hit>)
    ensures ContainmentFirst(fold, candidates, documents, terms) == first + rest
    ensures BestFirst(first) && BestFirst(rest)
    ensures forall h :: multiset(first)[h] == if HoldsATerm(fold, documents, terms, h.id) then multiset(candidates)[h] else 0
    ensures forall h :: multiset(rest)[h] ==
                        if !HoldsATerm(fold, documents, terms, h.id) && h.score > 0.0 then multiset(candidates)[h] else 0
  {
    var containing := Containing(fold, candidates, documents, terms);
    var exact := set h | h in containing :: h.id;
    first, rest := Sort(containing, HitLeq), Sort(TokenOnly(candidates, exact), HitLeq);
    HitOrder();
    SortIsSorted(containing, HitLeq);
    SortIsSorted(TokenOnly(candidates, exact), HitLeq);
    KeptRows(fold, candidates, documents, terms);
    hide Sort, Containing, TokenOnly, HoldsATerm;
  }

  /** Highest score first; where two tie, by id. */
  predicate BestFirst(hits: seq<Hit>) {
    forall i, j :: 0 <= i < j < |hits| ==>
                     hits[i].score > hits[j].score || (hits[i].score == hits[j].score && TextLeq(hits[i].id, hits[j].id))
  }

  lemma {:induction false} KeptRows(fold: string -> string, candidates: seq<Hit>, documents: map<Id, string>,
          terms: seq<string>)
    ensures var containing := Containing(fold, candidates, documents, terms);
            var tokenOnly := TokenOnly(candidates, set h | h in containing :: h.id);
            && (forall h :: multiset(containing)[h] == if HoldsATerm(fold, documents, terms, h.id) then multiset(candidates)[h] else 0)
            && (forall h :: multiset(tokenOnly)[h] ==
                            if !HoldsATerm(fold, documents, terms, h.id) && h.score > 0.0 then multiset(candidates)[h] else 0)
  {
    hide HoldsATerm;
    var containing := Containing(fold, candidates, documents, terms);
    var exact := set h | h in containing :: h.id;
    KeepBag(candidates, set h | h in candidates && HoldsATerm(fold, documents, terms, h.id));
    KeepBag(candidates, set h | h in candidates && h.id !in exact && h.score > 0.0);
    hide Keep;
    forall h ensures h in candidates ==> (h.id in exact <==> HoldsATerm(fold, documents, terms, h.id)) {
      assert h in candidates <==> h in multiset(candidates);
      assert h in containing <==> h in multiset(containing);
      if h in candidates && h.id in exact {
        var other :| other in containing && other.id == h.id;
        assert other in multiset(containing);
      }
    }
    assert forall h :: h in candidates <==> h in multiset(candidates);
  }
}
