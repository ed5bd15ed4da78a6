/** Graph bundles (epimemer/pipelines/transfer.py): the JSON Lines files a
    section is written to and read from, and which bundles retention removes. */
module Bundles {
  import opened Options
  import opened Order
  import Json
  import Timestamps
  import opened Characters

  // --- A section file ---

  /** One record to a line, each line ended. */
  function SectionText(records: seq<Json.Value>): string {
    if records == [] then "" else Json.Dumps(records[0]) + ("\n" + SectionText(records[1..]))
  }

  function FirstBreak(s: string): (n: nat)
    ensures n <= |s|
    ensures n < |s| ==> Json.IsBreak(s[n])
    ensures forall i :: 0 <= i < n ==> !Json.IsBreak(s[i])
  {
    if s == "" || Json.IsBreak(s[0]) then 0 else 1 + FirstBreak(s[1..])
  }

  /** `str.splitlines`. */
  function SplitLines(s: string): seq<string>
    decreases |s|
  {
    var n := FirstBreak(s);
    if s == "" then []
    else if n == |s| then [s]
    else [s[..n]] + SplitLines(s[n + (if s[n] == '\r' && n + 1 < |s| && s[n + 1] == '\n' then 2 else 1)..])
  }

  predicate Blank(line: string) { forall i :: 0 <= i < |line| ==> IsWhite(line[i]) }

  /** The records of the lines that hold something; None where one is not JSON. */
  function RowsOf(lines: seq<string>): Option<seq<Json.Value>> {
    if lines == [] then Some([])
    else if Blank(lines[0]) then RowsOf(lines[1..])
    else
      match (Json.Loads(lines[0]), RowsOf(lines[1..]))
      case (Some(record), Some(records)) => Some([record] + records)
      case _ => None
  }

  function Rows(text: string): Option<seq<Json.Value>> { RowsOf(SplitLines(text)) }

  predicate IsRecord(v: Json.Value) { v.Obj? && Json.WellFormed(v) }

  ghost predicate HoldsRawBreak(records: seq<Json.Value>) {
    exists r :: r in records && Json.HoldsRawBreak(r)
  }

  lemma {:induction false} CleanLine(line: string, rest: string)
    requires !Json.HasBreak(line)
    ensures SplitLines(line + ("\n" + rest)) == [line] + SplitLines(rest)
  {
    var s := line + ("\n" + rest);
    BreakAfterCleanLine(line, rest);
    hide FirstBreak, Json.IsBreak;
    assert s[|line|] == '\n' && s[..|line|] == line && s[|line| + 1..] == rest;
  }

  lemma {:induction false} BreakAfterCleanLine(line: string, rest: string)
    requires !Json.HasBreak(line)
    ensures FirstBreak(line + ("\n" + rest)) == |line|
  {
    var s := line + ("\n" + rest);
    assert s[|line|] == '\n' && forall i :: 0 <= i < |line| ==> s[i] == line[i] && line[i] in line;
  }

  lemma {:induction false} CutLine(line: string, rest: string) returns (n: nat)
    requires Json.HasBreak(line)
    ensures n < |line| && Json.IsBreak(line[n])
    ensures SplitLines(line + rest) != [] && SplitLines(line + rest)[0] == line[..n]
  {
    var s := line + rest;
    var c :| c in line && Json.IsBreak(c);
    var k :| 0 <= k < |line| && line[k] == c;
    assert s[k] == c;
    n := FirstBreak(s);
    assert n <= k && s[n] == line[n] && s[..n] == line[..n];
  }

  /** What a record's printed line is. */
  lemma {:induction false} RecordLine(r: Json.Value)
    requires IsRecord(r)
    ensures IsRecord(Json.Canonical(r))
    ensures Json.Dumps(r) != "" && Json.Dumps(r)[0] == '{'
    ensures Json.HasBreak(Json.Dumps(r)) <==> Json.HoldsRawBreak(r)
    ensures Json.Loads(Json.Dumps(r)) == Some(Json.Canonical(r))
  {
    Json.CanonicalKeepsSense(r);
    Json.TextStarts(Json.Canonical(r));
    Json.TextBreaks(Json.Canonical(r));
    Json.DictsLoadBack(Json.Canonical(r));
  }

  /** Reading a written section back gives exactly its records, or fails: it
      fails exactly when some string in it holds U+0085, U+2028 or U+2029. */
  lemma {:induction false} SectionRoundTrip(records: seq<Json.Value>)
    requires forall r :: r in records ==> IsRecord(r)
    ensures HoldsRawBreak(records) ==> Rows(SectionText(records)) == None
    ensures !HoldsRawBreak(records) ==> Rows(SectionText(records)) == Some(Map(records, Json.Canonical))
  {
    if records != [] {
      var first, rest := records[0], records[1..];
      var line, after := Json.Dumps(first), SectionText(rest);
      assert records == [first] + rest;
      SectionRoundTrip(rest);
      RecordLine(first);
      assert HoldsRawBreak(records) <==> Json.HoldsRawBreak(first) || HoldsRawBreak(rest);
      hide Json.Dumps, Json.Loads, Json.Canonical, Json.HoldsRawBreak;
      if Json.HoldsRawBreak(first) {
        var n := CutLine(line, "\n" + after);
        NotARow(first, n);
        assert SplitLines(line + ("\n" + after))[0] == line[..n];
      } else {
        CleanLine(line, after);
        assert !IsWhite(line[0]);
        assert ([line] + SplitLines(after))[1..] == SplitLines(after);
      }
    }
  }

  lemma {:induction false} NotARow(r: Json.Value, n: nat)
    requires IsRecord(r) && n < |Json.Dumps(r)| && Json.IsBreak(Json.Dumps(r)[n])
    ensures !Blank(Json.Dumps(r)[..n]) && Json.Loads(Json.Dumps(r)[..n]) == None
  {
    RecordLine(r);
    Json.CutDictsDoNotParse(Json.Canonical(r), n);
    assert Json.Dumps(r)[..n][0] == '{' && !IsWhite('{');
  }

  /** Writing out what was read back writes the same bytes again. */
  lemma {:induction false} SecondExportIsByteIdentical(records: seq<Json.Value>)
    requires forall r :: r in records ==> IsRecord(r) && Json.DistinctThroughout(r)
    ensures SectionText(Map(records, Json.Canonical)) == SectionText(records)
  {
    if records != [] {
      assert records[0] in records && forall r :: r in records[1..] ==> r in records;
      Json.CanonicalTwice(records[0]);
      SecondExportIsByteIdentical(records[1..]);
      assert Map(records, Json.Canonical)[1..] == Map(records[1..], Json.Canonical);
    }
  }

  // --- Retention ---

  const SUFFIX := ".epimemer.tar.gz"

  function StripSlashes(name: string): string {
    if name != "" && name[|name| - 1] == '/' then StripSlashes(name[..|name| - 1]) else name
  }

  function AfterLastSlash(name: string): string {
    if name == "" then ""
    else if name[|name| - 1] == '/' then ""
    else AfterLastSlash(name[..|name| - 1]) + [name[|name| - 1]]
  }

  /** The last segment of a path. */
  function BaseName(name: string): string { AfterLastSlash(StripSlashes(name)) }

  /** Where a file lies does not matter, nor slashes after its name: the last
      segment decides. */
  lemma {:induction false} TheLastSegmentDecides(directory: string, base: string, slashes: string)
    requires base != "" && '/' !in base && (directory == "" || directory[|directory| - 1] == '/')
    requires forall c :: c in slashes ==> c == '/'
    ensures BaseName(directory + base + slashes) == base
  {
    NoMoreSlashes(directory + base, slashes);
    CutAtTheSlash(directory, base);
  }

  lemma {:induction false} NoMoreSlashes(name: string, slashes: string)
    requires name != "" && name[|name| - 1] != '/' && forall c :: c in slashes ==> c == '/'
    ensures StripSlashes(name + slashes) == name
  {
    if slashes == "" {
      assert name + slashes == name;
    } else {
      var s, fewer := name + slashes, slashes[..|slashes| - 1];
      assert s[|s| - 1] == slashes[|slashes| - 1] && s[..|s| - 1] == name + fewer;
      assert slashes[|slashes| - 1] in slashes && forall c :: c in fewer ==> c in slashes;
      NoMoreSlashes(name, fewer);
    }
  }

  lemma {:induction false} CutAtTheSlash(directory: string, base: string)
    requires '/' !in base && (directory == "" || directory[|directory| - 1] == '/')
    ensures AfterLastSlash(directory + base) == base
  {
    if base == "" {
      assert directory + base == directory;
    } else {
      var early, last := base[..|base| - 1], base[|base| - 1];
      assert base == early + [last] && last in base;
      assert directory + base == directory + early + [last];
      CutAtTheSlash(directory, early);
      OneMoreCharacter(directory + early, last);
    }
  }

  lemma {:induction false} OneMoreCharacter(s: string, c: char)
    ensures AfterLastSlash(s + [c]) == if c == '/' then "" else AfterLastSlash(s) + [c]
  {
    assert (s + [c])[..|s|] == s;
  }

  predicate Digit(c: char) { '0' <= c <= '9' }

  predicate IsDate(s: string) {
    |s| == 10 && s[4] == '-' && s[7] == '-' && forall i :: 0 <= i < 10 && i != 4 && i != 7 ==> Digit(s[i])
  }

  /** `$` also matches before one trailing newline. */
  function DropNewline(s: string): string {
    if s != "" && s[|s| - 1] == '\n' then s[..|s| - 1] else s
  }

  /** The date of a bundle `default_bundle_name` writes for `graph`. */
  function DateIn(graph: string, base: string): Option<string> {
    var s := DropNewline(base);
    var n := |graph| + 1;
    if |s| == n + 10 + |SUFFIX| && s[..n] == graph + "-" && s[n + 10..] == SUFFIX && IsDate(s[n..n + 10]) then
      Some(s[n..n + 10])
    else None
  }

  predicate IsDatedBundle(graph: string, base: string) { DateIn(graph, base).Some? }

  predicate NameLeq(a: string, b: string) { TextLeq(BaseName(a), BaseName(b)) }

  function BundlesOf(graph: string, names: seq<string>): set<string> {
    set n | n in names && IsDatedBundle(graph, BaseName(n))
  }

  function Matched(names: seq<string>, graph: string): seq<string> { Keep(names, BundlesOf(graph, names)) }

  /** `keep` below 1 is refused. */
  function StaleBundles(names: seq<string>, graph: string, keep: int): Option<seq<string>> {
    if keep < 1 then None
    else
      var oldestFirst := Sort(Matched(names, graph), NameLeq);
      Some(oldestFirst[..if |oldestFirst| > keep then |oldestFirst| - keep else 0])
  }

  /** `default_bundle_name` for the compressed form. */
  function DefaultBundleName(graph: string, t: Timestamps.Instant): string {
    graph + "-" + (Timestamps.Pad(t.year, 4) + "-" + Timestamps.Pad(t.month, 2) + "-" + Timestamps.Pad(t.day, 2)) + SUFFIX
  }

  lemma {:induction false} NameLeqIs()
    ensures forall x, y :: NameLeq(x, y) <==> TextLeq(BaseName(x), BaseName(y))
  {}

  lemma {:induction false} NameOrder()
    ensures TotalPreorder(NameLeq)
  {
    forall x: string, y: string ensures NameLeq(x, y) || NameLeq(y, x) {
      TextLeqTotal(BaseName(x), BaseName(y));
    }
    forall x: string, y: string, z: string | NameLeq(x, y) && NameLeq(y, z) ensures NameLeq(x, z) {
      TextLeqTransitive(BaseName(x), BaseName(y), BaseName(z));
    }
  }

  /** One newline after a name does not count, and two do. */
  lemma {:induction false} OneNewlineAtTheEnd(graph: string, base: string)
    requires base == "" || base[|base| - 1] != '\n'
    ensures IsDatedBundle(graph, base + "\n") <==> IsDatedBundle(graph, base)
    ensures !IsDatedBundle(graph, base + "\n" + "\n")
  {
    hide IsDate;
    var s := base + "\n";
    assert s[..|s| - 1] == base && (s + "\n")[..|s|] == s;
    assert SUFFIX[|SUFFIX| - 1] == 'z';
    assert s[|s| - 1] == '\n';
  }

  /** No file is a bundle of two graphs. */
  lemma {:induction false} OneGraphPerBundle(graph: string, other: string, base: string)
    requires IsDatedBundle(graph, base) && IsDatedBundle(other, base)
    ensures graph == other
  {
    hide IsDate;
    var s := DropNewline(base);
    assert |graph| == |other| && s[..|graph| + 1] == graph + "-" == other + "-";
    assert graph == (graph + "-")[..|graph|] && other == (other + "-")[..|graph|];
  }

  lemma {:induction false} DatedParts(graph: string, base: string) returns (tail: string)
    requires IsDatedBundle(graph, base)
    ensures |DateIn(graph, base).value| == 10 && base == (graph + "-") + (DateIn(graph, base).value + tail)
  {
    hide IsDate;
    var n := |graph| + 1;
    tail := base[n + 10..];
    assert base == base[..n] + (base[n..n + 10] + tail);
    assert base[..n] == DropNewline(base)[..n] && base[n..n + 10] == DropNewline(base)[n..n + 10];
  }

  /** Of one graph's bundles, an earlier date sorts first. */
  lemma {:induction false} OlderSortsFirst(graph: string, a: string, b: string)
    requires IsDatedBundle(graph, a) && IsDatedBundle(graph, b)
    requires DateIn(graph, a) != DateIn(graph, b)
    ensures TextLeq(a, b) <==> TextLeq(DateIn(graph, a).value, DateIn(graph, b).value)
  {
    var x := DatedParts(graph, a);
    var y := DatedParts(graph, b);
    hide DateIn, TextLeq;
    TextLeqOfHeads(graph + "-", graph + "-", DateIn(graph, a).value + x, DateIn(graph, b).value + y);
    TextLeqOfHeads(DateIn(graph, a).value, DateIn(graph, b).value, x, y);
  }

  /** The names bundles are given sort by the day they were written. */
  lemma {:induction false} DefaultNamesSortByDay(graph: string, s: Timestamps.Instant, t: Timestamps.Instant)
    requires Timestamps.Valid(s) && Timestamps.Valid(t)
    ensures IsDatedBundle(graph, DefaultBundleName(graph, s))
    ensures TextLeq(DefaultBundleName(graph, s), DefaultBundleName(graph, t)) <==> !Timestamps.DateLess(t, s)
  {
    hide Timestamps.Pad, TextLeq, DefaultBundleName, DateIn, DayText, Timestamps.IsoDate;
    DefaultNameIsDated(graph, s);
    var x, y := DayText(s), DayText(t);
    DefaultName(graph, s);
    DefaultName(graph, t);
    TextLeqOfHeads(graph + "-", graph + "-", x + SUFFIX, y + SUFFIX);
    SameTail(x, y, SUFFIX);
    SameTail(x, y, "T");
    SameTail("", "", "");
    DayTextOrder(s, t);
    Timestamps.DateTextOrder(s, t, "", "");
  }

  lemma {:induction false} DefaultName(graph: string, t: Timestamps.Instant)
    ensures DefaultBundleName(graph, t) == (graph + "-") + (DayText(t) + SUFFIX)
  {}

  lemma {:induction false} SameTail(x: string, y: string, tail: string)
    requires |x| == |y|
    ensures TextLeq(x + tail, y + tail) <==> TextLeq(x, y)
    ensures TextLeq(tail, tail)
  {
    TextLeqOfHeads(x, y, tail, tail);
    TextLeqTotal(tail, tail);
    TextLeqTotal(x, y);
  }

  lemma {:induction false} DayTextOrder(s: Timestamps.Instant, t: Timestamps.Instant)
    ensures DayText(s) + "T" == Timestamps.IsoDate(s, "")
    ensures DayText(t) + "T" == Timestamps.IsoDate(t, "")
  {}

  function DayText(t: Timestamps.Instant): (s: string)
    ensures |s| == 10
  {
    Timestamps.Pad(t.year, 4) + "-" + Timestamps.Pad(t.month, 2) + "-" + Timestamps.Pad(t.day, 2)
  }

  lemma {:induction false} PadIsDigits(n: nat, width: nat)
    ensures forall i :: 0 <= i < width ==> Digit(Timestamps.Pad(n, width)[i])
  {
    if width > 0 {
      PadIsDigits(n / 10, width - 1);
    }
  }

  lemma {:induction false} DefaultNameIsDated(graph: string, t: Timestamps.Instant)
    ensures DateIn(graph, DefaultBundleName(graph, t)) == Some(DayText(t))
  {
    var name, n := DefaultBundleName(graph, t), |graph| + 1;
    PadIsDigits(t.year, 4);
    PadIsDigits(t.month, 2);
    PadIsDigits(t.day, 2);
    hide Timestamps.Pad;
    assert IsDate(DayText(t));
    assert name == graph + "-" + DayText(t) + SUFFIX;
    assert name[|name| - 1] == SUFFIX[|SUFFIX| - 1] == 'z';
    assert name[..n] == graph + "-" && name[n..n + 10] == DayText(t) && name[n + 10..] == SUFFIX;
  }

  lemma {:induction false} DigitsAreAPad(s: string) returns (n: nat)
    requires forall i :: 0 <= i < |s| ==> Digit(s[i])
    ensures n < Timestamps.Pow10(|s|) && s == Timestamps.Pad(n, |s|)
  {
    if s == "" {
      n := 0;
    } else {
      var early, last := s[..|s| - 1], s[|s| - 1];
      var m := DigitsAreAPad(early);
      var d := last as int - '0' as int;
      n := 10 * m + d;
      assert n / 10 == m && n % 10 == d && Timestamps.DigitChar(d) == last;
      assert s == early + [last];
    }
  }

  function DatedName(graph: string, y: nat, m: nat, d: nat): string {
    graph + "-" + (Timestamps.Pad(y, 4) + "-" + Timestamps.Pad(m, 2) + "-" + Timestamps.Pad(d, 2)) + SUFFIX
  }

  /** A dated bundle is the graph's name, ten characters that read as a date
      whether or not there is such a day, and the suffix, exactly; one newline
      after it does not count. */
  lemma {:induction false} DatedBundlesAre(graph: string, base: string)
    ensures IsDatedBundle(graph, base) <==>
              exists y: nat, m: nat, d: nat :: y < 10000 && m < 100 && d < 100 && DropNewline(base) == DatedName(graph, y, m, d)
  {
    hide DropNewline, Timestamps.Pad;
    var s := DropNewline(base);
    if IsDatedBundle(graph, base) {
      var y, m, d := ADateIsThreeNumbers(graph, s);
    }
    if y: nat, m: nat, d: nat :| y < 10000 && m < 100 && d < 100 && s == DatedName(graph, y, m, d) {
      ThreeNumbersAreADate(graph, y, m, d);
    }
  }

  lemma {:induction false} ADateIsThreeNumbers(graph: string, s: string) returns (y: nat, m: nat, d: nat)
    requires var n := |graph| + 1;
             |s| == n + 10 + |SUFFIX| && s[..n] == graph + "-" && s[n + 10..] == SUFFIX && IsDate(s[n..n + 10])
    ensures y < 10000 && m < 100 && d < 100 && s == DatedName(graph, y, m, d)
  {
    hide *;
    var n := |graph| + 1;
    y, m, d := ADateIsDigits(s[n..n + 10]);
    assert s == s[..n] + s[n..n + 10] + s[n + 10..];
    DatedNameIs(graph, y, m, d);
  }

  lemma {:induction false} DatedNameIs(graph: string, y: nat, m: nat, d: nat)
    ensures DatedName(graph, y, m, d)
            == (graph + "-") + (Timestamps.Pad(y, 4) + "-" + Timestamps.Pad(m, 2) + "-" + Timestamps.Pad(d, 2)) + SUFFIX
  {
    hide Timestamps.Pad;
  }

  lemma {:induction false} ADateIsDigits(date: string) returns (y: nat, m: nat, d: nat)
    requires IsDate(date)
    ensures y <= 9999 && m <= 99 && d <= 99
    ensures date == Timestamps.Pad(y, 4) + "-" + Timestamps.Pad(m, 2) + "-" + Timestamps.Pad(d, 2)
  {
    hide Timestamps.Pad, Timestamps.Pow10;
    y := DigitsAreAPad(date[..4]);
    m := DigitsAreAPad(date[5..7]);
    d := DigitsAreAPad(date[8..]);
    Powers();
    assert date == date[..4] + "-" + date[5..7] + "-" + date[8..];
  }

  lemma {:induction false} Powers()
    ensures Timestamps.Pow10(4) == 10000 && Timestamps.Pow10(2) == 100
  {}

  lemma {:induction false} ThreeNumbersAreADate(graph: string, y: nat, m: nat, d: nat)
    ensures var s, n := DatedName(graph, y, m, d), |graph| + 1;
            |s| == n + 10 + |SUFFIX| && s[..n] == graph + "-" && s[n + 10..] == SUFFIX && IsDate(s[n..n + 10])
  {
    PadIsDigits(y, 4);
    PadIsDigits(m, 2);
    PadIsDigits(d, 2);
    hide Timestamps.Pad;
    var s, n := DatedName(graph, y, m, d), |graph| + 1;
    var date := Timestamps.Pad(y, 4) + "-" + Timestamps.Pad(m, 2) + "-" + Timestamps.Pad(d, 2);
    assert IsDate(date);
    assert s == graph + "-" + date + SUFFIX && s[n..n + 10] == date;
  }

  // --- What retention leaves ---

  function Elements(names: seq<string>): set<string> { set n | n in names }

  function Remaining(names: seq<string>, gone: seq<string>): seq<string> { Keep(names,
          Elements(names) - Elements(gone)) }

  ghost predicate Distinct(names: seq<string>) {
    forall x :: multiset(names)[x] <= 1
  }

  lemma {:induction false} MembersOfKept(names: seq<string>, chosen: set<string>)
    ensures forall n :: n in Keep(names, chosen) <==> n in names && n in chosen
    ensures multiset(Keep(names, chosen)) <= multiset(names)
    ensures Distinct(names) ==> Distinct(Keep(names, chosen))
  {
    var kept := Keep(names, chosen);
    KeepBag(names, chosen);
    forall n ensures n in kept <==> n in names && n in chosen {
      assert n in kept <==> n in multiset(kept);
      assert n in names <==> n in multiset(names);
    }
  }

  lemma {:induction false} MatchedAfterRemoval(names: seq<string>, gone: seq<string>, graph: string)
    ensures Matched(Remaining(names, gone), graph) == Remaining(Matched(names, graph), gone)
    ensures Distinct(names) ==> Distinct(Matched(names, graph))
  {
    hide IsDatedBundle, BaseName, Keep, Distinct;
    var left, bundles := Elements(names) - Elements(gone), BundlesOf(graph, names);
    MembersOfKept(names, left);
    MembersOfKept(names, bundles);
    var remaining, matched := Remaining(names, gone), Matched(names, graph);
    KeepBoth(names, left, BundlesOf(graph, remaining), left * bundles);
    KeepBoth(names, bundles, Elements(matched) - Elements(gone), left * bundles);
  }

  /** Taking away some of a distinct list leaves just the rest. */
  lemma {:induction false} RemainingIsTheRest(names: seq<string>, gone: seq<string>)
    requires Distinct(names) && multiset(gone) <= multiset(names)
    ensures multiset(names) == multiset(Remaining(names, gone)) + multiset(gone)
    ensures |Remaining(names, gone)| == |names| - |gone|
  {
    var left := Remaining(names, gone);
    KeepBag(names, Elements(names) - Elements(gone));
    forall x ensures multiset(names)[x] == multiset(left)[x] + multiset(gone)[x] {
      assert x in gone <==> x in multiset(gone);
      assert x in names <==> x in multiset(names);
    }
    assert multiset(names) == multiset(left) + multiset(gone);
    assert |multiset(names)| == |multiset(left)| + |multiset(gone)|;
  }

  /** Retention takes exactly the oldest bundles beyond `keep`, leaves
      `min(keep, total)` of them, and run again takes nothing. */
  lemma {:induction false} RetentionKeepsTheNewest(names: seq<string>, graph: string, keep: int)
    requires keep >= 1 && Distinct(names)
    ensures var matched, stale := Matched(names, graph), StaleBundles(names, graph, keep).value;
            var left := Remaining(names, stale);
            && multiset(stale) <= multiset(matched)
            && |Matched(left, graph)| == (if |matched| > keep then keep else |matched|)
            && (forall x, y :: x in stale && y in Matched(left, graph) ==> TextLeq(BaseName(x), BaseName(y)))
            && StaleBundles(left, graph, keep) == Some([])
  {
    hide *;
    var kept := NewestKept(names, graph, keep);
    var matched, stale := Matched(names, graph), StaleBundles(names, graph, keep).value;
    MatchedAfterRemoval(names, stale, graph);
    NameLeqIs();
    SplitSorted(matched, stale, kept);
    NothingStale(Remaining(names, stale), graph, keep);
  }

  /** The stale bundles and the kept ones make up the sorted list. */
  lemma {:induction false} NewestKept(names: seq<string>, graph: string, keep: int) returns (kept: seq<string>)
    requires keep >= 1
    ensures StaleBundles(names, graph, keep).Some?
    ensures Sort(Matched(names, graph), NameLeq) == StaleBundles(names, graph, keep).value + kept
    ensures |kept| == if |Matched(names, graph)| > keep then keep else |Matched(names, graph)|
  {
    hide Matched, NameLeq, Sort;
    NameOrder();
    SortIsSorted(Matched(names, graph), NameLeq);
    kept := Sort(Matched(names, graph), NameLeq)[|StaleBundles(names, graph, keep).value|..];
  }

  lemma {:induction false} NothingStale(names: seq<string>, graph: string, keep: int)
    requires keep >= 1 && |Matched(names, graph)| <= keep
    ensures StaleBundles(names, graph, keep) == Some([])
  {
    hide Matched, NameLeq;
    NameOrder();
    SortIsSorted(Matched(names, graph), NameLeq);
  }

  lemma {:induction false} SplitSorted(matched: seq<string>, stale: seq<string>, kept: seq<string>)
    requires Distinct(matched) && Sort(matched, NameLeq) == stale + kept
    ensures multiset(stale) <= multiset(matched)
    ensures |Remaining(matched, stale)| == |kept|
    ensures forall x, y :: x in stale && y in Remaining(matched, stale) ==> NameLeq(x, y)
  {
    hide NameLeq, Remaining, Sort;
    NameOrder();
    SortIsSorted(matched, NameLeq);
    var left := Remaining(matched, stale);
    assert multiset(stale + kept) == multiset(stale) + multiset(kept);
    RemainingIsTheRest(matched, stale);
    assert multiset(left) == multiset(matched) - multiset(stale) == multiset(kept);
    SameEntries(left, kept);
    SortedHalves(stale, kept);
  }

  lemma {:induction false} SortedHalves(a: seq<string>, b: seq<string>)
    requires SortedBy(a + b, NameLeq)
    ensures forall x, y :: x in a && y in b ==> NameLeq(x, y)
  {
    hide NameLeq;
    forall x, y | x in a && y in b ensures NameLeq(x, y) {
      var i :| 0 <= i < |a| && a[i] == x;
      var j :| 0 <= j < |b| && b[j] == y;
      assert (a + b)[i] == x && (a + b)[|a| + j] == y;
    }
  }

  datatype PruneReport = PruneReport(kept: int, removed: seq<string>, failed: set<string>)

  /** Somewhere bundles are written: None before anything was. `locked` are the
      files the store will not delete. */
  class Destination {
    var files: Option<seq<string>>
    const locked: set<string>

    constructor (files: Option<seq<string>>, locked: set<string>)
      ensures this.files == files && this.locked == locked
    {
      this.files := files;
      this.locked := locked;
    }

    method Remove(name: string) returns (removed: bool)
      requires files.Some?
      modifies this
      ensures removed <==> name !in locked
      ensures files == if removed then Some(Remaining(old(files.value), [name])) else old(files)
    {
      removed := name !in locked;
      if removed {
        files := Some(Remaining(files.value, [name]));
      }
    }

    /** Deletes every stale bundle it can. What is left is what was there less
        what was removed, and `kept` counts the graph's bundles left. */
    method PruneBundles(graph: string, keep: int) returns (r: Option<PruneReport>)
      requires files.Some? ==> Distinct(files.value)
      modifies this
      ensures old(files).None? ==> r == Some(PruneReport(0, [], {})) && files == old(files)
      ensures old(files).Some? && keep < 1 ==> r == None && files == old(files)
      ensures old(files).Some? && keep >= 1 ==>
                && var stale := StaleBundles(old(files.value), graph, keep).value;
                var taken := Deletable(stale, locked);
                && files == Some(Remaining(old(files.value), taken))
                && r == Some(PruneReport(|Matched(files.value, graph)|, Map(taken, AfterLastSlash), Failures(stale, locked)))
                && (forall x :: x in files.value <==> x in old(files.value) && (x in stale ==> x in locked))
                && (forall n :: n in r.value.removed <==> exists x :: x in stale && x !in locked && n == AfterLastSlash(x))
                && (forall n :: n in r.value.failed <==> exists x :: x in stale && x in locked && n == AfterLastSlash(x))
    {
      hide Matched, Sort, Remaining, Deletable, Failures, AfterLastSlash;
      if files.None? {
        return Some(PruneReport(0, [], {}));
      }
      if keep < 1 {
        return None;
      }
      var present := files.value;
      var total := |Matched(present, graph)|;
      var stale := StaleBundles(present, graph, keep).value;
      hide StaleBundles;
      var removed, failed := [], {};
      NothingRemoved(present, stale, locked);
      for k := 0 to |stale|
        invariant files == Some(Remaining(present, Deletable(stale[..k], locked)))
        invariant removed == Map(Deletable(stale[..k], locked), AfterLastSlash)
        invariant failed == Failures(stale[..k], locked)
      {
        OneMoreStale(present, stale, k, locked);
        var ok := Remove(stale[k]);
        if ok {
          removed := removed + [AfterLastSlash(stale[k])];
        } else {
          failed := failed + {AfterLastSlash(stale[k])};
        }
      }
      assert stale[..|stale|] == stale;
      WhatWent(present, stale, locked);
      TakenAreMatched(present, graph, keep, locked);
      r := Some(PruneReport(total - |removed|, removed, failed));
    }
  }

  lemma {:induction false} WhatWent(present: seq<string>, stale: seq<string>, locked: set<string>)
    ensures forall x :: x in Remaining(present, Deletable(stale, locked)) <==> x in present && (x in stale ==> x in locked)
    ensures forall n :: n in Map(Deletable(stale, locked), AfterLastSlash)
                        <==> exists x :: x in stale && x !in locked && n == AfterLastSlash(x)
    ensures forall n :: n in Failures(stale, locked) <==> exists x :: x in stale && x in locked && n == AfterLastSlash(x)
  {
    hide AfterLastSlash;
    var taken := Deletable(stale, locked);
    MembersOfKept(stale, Elements(stale) - locked);
    MembersOfKept(present, Elements(present) - Elements(taken));
    hide Keep;
    assert forall x :: x in taken <==> x in stale && x !in locked;
    MappedAre(taken);
  }

  lemma {:induction false} MappedAre(names: seq<string>)
    ensures forall n :: n in Map(names, AfterLastSlash) <==> exists x :: x in names && n == AfterLastSlash(x)
  {
    hide AfterLastSlash;
    if names != [] {
      assert names == [names[0]] + names[1..];
      MappedAre(names[1..]);
    }
  }

  lemma {:induction false} NothingRemoved(present: seq<string>, stale: seq<string>, locked: set<string>)
    ensures Deletable(stale[..0], locked) == [] && Failures(stale[..0], locked) == {}
    ensures Remaining(present, []) == present
  {
    RemovingOneMore(present, [], "");
  }

  function Deletable(names: seq<string>, locked: set<string>): seq<string> { Keep(names, Elements(names) - locked) }

  lemma {:induction false} RemovingOneMore(names: seq<string>, gone: seq<string>, name: string)
    ensures Remaining(Remaining(names, gone), [name]) == Remaining(names, gone + [name])
    ensures Remaining(names, []) == names
  {
    hide Keep;
    var left := Elements(names) - Elements(gone);
    MembersOfKept(names, left);
    KeepBoth(names, left, Elements(Remaining(names, gone)) - Elements([name]), Elements(names) - Elements(gone + [name]));
    KeepAll(names, Elements(names) - Elements([]));
  }

  lemma {:induction false} TakenAreMatched(names: seq<string>, graph: string, keep: int, locked: set<string>)
    requires keep >= 1 && Distinct(names)
    ensures var taken := Deletable(StaleBundles(names, graph, keep).value, locked);
            |Matched(Remaining(names, taken), graph)| == |Matched(names, graph)| - |taken|
  {
    hide Matched, Remaining, Keep, Sort;
    var stale := StaleBundles(names, graph, keep).value;
    var taken := Deletable(stale, locked);
    RetentionKeepsTheNewest(names, graph, keep);
    MembersOfKept(stale, Elements(stale) - locked);
    MatchedAfterRemoval(names, taken, graph);
    RemainingIsTheRest(Matched(names, graph), taken);
  }

  lemma {:induction false} DeletableAppend(names: seq<string>, name: string, locked: set<string>)
    ensures Deletable(names + [name], locked) == Deletable(names, locked) + (if name in locked then [] else [name])
  {
    var before, after := Elements(names) - locked, Elements(names + [name]) - locked;
    KeepAppend(names, [name], after);
    KeepAgree(names, before, after);
    assert name in [name];
  }

  /** What deleting one more of the stale bundles does, deletable or not. */
  lemma {:induction false} OneMoreStale(present: seq<string>, stale: seq<string>, k: nat, locked: set<string>)
    requires k < |stale|
    ensures var before, after, taken := Deletable(stale[..k], locked), Deletable(stale[..k + 1], locked),
                                        if stale[k] in locked then [] else [stale[k]];
            && Map(after, AfterLastSlash) == Map(before, AfterLastSlash) + Map(taken, AfterLastSlash)
            && Remaining(present, after)
               == (if stale[k] in locked then Remaining(present, before) else Remaining(Remaining(present, before), [stale[k]]))
            && Failures(stale[..k + 1], locked) == Failures(stale[..k], locked) + (if stale[k] in locked then {AfterLastSlash(stale[k])} else {})
  {
    hide Remaining, Deletable, AfterLastSlash;
    assert stale[..k + 1] == stale[..k] + [stale[k]];
    DeletableAppend(stale[..k], stale[k], locked);
    RemovingOneMore(present, Deletable(stale[..k], locked), stale[k]);
    assert Deletable(stale[..k], locked) + [] == Deletable(stale[..k], locked);
  }

  function Failures(stale: seq<string>, locked: set<string>): set<string> {
    set n | n in stale && n in locked :: AfterLastSlash(n)
  }
}
