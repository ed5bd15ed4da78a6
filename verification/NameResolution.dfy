/** Resolving a name to the node that answers to it
    (epimemer/pipelines/name_resolution.py). */
module NameResolution {
  import opened Options
  import opened Characters

  type Id = string

  datatype Topic = Topic(id: Id, content: string, fromTag: bool)

  // --- Names ---

  predicate IsSeparator(c: char) { IsWhite(c) || c == '_' || c == '-' }

  function Squash(s: string): string {
    if s == "" then "" else if IsSeparator(s[0]) then Squash(s[1..]) else [s[0]] + Squash(s[1..])
  }

  function TagKey(name: string): string { Squash(Lower(Strip(name))) }

  predicate TagShaped(name: string) {
    var stripped := Strip(name);
    stripped != "" && forall i :: 0 <= i < |stripped| ==> !IsWhite(stripped[i])
  }

  /** `one_name` of two names, as every caller asks it. */
  predicate OneName(a: string, b: string) {
    TagShaped(a) && TagShaped(b) && TagKey(a) == TagKey(b)
  }

  ghost predicate AllWhite(s: string) { forall i :: 0 <= i < |s| ==> IsWhite(s[i]) }

  ghost predicate NoWhite(s: string) { forall i :: 0 <= i < |s| ==> !IsWhite(s[i]) }

  /** `name` is one word with whitespace around it at most. */
  ghost predicate OneWord(name: string) {
    exists a, w, b :: name == a + w + b && AllWhite(a) && AllWhite(b) && NoWhite(w) && w != ""
  }

  lemma {:induction false} StripLeftParts(s: string) returns (a: string)
    ensures s == a + StripLeft(s) && AllWhite(a)
  {
    hide IsWhite;
    if s != "" && IsWhite(s[0]) {
      a := StripLeftParts(s[1..]);
      a := [s[0]] + a;
      assert s == [s[0]] + s[1..];
    } else {
      a := "";
    }
  }

  lemma {:induction false} StripRightParts(s: string) returns (b: string)
    ensures s == StripRight(s) + b && AllWhite(b)
  {
    hide IsWhite;
    if s != "" && IsWhite(s[|s| - 1]) {
      b := StripRightParts(s[..|s| - 1]);
      b := b + [s[|s| - 1]];
      assert s == s[..|s| - 1] + [s[|s| - 1]];
    } else {
      b := "";
    }
  }

  lemma {:induction false} StripLeftOf(a: string, w: string)
    requires AllWhite(a) && w != "" && !IsWhite(w[0])
    ensures StripLeft(a + w) == w
  {
    if a != "" {
      assert (a + w)[0] == a[0] && (a + w)[1..] == a[1..] + w;
      StripLeftOf(a[1..], w);
    } else {
      assert a + w == w;
    }
  }

  lemma {:induction false} StripRightOf(w: string, b: string)
    requires AllWhite(b) && w != "" && !IsWhite(w[|w| - 1])
    ensures StripRight(w + b) == w
  {
    if b != "" {
      var s := w + b;
      assert s[|s| - 1] == b[|b| - 1] && s[..|s| - 1] == w + b[..|b| - 1];
      StripRightOf(w, b[..|b| - 1]);
    } else {
      assert w + b == w;
    }
  }

  /** A name is tag-shaped exactly when it is one word. */
  lemma {:induction false} TagShapedIffOneWord(name: string)
    ensures TagShaped(name) <==> OneWord(name)
  {
    if TagShaped(name) {
      var a := StripLeftParts(name);
      var b := StripRightParts(StripLeft(name));
      assert name == a + Strip(name) + b;
      assert NoWhite(Strip(name));
    }
    if OneWord(name) {
      var a, w, b :| name == a + w + b && AllWhite(a) && AllWhite(b) && NoWhite(w) && w != "";
      assert a + (w + b) == name && (w + b)[0] == w[0];
      StripLeftOf(a, w + b);
      StripRightOf(w, b);
    }
  }

  /** The two names differ only in case and in separators. */
  ghost predicate SameSpelling(a: string, b: string) {
    Lower(Squash(a)) == Lower(Squash(b))
  }

  lemma {:induction false} SquashAppend(a: string, b: string)
    ensures Squash(a + b) == Squash(a) + Squash(b)
  {
    hide IsSeparator;
    if a == "" {
      assert a + b == b;
    } else {
      var rest := a[1..] + b;
      assert (a + b)[0] == a[0] && (a + b)[1..] == rest;
      SquashAppend(a[1..], b);
      if !IsSeparator(a[0]) {
        assert Squash(a + b) == [a[0]] + Squash(rest);
        assert [a[0]] + (Squash(a[1..]) + Squash(b)) == [a[0]] + Squash(a[1..]) + Squash(b);
      }
    }
  }

  lemma {:induction false} StrippedAway(s: string)
    ensures Squash(StripLeft(s)) == Squash(s)
    ensures Squash(StripRight(s)) == Squash(s)
    decreases |s|
  {
    if s != "" {
      StrippedAway(s[1..]);
      StrippedAway(s[..|s| - 1]);
      if IsWhite(s[|s| - 1]) {
        SquashAppend(s[..|s| - 1], [s[|s| - 1]]);
        assert s == s[..|s| - 1] + [s[|s| - 1]];
      }
    }
  }

  lemma {:induction false} SquashLower(s: string)
    ensures Squash(Lower(s)) == Lower(Squash(s))
  {
    if s != "" {
      SquashLower(s[1..]);
      assert IsSeparator(LowerChar(s[0])) == IsSeparator(s[0]);
      hide IsSeparator, LowerChar;
      assert Lower(s)[1..] == Lower(s[1..]);
      assert Lower([s[0]] + Squash(s[1..])) == [LowerChar(s[0])] + Lower(Squash(s[1..]));
    }
  }

  /** Two names have one key exactly when they are one name written two ways:
      stripping first changes nothing, and a key is its own key. */
  lemma {:induction false} KeyIsSpelling(a: string, b: string)
    ensures TagKey(a) == TagKey(b) <==> SameSpelling(a, b)
    ensures TagKey(TagKey(a)) == TagKey(a)
  {
    KeyIsLowered(a);
    KeyIsLowered(b);
    KeyIsLowered(TagKey(a));
    SquashLower(a);
    NoSeparatorsLeft(Lower(a));
    assert Lower(Lower(Squash(a))) == Lower(Squash(a));
  }

  lemma {:induction false} KeyIsLowered(a: string)
    ensures TagKey(a) == Lower(Squash(a))
  {
    SquashLower(Strip(a));
    StrippedAway(a);
    StrippedAway(StripLeft(a));
  }

  lemma {:induction false} NoSeparatorsLeft(s: string)
    ensures Squash(Squash(s)) == Squash(s)
  {
    hide IsWhite;
    if s != "" {
      NoSeparatorsLeft(s[1..]);
      assert ([s[0]] + Squash(s[1..]))[1..] == Squash(s[1..]);
    }
  }

  // --- Which topic answers ---

  /** The first tag of the wanted key. */
  function TagByKey(name: string, topics: seq<Topic>): Option<Topic> {
    if topics == [] then None
    else if topics[0].fromTag && TagKey(topics[0].content) == TagKey(name) then Some(topics[0])
    else TagByKey(name, topics[1..])
  }

  function FirstOneName(name: string, topics: seq<Topic>): Option<Topic> {
    if topics == [] then None
    else if OneName(name, topics[0].content) then Some(topics[0])
    else FirstOneName(name, topics[1..])
  }

  function TopicByName(name: string, topics: seq<Topic>): Option<Topic> {
    var tag := TagByKey(name, topics);
    if tag.Some? then tag else FirstOneName(name, topics)
  }

  ghost predicate HasTag(name: string, topics: seq<Topic>) {
    exists t :: t in topics && t.fromTag && TagKey(t.content) == TagKey(name)
  }

  ghost predicate HasOneName(name: string, topics: seq<Topic>) {
    exists t :: t in topics && OneName(name, t.content)
  }

  lemma {:induction false} FirstAnswers(name: string, topics: seq<Topic>, more: seq<Topic>)
    ensures FirstOneName(name, topics).Some? <==> HasOneName(name, topics)
    ensures FirstOneName(name, topics + more)
            == if HasOneName(name, topics) then FirstOneName(name, topics) else FirstOneName(name, more)
  {
    hide TagKey, OneName;
    if topics == [] {
      assert topics + more == more;
    } else {
      FirstAnswers(name, topics[1..], more);
      assert topics == [topics[0]] + topics[1..];
      assert (topics + more)[1..] == topics[1..] + more;
    }
  }

  lemma {:induction false} FirstTagAnswers(name: string, topics: seq<Topic>, more: seq<Topic>)
    ensures TagByKey(name, topics).Some? <==> HasTag(name, topics)
    ensures TagByKey(name, topics).Some? ==> TagByKey(name, topics).value in topics && TagByKey(name, topics).value.fromTag
    ensures TagByKey(name, topics + more) == if HasTag(name, topics) then TagByKey(name, topics) else TagByKey(name, more)
  {
    hide TagKey, OneName;
    if topics == [] {
      assert topics + more == more;
    } else {
      FirstTagAnswers(name, topics[1..], more);
      assert topics == [topics[0]] + topics[1..];
      assert (topics + more)[1..] == topics[1..] + more;
    }
  }

  /** Later topics never move a name a tag answers to; they move a statement
      topic's name exactly when one of them is a tag of its key. */
  lemma {:induction false} LaterTopicsMoveANameIff(name: string, topics: seq<Topic>, more: seq<Topic>)
    requires TopicByName(name, topics).Some?
    ensures HasTag(name, topics) ==> TopicByName(name, topics + more) == TopicByName(name, topics)
    ensures !HasTag(name, topics) && !HasTag(name, more) ==> TopicByName(name, topics + more) == TopicByName(name, topics)
    ensures !HasTag(name, topics) && HasTag(name, more) ==>
              && TopicByName(name, topics + more) == TagByKey(name, more)
              && TagByKey(name, more).Some? && TagByKey(name, more).value !in topics
  {
    FirstTagAnswers(name, topics, more);
    FirstTagAnswers(name, more, []);
    FirstAnswers(name, topics, more);
    hide TagByKey, FirstOneName;
    if !HasTag(name, topics) && HasTag(name, more) {
      TagAnswers(name, more);
    }
  }

  lemma {:induction false} TagAnswers(name: string, topics: seq<Topic>)
    requires HasTag(name, topics)
    ensures TagByKey(name, topics).Some?
    ensures var t := TagByKey(name, topics).value; t.fromTag && TagKey(t.content) == TagKey(name)
  {
    hide TagKey;
    if topics != [] && !(topics[0].fromTag && TagKey(topics[0].content) == TagKey(name)) {
      assert topics == [topics[0]] + topics[1..];
      TagAnswers(name, topics[1..]);
    }
  }

  /** Which topic answers does not depend on how the name was spelled, beyond
      its being one word or not. */
  lemma {:induction false} SpellingDoesNotMatter(a: string, b: string, topics: seq<Topic>)
    requires SameSpelling(a, b) && TagShaped(a) == TagShaped(b)
    ensures TopicByName(a, topics) == TopicByName(b, topics)
  {
    KeyIsSpelling(a, b);
    if topics != [] {
      hide TagKey, TagShaped, SameSpelling;
      SpellingDoesNotMatterAt(a, b, topics);
    }
  }

  lemma {:induction false} SpellingDoesNotMatterAt(a: string, b: string, topics: seq<Topic>)
    requires TagKey(a) == TagKey(b) && TagShaped(a) == TagShaped(b)
    ensures TagByKey(a, topics) == TagByKey(b, topics) && FirstOneName(a, topics) == FirstOneName(b, topics)
  {
    hide TagKey, TagShaped;
    if topics != [] {
      SpellingDoesNotMatterAt(a, b, topics[1..]);
    }
  }

  const SLUG := Topic("1", "a-b", false)
  const SPACED := Topic("2", "A b", true)

  /** `one_name` is narrower than one key: a tag with a space in it takes a slug
      from the statement topic written with that very slug. */
  lemma {:induction false} ASpacedTagDisplacesASlug()
    ensures TopicByName("a-b", [SLUG]) == Some(SLUG)
    ensures TopicByName("a-b", [SLUG, SPACED]) == Some(SPACED)
    ensures !OneName("a-b", SPACED.content)
  {
    ThreeCharacters('a', '-', 'b');
    ThreeCharacters('A', ' ', 'b');
    hide TagKey, TagShaped;
    assert [SLUG, SPACED][1..] == [SPACED];
    assert TagByKey("a-b", [SLUG]) == None;
    assert TagByKey("a-b", [SPACED]) == Some(SPACED);
  }

  lemma {:induction false} ThreeCharacters(x: char, y: char, z: char)
    requires !IsSeparator(x) && IsSeparator(y) && !IsSeparator(z)
    ensures TagKey([x, y, z]) == [LowerChar(x), LowerChar(z)]
    ensures TagShaped([x, y, z]) <==> !IsWhite(y)
  {
    var s := [x, y, z];
    assert StripLeft(s) == s && StripRight(s) == s;
    assert s[1..] == [y, z] && [y, z][1..] == [z] && [z][1..] == [];
    assert Squash([z]) == [z] && Squash([y, z]) == [z];
    KeyIsLowered(s);
    assert s[1] == y;
  }

  /** What a name may be written with or without: whitespace, underscores and
      hyphens, anywhere in it, and nothing else. */
  lemma {:induction false} WhatSeparates(c: char, a: string, b: string)
    ensures IsWhite(c) || c == '_' || c == '-' ==> TagKey(a + [c] + b) == TagKey(a + b)
    ensures TagKey("x" + [c] + "y") == TagKey("xy") ==> IsWhite(c) || c == '_' || c == '-'
  {
    KeyIsSpelling(a + [c] + b, a + b);
    KeyIsSpelling("x" + [c] + "y", "x" + "y");
    assert "x" + "y" == "xy";
    hide TagKey;
    SquashAppend(a + [c], b);
    SquashAppend(a, [c]);
    SquashAppend(a, b);
    SquashAppend("x" + [c], "y");
    SquashAppend("x", [c]);
    SquashAppend("x", "y");
    assert [c][1..] == [];
    assert Squash([c]) == if IsSeparator(c) then "" else [c];
    assert Squash(a) + "" == Squash(a);
    assert |Squash("x")| == 1 && |Squash("y")| == 1 by {
      assert "x"[1..] == "" && "y"[1..] == "";
    }
  }

  /** Two names are one exactly when both are one word and they differ only in case
      and in separators. */
  lemma {:induction false} OneNameIff(a: string, b: string)
    ensures OneName(a, b) <==> OneWord(a) && OneWord(b) && SameSpelling(a, b)
  {
    TagShapedIffOneWord(a);
    TagShapedIffOneWord(b);
    KeyIsSpelling(a, b);
    hide TagShaped, TagKey, OneWord, SameSpelling;
  }

  // --- Where a retired name went ---

  datatype Status = Active | Historical | Corrected | Merged | Archived

  /** The stored nodes and the two kinds of edge a retirement writes, in the
      order the backend lists them. */
  datatype Lineage = Lineage(status: map<Id, Status>, mergedInto: map<Id, seq<Id>>, supersededBy: map<Id, seq<Id>>)

  const MAX_SUCCESSOR_HOPS: nat := 16

  function Listed(edges: map<Id, seq<Id>>, id: Id): seq<Id> { if id in edges then edges[id] else [] }

  function Successors(g: Lineage, id: Id): seq<Id> { Listed(g.mergedInto, id) + Listed(g.supersededBy, id) }

  function FirstUnseen(ids: seq<Id>, seen: set<Id>): Option<Id> {
    if ids == [] then None else if ids[0] !in seen then Some(ids[0]) else FirstUnseen(ids[1..], seen)
  }

  /** Where a walk that has `hops` left goes on to from `id`. */
  function Follow(g: Lineage, id: Id, seen: set<Id>, hops: nat): Id
    requires id in g.status
    decreases hops
  {
    var next := FirstUnseen(Successors(g, id), seen);
    if hops == 0 || g.status[id].Active? || next.None? || next.value !in g.status then id
    else Follow(g, next.value, seen + {next.value}, hops - 1)
  }

  /** `b` is `n` successor edges on from `a`. */
  ghost predicate Leads(g: Lineage, a: Id, b: Id, n: nat)
    decreases n
  {
    if n == 0 then a == b else exists c :: c in Successors(g, a) && c in g.status && Leads(g, c, b, n - 1)
  }

  lemma {:induction false} FirstUnseenIsThere(ids: seq<Id>, seen: set<Id>)
    ensures FirstUnseen(ids, seen).Some? <==> exists x :: x in ids && x !in seen
    ensures FirstUnseen(ids, seen).Some? ==> FirstUnseen(ids, seen).value in ids && FirstUnseen(ids, seen).value !in seen
  {
    if ids != [] {
      FirstUnseenIsThere(ids[1..], seen);
      assert ids == [ids[0]] + ids[1..];
    }
  }

  lemma {:induction false} FollowLeads(g: Lineage, id: Id, seen: set<Id>, hops: nat) returns (n: nat)
    requires id in g.status
    ensures n <= hops && Follow(g, id, seen, hops) in g.status && Leads(g, id, Follow(g, id, seen, hops), n)
    decreases hops
  {
    var next := FirstUnseen(Successors(g, id), seen);
    FirstUnseenIsThere(Successors(g, id), seen);
    hide Successors, FirstUnseen;
    if hops == 0 || g.status[id].Active? || next.None? || next.value !in g.status {
      n := 0;
    } else {
      n := FollowLeads(g, next.value, seen + {next.value}, hops - 1);
      n := n + 1;
    }
  }

  /** A node's successors are what it was merged into and what superseded it, and
      a merge is followed before a supersession. */
  lemma {:induction false} MergesComeFirst(g: Lineage, id: Id, into: Id, x: Id, seen: set<Id>, hops: nat)
    requires id in g.status && id in g.mergedInto && g.mergedInto[id] != [] && g.mergedInto[id][0] == into
    ensures x in Successors(g, id) <==> x in g.mergedInto[id] || (id in g.supersededBy && x in g.supersededBy[id])
    ensures into !in seen && !g.status[id].Active? && hops > 0 && into in g.status ==>
              Follow(g, id, seen, hops) == Follow(g, into, seen + {into}, hops - 1)
  {
    assert Successors(g, id)[0] == into;
  }

  /** A node that was never merged goes on to what superseded it. */
  lemma {:induction false} ThenSupersessions(g: Lineage, id: Id, heir: Id, seen: set<Id>, hops: nat)
    requires id in g.status && id !in g.mergedInto && id in g.supersededBy && g.supersededBy[id] != []
    requires g.supersededBy[id][0] == heir
    ensures forall x :: x in Successors(g, id) <==> x in g.supersededBy[id]
    ensures heir !in seen && !g.status[id].Active? && hops > 0 && heir in g.status ==>
              Follow(g, id, seen, hops) == Follow(g, heir, seen + {heir}, hops - 1)
  {
    assert Successors(g, id) == g.supersededBy[id];
  }

  lemma {:induction false} FirstUnseenAppend(a: seq<Id>, b: seq<Id>, seen: set<Id>)
    ensures FirstUnseen(a + b, seen) == if FirstUnseen(a, seen).Some? then FirstUnseen(a, seen) else FirstUnseen(b, seen)
  {
    if a == [] {
      assert a + b == b;
    } else {
      FirstUnseenAppend(a[1..], b, seen);
      assert (a + b)[1..] == a[1..] + b;
    }
  }

  /** `live_successor`: ends on any lineage, cyclic or not, at a stored node
      that successor edges lead to. */
  method LiveSuccessor(g: Lineage, id: Id) returns (live: Id)
    requires id in g.status
    ensures live == Follow(g, id, {id}, MAX_SUCCESSOR_HOPS)
    ensures live in g.status && exists n: nat :: n <= MAX_SUCCESSOR_HOPS && Leads(g, id, live, n)
    ensures g.status[id].Active? ==> live == id
  {
    hide Follow, Leads, Listed, FirstUnseen;
    ghost var _ := FollowLeads(g, id, {id}, MAX_SUCCESSOR_HOPS);
    OneHop(g, id, {id}, MAX_SUCCESSOR_HOPS);
    var seen, current := {id}, id;
    for hop := 0 to MAX_SUCCESSOR_HOPS
      invariant current in g.status
      invariant Follow(g, current, seen, MAX_SUCCESSOR_HOPS - hop) == Follow(g, id, {id}, MAX_SUCCESSOR_HOPS)
    {
      OneHop(g, current, seen, MAX_SUCCESSOR_HOPS - hop);
      if g.status[current].Active? {
        return current;
      }
      FirstUnseenAppend(Listed(g.mergedInto, current), Listed(g.supersededBy, current), seen);
      var following := FirstUnseen(Listed(g.mergedInto, current), seen);
      if following.None? {
        following := FirstUnseen(Listed(g.supersededBy, current), seen);
      }
      if following.None? {
        return current;
      }
      seen := seen + {following.value};
      if following.value !in g.status {
        return current;
      }
      current := following.value;
    }
    OneHop(g, current, seen, 0);
    live := current;
  }

  lemma {:induction false} OneHop(g: Lineage, id: Id, seen: set<Id>, hops: nat)
    requires id in g.status
    ensures var next := FirstUnseen(Successors(g, id), seen);
            Follow(g, id, seen, hops) ==
            if hops == 0 || g.status[id].Active? || next.None? || next.value !in g.status then id
            else Follow(g, next.value, seen + {next.value}, hops - 1)
  {}

  /** A lineage in which every retired node has one successor, to a node that is
      active or was retired in favour of nothing. */
  ghost predicate IsLine(g: Lineage, line: seq<Id>) {
    && line != [] && (forall i :: 0 <= i < |line| ==> line[i] in g.status)
    && (forall i :: 0 <= i < |line| - 1 ==> Passes(g, line[i], line[i + 1]))
    && Ends(g, line[|line| - 1])
  }

  ghost predicate Passes(g: Lineage, a: Id, b: Id) {
    a in g.status && !g.status[a].Active? && Successors(g, a) != [] && forall x :: x in Successors(g, a) ==> x == b
  }

  ghost predicate Ends(g: Lineage, id: Id) {
    id in g.status && (g.status[id].Active? || Successors(g, id) == [])
  }

  lemma {:induction false} LineNeverRepeats(g: Lineage, line: seq<Id>, a: nat, b: nat)
    requires IsLine(g, line) && a < b < |line|
    ensures line[a] != line[b]
    decreases |line| - b
  {
    if line[a] == line[b] {
      assert Passes(g, line[a], line[a + 1]);
      assert line[a + 1] in Successors(g, line[a]) by {
        assert Successors(g, line[a])[0] in Successors(g, line[a]);
      }
      if b < |line| - 1 {
        assert Passes(g, line[b], line[b + 1]);
        LineNeverRepeats(g, line, a + 1, b + 1);
      }
    }
  }

  lemma {:induction false} FollowTheLine(g: Lineage, line: seq<Id>, i: nat, seen: set<Id>, hops: nat)
    requires IsLine(g, line) && i < |line| && forall j :: i < j < |line| ==> line[j] !in seen
    ensures Follow(g, line[i], seen, hops) == if i + hops < |line| then line[i + hops] else line[|line| - 1]
    decreases hops
  {
    FirstUnseenIsThere(Successors(g, line[i]), seen);
    if hops > 0 && i < |line| - 1 {
      assert Passes(g, line[i], line[i + 1]);
      assert Successors(g, line[i])[0] in Successors(g, line[i]);
      forall j | i + 1 < j < |line| ensures line[j] != line[i + 1] {
        LineNeverRepeats(g, line, i + 1, j);
      }
      assert FirstUnseen(Successors(g, line[i]), seen) == Some(line[i + 1]);
      FollowTheLine(g, line, i + 1, seen + {line[i + 1]}, hops - 1);
    }
  }

  /** Every node of a line resolves to the same end, active or not, exactly when
      it is within sixteen hops of it; further back it resolves to the node
      sixteen on. A line that ends retired gives its end, not the node asked for. */
  lemma {:induction false} ALineResolvesToItsEndIff(g: Lineage, line: seq<Id>, i: nat)
    requires IsLine(g, line) && i < |line|
    ensures var found := Follow(g, line[i], {line[i]}, MAX_SUCCESSOR_HOPS);
            && (found == line[|line| - 1] <==> |line| - 1 - i <= MAX_SUCCESSOR_HOPS)
            && (|line| - 1 - i > MAX_SUCCESSOR_HOPS ==> found == line[i + MAX_SUCCESSOR_HOPS] && !g.status[found].Active?)
  {
    forall j | i < j < |line| ensures line[j] != line[i] {
      LineNeverRepeats(g, line, i, j);
    }
    FollowTheLine(g, line, i, {line[i]}, MAX_SUCCESSOR_HOPS);
    if |line| - 1 - i > MAX_SUCCESSOR_HOPS {
      LineNeverRepeats(g, line, i + MAX_SUCCESSOR_HOPS, |line| - 1);
      assert Passes(g, line[i + MAX_SUCCESSOR_HOPS], line[i + MAX_SUCCESSOR_HOPS + 1]);
    }
  }

  /** Where a node has two successors the first is taken, and a wrong turn is
      not taken back although the other one leads to something active. */
  lemma {:induction false} AWrongTurnIsNotTakenBack(g: Lineage, a: Id, dead: Id, live: Id)
    requires {a, dead, live} <= g.status.Keys && a != dead
    requires !g.status[a].Active? && !g.status[dead].Active? && g.status[live].Active?
    requires Successors(g, a) == [dead, live] && Successors(g, dead) == []
    ensures Follow(g, a, {a}, MAX_SUCCESSOR_HOPS) == dead && Leads(g, a, live, 1)
  {}
}
