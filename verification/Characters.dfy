/** The character classes names and files are read with. */
module Characters {

  /** `str.isspace`, and what `str.strip` takes off. */
  predicate IsWhite(c: char) {
    var code := c as int;
    || 9 <= code <= 13 || 0x1c <= code <= 0x20 || code == 0x85 || code == 0xa0 || code == 0x1680
    || 0x2000 <= code <= 0x200a || code == 0x2028 || code == 0x2029
    || code == 0x202f || code == 0x205f || code == 0x3000
  }

  /** The same characters, one by one. */
  const WHITE: set<int> :=
    {9, 10, 11, 12, 13, 28, 29, 30, 31, 32, 133, 160, 5760, 8192, 8193, 8194, 8195, 8196, 8197, 8198, 8199, 8200, 8201,
     8202, 8232, 8233, 8239, 8287, 12288}

  lemma {:induction false} WhiteIs(c: char)
    ensures IsWhite(c) <==> c as int in WHITE
  {}

  /** Lowering changes the twenty-six capitals, each to its own small letter. */
  lemma {:induction false} LowerIs(k: nat, c: char)
    requires k < 26
    ensures LowerChar("ABCDEFGHIJKLMNOPQRSTUVWXYZ"[k]) == "abcdefghijklmnopqrstuvwxyz"[k]
    ensures c < 'A' || c > 'Z' ==> LowerChar(c) == c
  {}

  function LowerChar(c: char): char {
    if 'A' <= c <= 'Z' then (c as int + 32) as char else c
  }

  /** `str.lower`, on ASCII letters. */
  function Lower(s: string): (r: string)
    ensures |r| == |s|
  {
    seq(|s|, i requires 0 <= i < |s| => LowerChar(s[i]))
  }

  function StripLeft(s: string): string {
    if s != "" && IsWhite(s[0]) then StripLeft(s[1..]) else s
  }

  function StripRight(s: string): string {
    if s != "" && IsWhite(s[|s| - 1]) then StripRight(s[..|s| - 1]) else s
  }

  function Strip(s: string): string { StripRight(StripLeft(s)) }

  lemma {:induction false} StrippedEnds(s: string)
    ensures StripLeft(s) == "" || !IsWhite(StripLeft(s)[0])
    ensures StripRight(s) == "" || (!IsWhite(StripRight(s)[|StripRight(s)| - 1]) && StripRight(s)[0] == s[0])
    decreases |s|
  {
    if s != "" {
      StrippedEnds(s[1..]);
      StrippedEnds(s[..|s| - 1]);
    }
  }

  lemma {:induction false} StripTwice(s: string)
    ensures Strip(Strip(s)) == Strip(s)
  {
    StrippedEnds(s);
    StrippedEnds(StripLeft(s));
  }
}
