/** JSON text as `json.dumps(..., sort_keys=True, ensure_ascii=False,
    separators=(",", ":"))` prints it and `json.loads` reads it back
    (epimemer/pipelines/transfer.py; RFC 8259). */
module Json {
  import opened Options
  import opened Order

  datatype Value =
    | Null
    | Bool(b: bool)
    | Number(literal: string)   // as Python's repr writes it
    | NotANumber
    | Infinite(negative: bool)
    | Str(s: string)
    | Arr(items: Items)
    | Obj(fields: Fields)

  datatype Items = NoItems | Item(head: Value, tail: Items)

  /** A dict, in insertion order. */
  datatype Fields = NoFields | Field(key: string, value: Value, rest: Fields)

  // --- Printing ---

  function HexDigit(n: nat): (d: char)
    requires n < 16
    ensures '0' <= d <= 'f'
  {
    "0123456789abcdef"[n]
  }

  /** One character inside a string literal: the escapes section 7 of RFC 8259
      forces, and nothing else. */
  function Escape(c: char): string {
    if c == '"' then "\\\""
    else if c == '\\' then "\\\\"
    else if c == '\n' then "\\n"
    else if c == '\r' then "\\r"
    else if c == '\t' then "\\t"
    else if c as int == 8 then "\\b"
    else if c as int == 12 then "\\f"
    else if c < ' ' then ['\\', 'u', '0', '0', HexDigit(c as int / 16), HexDigit(c as int % 16)]
    else [c]
  }

  function Escaped(s: string): string {
    if s == "" then "" else Escape(s[0]) + Escaped(s[1..])
  }

  function Quoted(s: string): string { "\"" + Escaped(s) + "\"" }

  function Text(v: Value): string {
    match v
    case Null => "null"
    case Bool(b) => if b then "true" else "false"
    case Number(literal) => literal
    case NotANumber => "NaN"
    case Infinite(negative) => if negative then "-Infinity" else "Infinity"
    case Str(s) => Quoted(s)
    case Arr(items) => "[" + ItemsText(items) + "]"
    case Obj(fields) => "{" + FieldsText(fields) + "}"
  }

  function ItemsText(items: Items): string {
    match items
    case NoItems => ""
    case Item(head, NoItems) => Text(head)
    case Item(head, tail) => Text(head) + "," + ItemsText(tail)
  }

  function FieldsText(fields: Fields): string {
    match fields
    case NoFields => ""
    case Field(key, value, NoFields) => Quoted(key) + ":" + Text(value)
    case Field(key, value, rest) => Quoted(key) + ":" + Text(value) + "," + FieldsText(rest)
  }

  // --- Key order ---

  predicate KeyLeq(x: (string, Value), y: (string, Value)) { TextLeq(x.0, y.0) }

  function Entries(fields: Fields): seq<(string, Value)> {
    match fields
    case NoFields => []
    case Field(key, value, rest) => [(key, value)] + Entries(rest)
  }

  function FromEntries(entries: seq<(string, Value)>): Fields {
    if entries == [] then NoFields else Field(entries[0].0, entries[0].1, FromEntries(entries[1..]))
  }

  /** The value with every dict's keys in order. */
  function Canonical(v: Value): Value {
    match v
    case Arr(items) => Arr(CanonicalItems(items))
    case Obj(fields) => Obj(FromEntries(Sort(Entries(CanonicalFields(fields)), KeyLeq)))
    case _ => v
  }

  function CanonicalItems(items: Items): Items {
    match items
    case NoItems => NoItems
    case Item(head, tail) => Item(Canonical(head), CanonicalItems(tail))
  }

  function CanonicalFields(fields: Fields): Fields {
    match fields
    case NoFields => NoFields
    case Field(key, value, rest) => Field(key, Canonical(value), CanonicalFields(rest))
  }

  /** `json.dumps` with sorted keys. */
  function Dumps(v: Value): string { Text(Canonical(v)) }

  // --- Reading ---

  datatype Parse<+T> = Parsed(value: T, rest: string) | Malformed

  predicate IsSpace(c: char) { c == ' ' || c == '\t' || c == '\n' || c == '\r' }

  function SkipSpace(s: string): (r: string)
    ensures |r| <= |s|
  {
    if s != "" && IsSpace(s[0]) then SkipSpace(s[1..]) else s
  }

  function HexValue(c: char): Option<nat> {
    if '0' <= c <= '9' then Some(c as int - '0' as int)
    else if 'a' <= c <= 'f' then Some(c as int - 'a' as int + 10)
    else if 'A' <= c <= 'F' then Some(c as int - 'A' as int + 10)
    else None
  }

  /** The character after a backslash, with what it took to say it. */
  function ParseEscape(s: string): (r: Parse<char>)
    ensures r.Parsed? ==> |r.rest| < |s|
  {
    if s == "" then Malformed
    else if s[0] in "\"\\/" then Parsed(s[0], s[1..])
    else if s[0] == 'n' then Parsed('\n', s[1..])
    else if s[0] == 'r' then Parsed('\r', s[1..])
    else if s[0] == 't' then Parsed('\t', s[1..])
    else if s[0] == 'b' then Parsed(8 as char, s[1..])
    else if s[0] == 'f' then Parsed(12 as char, s[1..])
    else if s[0] != 'u' || |s| < 5 then Malformed
    else
      var a, b, c, d := HexValue(s[1]), HexValue(s[2]), HexValue(s[3]), HexValue(s[4]);
      if a.None? || b.None? || c.None? || d.None? then Malformed
      else
        var code := a.value * 4096 + b.value * 256 + c.value * 16 + d.value;
        if 0xD800 <= code < 0xE000 || code >= 0x10000 then Malformed else Parsed(code as char, s[5..])
  }

  /** A string literal from just after its opening quote. */
  function ParseString(s: string): (r: Parse<string>)
    ensures r.Parsed? ==> |r.rest| < |s|
    decreases |s|
  {
    if s == "" then Malformed
    else if s[0] == '"' then Parsed("", s[1..])
    else if s[0] == '\\' then
      match ParseEscape(s[1..])
      case Malformed => Malformed
      case Parsed(c, rest) =>
        match ParseString(rest)
        case Malformed => Malformed
        case Parsed(tail, rest') => Parsed([c] + tail, rest')
    else if s[0] < ' ' then Malformed
    else
      match ParseString(s[1..])
      case Malformed => Malformed
      case Parsed(tail, rest) => Parsed([s[0]] + tail, rest)
  }

  predicate Digit(c: char) { '0' <= c <= '9' }

  predicate NumberChar(c: char) { Digit(c) || c in "+-.eE" }

  function TakeNumber(s: string): (r: string)
    ensures |r| <= |s| && r == s[..|r|]
    ensures forall i :: 0 <= i < |r| ==> NumberChar(r[i])
  {
    if s != "" && NumberChar(s[0]) then [s[0]] + TakeNumber(s[1..]) else ""
  }

  function DropDigits(s: string): string {
    if s != "" && Digit(s[0]) then DropDigits(s[1..]) else s
  }

  predicate IsExponent(s: string) {
    s == "" || (s[0] in "eE"
                && var t := if |s| > 1 && s[1] in "+-" then s[2..] else s[1..];
                   t != "" && DropDigits(t) == "")
  }

  predicate IsFraction(s: string) {
    if s != "" && s[0] == '.' then |s| > 1 && Digit(s[1]) && IsExponent(DropDigits(s[1..])) else IsExponent(s)
  }

  /** The number grammar of section 6 of RFC 8259. */
  predicate IsNumber(s: string) {
    var t := if s != "" && s[0] == '-' then s[1..] else s;
    t != "" && Digit(t[0]) && IsFraction(if t[0] == '0' then t[1..] else DropDigits(t))
  }

  predicate Digits(s: string) { s != "" && forall i :: 0 <= i < |s| ==> Digit(s[i]) }

  predicate IntegerPart(s: string) { s == "0" || (Digits(s) && s[0] != '0') }

  predicate FractionPart(s: string) { s == "" || (s[0] == '.' && Digits(s[1..])) }

  predicate ExponentPart(s: string) {
    s == "" || (|s| > 1 && s[0] in "eE" && Digits(if s[1] in "+-" then s[2..] else s[1..]))
  }

  /** A number is a sign or none, an integer without leading zeros, a fraction or
      none and an exponent or none, and nothing else. */
  lemma {:induction false} NumbersAre(s: string)
    ensures IsNumber(s) <==>
              exists sign, i, f, e :: sign in {"", "-"} && IntegerPart(i) && FractionPart(f) && ExponentPart(e)
                                      && s == sign + (i + (f + e))
  {
    hide *;
    if IsNumber(s) {
      var sign, i, f, e := NumberSplits(s);
    }
    if sign, i, f, e :| sign in {"", "-"} && IntegerPart(i) && FractionPart(f) && ExponentPart(e) && s == sign + (i + (f + e)) {
      PartsMakeANumber(sign, i, f, e);
    }
  }

  lemma {:induction false} NumberSplits(s: string) returns (sign: string, i: string, f: string, e: string)
    requires IsNumber(s)
    ensures sign in {"", "-"} && IntegerPart(i) && FractionPart(f) && ExponentPart(e) && s == sign + (i + (f + e))
  {
    sign := if s[0] == '-' then "-" else "";
    var t := s[|sign|..];
    assert s == sign + t;
    DigitsDropped(t);
    var rest := if t[0] == '0' then t[1..] else DropDigits(t);
    hide DropDigits, IsExponent;
    i := t[..|t| - |rest|];
    assert t == i + rest;
    assert IntegerPart(i);
    hide IsFraction;
    f, e := FractionAndExponent(rest);
  }

  lemma {:induction false} PartsMakeANumber(sign: string, i: string, f: string, e: string)
    requires sign in {"", "-"} && IntegerPart(i) && FractionPart(f) && ExponentPart(e)
    ensures IsNumber(sign + (i + (f + e)))
  {
    var rest := f + e;
    var t := i + rest;
    var s := sign + t;
    ExponentIs(e);
    FractionIs(f, e);
    assert rest == "" || !Digit(rest[0]);
    DropAll(i, rest);
    hide DropDigits, IsFraction, IsExponent;
    assert t[0] == i[0];
    assert (if s != "" && s[0] == '-' then s[1..] else s) == t;
    assert t[0] == '0' ==> t[1..] == rest;
  }

  lemma {:induction false} DigitsDropped(s: string)
    ensures |DropDigits(s)| <= |s| && s[|s| - |DropDigits(s)|..] == DropDigits(s)
    ensures DropDigits(s) == "" || !Digit(DropDigits(s)[0])
    ensures forall k :: 0 <= k < |s| - |DropDigits(s)| ==> Digit(s[k])
    ensures s != "" && Digit(s[0]) ==> |DropDigits(s)| < |s|
  {
    if s != "" && Digit(s[0]) {
      DigitsDropped(s[1..]);
      forall k | 0 <= k < |s| - |DropDigits(s)| ensures Digit(s[k]) {
        assert k > 0 ==> s[k] == s[1..][k - 1];
      }
    }
  }

  lemma {:induction false} DropAll(digits: string, rest: string)
    requires (forall k :: 0 <= k < |digits| ==> Digit(digits[k])) && (rest == "" || !Digit(rest[0]))
    ensures DropDigits(digits + rest) == rest
  {
    if digits == "" {
      assert digits + rest == rest;
    } else {
      assert (digits + rest)[1..] == digits[1..] + rest;
      DropAll(digits[1..], rest);
    }
  }

  lemma {:induction false} FractionAndExponent(s: string) returns (f: string, e: string)
    requires IsFraction(s)
    ensures FractionPart(f) && ExponentPart(e) && s == f + e
  {
    if s != "" && s[0] == '.' {
      e := DropDigits(s[1..]);
      DigitsDropped(s[1..]);
      f := s[..|s| - |e|];
      assert f[1..] == s[1..][..|s| - 1 - |e|];
      AnExponent(e);
    } else {
      f, e := "", s;
      AnExponent(e);
    }
  }

  lemma {:induction false} AnExponent(e: string)
    ensures IsExponent(e) <==> ExponentPart(e)
  {
    if e != "" && e[0] in "eE" {
      var t := if |e| > 1 && e[1] in "+-" then e[2..] else e[1..];
      DigitsDropped(t);
      if Digits(t) {
        DropAll(t, "");
        assert t + "" == t;
      }
    }
  }

  lemma {:induction false} ExponentIs(e: string)
    requires ExponentPart(e)
    ensures IsExponent(e) && (e == "" || (!Digit(e[0]) && e[0] != '.'))
  {
    AnExponent(e);
  }

  lemma {:induction false} FractionIs(f: string, e: string)
    requires FractionPart(f) && IsExponent(e) && (e == "" || (!Digit(e[0]) && e[0] != '.'))
    ensures IsFraction(f + e)
  {
    if f == "" {
      assert f + e == e;
    } else {
      assert (f + e)[1..] == f[1..] + e && (f + e)[1] == f[1..][0];
      DropAll(f[1..], e);
    }
  }

  predicate StartsWith(s: string, c: char) { s != "" && s[0] == c }

  function ParseValue(s: string): (r: Parse<Value>)
    ensures r.Parsed? ==> |r.rest| < |s|
    decreases |s|, 1
  {
    if s == "" then Malformed
    else if s[0] == '"' then
      (match ParseString(s[1..]) case Malformed => Malformed case Parsed(text, rest) => Parsed(Str(text), rest))
    else if s[0] == '[' then
      var t := SkipSpace(s[1..]);
      if StartsWith(t, ']') then Parsed(Arr(NoItems), t[1..])
      else match ParseItems(t) case Malformed => Malformed case Parsed(items, rest) => Parsed(Arr(items), rest)
    else if s[0] == '{' then
      var t := SkipSpace(s[1..]);
      if StartsWith(t, '}') then Parsed(Obj(NoFields), t[1..])
      else match ParseFields(t) case Malformed => Malformed case Parsed(fields, rest) => Parsed(Obj(fields), rest)
    else if "null" <= s then Parsed(Null, s[4..])
    else if "true" <= s then Parsed(Bool(true), s[4..])
    else if "false" <= s then Parsed(Bool(false), s[5..])
    else if "NaN" <= s then Parsed(NotANumber, s[3..])
    else if "Infinity" <= s then Parsed(Infinite(false), s[8..])
    else if "-Infinity" <= s then Parsed(Infinite(true), s[9..])
    else
      var literal := TakeNumber(s);
      if IsNumber(literal) then Parsed(Number(literal), s[|literal|..]) else Malformed
  }

  function ParseItems(s: string): (r: Parse<Items>)
    ensures r.Parsed? ==> |r.rest| < |s|
    decreases |s|, 2
  {
    match ParseValue(s)
    case Malformed => Malformed
    case Parsed(head, rest) =>
      var t := SkipSpace(rest);
      if StartsWith(t, ']') then Parsed(Item(head, NoItems), t[1..])
      else if StartsWith(t, ',') then
        match ParseItems(SkipSpace(t[1..]))
        case Malformed => Malformed
        case Parsed(tail, rest') => Parsed(Item(head, tail), rest')
      else Malformed
  }

  function ParseFields(s: string): (r: Parse<Fields>)
    ensures r.Parsed? ==> |r.rest| < |s|
    decreases |s|, 0
  {
    if !StartsWith(s, '"') then Malformed
    else
      match ParseString(s[1..])
      case Malformed => Malformed
      case Parsed(key, rest) =>
        var t := SkipSpace(rest);
        if !StartsWith(t, ':') then Malformed
        else
          match ParseValue(SkipSpace(t[1..]))
          case Malformed => Malformed
          case Parsed(value, rest') =>
            var u := SkipSpace(rest');
            if StartsWith(u, '}') then Parsed(Field(key, value, NoFields), u[1..])
            else if StartsWith(u, ',') then
              match ParseFields(SkipSpace(u[1..]))
              case Malformed => Malformed
              case Parsed(fields, rest'') => Parsed(Field(key, value, fields), rest'')
            else Malformed
  }

  /** `json.loads`: one value and nothing after it. */
  function Loads(s: string): Option<Value> {
    match ParseValue(SkipSpace(s))
    case Malformed => None
    case Parsed(value, rest) => if SkipSpace(rest) == "" then Some(value) else None
  }

  // --- The round trip ---

  /** Every number in the value is spelled as a number. */
  predicate WellFormed(v: Value) {
    match v
    case Number(literal) => IsNumber(literal)
    case Arr(items) => WellFormedItems(items)
    case Obj(fields) => WellFormedFields(fields)
    case _ => true
  }

  predicate WellFormedItems(items: Items) {
    items.Item? ==> WellFormed(items.head) && WellFormedItems(items.tail)
  }

  predicate WellFormedFields(fields: Fields) {
    fields.Field? ==> WellFormed(fields.value) && WellFormedFields(fields.rest)
  }

  predicate AllNumberChars(s: string) { forall i :: 0 <= i < |s| ==> NumberChar(s[i]) }

  lemma {:induction false} DropDigitsKeeps(s: string)
    requires AllNumberChars(DropDigits(s))
    ensures AllNumberChars(s)
  {
    if s != "" && Digit(s[0]) {
      DropDigitsKeeps(s[1..]);
      assert s == [s[0]] + s[1..];
    }
  }

  lemma {:induction false} NumbersAreNumberChars(s: string)
    requires IsNumber(s)
    ensures s != "" && TakeNumber(s) == s
  {
    var t := if s[0] == '-' then s[1..] else s;
    var u := if t[0] == '0' then t[1..] else DropDigits(t);
    if u != "" && u[0] == '.' {
      ExponentChars(DropDigits(u[1..]));
      DropDigitsKeeps(u[1..]);
    } else {
      ExponentChars(u);
    }
    DropDigitsKeeps(t);
    TakeAll(s);
  }

  lemma {:induction false} ExponentChars(s: string)
    requires IsExponent(s)
    ensures AllNumberChars(s)
  {
    if s != "" {
      DropDigitsKeeps(if |s| > 1 && s[1] in "+-" then s[2..] else s[1..]);
    }
  }

  lemma {:induction false} TakeAll(s: string)
    requires AllNumberChars(s)
    ensures TakeNumber(s) == s
  {
    if s != "" {
      TakeAll(s[1..]);
    }
  }

  lemma {:induction false} TakeNumberStops(s: string, t: string)
    requires TakeNumber(s) == s && (t == "" || !NumberChar(t[0]))
    ensures TakeNumber(s + t) == s
  {
    if s == "" {
      assert s + t == t;
    } else {
      assert (s + t)[1..] == s[1..] + t;
      TakeNumberStops(s[1..], t);
    }
  }

  lemma {:induction false} EscapeRoundTrip(c: char, t: string)
    ensures Escape(c) != "" && Escape(c)[0] >= ' ' && Escape(c)[0] != '"'
    ensures |Escape(c)| > 1 ==> Escape(c)[0] == '\\' && ParseEscape((Escape(c) + t)[1..]) == Parsed(c, t)
    ensures |Escape(c)| == 1 ==> Escape(c)[0] == c && c != '\\'
  {
    var s := (Escape(c) + t)[1..];
    if |Escape(c)| == 2 {
      assert s[1..] == t;
    } else if |Escape(c)| == 6 {
      assert s[5..] == t;
      HexRoundTrip(c as int / 16);
      HexRoundTrip(c as int % 16);
      hide HexDigit, HexValue;
    }
  }

  lemma {:induction false} HexRoundTrip(n: nat)
    requires n < 16
    ensures HexValue(HexDigit(n)) == Some(n)
  {}

  lemma {:induction false} StringRoundTrip(s: string, t: string)
    ensures ParseString(Escaped(s) + "\"" + t) == Parsed(s, t)
  {
    hide Escape, ParseEscape;
    if s == "" {
      assert Escaped(s) + "\"" + t == "\"" + t;
    } else {
      var rest := Escaped(s[1..]) + "\"" + t;
      StringRoundTrip(s[1..], t);
      EscapeRoundTrip(s[0], rest);
      assert Escaped(s) + "\"" + t == Escape(s[0]) + rest;
      assert s == [s[0]] + s[1..];
      if |Escape(s[0])| == 1 {
        assert (Escape(s[0]) + rest)[1..] == rest;
      }
    }
  }

  /** Printed text starts with the mark of its kind, never with a space. */
  lemma {:induction false} TextStarts(v: Value)
    requires WellFormed(v)
    ensures Text(v) != "" && !IsSpace(Text(v)[0]) && Text(v)[0] !in "]}"
    ensures v.Number? ==> NumberChar(Text(v)[0]) && !("-Infinity" <= Text(v))
    ensures v.Obj? ==> Text(v)[0] == '{'
  {}

  lemma {:induction false} NoSpaceToSkip(v: Value, t: string)
    requires WellFormed(v)
    ensures SkipSpace(Text(v) + t) == Text(v) + t
  {}

  // One lemma for each way a reader step can go.

  lemma {:induction false} ReadArr(u: string, items: Items, t: string)
    requires u != "" && !IsSpace(u[0]) && u[0] != ']' && ParseItems(u) == Parsed(items, t)
    ensures ParseValue("[" + u) == Parsed(Arr(items), t)
  {}

  lemma {:induction false} ReadObj(u: string, fields: Fields, t: string)
    requires StartsWith(u, '"') && ParseFields(u) == Parsed(fields, t)
    ensures ParseValue("{" + u) == Parsed(Obj(fields), t)
  {}

  lemma {:induction false} ReadEmpty(t: string)
    ensures ParseValue("[]" + t) == Parsed(Arr(NoItems), t)
    ensures ParseValue("{}" + t) == Parsed(Obj(NoFields), t)
  {}

  /** How a text starting like a number is read. */
  lemma {:induction false} ReadNumber(s: string)
    requires s != "" && NumberChar(s[0]) && !("-Infinity" <= s)
    ensures ParseValue(s)
            == if IsNumber(TakeNumber(s)) then Parsed(Number(TakeNumber(s)), s[|TakeNumber(s)|..]) else Malformed
  {}

  lemma {:induction false} NumbersAreNoWords(s: string)
    requires IsNumber(TakeNumber(s))
    ensures s != "" && NumberChar(s[0]) && !("-Infinity" <= s)
  {}

  lemma {:induction false} ReadScalar(v: Value, t: string)
    requires !v.Arr? && !v.Obj? && WellFormed(v) && (v.Number? && t != "" ==> !NumberChar(t[0]))
    ensures ParseValue(Text(v) + t) == Parsed(v, t)
  {
    var s := Text(v) + t;
    if v.Number? {
      hide ParseValue, IsNumber, TakeNumber;
      NumbersAreNumberChars(v.literal);
      TakeNumberStops(v.literal, t);
      assert s[..|v.literal|] == v.literal && s[|v.literal|..] == t;
      NumbersAreNoWords(s);
      ReadNumber(s);
    } else if v.Str? {
      StringRoundTrip(v.s, t);
      assert s[1..] == Escaped(v.s) + "\"" + t;
    } else {
      ReadWord(v, t);
    }
  }

  lemma {:induction false} ReadWord(v: Value, t: string)
    requires v.Null? || v.Bool? || v.NotANumber? || v.Infinite?
    ensures ParseValue(Text(v) + t) == Parsed(v, t)
  {
    assert (Text(v) + t)[|Text(v)|..] == t;
  }

  lemma {:induction false} ReadItems(s: string, head: Value, tail: Items, u: string, t: string)
    requires ParseValue(s) == Parsed(head, (if tail.NoItems? then "]" else ",") + u)
    requires if tail.NoItems? then u == t else u != "" && !IsSpace(u[0]) && ParseItems(u) == Parsed(tail, t)
    ensures ParseItems(s) == Parsed(Item(head, tail), t)
  {}

  lemma {:induction false} ReadFields(s: string, key: string, w: string, value: Value, rest: Fields, u: string,
          t: string)
    requires StartsWith(s, '"') && ParseString(s[1..]) == Parsed(key, ":" + w)
    requires SkipSpace(w) == w && ParseValue(w) == Parsed(value, (if rest.NoFields? then "}" else ",") + u)
    requires if rest.NoFields? then u == t else StartsWith(u, '"') && ParseFields(u) == Parsed(rest, t)
    ensures ParseFields(s) == Parsed(Field(key, value, rest), t)
  {
    hide ParseValue, ParseItems, ParseString;
    assert (":" + w)[1..] == w && ("}" + u)[1..] == ("," + u)[1..] == u;
  }

  /** What is printed reads back as it was, with the text after it untouched. */
  lemma {:induction false} ValueRoundTrip(v: Value, t: string)
    requires WellFormed(v) && (v.Number? && t != "" ==> !NumberChar(t[0]))
    ensures ParseValue(Text(v) + t) == Parsed(v, t)
    decreases v, 1
  {
    hide ParseValue, ParseItems, ParseFields, ParseString, SkipSpace, IsNumber, TakeNumber, Escaped;
    match v
    case Arr(Item(head, tail)) =>
      var u := ItemsText(v.items) + "]" + t;
      ItemsRoundTrip(v.items, t);
      TextStarts(head);
      assert u[0] == Text(head)[0];
      ReadArr(u, v.items, t);
      assert Text(v) + t == "[" + u;
    case Obj(Field(key, value, rest)) =>
      var u := FieldsText(v.fields) + "}" + t;
      FieldsRoundTrip(v.fields, t);
      ReadObj(u, v.fields, t);
      assert Text(v) + t == "{" + u;
    case Arr(NoItems) => ReadEmpty(t); assert Text(v) == "[]";
    case Obj(NoFields) => ReadEmpty(t); assert Text(v) == "{}";
    case _ => ReadScalar(v, t);
  }

  lemma {:induction false} ItemsRoundTrip(items: Items, t: string)
    requires items.Item? && WellFormedItems(items)
    ensures ParseItems(ItemsText(items) + "]" + t) == Parsed(items, t)
    decreases items, 2
  {
    hide ParseValue, ParseItems, ParseFields, IsNumber, Escaped;
    var s := ItemsText(items) + "]" + t;
    if items.tail.NoItems? {
      ValueRoundTrip(items.head, "]" + t);
      assert s == Text(items.head) + ("]" + t);
      ReadItems(s, items.head, items.tail, t, t);
    } else {
      var u := ItemsText(items.tail) + "]" + t;
      ValueRoundTrip(items.head, "," + u);
      assert s == Text(items.head) + ("," + u);
      ItemsRoundTrip(items.tail, t);
      TextStarts(items.tail.head);
      assert u[0] == Text(items.tail.head)[0];
      ReadItems(s, items.head, items.tail, u, t);
    }
  }

  /** What follows a field's value: the next field, or the end of the dict. */
  function AfterField(rest: Fields, t: string): string {
    if rest.NoFields? then "}" + t else "," + (FieldsText(rest) + "}" + t)
  }

  lemma {:induction false} FieldText(fields: Fields, t: string)
    requires fields.Field?
    ensures FieldsText(fields) + "}" + t
            == "\"" + (Escaped(fields.key) + "\"" + (":" + (Text(fields.value) + AfterField(fields.rest, t))))
  {
    hide Text, Escaped;
  }

  lemma {:induction false} FieldsRoundTrip(fields: Fields, t: string)
    requires fields.Field? && WellFormedFields(fields)
    ensures ParseFields(FieldsText(fields) + "}" + t) == Parsed(fields, t)
    decreases fields, 0
  {
    hide ParseValue, ParseItems, ParseFields, ParseString, SkipSpace, Text, Escaped;
    var Field(key, value, rest) := fields;
    var u := if rest.NoFields? then t else FieldsText(rest) + "}" + t;
    var w := Text(value) + AfterField(rest, t);
    var tail := Escaped(key) + "\"" + (":" + w);
    FieldText(fields, t);
    assert ("\"" + tail)[1..] == tail;
    StringRoundTrip(key, ":" + w);
    NoSpaceToSkip(value, AfterField(rest, t));
    ValueRoundTrip(value, AfterField(rest, t));
    if !rest.NoFields? {
      FieldsRoundTrip(rest, t);
      FieldText(rest, t);
    }
    ReadFields("\"" + tail, key, w, value, rest, u, t);
  }

  // --- Reading a longer text ---

  lemma {:induction false} SkipSpaceExtends(s: string, q: string)
    requires SkipSpace(s) != ""
    ensures SkipSpace(s + q) == SkipSpace(s) + q
  {
    if IsSpace(s[0]) {
      assert (s + q)[1..] == s[1..] + q;
      SkipSpaceExtends(s[1..], q);
    }
  }

  lemma {:induction false} TakeNumberExtends(s: string, q: string)
    requires TakeNumber(s) != s
    ensures TakeNumber(s + q) == TakeNumber(s)
  {
    if NumberChar(s[0]) {
      assert (s + q)[1..] == s[1..] + q && s == [s[0]] + s[1..];
      TakeNumberExtends(s[1..], q);
    }
  }

  lemma {:induction false} ParseEscapeExtends(s: string, q: string)
    requires ParseEscape(s).Parsed?
    ensures ParseEscape(s + q) == ParseEscape(s).(rest := ParseEscape(s).rest + q)
  {
    assert (s + q)[1..] == s[1..] + q;
    if |s| >= 5 {
      assert (s + q)[5..] == s[5..] + q;
    }
  }

  lemma {:induction false} ParseStringExtends(s: string, q: string)
    requires ParseString(s).Parsed?
    ensures ParseString(s + q) == ParseString(s).(rest := ParseString(s).rest + q)
    decreases |s|
  {
    hide ParseEscape;
    assert (s + q)[1..] == s[1..] + q;
    if s[0] == '\\' {
      ParseEscapeExtends(s[1..], q);
      ParseStringExtends(ParseEscape(s[1..]).rest, q);
    } else if s[0] != '"' {
      ParseStringExtends(s[1..], q);
    }
  }

  predicate StartsLikeAWord(s: string) {
    "null" <= s || "true" <= s || "false" <= s || "NaN" <= s || "Infinity" <= s || "-Infinity" <= s
  }

  lemma {:induction false} ParseWordExtends(s: string, q: string)
    requires StartsLikeAWord(s)
    ensures ParseValue(s).Parsed? && ParseValue(s + q) == ParseValue(s).(rest := ParseValue(s).rest + q)
  {
    hide ParseValue;
    var v :=
      if "null" <= s then Null else if "true" <= s then Bool(true) else if "false" <= s then Bool(false)
      else if "NaN" <= s then NotANumber else Infinite("-Infinity" <= s);
    var rest := s[|Text(v)|..];
    assert s == Text(v) + rest && s + q == Text(v) + (rest + q);
    ReadWord(v, rest);
    ReadWord(v, rest + q);
  }

  lemma {:induction false} OtherScalars(s: string)
    requires s != "" && s[0] !in "\"[{" && ParseValue(s).Parsed?
    ensures StartsLikeAWord(s) || NumberChar(s[0])
  {}

  lemma {:induction false} ParseScalarExtends(s: string, q: string)
    requires s != "" && s[0] !in "\"[{"
    requires ParseValue(s).Parsed? && (ParseValue(s).value.Number? ==> ParseValue(s).rest != "")
    ensures ParseValue(s + q) == ParseValue(s).(rest := ParseValue(s).rest + q)
  {
    hide ParseValue, IsNumber, TakeNumber;
    OtherScalars(s);
    if StartsLikeAWord(s) {
      ParseWordExtends(s, q);
    } else {
      var n := |TakeNumber(s)|;
      ReadNumber(s);
      TakeNumberExtends(s, q);
      NumbersAreNoWords(s + q);
      ReadNumber(s + q);
      assert (s + q)[n..] == s[n..] + q;
    }
  }

  /** A value read from a text is read from every extension of it, unless it is
      a number the text stops in. */
  lemma {:induction false} ParseValueExtends(s: string, q: string)
    requires ParseValue(s).Parsed? && (ParseValue(s).value.Number? ==> ParseValue(s).rest != "")
    ensures ParseValue(s + q) == ParseValue(s).(rest := ParseValue(s).rest + q)
    decreases |s|, 1
  {
    hide ParseItems, ParseFields, ParseString, SkipSpace, TakeNumber, IsNumber, WellFormed;
    var t := SkipSpace(s[1..]);
    assert (s + q)[1..] == s[1..] + q;
    if s[0] == '"' {
      ParseStringExtends(s[1..], q);
    } else if s[0] == '[' {
      SkipSpaceExtends(s[1..], q);
      assert (t + q)[1..] == t[1..] + q;
      if !StartsWith(t, ']') {
        ParseItemsExtends(t, q);
      }
    } else if s[0] == '{' {
      SkipSpaceExtends(s[1..], q);
      assert (t + q)[1..] == t[1..] + q;
      if !StartsWith(t, '}') {
        ParseFieldsExtends(t, q);
      }
    } else {
      ParseScalarExtends(s, q);
    }
  }

  lemma {:induction false} ParseItemsExtends(s: string, q: string)
    requires ParseItems(s).Parsed?
    ensures ParseItems(s + q) == ParseItems(s).(rest := ParseItems(s).rest + q)
    decreases |s|, 2
  {
    hide ParseValue, ParseFields, SkipSpace;
    var rest := ParseValue(s).rest;
    var t := SkipSpace(rest);
    ParseValueExtends(s, q);
    SkipSpaceExtends(rest, q);
    assert (t + q)[1..] == t[1..] + q;
    if !StartsWith(t, ']') {
      SkipSpaceExtends(t[1..], q);
      ParseItemsExtends(SkipSpace(t[1..]), q);
    }
  }

  lemma {:induction false} ParseFieldsExtends(s: string, q: string)
    requires ParseFields(s).Parsed?
    ensures ParseFields(s + q) == ParseFields(s).(rest := ParseFields(s).rest + q)
    decreases |s|, 0
  {
    hide ParseValue, ParseItems, ParseString, SkipSpace;
    assert (s + q)[1..] == s[1..] + q;
    ParseStringExtends(s[1..], q);
    var rest := ParseString(s[1..]).rest;
    var t := SkipSpace(rest);
    SkipSpaceExtends(rest, q);
    assert (t + q)[1..] == t[1..] + q;
    SkipSpaceExtends(t[1..], q);
    ParseValueExtends(SkipSpace(t[1..]), q);
    var rest' := ParseValue(SkipSpace(t[1..])).rest;
    var u := SkipSpace(rest');
    SkipSpaceExtends(rest', q);
    assert (u + q)[1..] == u[1..] + q;
    if !StartsWith(u, '}') {
      SkipSpaceExtends(u[1..], q);
      ParseFieldsExtends(SkipSpace(u[1..]), q);
    }
  }

  /** Printed dicts are prefix-free: no proper prefix of one is JSON. */
  lemma {:induction false} CutDictsDoNotParse(v: Value, n: nat)
    requires v.Obj? && WellFormed(v) && n < |Text(v)|
    ensures Loads(Text(v)[..n]).None?
  {
    var p, q := Text(v)[..n], Text(v)[n..];
    assert Text(v) == p + q && Text(v) + "" == Text(v);
    ValueRoundTrip(v, "");
    if Loads(p).Some? {
      assert p != "" && p[0] == '{' && SkipSpace(p) == p;
      ParseValueExtends(p, q);
    }
  }

  lemma {:induction false} DictsLoadBack(v: Value)
    requires v.Obj? && WellFormed(v)
    ensures Loads(Text(v)) == Some(v)
  {
    assert Text(v) + "" == Text(v);
    ValueRoundTrip(v, "");
    NoSpaceToSkip(v, "");
  }

  // --- The printed text is a function of the content alone ---

  ghost predicate DistinctKeys(fields: Fields) {
    Untied(Entries(fields), KeyLeq)
  }

  lemma {:induction false} KeyOrder()
    ensures TotalPreorder(KeyLeq)
  {
    forall x: (string, Value), y: (string, Value) ensures KeyLeq(x, y) || KeyLeq(y, x) {
      TextLeqTotal(x.0, y.0);
    }
    forall x: (string, Value), y: (string, Value), z: (string, Value) | KeyLeq(x, y) && KeyLeq(y, z) ensures KeyLeq(x, z) {
      TextLeqTransitive(x.0, y.0, z.0);
    }
  }

  function CanonicalEntry(entry: (string, Value)): (string, Value) { (entry.0, Canonical(entry.1)) }

  lemma {:induction false} CanonicalEntries(fields: Fields)
    ensures Entries(CanonicalFields(fields)) == Map(Entries(fields), CanonicalEntry)
  {
    if fields.Field? {
      CanonicalEntries(fields.rest);
      assert Entries(fields)[1..] == Entries(fields.rest);
    }
  }

  lemma {:induction false} EntriesOfFrom(entries: seq<(string, Value)>)
    ensures Entries(FromEntries(entries)) == entries
  {
    if entries != [] {
      EntriesOfFrom(entries[1..]);
    }
  }

  lemma {:induction false} FieldsAreTheirEntries(f: Fields, g: Fields)
    requires Entries(f) == Entries(g)
    ensures f == g
  {
    if f.Field? {
      assert g.Field? && Entries(f)[0] == Entries(g)[0];
      assert Entries(f)[1..] == Entries(f.rest) && Entries(g)[1..] == Entries(g.rest);
      FieldsAreTheirEntries(f.rest, g.rest);
    }
  }

  lemma {:induction false} CanonicalKeysStayDistinct(fields: Fields)
    requires DistinctKeys(fields)
    ensures Untied(Entries(CanonicalFields(fields)), KeyLeq)
  {
    var before, after := Entries(fields), Entries(CanonicalFields(fields));
    CanonicalEntries(fields);
    forall x, y | x in after && y in after && KeyLeq(x, y) && KeyLeq(y, x) ensures x == y {
      var i :| 0 <= i < |after| && after[i] == x;
      var j :| 0 <= j < |after| && after[j] == y;
      assert x == CanonicalEntry(before[i]) && y == CanonicalEntry(before[j]);
      assert before[i] in before && before[j] in before;
      assert KeyLeq(before[i], before[j]) && KeyLeq(before[j], before[i]);
    }
  }

  lemma {:induction false} DictText(f: Fields)
    ensures Dumps(Obj(f)) == Text(Obj(FromEntries(Sort(Entries(CanonicalFields(f)), KeyLeq))))
  {}

  /** The bytes do not depend on the order a dict was filled in. */
  lemma {:induction false} InsertionOrderDoesNotShow(f: Fields, g: Fields)
    requires DistinctKeys(f) && multiset(Entries(f)) == multiset(Entries(g))
    ensures Dumps(Obj(f)) == Dumps(Obj(g))
  {
    hide *;
    KeyOrder();
    CanonicalEntries(f);
    CanonicalEntries(g);
    MapKeepsBags(Entries(f), Entries(g), CanonicalEntry);
    CanonicalKeysStayDistinct(f);
    SortIsCanonical(Entries(CanonicalFields(f)), Entries(CanonicalFields(g)), KeyLeq);
    DictText(f);
    DictText(g);
  }

  ghost predicate DistinctThroughout(v: Value) {
    match v
    case Arr(items) => DistinctItems(items)
    case Obj(fields) => DistinctKeys(fields) && DistinctFields(fields)
    case _ => true
  }

  ghost predicate DistinctItems(items: Items) {
    items.Item? ==> DistinctThroughout(items.head) && DistinctItems(items.tail)
  }

  ghost predicate DistinctFields(fields: Fields) {
    fields.Field? ==> DistinctThroughout(fields.value) && DistinctFields(fields.rest)
  }

  lemma {:induction false} CanonicalTwice(v: Value)
    requires DistinctThroughout(v)
    ensures Canonical(Canonical(v)) == Canonical(v)
  {
    match v
    case Arr(items) => CanonicalItemsTwice(items);
    case Obj(fields) =>
      CanonicalFieldsTwice(fields);
      CanonicalDictTwice(fields);
    case _ =>
  }

  lemma {:induction false} CanonicalDictTwice(fields: Fields)
    requires DistinctKeys(fields)
    requires forall e :: e in Entries(CanonicalFields(fields)) ==> CanonicalEntry(e) == e
    ensures Canonical(Canonical(Obj(fields))) == Canonical(Obj(fields))
  {
    var entries := Entries(CanonicalFields(fields));
    var sorted := Sort(entries, KeyLeq);
    KeyOrder();
    CanonicalKeysStayDistinct(fields);
    SortIsSorted(entries, KeyLeq);
    SortIsCanonical(sorted, sorted, KeyLeq);
    EntriesOfFrom(sorted);
    CanonicalEntries(FromEntries(sorted));
    hide Map, Sort, Canonical, CanonicalFields, Entries, FromEntries;
    assert Map(sorted, CanonicalEntry) == sorted by {
      forall i | 0 <= i < |sorted| ensures CanonicalEntry(sorted[i]) == sorted[i] {
        assert sorted[i] in sorted;
      }
    }
    DictTwice(fields, sorted);
  }

  lemma {:induction false} DictTwice(fields: Fields, sorted: seq<(string, Value)>)
    requires sorted == Sort(Entries(CanonicalFields(fields)), KeyLeq) == Sort(sorted, KeyLeq)
    requires Entries(CanonicalFields(FromEntries(sorted))) == sorted
    ensures Canonical(Canonical(Obj(fields))) == Canonical(Obj(fields))
  {}

  lemma {:induction false} CanonicalItemsTwice(items: Items)
    requires DistinctItems(items)
    ensures CanonicalItems(CanonicalItems(items)) == CanonicalItems(items)
  {
    if items.Item? {
      CanonicalTwice(items.head);
      CanonicalItemsTwice(items.tail);
    }
  }

  lemma {:induction false} CanonicalFieldsTwice(fields: Fields)
    requires DistinctFields(fields)
    ensures forall e :: e in Entries(CanonicalFields(fields)) ==> CanonicalEntry(e) == e
  {
    if fields.Field? {
      CanonicalTwice(fields.value);
      CanonicalFieldsTwice(fields.rest);
    }
  }

  // --- Which characters printed text holds ---

  /** Where `str.splitlines` cuts. */
  predicate IsBreak(c: char) {
    10 <= c as int <= 13 || 0x1c <= c as int <= 0x1e || RawBreak(c)
  }

  /** The cuts JSON leaves raw inside a string. */
  predicate RawBreak(c: char) { c as int == 0x85 || c as int == 0x2028 || c as int == 0x2029 }

  ghost predicate HoldsRawBreak(v: Value) {
    match v
    case Str(s) => exists c :: c in s && RawBreak(c)
    case Arr(items) => ItemsHoldRawBreak(items)
    case Obj(fields) => FieldsHoldRawBreak(fields)
    case _ => false
  }

  ghost predicate ItemsHoldRawBreak(items: Items) {
    items.Item? && (HoldsRawBreak(items.head) || ItemsHoldRawBreak(items.tail))
  }

  ghost predicate FieldsHoldRawBreak(fields: Fields) {
    fields.Field?
    && ((exists c :: c in fields.key && RawBreak(c)) || HoldsRawBreak(fields.value) || FieldsHoldRawBreak(fields.rest))
  }

  ghost predicate HasBreak(s: string) { exists c :: c in s && IsBreak(c) }

  lemma {:induction false} BreaksConcat(s: string, t: string)
    ensures HasBreak(s + t) <==> HasBreak(s) || HasBreak(t)
  {}

  lemma {:induction false} QuotedBreaks(s: string)
    ensures HasBreak(Escaped(s)) <==> exists c :: c in s && RawBreak(c)
    ensures HasBreak(Quoted(s)) <==> exists c :: c in s && RawBreak(c)
  {
    if s != "" {
      var c := s[0];
      QuotedBreaks(s[1..]);
      BreaksConcat(Escape(c), Escaped(s[1..]));
      assert s == [c] + s[1..];
      EscapeBreaks(c);
      assert (exists d :: d in s && RawBreak(d)) <==> RawBreak(c) || (exists d :: d in s[1..] && RawBreak(d));
    }
    BreaksConcat("\"", Escaped(s));
    BreaksConcat("\"" + Escaped(s), "\"");
  }

  lemma {:induction false} EscapeBreaks(c: char)
    ensures HasBreak(Escape(c)) <==> RawBreak(c)
  {
    if |Escape(c)| == 1 {
      assert c in Escape(c);
    } else if |Escape(c)| == 6 {
      forall d | d in Escape(c) ensures !IsBreak(d) {
        assert d in ['\\', 'u', '0', '0', HexDigit(c as int / 16), HexDigit(c as int % 16)];
      }
    }
  }

  lemma {:induction false} NumberBreaks(literal: string)
    requires TakeNumber(literal) == literal
    ensures !HasBreak(literal)
  {}

  /** Printed text holds a line break exactly where a string holds a raw one:
      every break below U+0020 is escaped. */
  lemma {:induction false} TextBreaks(v: Value)
    requires WellFormed(v)
    ensures HasBreak(Text(v)) <==> HoldsRawBreak(v)
    decreases v, 1
  {
    hide Escaped, IsNumber, TakeNumber;
    match v
    case Number(literal) =>
      NumbersAreNumberChars(literal);
      NumberBreaks(literal);
    case Str(s) => QuotedBreaks(s);
    case Arr(items) =>
      ItemsTextBreaks(items);
      BreaksConcat("[", ItemsText(items));
      BreaksConcat("[" + ItemsText(items), "]");
    case Obj(fields) =>
      FieldsTextBreaks(fields);
      BreaksConcat("{", FieldsText(fields));
      BreaksConcat("{" + FieldsText(fields), "}");
    case _ =>
  }

  lemma {:induction false} ItemsTextBreaks(items: Items)
    requires WellFormedItems(items)
    ensures HasBreak(ItemsText(items)) <==> ItemsHoldRawBreak(items)
    decreases items, 2
  {
    if items.Item? {
      TextBreaks(items.head);
      ItemsTextBreaks(items.tail);
      BreaksConcat(Text(items.head), ",");
      BreaksConcat(Text(items.head) + ",", ItemsText(items.tail));
    }
  }

  lemma {:induction false} FieldsTextBreaks(fields: Fields)
    requires WellFormedFields(fields)
    ensures HasBreak(FieldsText(fields)) <==> FieldsHoldRawBreak(fields)
    decreases fields, 0
  {
    if fields.Field? {
      var Field(key, value, rest) := fields;
      QuotedBreaks(key);
      TextBreaks(value);
      FieldsTextBreaks(rest);
      BreaksConcat(Quoted(key), ":");
      BreaksConcat(Quoted(key) + ":", Text(value));
      BreaksConcat(Quoted(key) + ":" + Text(value), ",");
      BreaksConcat(Quoted(key) + ":" + Text(value) + ",", FieldsText(rest));
    }
  }

  // --- Sorting keys changes none of it ---

  lemma {:induction false} CanonicalKeepsSense(v: Value)
    ensures WellFormed(Canonical(v)) <==> WellFormed(v)
    ensures HoldsRawBreak(Canonical(v)) <==> HoldsRawBreak(v)
  {
    match v
    case Arr(items) => CanonicalItemsKeepSense(items);
    case Obj(fields) =>
      CanonicalFieldsKeepSense(fields);
      SortingKeepsSense(CanonicalFields(fields));
    case _ =>
  }

  lemma {:induction false} SortingKeepsSense(fields: Fields)
    ensures var sorted := FromEntries(Sort(Entries(fields), KeyLeq));
            && (WellFormedFields(sorted) <==> WellFormedFields(fields))
            && (FieldsHoldRawBreak(sorted) <==> FieldsHoldRawBreak(fields))
  {
    hide WellFormedFields, FieldsHoldRawBreak, Sort, Entries, FromEntries, EntryHoldsRawBreak, WellFormed;
    KeyOrder();
    SortIsSorted(Entries(fields), KeyLeq);
    EntriesOfFrom(Sort(Entries(fields), KeyLeq));
    FieldsSense(fields);
    FieldsSense(FromEntries(Sort(Entries(fields), KeyLeq)));
  }

  lemma {:induction false} CanonicalItemsKeepSense(items: Items)
    ensures WellFormedItems(CanonicalItems(items)) <==> WellFormedItems(items)
    ensures ItemsHoldRawBreak(CanonicalItems(items)) <==> ItemsHoldRawBreak(items)
  {
    if items.Item? {
      CanonicalKeepsSense(items.head);
      CanonicalItemsKeepSense(items.tail);
    }
  }

  lemma {:induction false} CanonicalFieldsKeepSense(fields: Fields)
    ensures WellFormedFields(CanonicalFields(fields)) <==> WellFormedFields(fields)
    ensures FieldsHoldRawBreak(CanonicalFields(fields)) <==> FieldsHoldRawBreak(fields)
  {
    if fields.Field? {
      CanonicalKeepsSense(fields.value);
      CanonicalFieldsKeepSense(fields.rest);
    }
  }

  ghost predicate EntryHoldsRawBreak(e: (string, Value)) {
    (exists c :: c in e.0 && RawBreak(c)) || HoldsRawBreak(e.1)
  }

  lemma {:induction false} FieldsSense(fields: Fields)
    ensures WellFormedFields(fields) <==> forall e :: e in Entries(fields) ==> WellFormed(e.1)
    ensures FieldsHoldRawBreak(fields) <==> exists e :: e in Entries(fields) && EntryHoldsRawBreak(e)
  {
    if fields.Field? {
      var first := (fields.key, fields.value);
      FieldsSense(fields.rest);
      assert Entries(fields) == [first] + Entries(fields.rest);
      assert first in Entries(fields);
      assert forall e :: e in Entries(fields) <==> e == first || e in Entries(fields.rest);
    }
  }
}
